/** The set of trusted operators (src/valiss/keyring.py).

    `Construct` is the source's loop. `Build` is the same admission rule as a
    fold, and `Admissible` says, without any order, when it succeeds. */
module Keyring {
  import opened Errors
  import opened Token

  /** Trusted operators by key and epoch. */
  type Ring = map<(string, nat), OperatorClaims>

  function Key(c: OperatorClaims): (string, nat) {
    (c.base.subject, c.epoch)
  }

  /** The claims of a valid self-signed operator token. */
  function Claimed(env: Env, tok: string): Result<OperatorClaims> {
    var issuer :- IssuerOf(env, tok);
    VerifyOperator(env, tok, issuer)
  }

  // ---- the admission rule ------------------------------------------------------

  datatype State = State(entries: Ring, names: map<string, string>, ids: set<string>)

  const EMPTY := State(map[], map[], {})

  predicate Disagrees(entries: Ring, c: OperatorClaims) {
    exists k :: k in entries && k.0 == c.base.subject && entries[k].name != c.name
  }

  function Admit(st: State, c: OperatorClaims): Result<State> {
    if c.base.id in st.ids then Ok(st)
    else if Key(c) in st.entries then Err(Unclassified)
    else if c.name in st.names && st.names[c.name] != c.base.subject then Err(Unclassified)
    else if Disagrees(st.entries, c) then Err(Unclassified)
    else Ok(State(st.entries[Key(c) := c], st.names[c.name := c.base.subject], st.ids + {c.base.id}))
  }

  function AdmitAll(env: Env, st: State, tokens: seq<string>): Result<State>
    decreases |tokens|
  {
    if tokens == [] then Ok(st)
    else
      var c :- Claimed(env, tokens[0]);
      var st' :- Admit(st, c);
      AdmitAll(env, st', tokens[1..])
  }

  function Build(env: Env, tokens: seq<string>): Result<Ring> {
    var st :- AdmitAll(env, EMPTY, tokens);
    if st.entries == map[] then Err(Unclassified) else Ok(st.entries)
  }

  method Construct(env: Env, tokens: seq<string>) returns (r: Result<Ring>)
    ensures r == Build(env, tokens)
  {
    hide IssuerOf, VerifyOperator;
    var entries: Ring := map[];
    var order: seq<(string, nat)> := [];
    var names: map<string, string> := map[];
    var ids: set<string> := {};
    for i := 0 to |tokens|
      invariant forall k :: k in entries <==> k in order
      invariant AdmitAll(env, EMPTY, tokens)
             == AdmitAll(env, State(entries, names, ids), tokens[i..])
    {
      var issuer := IssuerOf(env, tokens[i]);
      if issuer.Err? { return Err(issuer.reason); }
      var claims := VerifyOperator(env, tokens[i], issuer.value);
      if claims.Err? { return Err(claims.reason); }
      var c := claims.value;
      if c.base.id in ids {
        continue;
      }
      if Key(c) in entries { return Err(Unclassified); }
      if c.name in names && names[c.name] != c.base.subject { return Err(Unclassified); }
      for j := 0 to |order|
        invariant forall m :: 0 <= m < j ==>
                    !(order[m].0 == c.base.subject && entries[order[m]].name != c.name)
      {
        if order[j].0 == c.base.subject && entries[order[j]].name != c.name {
          assert order[j] in entries;
          return Err(Unclassified);
        }
      }
      assert !Disagrees(entries, c);
      entries := entries[Key(c) := c];
      order := order + [Key(c)];
      names := names[c.name := c.base.subject];
      ids := ids + {c.base.id};
    }
    if entries == map[] { return Err(Unclassified); }
    return Ok(entries);
  }

  // ---- what construction accepts, in no order ------------------------------------

  /** Distinct tokens coexist when they hold different slots and share a name
      exactly when they share a subject. */
  predicate Compatible(a: OperatorClaims, b: OperatorClaims) {
    Key(a) != Key(b) && (a.name == b.name <==> a.base.subject == b.base.subject)
  }

  ghost predicate AllValid(env: Env, tokens: seq<string>) {
    forall t :: t in tokens ==> Claimed(env, t).Ok?
  }

  /** The claims of a list of valid tokens. */
  function ClaimsIn(env: Env, tokens: seq<string>): (cs: seq<OperatorClaims>)
    requires AllValid(env, tokens)
    ensures |cs| == |tokens| && forall i :: 0 <= i < |cs| ==> cs[i] == Claimed(env, tokens[i]).value
  {
    seq(|tokens|, i requires 0 <= i < |tokens| => Claimed(env, tokens[i]).value)
  }

  ghost function Elements(cs: seq<OperatorClaims>): set<OperatorClaims> {
    set c | c in cs
  }

  /** Token ids are content hashes: equal id, equal claims. */
  ghost predicate IdsAgree(cs: set<OperatorClaims>) {
    forall a, b :: a in cs && b in cs && a.base.id == b.base.id ==> a == b
  }

  ghost predicate Consistent(cs: set<OperatorClaims>) {
    forall a, b :: a in cs && b in cs && a != b ==> Compatible(a, b)
  }

  /** The ring holds every claim in its slot, and nothing else. */
  ghost predicate IsRingOf(cs: set<OperatorClaims>, ring: Ring) {
    && (forall c :: c in cs ==> Key(c) in ring && ring[Key(c)] == c)
    && (forall k :: k in ring ==> ring[k] in cs && Key(ring[k]) == k)
  }

  ghost predicate Admissible(env: Env, tokens: seq<string>) {
    tokens != [] && AllValid(env, tokens) && Consistent(Kept(env, tokens))
  }

  function AdmitClaims(st: State, cs: seq<OperatorClaims>): Result<State>
    decreases |cs|
  {
    if cs == [] then Ok(st)
    else
      var st' :- Admit(st, cs[0]);
      AdmitClaims(st', cs[1..])
  }

  ghost predicate NamesOf(cs: set<OperatorClaims>, names: map<string, string>) {
    && (forall c :: c in cs ==> c.name in names && names[c.name] == c.base.subject)
    && (forall n :: n in names ==> exists c :: c in cs && c.name == n)
  }

  ghost predicate IdsOf(cs: set<OperatorClaims>, ids: set<string>) {
    && (forall c :: c in cs ==> c.base.id in ids)
    && (forall d :: d in ids ==> exists c :: c in cs && c.base.id == d)
  }

  /** The state once the claims cs are admitted. */
  ghost predicate Admitted(cs: set<OperatorClaims>, st: State) {
    Consistent(cs) && IsRingOf(cs, st.entries) && NamesOf(cs, st.names) && IdsOf(cs, st.ids)
  }

  lemma Incompatible(cs: set<OperatorClaims>, a: OperatorClaims, b: OperatorClaims)
    requires a in cs && b in cs && a != b && !Compatible(a, b)
    ensures !Consistent(cs)
  {
  }

  /** Whatever stops a new claim, an admitted one stands against it. */
  lemma Refused(cs: set<OperatorClaims>, st: State, c: OperatorClaims) returns (a: OperatorClaims)
    requires IsRingOf(cs, st.entries) && NamesOf(cs, st.names) && IdsOf(cs, st.ids)
    requires Admit(st, c).Err?
    ensures a in cs && a != c && !Compatible(a, c)
  {
    hide IsRingOf, NamesOf, IdsOf, Disagrees, Key;
    IdKnown(cs, st.ids, c);
    if Key(c) in st.entries {
      a := Slot(cs, st.entries, Key(c));
    } else if c.name in st.names && st.names[c.name] != c.base.subject {
      a := Named(cs, st.names, c.name);
    } else {
      a := Disagreeing(cs, st.entries, c);
    }
  }

  lemma IdKnown(cs: set<OperatorClaims>, ids: set<string>, c: OperatorClaims)
    requires IdsOf(cs, ids)
    ensures c in cs ==> c.base.id in ids
  {
  }

  lemma Slot(cs: set<OperatorClaims>, entries: Ring, k: (string, nat)) returns (a: OperatorClaims)
    requires IsRingOf(cs, entries) && k in entries
    ensures a in cs && Key(a) == k
  {
    a := entries[k];
  }

  lemma Named(cs: set<OperatorClaims>, names: map<string, string>, n: string) returns (a: OperatorClaims)
    requires NamesOf(cs, names) && n in names
    ensures a in cs && a.name == n && names[n] == a.base.subject
  {
    a :| a in cs && a.name == n;
  }

  lemma Disagreeing(cs: set<OperatorClaims>, entries: Ring, c: OperatorClaims) returns (a: OperatorClaims)
    requires IsRingOf(cs, entries) && Disagrees(entries, c)
    ensures a in cs && a.base.subject == c.base.subject && a.name != c.name
  {
    var k :| k in entries && k.0 == c.base.subject && entries[k].name != c.name;
    a := entries[k];
    assert Key(a) == k;
  }

  /** Nothing already admitted stands against a claim the rule lets in. */
  lemma LetIn(cs: set<OperatorClaims>, entries: Ring, names: map<string, string>, c: OperatorClaims, a: OperatorClaims)
    requires IsRingOf(cs, entries) && NamesOf(cs, names) && a in cs
    requires Key(c) !in entries && (c.name in names ==> names[c.name] == c.base.subject)
    requires !Disagrees(entries, c)
    ensures Compatible(a, c) && Compatible(c, a)
  {
  }

  lemma ExtendConsistent(cs: set<OperatorClaims>, c: OperatorClaims)
    requires Consistent(cs)
    requires forall a :: a in cs ==> Compatible(a, c) && Compatible(c, a)
    ensures Consistent(cs + {c})
  {
  }

  lemma ExtendRing(cs: set<OperatorClaims>, r: Ring, c: OperatorClaims)
    requires IsRingOf(cs, r) && Key(c) !in r
    ensures IsRingOf(cs + {c}, r[Key(c) := c])
  {
  }

  lemma ExtendNames(cs: set<OperatorClaims>, names: map<string, string>, c: OperatorClaims)
    requires NamesOf(cs, names) && (c.name in names ==> names[c.name] == c.base.subject)
    ensures NamesOf(cs + {c}, names[c.name := c.base.subject])
  {
  }

  lemma ExtendIds(cs: set<OperatorClaims>, ids: set<string>, c: OperatorClaims)
    requires IdsOf(cs, ids)
    ensures IdsOf(cs + {c}, ids + {c.base.id})
  {
  }

  /** A claim is admitted exactly when its id is known, and then changes nothing, or it
      is consistent with those before it. */
  lemma AdmitStep(cs: set<OperatorClaims>, st: State, c: OperatorClaims)
    requires Admitted(cs, st)
    ensures Admit(st, c).Ok? <==> c.base.id in st.ids || Consistent(cs + {c})
    ensures Admit(st, c).Ok? ==>
              if c.base.id in st.ids then Admit(st, c).value == st
              else Admitted(cs + {c}, Admit(st, c).value) && Admit(st, c).value.ids == st.ids + {c.base.id}
  {
    hide Consistent, IsRingOf, NamesOf, IdsOf, Disagrees, Compatible, Key;
    if c.base.id in st.ids {
    } else if Admit(st, c).Err? {
      var a := Refused(cs, st, c);
      Incompatible(cs + {c}, a, c);
    } else {
      forall a | a in cs ensures Compatible(a, c) && Compatible(c, a) {
        LetIn(cs, st.entries, st.names, c, a);
      }
      ExtendConsistent(cs, c);
      ExtendRing(cs, st.entries, c);
      ExtendNames(cs, st.names, c);
      ExtendIds(cs, st.ids, c);
    }
  }

  lemma AdmittedConsistent(cs: set<OperatorClaims>, st: State)
    requires Admitted(cs, st)
    ensures Consistent(cs)
  {
  }

  lemma ElementsCons(cs: set<OperatorClaims>, rest: seq<OperatorClaims>)
    ensures rest == [] ==> cs + Elements(rest) == cs
    ensures rest != [] ==> cs + Elements(rest) == (cs + {rest[0]}) + Elements(rest[1..])
                           && cs + {rest[0]} <= cs + Elements(rest)
  {
  }

  lemma ConsistentSubset(cs: set<OperatorClaims>, ds: set<OperatorClaims>)
    requires cs <= ds
    ensures Consistent(ds) ==> Consistent(cs)
  {
  }

  /** The claims whose id is not among the given ones and was not seen earlier: a token
      with a known id is taken for the same token, unread. */
  function FirstById(ids: set<string>, cs: seq<OperatorClaims>): seq<OperatorClaims>
    decreases |cs|
  {
    if cs == [] then []
    else if cs[0].base.id in ids then FirstById(ids, cs[1..])
    else [cs[0]] + FirstById(ids + {cs[0].base.id}, cs[1..])
  }

  lemma {:induction false} AdmitRun(cs: set<OperatorClaims>, st: State, rest: seq<OperatorClaims>)
    requires Admitted(cs, st)
    ensures var all := cs + Elements(FirstById(st.ids, rest));
            && (AdmitClaims(st, rest).Ok? <==> Consistent(all))
            && (AdmitClaims(st, rest).Ok? ==> Admitted(all, AdmitClaims(st, rest).value))
    decreases |rest|
  {
    hide Consistent, Admitted, Elements, Admit;
    var kept := FirstById(st.ids, rest);
    ElementsCons(cs, kept);
    AdmittedConsistent(cs, st);
    if rest != [] {
      var c, tail := rest[0], rest[1..];
      AdmitStep(cs, st, c);
      if c.base.id in st.ids {
        AdmitRun(cs, st, tail);
      } else {
        assert kept[0] == c && kept[1..] == FirstById(st.ids + {c.base.id}, tail);
        ConsistentSubset(cs + {c}, cs + Elements(kept));
        if Admit(st, c).Ok? { AdmitRun(cs + {c}, Admit(st, c).value, tail); }
      }
    }
  }

  lemma {:induction false} AdmitAllValid(env: Env, st: State, tokens: seq<string>)
    ensures AdmitAll(env, st, tokens).Ok? ==> AllValid(env, tokens)
    ensures AllValid(env, tokens) ==> AdmitAll(env, st, tokens) == AdmitClaims(st, ClaimsIn(env, tokens))
    decreases |tokens|
  {
    if tokens != [] {
      var t, tail := tokens[0], tokens[1..];
      assert tokens == [t] + tail;
      if Claimed(env, t).Ok? && Admit(st, Claimed(env, t).value).Ok? {
        AdmitAllValid(env, Admit(st, Claimed(env, t).value).value, tail);
      }
      if AllValid(env, tokens) {
        assert forall x :: x in tail ==> x in tokens;
        assert ClaimsIn(env, tokens)[1..] == ClaimsIn(env, tail);
      }
    }
  }

  ghost predicate IdsHonest(env: Env, tokens: seq<string>) {
    AllValid(env, tokens) ==> IdsAgree(Elements(ClaimsIn(env, tokens)))
  }

  /** The claims construction reads: the first of each id. */
  ghost function Kept(env: Env, tokens: seq<string>): set<OperatorClaims>
    requires AllValid(env, tokens)
  {
    Elements(FirstById({}, ClaimsIn(env, tokens)))
  }

  /** Construction succeeds exactly on admissible token lists, and the ring then
      holds exactly the claims that were read. */
  lemma BuildCharacterised(env: Env, tokens: seq<string>)
    ensures Build(env, tokens).Ok? <==> Admissible(env, tokens)
    ensures Build(env, tokens).Ok? ==> IsRingOf(Kept(env, tokens), Build(env, tokens).value)
  {
    hide AdmitAll, AdmitClaims, Claimed, FirstById, Admitted, Consistent, IsRingOf, Elements;
    AdmitAllValid(env, EMPTY, tokens);
    if AllValid(env, tokens) {
      var cs := ClaimsIn(env, tokens);
      var kept := Elements(FirstById({}, cs));
      NothingAdmitted();
      assert {} + kept == kept;
      AdmitRun({}, EMPTY, cs);
      if AdmitClaims(EMPTY, cs).Ok? {
        var st := AdmitClaims(EMPTY, cs).value;
        AdmittedRing(kept, st);
        if cs == [] {
          AdmitNone();
        } else {
          FirstKept(cs);
          SlotTaken(kept, st.entries, cs[0]);
        }
      }
    }
  }

  lemma NothingAdmitted()
    ensures Admitted({}, EMPTY)
  {
  }

  lemma AdmittedRing(cs: set<OperatorClaims>, st: State)
    requires Admitted(cs, st)
    ensures IsRingOf(cs, st.entries)
  {
  }

  lemma SlotTaken(cs: set<OperatorClaims>, entries: Ring, c: OperatorClaims)
    requires IsRingOf(cs, entries) && c in cs
    ensures Key(c) in entries && entries[Key(c)] == c
  {
  }

  lemma FirstKept(cs: seq<OperatorClaims>)
    requires cs != []
    ensures cs[0] in Elements(FirstById({}, cs))
  {
    assert FirstById({}, cs)[0] == cs[0];
  }

  lemma {:induction false} KeptFrom(ids: set<string>, cs: seq<OperatorClaims>, c: OperatorClaims)
    requires c in FirstById(ids, cs)
    ensures c in cs && c.base.id !in ids
    decreases |cs|
  {
    var ids' := ids + {cs[0].base.id};
    assert cs == [cs[0]] + cs[1..];
    if cs[0].base.id in ids {
      KeptFrom(ids, cs[1..], c);
    } else if c in FirstById(ids', cs[1..]) {
      KeptFrom(ids', cs[1..], c);
    }
  }

  /** One claim of each new id is kept. */
  lemma {:induction false} KeptFor(ids: set<string>, cs: seq<OperatorClaims>, c: OperatorClaims)
    returns (d: OperatorClaims)
    requires c in cs && c.base.id !in ids
    ensures d in FirstById(ids, cs) && d.base.id == c.base.id
    decreases |cs|
  {
    var ids' := ids + {cs[0].base.id};
    assert cs == [cs[0]] + cs[1..];
    if cs[0].base.id in ids {
      d := KeptFor(ids, cs[1..], c);
    } else if cs[0].base.id == c.base.id {
      d := cs[0];
    } else {
      d := KeptFor(ids', cs[1..], c);
    }
  }

  /** And no two of the same. */
  lemma {:induction false} KeptOnce(ids: set<string>, cs: seq<OperatorClaims>, c: OperatorClaims, d: OperatorClaims)
    requires c in FirstById(ids, cs) && d in FirstById(ids, cs) && c.base.id == d.base.id
    ensures c == d
    decreases |cs|
  {
    var ids' := ids + {cs[0].base.id};
    if cs[0].base.id in ids {
      KeptOnce(ids, cs[1..], c, d);
    } else {
      var rest := FirstById(ids', cs[1..]);
      if c in rest { KeptFrom(ids', cs[1..], c); }
      if d in rest { KeptFrom(ids', cs[1..], d); }
      if c in rest && d in rest { KeptOnce(ids', cs[1..], c, d); }
    }
  }

  /** When equal ids mean equal claims, nothing goes unread. */
  lemma AllKept(env: Env, tokens: seq<string>)
    requires AllValid(env, tokens) && IdsHonest(env, tokens)
    ensures Kept(env, tokens) == Elements(ClaimsIn(env, tokens))
  {
    hide Claimed, FirstById;
    var cs := ClaimsIn(env, tokens);
    forall c | c in Elements(cs) ensures c in Kept(env, tokens) {
      var d := KeptFor({}, cs, c);
      KeptFrom({}, cs, d);
      assert d in Elements(cs);
    }
    forall c | c in Kept(env, tokens) ensures c in Elements(cs) {
      KeptFrom({}, cs, c);
    }
  }

  lemma AdmitNone()
    ensures AdmitClaims(EMPTY, []) == Ok(EMPTY)
  {
  }

  lemma RingUnique(cs: set<OperatorClaims>, r: Ring, s: Ring)
    requires IsRingOf(cs, r) && IsRingOf(cs, s)
    ensures r == s
  {
  }

  ghost predicate SameTokens(a: seq<string>, b: seq<string>) {
    forall t :: t in a <==> t in b
  }

  /** Neither the order of the tokens nor repeating them matters when equal ids mean
      equal claims. */
  lemma OrderIrrelevant(env: Env, a: seq<string>, b: seq<string>)
    requires SameTokens(a, b) && IdsHonest(env, a)
    ensures Build(env, a).Ok? <==> Build(env, b).Ok?
    ensures Build(env, a).Ok? ==> Build(env, b) == Build(env, a)
  {
    hide Build, Consistent, IdsAgree, Claimed, Kept;
    assert a == [] <==> b == [] by {
      if a != [] { assert a[0] in b; }
      if b != [] { assert b[0] in a; }
    }
    assert AllValid(env, a) <==> AllValid(env, b);
    if AllValid(env, a) {
      SameClaims(env, a, b);
      SameClaims(env, b, a);
      assert Elements(ClaimsIn(env, a)) == Elements(ClaimsIn(env, b));
      AllKept(env, a);
      AllKept(env, b);
    }
    BuildCharacterised(env, a);
    BuildCharacterised(env, b);
    if Build(env, a).Ok? {
      RingUnique(Kept(env, a), Build(env, a).value, Build(env, b).value);
    }
  }

  /** Both succeed with one ring, or neither does. */
  ghost predicate SameOutcome(x: Result<Ring>, y: Result<Ring>) {
    (x.Ok? <==> y.Ok?) && (x.Ok? ==> x == y)
  }

  /** Every list of the same tokens comes out alike. */
  ghost predicate OrderBlind(env: Env, a: seq<string>) {
    forall b :: SameTokens(a, b) ==> SameOutcome(Build(env, b), Build(env, a))
  }

  ghost predicate SomeOrderBuilds(env: Env, a: seq<string>) {
    exists b :: SameTokens(a, b) && Build(env, b).Ok?
  }

  /** Where two different tokens share an id, putting the one that was not read first
      changes the outcome. */
  lemma OrderShows(env: Env, a: seq<string>)
    requires Build(env, a).Ok? && !IdsHonest(env, a)
    ensures exists b :: SameTokens(a, b) && Build(env, b) != Build(env, a)
  {
    hide Build, Claimed, Consistent, FirstById, IsRingOf, Kept;
    BuildCharacterised(env, a);
    var z, w := Unread(env, a);
    var i :| 0 <= i < |ClaimsIn(env, a)| && ClaimsIn(env, a)[i] == w;
    var b := [a[i]] + a;
    assert forall t :: t in a <==> t in b;
    assert AllValid(env, b) && ClaimsIn(env, b)[0] == w;
    BuildCharacterised(env, b);
    ReadFirst(env, b);
    if Build(env, b).Ok? {
      DifferentRings(Kept(env, a), Build(env, a).value, Kept(env, b), Build(env, b).value, z, w);
    }
    assert SameTokens(a, b);
  }

  /** A claim that was read, and another of its id. */
  lemma Unread(env: Env, tokens: seq<string>) returns (z: OperatorClaims, w: OperatorClaims)
    requires AllValid(env, tokens) && !IdsHonest(env, tokens)
    ensures z in Kept(env, tokens) && w in ClaimsIn(env, tokens) && z != w && z.base.id == w.base.id
  {
    hide Claimed, FirstById;
    var cs := ClaimsIn(env, tokens);
    var x, y :| x in Elements(cs) && y in Elements(cs) && x.base.id == y.base.id && x != y;
    z := KeptFor({}, cs, x);
    w := if z == x then y else x;
  }

  /** The first token is always read, and no other of its id. */
  lemma ReadFirst(env: Env, tokens: seq<string>)
    requires AllValid(env, tokens) && tokens != []
    ensures var first := ClaimsIn(env, tokens)[0];
            first in Kept(env, tokens)
            && forall c :: c in Kept(env, tokens) && c.base.id == first.base.id ==> c == first
  {
    hide Claimed, FirstById;
    var cs := ClaimsIn(env, tokens);
    FirstKept(cs);
    forall c | c in Kept(env, tokens) && c.base.id == cs[0].base.id ensures c == cs[0] {
      KeptOnce({}, cs, c, cs[0]);
    }
  }

  lemma DifferentRings(cs: set<OperatorClaims>, r: Ring, ds: set<OperatorClaims>, s: Ring,
                       z: OperatorClaims, w: OperatorClaims)
    requires IsRingOf(cs, r) && IsRingOf(ds, s) && z in cs && z != w && z.base.id == w.base.id
    requires forall c :: c in ds && c.base.id == w.base.id ==> c == w
    ensures r != s
  {
    assert r[Key(z)] == z;
  }

  // ---- when some order builds -------------------------------------------------------

  /** One claim of each id. */
  ghost predicate IsChoice(env: Env, tokens: seq<string>, cs: set<OperatorClaims>)
    requires AllValid(env, tokens)
  {
    && cs <= Elements(ClaimsIn(env, tokens))
    && (forall c :: c in ClaimsIn(env, tokens) ==> exists d :: d in cs && d.base.id == c.base.id)
    && IdsAgree(cs)
  }

  ghost predicate ConsistentChoice(env: Env, tokens: seq<string>, cs: set<OperatorClaims>)
    requires AllValid(env, tokens)
  {
    IsChoice(env, tokens, cs) && Consistent(cs)
  }

  /** What is read is one claim of each id. */
  lemma KeptIsChoice(env: Env, tokens: seq<string>)
    requires AllValid(env, tokens)
    ensures IsChoice(env, tokens, Kept(env, tokens))
  {
    hide Claimed, FirstById;
    var cs := ClaimsIn(env, tokens);
    forall c | c in Kept(env, tokens) ensures c in Elements(cs) { KeptFrom({}, cs, c); }
    forall c | c in cs ensures exists d :: d in Kept(env, tokens) && d.base.id == c.base.id {
      var d := KeptFor({}, cs, c);
    }
    forall c, d | c in Kept(env, tokens) && d in Kept(env, tokens) && c.base.id == d.base.id ensures c == d {
      KeptOnce({}, cs, c, d);
    }
  }

  lemma SameChoices(env: Env, a: seq<string>, b: seq<string>, cs: set<OperatorClaims>)
    requires AllValid(env, a) && AllValid(env, b) && SameTokens(a, b) && IsChoice(env, b, cs)
    ensures IsChoice(env, a, cs)
  {
    hide Claimed;
    SameClaims(env, a, b);
    SameClaims(env, b, a);
    forall c | c in ClaimsIn(env, a) ensures exists d :: d in cs && d.base.id == c.base.id {
      assert c in Elements(ClaimsIn(env, a)) && c in Elements(ClaimsIn(env, b));
    }
  }

  /** The tokens whose claims are chosen, in order. */
  ghost function Chosen(env: Env, tokens: seq<string>, cs: set<OperatorClaims>): seq<string>
    requires AllValid(env, tokens)
  {
    if tokens == [] then []
    else
      assert forall t :: t in tokens[1..] ==> t in tokens;
      (if Claimed(env, tokens[0]).value in cs then [tokens[0]] else []) + Chosen(env, tokens[1..], cs)
  }

  lemma {:induction false} ChosenTokens(env: Env, tokens: seq<string>, cs: set<OperatorClaims>)
    requires AllValid(env, tokens)
    ensures forall t :: t in Chosen(env, tokens, cs) <==> t in tokens && Claimed(env, t).value in cs
  {
    hide Claimed;
    if tokens != [] {
      assert tokens == [tokens[0]] + tokens[1..];
      ChosenTokens(env, tokens[1..], cs);
    }
  }

  /** Nothing behind is read when every id behind came before. */
  lemma {:induction false} NothingMore(ids: set<string>, x: seq<OperatorClaims>, y: seq<OperatorClaims>)
    requires forall c :: c in y ==> c.base.id in ids || exists d :: d in x && d.base.id == c.base.id
    ensures FirstById(ids, x + y) == FirstById(ids, x)
    decreases |x| + |y|
  {
    if x != [] {
      var ids' := ids + {x[0].base.id};
      assert (x + y)[1..] == x[1..] + y;
      forall c | c in y && c.base.id !in ids' ensures exists d :: d in x[1..] && d.base.id == c.base.id {
        var d :| d in x && d.base.id == c.base.id;
        assert d in x[1..];
      }
      if x[0].base.id in ids {
        assert ids' == ids;
        NothingMore(ids, x[1..], y);
      } else {
        NothingMore(ids', x[1..], y);
      }
    } else {
      assert x + y == y;
      if y != [] {
        assert y[0] in y;
        assert [] + y[1..] == y[1..];
        NothingMore(ids, [], y[1..]);
      }
    }
  }

  /** Claims of one id each, put first, are what is read. */
  lemma FirstAreRead(xs: seq<OperatorClaims>, ys: seq<OperatorClaims>)
    requires IdsAgree(Elements(xs))
    requires forall c :: c in ys ==> exists d :: d in xs && d.base.id == c.base.id
    ensures Elements(FirstById({}, xs + ys)) == Elements(xs)
  {
    hide FirstById, IdsAgree;
    NothingMore({}, xs, ys);
    var kept := FirstById({}, xs);
    forall c | c in kept ensures c in xs { KeptFrom({}, xs, c); }
    forall c | c in xs ensures c in kept {
      var d := KeptFor({}, xs, c);
      KeptFrom({}, xs, d);
      SameIdSame(Elements(xs), c, d);
    }
  }

  /** Putting chosen tokens first makes them the ones that are read. */
  lemma ChosenFirst(env: Env, a: seq<string>, cs: set<OperatorClaims>) returns (b: seq<string>)
    requires AllValid(env, a) && IsChoice(env, a, cs)
    ensures SameTokens(a, b) && AllValid(env, b) && Kept(env, b) == cs && (a != [] ==> b != [])
  {
    hide Claimed, FirstById, IdsAgree, Chosen, AllValid, SameTokens, ClaimsIn, Elements, IsChoice, Kept;
    var x := Chosen(env, a, cs);
    ChosenTokens(env, a, cs);
    b := x + a;
    ClaimsInConcat(env, x, a);
    ChoiceFacts(env, a, cs, x);
    FirstAreRead(ClaimsIn(env, x), ClaimsIn(env, a));
    KeptOf(env, b);
  }

  lemma KeptOf(env: Env, tokens: seq<string>)
    requires AllValid(env, tokens)
    ensures Kept(env, tokens) == Elements(FirstById({}, ClaimsIn(env, tokens)))
  {
  }

  lemma ClaimsInConcat(env: Env, x: seq<string>, a: seq<string>)
    requires AllValid(env, a) && forall t :: t in x ==> t in a
    ensures AllValid(env, x) && AllValid(env, x + a) && SameTokens(a, x + a)
    ensures ClaimsIn(env, x + a) == ClaimsIn(env, x) + ClaimsIn(env, a)
  {
    hide Claimed;
  }

  lemma ChoiceFacts(env: Env, a: seq<string>, cs: set<OperatorClaims>, x: seq<string>)
    requires AllValid(env, a) && AllValid(env, x) && IsChoice(env, a, cs)
    requires forall t :: t in x <==> t in a && Claimed(env, t).value in cs
    ensures Elements(ClaimsIn(env, x)) == cs && IdsAgree(cs)
    ensures forall c :: c in ClaimsIn(env, a) ==> exists d :: d in ClaimsIn(env, x) && d.base.id == c.base.id
  {
    hide Claimed, IdsAgree;
    ChosenClaims(env, a, cs, x);
    forall c | c in ClaimsIn(env, a) ensures exists d :: d in ClaimsIn(env, x) && d.base.id == c.base.id {
      var d :| d in cs && d.base.id == c.base.id;
      assert d in Elements(ClaimsIn(env, x));
    }
  }

  lemma SameIdSame(cs: set<OperatorClaims>, c: OperatorClaims, d: OperatorClaims)
    requires IdsAgree(cs) && c in cs && d in cs && c.base.id == d.base.id
    ensures c == d
  {
  }

  lemma ChosenClaims(env: Env, a: seq<string>, cs: set<OperatorClaims>, x: seq<string>)
    requires AllValid(env, a) && AllValid(env, x) && cs <= Elements(ClaimsIn(env, a))
    requires forall t :: t in x <==> t in a && Claimed(env, t).value in cs
    ensures Elements(ClaimsIn(env, x)) == cs
  {
    hide Claimed;
    forall c | c in cs ensures c in ClaimsIn(env, x) {
      var i :| 0 <= i < |a| && ClaimsIn(env, a)[i] == c;
      assert a[i] in x;
      var j :| 0 <= j < |x| && x[j] == a[i];
      assert ClaimsIn(env, x)[j] == c;
    }
    forall c | c in ClaimsIn(env, x) ensures c in cs {
      var j :| 0 <= j < |x| && ClaimsIn(env, x)[j] == c;
      assert x[j] in x;
    }
  }

  /** Some order of the tokens builds exactly when there are any, all are valid, and some
      choice of one claim per id is consistent. */
  lemma SomeOrderBuildsExactly(env: Env, a: seq<string>)
    ensures SomeOrderBuilds(env, a)
       <==> a != [] && AllValid(env, a) && exists cs :: ConsistentChoice(env, a, cs)
  {
    hide Build, Claimed, Kept, Consistent, IsChoice;
    if SomeOrderBuilds(env, a) {
      var b :| SameTokens(a, b) && Build(env, b).Ok?;
      BuildCharacterised(env, b);
      assert b[0] in a;
      assert AllValid(env, a);
      KeptIsChoice(env, b);
      SameChoices(env, a, b, Kept(env, b));
      assert ConsistentChoice(env, a, Kept(env, b));
    } else if a != [] && AllValid(env, a) && exists cs :: ConsistentChoice(env, a, cs) {
      var cs :| ConsistentChoice(env, a, cs);
      var b := ChosenFirst(env, a, cs);
      BuildCharacterised(env, b);
      assert false;
    }
  }

  /** A token list comes out alike in every order and with every repetition exactly when
      equal ids among its tokens mean equal claims, or no order builds at all. */
  lemma OrderBlindExactly(env: Env, a: seq<string>)
    ensures OrderBlind(env, a) <==> IdsHonest(env, a) || !SomeOrderBuilds(env, a)
  {
    hide Build, IdsHonest;
    if IdsHonest(env, a) {
      forall b | SameTokens(a, b) ensures SameOutcome(Build(env, b), Build(env, a)) { OrderIrrelevant(env, a, b); }
    } else if SomeOrderBuilds(env, a) {
      var b :| SameTokens(a, b) && Build(env, b).Ok?;
      HonestAlike(env, a, b);
      OrderShows(env, b);
      var b' :| SameTokens(b, b') && Build(env, b') != Build(env, b);
      assert SameTokens(a, b');
    } else {
      assert SameTokens(a, a);
    }
  }

  lemma HonestAlike(env: Env, a: seq<string>, b: seq<string>)
    requires SameTokens(a, b)
    ensures IdsHonest(env, a) <==> IdsHonest(env, b)
  {
    hide Claimed, IdsAgree;
    assert AllValid(env, a) <==> AllValid(env, b);
    if AllValid(env, a) {
      SameClaims(env, a, b);
      SameClaims(env, b, a);
      assert Elements(ClaimsIn(env, a)) == Elements(ClaimsIn(env, b));
    }
  }

  lemma SameClaims(env: Env, a: seq<string>, b: seq<string>)
    requires AllValid(env, a) && AllValid(env, b) && forall t :: t in b ==> t in a
    ensures Elements(ClaimsIn(env, b)) <= Elements(ClaimsIn(env, a))
  {
    hide Claimed;
    forall c | c in ClaimsIn(env, b) ensures c in ClaimsIn(env, a) {
      var i :| 0 <= i < |b| && ClaimsIn(env, b)[i] == c;
      assert b[i] in b && b[i] in a;
      var j :| 0 <= j < |a| && a[j] == b[i];
      assert ClaimsIn(env, a)[j] == c;
    }
  }
}
