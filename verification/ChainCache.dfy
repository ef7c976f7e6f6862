/** The LRU cache of verified provenance chains (src/valiss/chain.py).

    `Lru` is the value of the source's ordered dictionary: uses append, so entries
    stand in order of last use and the head goes first when room is needed. The
    class at the end updates that value in place; the lemmas are about the value. */
module ChainCache {
  import opened Errors

  /** (account token, user token) */
  type Chain = (string, string)

  datatype Entry = Entry(key: string, chain: Chain)

  type Lru = seq<Entry>

  ghost predicate Distinct(l: Lru) {
    forall i, j :: 0 <= i < j < |l| ==> l[i].key != l[j].key
  }

  function Lookup(l: Lru, k: string): Option<Chain> {
    if l == [] then None
    else if l[0].key == k then Some(l[0].chain)
    else Lookup(l[1..], k)
  }

  function Remove(l: Lru, k: string): Lru {
    if l == [] then []
    else if l[0].key == k then Remove(l[1..], k)
    else [l[0]] + Remove(l[1..], k)
  }

  /** The cache after a lookup: a hit becomes the freshest entry. */
  function Touch(l: Lru, k: string): Lru {
    match Lookup(l, k)
    case None => l
    case Some(c) => Remove(l, k) + [Entry(k, c)]
  }

  /** Where a store puts its entry: the cache without the old entry for the key,
      or without its front entry when a new key finds the cache full. */
  function Room(l: Lru, cap: nat, k: string): Lru
    requires cap >= 1
  {
    if Lookup(l, k).Some? then Remove(l, k) else if |l| >= cap then l[1..] else l
  }

  function Store(l: Lru, cap: nat, k: string, c: Chain): Lru
    requires cap >= 1
  {
    Room(l, cap, k) + [Entry(k, c)]
  }

  // ---- the dictionary reading of the value --------------------------------

  lemma {:induction false} LookupNone(l: Lru, k: string)
    ensures Lookup(l, k).None? <==> forall i :: 0 <= i < |l| ==> l[i].key != k
  {
    if l != [] {
      LookupNone(l[1..], k);
      if l[0].key != k && exists i :: 0 <= i < |l| && l[i].key == k {
        var i :| 0 <= i < |l| && l[i].key == k;
        assert l[1..][i - 1].key == k;
      }
    }
  }

  lemma {:induction false} LookupAt(l: Lru, i: nat)
    requires Distinct(l) && i < |l|
    ensures Lookup(l, l[i].key) == Some(l[i].chain)
  {
    if i > 0 {
      assert l[1..][i - 1] == l[i];
      LookupAt(l[1..], i - 1);
    }
  }

  lemma {:induction false} LookupFound(l: Lru, k: string) returns (i: nat)
    requires Lookup(l, k).Some?
    ensures i < |l| && l[i] == Entry(k, Lookup(l, k).value)
  {
    if l[0].key == k {
      i := 0;
    } else {
      i := LookupFound(l[1..], k);
      i := i + 1;
    }
  }

  lemma {:induction false} LookupRemove(l: Lru, k: string, j: string)
    ensures Lookup(Remove(l, k), j) == if j == k then None else Lookup(l, j)
    ensures |Remove(l, k)| <= |l|
    ensures Lookup(l, k).Some? ==> |Remove(l, k)| < |l|
  {
    if l != [] { LookupRemove(l[1..], k, j); }
  }

  lemma {:induction false} LookupAppend(l: Lru, e: Entry, j: string)
    ensures Lookup(l + [e], j)
         == if Lookup(l, j).Some? then Lookup(l, j) else if j == e.key then Some(e.chain) else None
  {
    if l == [] {
      assert l + [e] == [e];
    } else {
      assert (l + [e])[1..] == l[1..] + [e];
      LookupAppend(l[1..], e, j);
    }
  }

  lemma {:induction false} RemoveDistinct(l: Lru, k: string)
    requires Distinct(l)
    ensures Distinct(Remove(l, k))
  {
    if l != [] {
      var rest := Remove(l[1..], k);
      RemoveDistinct(l[1..], k);
      if l[0].key != k {
        LookupNone(l[1..], l[0].key);
        LookupRemove(l[1..], k, l[0].key);
        LookupNone(rest, l[0].key);
      }
    }
  }

  lemma DistinctAppend(l: Lru, k: string, c: Chain)
    requires Distinct(l) && Lookup(l, k).None?
    ensures Distinct(l + [Entry(k, c)])
  {
    LookupNone(l, k);
  }

  lemma LookupTail(l: Lru, j: string)
    requires Distinct(l) && l != []
    ensures Distinct(l[1..])
    ensures Lookup(l[1..], j) == if j == l[0].key then None else Lookup(l, j)
  {
    if j == l[0].key { LookupNone(l[1..], j); }
  }

  // ---- what the operations do to the dictionary ---------------------------

  ghost predicate WithinCap(l: Lru, cap: nat) {
    Distinct(l) && |l| <= cap
  }

  /** A lookup changes the order only. */
  lemma TouchSpec(l: Lru, cap: nat, k: string)
    requires WithinCap(l, cap)
    ensures WithinCap(Touch(l, k), cap)
    ensures forall j :: Lookup(Touch(l, k), j) == Lookup(l, j)
  {
    LookupRemove(l, k, k);
    RemoveDistinct(l, k);
    if Lookup(l, k).Some? {
      var e := Entry(k, Lookup(l, k).value);
      DistinctAppend(Remove(l, k), k, e.chain);
      forall j ensures Lookup(Touch(l, k), j) == Lookup(l, j) {
        LookupRemove(l, k, j);
        LookupAppend(Remove(l, k), e, j);
      }
    }
  }

  predicate Evicts(l: Lru, cap: nat, k: string, victim: string)
    requires cap >= 1
  {
    Lookup(l, k).None? && |l| >= cap && victim == l[0].key
  }

  lemma RoomSpec(l: Lru, cap: nat, k: string, j: string)
    requires WithinCap(l, cap) && cap >= 1
    ensures Distinct(Room(l, cap, k)) && |Room(l, cap, k)| < cap
    ensures Lookup(Room(l, cap, k), j)
         == if j == k || Evicts(l, cap, k, j) then None else Lookup(l, j)
  {
    LookupRemove(l, k, j);
    RemoveDistinct(l, k);
    if Lookup(l, k).None? && |l| >= cap { LookupTail(l, j); }
  }

  /** A store binds its key, binds nothing else anew, and drops at most the
      front entry, and that only when the key is new and the cache full. */
  lemma StoreSpec(l: Lru, cap: nat, k: string, c: Chain)
    requires WithinCap(l, cap) && cap >= 1
    ensures WithinCap(Store(l, cap, k, c), cap)
    ensures Lookup(Store(l, cap, k, c), k) == Some(c)
    ensures forall j :: j != k ==>
              Lookup(Store(l, cap, k, c), j) == if Evicts(l, cap, k, j) then None else Lookup(l, j)
  {
    var room := Room(l, cap, k);
    RoomSpec(l, cap, k, k);
    DistinctAppend(room, k, c);
    LookupAppend(room, Entry(k, c), k);
    forall j | j != k
      ensures Lookup(Store(l, cap, k, c), j) == if Evicts(l, cap, k, j) then None else Lookup(l, j)
    {
      RoomSpec(l, cap, k, j);
      LookupAppend(room, Entry(k, c), j);
    }
  }

  lemma RemoveSpec(l: Lru, cap: nat, k: string)
    requires WithinCap(l, cap)
    ensures WithinCap(Remove(l, k), cap)
    ensures forall j :: Lookup(Remove(l, k), j) == if j == k then None else Lookup(l, j)
  {
    RemoveDistinct(l, k);
    LookupRemove(l, k, k);
    forall j ensures Lookup(Remove(l, k), j) == if j == k then None else Lookup(l, j) {
      LookupRemove(l, k, j);
    }
  }

  // ---- traces --------------------------------------------------------------

  datatype Op = Get(key: string) | Put(key: string, chain: Chain) | Delete(key: string)

  function Apply(l: Lru, cap: nat, op: Op): Lru
    requires cap >= 1
  {
    match op
    case Get(k) => Touch(l, k)
    case Put(k, c) => Store(l, cap, k, c)
    case Delete(k) => Remove(l, k)
  }

  function ApplyIf(l: Lru, cap: nat, op: Option<Op>): Lru
    requires cap >= 1
  {
    match op case None => l case Some(o) => Apply(l, cap, o)
  }

  function Run(l: Lru, cap: nat, ops: seq<Op>): Lru
    requires cap >= 1
    decreases |ops|
  {
    if ops == [] then l else Run(Apply(l, cap, ops[0]), cap, ops[1..])
  }

  lemma ApplyValid(l: Lru, cap: nat, op: Op)
    requires WithinCap(l, cap) && cap >= 1
    ensures WithinCap(Apply(l, cap, op), cap)
  {
    match op
    case Get(k) => TouchSpec(l, cap, k);
    case Put(k, c) => StoreSpec(l, cap, k, c);
    case Delete(k) => RemoveSpec(l, cap, k);
  }

  lemma {:induction false} RunConcat(l: Lru, cap: nat, a: seq<Op>, b: seq<Op>)
    requires cap >= 1
    ensures Run(l, cap, a + b) == Run(Run(l, cap, a), cap, b)
    decreases |a|
  {
    if a == [] {
      assert a + b == b;
    } else {
      assert (a + b)[1..] == a[1..] + b;
      RunConcat(Apply(l, cap, a[0]), cap, a[1..], b);
    }
  }

  lemma {:induction false} RunValid(l: Lru, cap: nat, ops: seq<Op>)
    requires WithinCap(l, cap) && cap >= 1
    ensures WithinCap(Run(l, cap, ops), cap)
    decreases |ops|
  {
    if ops != [] {
      ApplyValid(l, cap, ops[0]);
      RunValid(Apply(l, cap, ops[0]), cap, ops[1..]);
    }
  }

  // ---- raising the cap never loses a hit ------------------------------------

  /** a can be obtained from b by dropping entries: same entries, same relative
      order. */
  predicate Embeds(a: Lru, b: Lru) {
    if a == [] then true
    else if b == [] then false
    else if a[0] == b[0] then Embeds(a[1..], b[1..])
    else Embeds(a, b[1..])
  }

  lemma {:induction false} EmbedsLookup(a: Lru, b: Lru, k: string)
    requires Embeds(a, b) && Distinct(b)
    ensures Lookup(a, k).Some? ==> Lookup(b, k) == Lookup(a, k)
    ensures |a| <= |b|
    decreases |b|
  {
    if a != [] {
      LookupTail(b, k);
      if a[0] == b[0] {
        EmbedsLookup(a[1..], b[1..], k);
      } else {
        EmbedsLookup(a, b[1..], k);
      }
    }
  }

  lemma {:induction false} EmbedsRemove(a: Lru, b: Lru, k: string)
    requires Embeds(a, b)
    ensures Embeds(Remove(a, k), Remove(b, k))
    decreases |b|
  {
    if a != [] {
      if a[0] == b[0] {
        EmbedsRemove(a[1..], b[1..], k);
      } else {
        EmbedsRemove(a, b[1..], k);
        if b[0].key != k { EmbedsSkip(Remove(a, k), b[0], Remove(b[1..], k)); }
      }
    }
  }

  lemma {:induction false} EmbedsSkip(a: Lru, e: Entry, b: Lru)
    requires Embeds(a, b)
    ensures Embeds(a, [e] + b)
    decreases |b|, 1
  {
    if a != [] && a[0] == e {
      assert ([e] + b)[1..] == b;
      EmbedsDrop(a, b);
    }
  }

  lemma {:induction false} EmbedsDrop(a: Lru, b: Lru)
    requires Embeds(a, b) && a != []
    ensures Embeds(a[1..], b)
    decreases |b|, 0
  {
    if a[0] == b[0] {
      EmbedsSkip(a[1..], b[0], b[1..]);
      assert b == [b[0]] + b[1..];
    } else {
      EmbedsDrop(a, b[1..]);
      EmbedsSkip(a[1..], b[0], b[1..]);
      assert b == [b[0]] + b[1..];
    }
  }

  lemma {:induction false} EmbedsAppend(a: Lru, b: Lru, e: Entry)
    requires Embeds(a, b)
    ensures Embeds(a + [e], b + [e])
    decreases |b|
  {
    if b == [] {
      assert a + [e] == [e] && b + [e] == [e];
    } else if a == [] {
      assert a + [e] == [e];
      EmbedsAppend(a, b[1..], e);
      EmbedsSkip([e], b[0], b[1..] + [e]);
      assert b + [e] == [b[0]] + (b[1..] + [e]);
    } else {
      assert (a + [e])[1..] == a[1..] + [e] && (b + [e])[1..] == b[1..] + [e];
      if a[0] == b[0] {
        EmbedsAppend(a[1..], b[1..], e);
      } else {
        EmbedsAppend(a, b[1..], e);
      }
    }
  }

  lemma {:induction false} EmbedsAppendRight(a: Lru, b: Lru, e: Entry)
    requires Embeds(a, b)
    ensures Embeds(a, b + [e])
    decreases |b|
  {
    if a != [] {
      assert (b + [e])[1..] == b[1..] + [e];
      if a[0] == b[0] {
        EmbedsAppendRight(a[1..], b[1..], e);
      } else {
        EmbedsAppendRight(a, b[1..], e);
      }
    }
  }

  lemma EmbedsTails(a: Lru, b: Lru)
    requires Embeds(a, b) && a != []
    ensures Embeds(a[1..], b[1..])
  {
    if a[0] != b[0] { EmbedsDrop(a, b[1..]); }
  }

  lemma {:induction false} RemoveSize(l: Lru, k: string)
    requires Distinct(l)
    ensures |Remove(l, k)| == if Lookup(l, k).Some? then |l| - 1 else |l|
    ensures Lookup(l, k).None? ==> Remove(l, k) == l
  {
    if l != [] {
      RemoveSize(l[1..], k);
      LookupTail(l, k);
    }
  }

  /** The n-cache a against the N-cache b. The size bound is what keeps the
      larger cache from evicting an entry the smaller one still has room for. */
  ghost predicate Included(a: Lru, n: nat, b: Lru, N: nat) {
    && 1 <= n <= N
    && WithinCap(a, n) && WithinCap(b, N)
    && Embeds(a, b)
    && |b| - |a| <= N - n
  }

  lemma TouchIncluded(a: Lru, n: nat, b: Lru, N: nat, k: string)
    requires Included(a, n, b, N)
    ensures Included(Touch(a, k), n, Touch(b, k), N)
  {
    TouchSpec(a, n, k);
    TouchSpec(b, N, k);
    RemoveSize(a, k);
    RemoveSize(b, k);
    EmbedsLookup(a, b, k);
    EmbedsRemove(a, b, k);
    if Lookup(b, k).Some? {
      var e := Entry(k, Lookup(b, k).value);
      EmbedsAppend(Remove(a, k), Remove(b, k), e);
      EmbedsAppendRight(Remove(a, k), Remove(b, k), e);
    }
  }

  lemma StoreIncluded(a: Lru, n: nat, b: Lru, N: nat, k: string, c: Chain)
    requires Included(a, n, b, N)
    ensures Included(Store(a, n, k, c), n, Store(b, N, k, c), N)
  {
    StoreSpec(a, n, k, c);
    StoreSpec(b, N, k, c);
    RemoveSize(a, k);
    RemoveSize(b, k);
    EmbedsLookup(a, b, k);
    EmbedsRemove(a, b, k);
    if Lookup(a, k).None? && |a| >= n {
      EmbedsDrop(a, if Lookup(b, k).Some? then Remove(b, k) else b);
      if Lookup(b, k).None? && |b| >= N { EmbedsTails(a, b); }
    }
    EmbedsAppend(Room(a, n, k), Room(b, N, k), Entry(k, c));
  }

  lemma RemoveIncluded(a: Lru, n: nat, b: Lru, N: nat, k: string)
    requires Included(a, n, b, N)
    ensures Included(Remove(a, k), n, Remove(b, k), N)
  {
    RemoveSpec(a, n, k);
    RemoveSpec(b, N, k);
    RemoveSize(a, k);
    RemoveSize(b, k);
    EmbedsLookup(a, b, k);
    EmbedsRemove(a, b, k);
  }

  /** On any trace the smaller cache stays inside the larger one, entry for
      entry and in the same recency order. */
  lemma {:induction false} RunIncluded(a: Lru, n: nat, b: Lru, N: nat, ops: seq<Op>)
    requires Included(a, n, b, N)
    ensures Included(Run(a, n, ops), n, Run(b, N, ops), N)
    decreases |ops|
  {
    if ops != [] {
      match ops[0] {
        case Get(k) => TouchIncluded(a, n, b, N, k);
        case Put(k, c) => StoreIncluded(a, n, b, N, k, c);
        case Delete(k) => RemoveIncluded(a, n, b, N, k);
      }
      RunIncluded(Apply(a, n, ops[0]), n, Apply(b, N, ops[0]), N, ops[1..]);
    }
  }

  /** So raising the cap never loses a hit nor changes what it answers. */
  lemma LargerCapKeepsHits(n: nat, N: nat, ops: seq<Op>, k: string)
    requires 1 <= n <= N
    requires Lookup(Run([], n, ops), k).Some?
    ensures Lookup(Run([], N, ops), k) == Lookup(Run([], n, ops), k)
  {
    RunIncluded([], n, [], N, ops);
    EmbedsLookup(Run([], n, ops), Run([], N, ops), k);
  }

  // ---- how long an entry survives -------------------------------------------

  ghost predicate KeysIn(l: Lru, ks: set<string>) {
    forall i :: 0 <= i < |l| ==> l[i].key in ks
  }

  /** k is bound to c, and everything fresher is among ks. */
  ghost predicate Guarded(l: Lru, k: string, c: Chain, ks: set<string>) {
    exists older, newer :: GuardedBy(l, k, c, ks, older, newer)
  }

  ghost predicate GuardedBy(l: Lru, k: string, c: Chain, ks: set<string>, older: Lru, newer: Lru) {
    l == older + [Entry(k, c)] + newer && KeysIn(newer, ks)
  }

  lemma {:induction false} RemoveConcat(a: Lru, b: Lru, k: string)
    ensures Remove(a + b, k) == Remove(a, k) + Remove(b, k)
  {
    if a == [] {
      assert a + b == b;
    } else {
      assert (a + b)[1..] == a[1..] + b;
      RemoveConcat(a[1..], b, k);
    }
  }

  lemma {:induction false} RemoveKeysIn(l: Lru, k: string, ks: set<string>)
    requires KeysIn(l, ks)
    ensures KeysIn(Remove(l, k), ks)
  {
    if l != [] { RemoveKeysIn(l[1..], k, ks); }
  }

  lemma RemoveGuarded(l: Lru, k: string, c: Chain, ks: set<string>, j: string)
    requires Guarded(l, k, c, ks) && j != k
    ensures Guarded(Remove(l, j), k, c, ks)
  {
    var older: Lru, newer: Lru :| GuardedBy(l, k, c, ks, older, newer);
    RemoveConcat(older + [Entry(k, c)], newer, j);
    RemoveConcat(older, [Entry(k, c)], j);
    RemoveKeysIn(newer, j, ks);
    assert Remove([Entry(k, c)], j) == [Entry(k, c)];
    assert GuardedBy(Remove(l, j), k, c, ks, Remove(older, j), Remove(newer, j));
  }

  lemma AppendGuarded(l: Lru, k: string, c: Chain, ks: set<string>, e: Entry)
    requires Guarded(l, k, c, ks) && e.key in ks
    ensures Guarded(l + [e], k, c, ks)
  {
    var older: Lru, newer: Lru :| GuardedBy(l, k, c, ks, older, newer);
    assert l + [e] == older + [Entry(k, c)] + (newer + [e]);
    assert GuardedBy(l + [e], k, c, ks, older, newer + [e]);
  }

  lemma FreshGuarded(l: Lru, k: string, c: Chain, ks: set<string>)
    ensures Guarded(l + [Entry(k, c)], k, c, ks)
  {
    assert l + [Entry(k, c)] + [] == l + [Entry(k, c)];
    assert GuardedBy(l + [Entry(k, c)], k, c, ks, l, []);
  }

  lemma GuardedLookup(l: Lru, k: string, c: Chain, ks: set<string>)
    requires Guarded(l, k, c, ks) && Distinct(l)
    ensures Lookup(l, k) == Some(c)
  {
    var older: Lru, newer: Lru :| GuardedBy(l, k, c, ks, older, newer);
    assert l[|older|] == Entry(k, c);
    LookupAt(l, |older|);
  }

  lemma {:induction false} DistinctCount(l: Lru, ks: set<string>)
    requires Distinct(l) && KeysIn(l, ks)
    ensures |l| <= |ks|
  {
    if l != [] {
      var rest := l[1..];
      assert KeysIn(rest, ks - {l[0].key}) by {
        forall i | 0 <= i < |rest| ensures rest[i].key in ks - {l[0].key} {
          assert rest[i] == l[i + 1];
        }
      }
      DistinctCount(rest, ks - {l[0].key});
    }
  }

  /** Fewer than cap keys in play cannot push k to the front of a full cache. */
  lemma EvictionGuarded(l: Lru, cap: nat, k: string, c: Chain, ks: set<string>, j: string)
    requires Guarded(l, k, c, ks) && WithinCap(l, cap) && |l| >= cap > |ks|
    requires j in ks && Lookup(l, j).None?
    ensures Guarded(l[1..], k, c, ks)
  {
    var older: Lru, newer: Lru :| GuardedBy(l, k, c, ks, older, newer);
    if older == [] {
      LookupNone(l, j);
      forall i | 0 <= i < |newer| ensures newer[i].key in ks - {j} {
        assert newer[i] == l[i + 1];
      }
      assert forall i, i' :: 0 <= i < i' < |newer| ==> newer[i] == l[i + 1] && newer[i'] == l[i' + 1];
      DistinctCount(newer, ks - {j});
      assert false;
    } else {
      assert l[1..] == older[1..] + [Entry(k, c)] + newer;
      assert GuardedBy(l[1..], k, c, ks, older[1..], newer);
    }
  }

  /** A step that neither drops nor rebinds k, and uses keys among ks. */
  predicate Harmless(op: Op, k: string, c: Chain, ks: set<string>) {
    match op
    case Get(j) => j == k || j in ks
    case Put(j, d) => if j == k then d == c else j in ks
    case Delete(j) => j != k
  }

  lemma ApplyGuarded(l: Lru, cap: nat, op: Op, k: string, c: Chain, ks: set<string>)
    requires Guarded(l, k, c, ks) && WithinCap(l, cap) && cap > |ks|
    requires Harmless(op, k, c, ks)
    ensures Guarded(Apply(l, cap, op), k, c, ks)
  {
    GuardedLookup(l, k, c, ks);
    match op
    case Get(j) =>
      if j == k {
        FreshGuarded(Remove(l, k), k, c, ks);
      } else if Lookup(l, j).Some? {
        RemoveGuarded(l, k, c, ks, j);
        AppendGuarded(Remove(l, j), k, c, ks, Entry(j, Lookup(l, j).value));
      }
    case Put(j, d) =>
      if j == k {
        FreshGuarded(Remove(l, k), k, c, ks);
      } else {
        if Lookup(l, j).Some? {
          RemoveGuarded(l, k, c, ks, j);
        } else if |l| >= cap {
          EvictionGuarded(l, cap, k, c, ks, j);
        }
        AppendGuarded(Room(l, cap, j), k, c, ks, Entry(j, d));
      }
    case Delete(j) => RemoveGuarded(l, k, c, ks, j);
  }

  lemma {:induction false} RunGuarded(l: Lru, cap: nat, ops: seq<Op>, k: string, c: Chain, ks: set<string>)
    requires Guarded(l, k, c, ks) && WithinCap(l, cap) && cap > |ks|
    requires forall i :: 0 <= i < |ops| ==> Harmless(ops[i], k, c, ks)
    ensures Lookup(Run(l, cap, ops), k) == Some(c)
    decreases |ops|
  {
    GuardedLookup(l, k, c, ks);
    if ops != [] {
      ApplyGuarded(l, cap, ops[0], k, c, ks);
      ApplyValid(l, cap, ops[0]);
      RunGuarded(Apply(l, cap, ops[0]), cap, ops[1..], k, c, ks);
    }
  }

  /** A stored chain is still there after any steps that do not delete or rebind
      it and between them use fewer than cap other keys. */
  lemma StoredSurvives(l: Lru, cap: nat, k: string, c: Chain, ops: seq<Op>, ks: set<string>)
    requires WithinCap(l, cap) && cap > |ks|
    requires forall i :: 0 <= i < |ops| ==> Harmless(ops[i], k, c, ks)
    ensures Lookup(Run(Store(l, cap, k, c), cap, ops), k) == Some(c)
  {
    StoreSpec(l, cap, k, c);
    FreshGuarded(Room(l, cap, k), k, c, ks);
    RunGuarded(Store(l, cap, k, c), cap, ops, k, c, ks);
  }

  // ---- the bound is tight -------------------------------------------------------

  /** The stores of distinct keys, in order. */
  ghost predicate Stores(ops: seq<Op>, es: Lru) {
    Distinct(es) && |ops| == |es| && forall i :: 0 <= i < |es| ==> ops[i] == Op.Put(es[i].key, es[i].chain)
  }

  lemma {:induction false} RemoveAbsent(l: Lru, k: string)
    requires Lookup(l, k).None?
    ensures Remove(l, k) == l
  {
    if l != [] { RemoveAbsent(l[1..], k); }
  }

  /** A store of a new key behind the latest ones keeps them at the fresh end. */
  lemma StoreBehind(l: Lru, older: Lru, newer: Lru, cap: nat, k: string, c: Chain) returns (kept: Lru)
    requires l == older + newer && |l| <= cap && |newer| < cap && Lookup(newer, k).None?
    ensures Store(l, cap, k, c) == kept + (newer + [Entry(k, c)])
  {
    RemoveConcat(older, newer, k);
    RemoveAbsent(newer, k);
    hide Lookup, Remove;
    kept := if Lookup(l, k).Some? then Remove(older, k) else if |l| >= cap then older[1..] else older;
    assert Room(l, cap, k) == kept + newer;
  }

  lemma NextStored(newer: Lru, es: Lru)
    requires es != [] && Distinct(newer + es)
    ensures Lookup(newer, es[0].key).None? && newer + [es[0]] + es[1..] == newer + es && Distinct(es[1..])
  {
    assert forall i :: 0 <= i < |newer| ==> (newer + es)[i] == newer[i];
    assert forall i :: 0 <= i < |es| ==> (newer + es)[|newer| + i] == es[i];
    LookupNone(newer, es[0].key);
  }

  /** After storing distinct keys, they alone stand at the fresh end. */
  lemma {:induction false} StoresBehind(l: Lru, cap: nat, older: Lru, newer: Lru, ops: seq<Op>, es: Lru)
    returns (kept: Lru)
    requires cap >= 1 && WithinCap(l, cap) && l == older + newer && |newer + es| <= cap
    requires Stores(ops, es) && Distinct(newer + es)
    ensures Run(l, cap, ops) == kept + (newer + es)
    decreases |ops|
  {
    if ops == [] {
      assert newer + es == newer;
      kept := older;
    } else {
      var e := es[0];
      NextStored(newer, es);
      hide Lookup, Store, Distinct;
      StoreSpec(l, cap, e.key, e.chain);
      kept := StoreBehind(l, older, newer, cap, e.key, e.chain);
      kept := StoresBehind(Store(l, cap, e.key, e.chain), cap, kept, newer + [e], ops[1..], es[1..]);
    }
  }

  /** Storing as many distinct other keys as the cache holds evicts the entry, and
      everything else: the cache is then exactly those keys, in order. */
  lemma StoresEvict(l: Lru, cap: nat, ops: seq<Op>, es: Lru, k: string)
    requires WithinCap(l, cap) && cap >= 1 && |es| == cap
    requires Stores(ops, es) && forall i :: 0 <= i < |es| ==> es[i].key != k
    ensures Run(l, cap, ops) == es && Lookup(Run(l, cap, ops), k).None?
  {
    assert l == l + [] && [] + es == es;
    var kept := StoresBehind(l, cap, l, [], ops, es);
    RunValid(l, cap, ops);
    LookupNone(es, k);
  }

  /** A lookup counts as a use: an entry that was hit survives like one just stored. */
  lemma HitSurvives(l: Lru, cap: nat, k: string, c: Chain, ops: seq<Op>, ks: set<string>)
    requires WithinCap(l, cap) && cap > |ks| && Lookup(l, k) == Some(c)
    requires forall i :: 0 <= i < |ops| ==> Harmless(ops[i], k, c, ks)
    ensures Lookup(Run(Touch(l, k), cap, ops), k) == Some(c)
  {
    TouchSpec(l, cap, k);
    FreshGuarded(Remove(l, k), k, c, ks);
    RunGuarded(Touch(l, k), cap, ops, k, c, ks);
  }

  // ---- the class --------------------------------------------------------------

  function MoveToEnd(l: Lru, k: string): Lru
    requires Lookup(l, k).Some?
  {
    Remove(l, k) + [Entry(k, Lookup(l, k).value)]
  }

  /** Dictionary assignment: a known key keeps its place, a new one goes last. */
  function Assign(l: Lru, k: string, c: Chain): Lru {
    if l == [] then [Entry(k, c)]
    else if l[0].key == k then [Entry(k, c)] + l[1..]
    else [l[0]] + Assign(l[1..], k, c)
  }

  lemma {:induction false} AssignLast(l: Lru, k: string, prior: Lru, c: Chain)
    requires Lookup(l, k).None? && |prior| <= 1
    requires forall i :: 0 <= i < |prior| ==> prior[i].key == k
    ensures Assign(l + prior, k, c) == l + [Entry(k, c)]
  {
    if l == [] {
      assert l + prior == prior && l + [Entry(k, c)] == [Entry(k, c)];
    } else {
      assert (l + prior)[1..] == l[1..] + prior;
      AssignLast(l[1..], k, prior, c);
    }
  }

  class MemoryChainCache {
    var entries: Lru
    const cap: nat

    ghost predicate Valid()
      reads this
    {
      cap >= 1 && WithinCap(entries, cap)
    }

    constructor (cap: nat)
      requires cap >= 1
      ensures Valid() && entries == [] && this.cap == cap
    {
      this.cap := cap;
      entries := [];
    }

    method Get(k: string) returns (entry: Option<Chain>)
      requires Valid()
      modifies this
      ensures Valid() && entries == Apply(old(entries), cap, Op.Get(k))
      ensures entry == Lookup(old(entries), k)
      ensures forall j :: Lookup(entries, j) == Lookup(old(entries), j)
    {
      TouchSpec(entries, cap, k);
      entry := Lookup(entries, k);
      if entry.Some? { entries := MoveToEnd(entries, k); }
    }

    method Put(k: string, account: string, user: string)
      requires Valid()
      modifies this
      ensures Valid() && entries == Apply(old(entries), cap, Op.Put(k, (account, user)))
      ensures Lookup(entries, k) == Some((account, user))
      ensures forall j :: j != k ==>
                Lookup(entries, j)
                == if Evicts(old(entries), cap, k, j) then None else Lookup(old(entries), j)
    {
      StoreSpec(entries, cap, k, (account, user));
      RoomSpec(entries, cap, k, k);
      if Lookup(entries, k).Some? {
        AssignLast(Remove(entries, k), k, [Entry(k, Lookup(entries, k).value)], (account, user));
        entries := MoveToEnd(entries, k);
      } else {
        if |entries| >= cap { entries := entries[1..]; }
        assert entries + [] == entries;
        AssignLast(entries, k, [], (account, user));
      }
      entries := Assign(entries, k, (account, user));
    }

    method Delete(k: string)
      requires Valid()
      modifies this
      ensures Valid() && entries == Apply(old(entries), cap, Op.Delete(k))
      ensures forall j :: Lookup(entries, j) == if j == k then None else Lookup(old(entries), j)
    {
      RemoveSpec(entries, cap, k);
      entries := Remove(entries, k);
    }
  }
}
