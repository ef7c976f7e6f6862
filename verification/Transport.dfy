/** The receiving side of chain negotiation (src/valiss/_msgtransport.py).

    `Authenticate` is the source's routine over the cache object. `Decide` is the
    same decision as a function of the one cache entry it looked up, so that it
    can be run against any cache content and any interleaving. */
module Transport {
  import opened Bits
  import opened Errors
  import opened Token
  import opened Message
  import C = ChainCache
  import W = Wire

  /** Whether the static options name a chain. One that is named wins over any other,
      even when it is named as absent. */
  datatype Pin = Free | Pinned(chain: Option<Chain>)

  /** The static verify options; audience and payload always come from the request. */
  datatype Static = Static(
    now: Option<int>, skew: int, requireChecksum: bool,
    pin: Pin, operatorToken: Option<string>)

  datatype Request = Request(
    token: string, body: Bytes, audience: string, chainAccount: string, chainUser: string)
  {
    predicate Detached() {
      chainAccount != "" && chainUser != ""
    }

    function Chain(): Chain {
      (chainAccount, chainUser)
    }
  }

  datatype Verdict = Accept(claims: MessageClaims) | Reject(reason: Reason, chainRequired: bool)

  /** The receiver's configuration: primitives, trust anchor, static options. */
  datatype Receiver = Receiver(env: Env, anchor: Anchor, static_: Static)

  /** The options of one verification: a pinned chain outranks the given one. */
  function RunOptions(r: Receiver, req: Request, chain: Option<Chain>, clock: int): Options {
    var s := r.static_;
    Options(
      if s.now.Some? then s.now.value else clock, s.skew, Some(req.audience), s.requireChecksum,
      Some(req.body), if s.pin.Pinned? then s.pin.chain else chain, s.operatorToken)
  }

  function Run(r: Receiver, req: Request, chain: Option<Chain>, clock: int): Result<MessageClaims> {
    VerifyMessage(r.env, req.token, r.anchor, RunOptions(r, req, chain, clock))
  }

  function Rejection(reason: Reason): Verdict {
    Reject(reason, reason == NoChain)
  }

  /** The key the cache is consulted under, if it is consulted. */
  function LookupKey(r: Receiver, req: Request): Option<string> {
    if req.Detached() then None
    else
      var d := r.env.decode(req.token);
      if d.Err? || d.value.issuer == "" then None else Some(d.value.issuer)
  }

  datatype Outcome = Outcome(verdict: Verdict, op: Option<C.Op>)

  /** The verdict and the cache write, given the entry found under the lookup key.
      The clock is read once per verification. */
  function Decide(r: Receiver, req: Request, hasCache: bool, entry: Option<Chain>,
                  clock: int, clock2: int): Outcome
    requires entry.Some? ==> hasCache && LookupKey(r, req).Some?
  {
    var first := Run(r, req, if req.Detached() then Some(req.Chain()) else entry, clock);
    if first.Ok? then
      Outcome(Accept(first.value),
        if req.Detached() && hasCache then Some(C.Put(first.value.base.subject, req.Chain())) else None)
    else if entry.Some? then
      var key := LookupKey(r, req).value;
      match Run(r, req, None, clock2)
      case Ok(claims) => Outcome(Accept(claims), Some(C.Delete(key)))
      case Err(reason) =>
        if reason == NoChain then Outcome(Reject(reason, true), Some(C.Delete(key)))
        else Outcome(Reject(reason, false), None)
    else Outcome(Rejection(first.reason), None)
  }

  /** The lookup and the decision, on one cache value. */
  function Found(r: Receiver, req: Request, l: C.Lru): Option<Chain> {
    match LookupKey(r, req)
    case None => None
    case Some(k) => C.Lookup(l, k)
  }

  function LookupOp(r: Receiver, req: Request): Option<C.Op> {
    match LookupKey(r, req) case None => None case Some(k) => Some(C.Get(k))
  }

  method Authenticate(r: Receiver, cache: C.MemoryChainCache?, req: Request, clock: int, clock2: int)
    returns (verdict: Verdict)
    requires cache != null ==> cache.Valid()
    modifies cache
    ensures cache != null ==> cache.Valid()
    ensures var entry := if cache == null then None else Found(r, req, old(cache.entries));
            var out := Decide(r, req, cache != null, entry, clock, clock2);
            && verdict == out.verdict
            && (cache != null ==>
                  cache.entries
                  == C.ApplyIf(C.ApplyIf(old(cache.entries), cache.cap, LookupOp(r, req)), cache.cap, out.op))
  {
    hide VerifyMessage, RunOptions, C.Apply, C.Lookup;
    var chainAccount, chainUser := req.chainAccount, req.chainUser;
    var detached := chainAccount != "" && chainUser != "";
    var cached := false;
    var key := "";
    if !detached && cache != null {
      var d := r.env.decode(req.token);
      key := if d.Ok? then d.value.issuer else "";
      if key != "" {
        var entry := cache.Get(key);
        if entry.Some? {
          chainAccount, chainUser := entry.value.0, entry.value.1;
          cached := true;
        }
      }
    }
    var chain := if detached || cached then Some((chainAccount, chainUser)) else None;
    var first := Run(r, req, chain, clock);
    if first.Err? {
      if cached {
        var second := Run(r, req, None, clock2);
        if second.Err? {
          if second.reason == NoChain {
            cache.Delete(key);
            return Reject(NoChain, true);
          }
          return Reject(second.reason, false);
        }
        cache.Delete(key);
        return Accept(second.value);
      }
      return Rejection(first.reason);
    }
    if detached && cache != null {
      cache.Put(first.value.base.subject, chainAccount, chainUser);
    }
    return Accept(first.value);
  }

  /** The cache is asked for the chain of the token's issuer, for every token that decodes,
      unless a whole pair came with the request. */
  lemma LookupExactly(r: Receiver, req: Request, k: string)
    ensures LookupKey(r, req) == Some(k) <==>
              (req.chainAccount == "" || req.chainUser == "")
              && r.env.decode(req.token).Ok? && r.env.decode(req.token).value.issuer == k && k != ""
  {
  }

  // ---- what one call can do to the cache -------------------------------------------

  /** The lookup key and the key of any write are the same: the token's issuer. */
  lemma OneKey(r: Receiver, req: Request, hasCache: bool, entry: Option<Chain>, clock: int, clock2: int)
    requires entry.Some? ==> hasCache && LookupKey(r, req).Some?
    ensures var op := Decide(r, req, hasCache, entry, clock, clock2).op;
            op.Some? ==> r.env.decode(req.token).Ok? && op.value.key == r.env.decode(req.token).value.issuer
    ensures LookupKey(r, req).Some? ==> LookupKey(r, req).value == r.env.decode(req.token).value.issuer
  {
    hide VerifyMessage, RunOptions;
    if Run(r, req, Some(req.Chain()), clock).Ok? { RunIssuer(r, req, Some(req.Chain()), clock); }
    if Run(r, req, entry, clock).Ok? { RunIssuer(r, req, entry, clock); }
  }

  lemma RunIssuer(r: Receiver, req: Request, chain: Option<Chain>, clock: int)
    requires Run(r, req, chain, clock).Ok?
    ensures r.env.decode(req.token).Ok?
    ensures Run(r, req, chain, clock).value.base.subject == r.env.decode(req.token).value.issuer
  {
    hide RunOptions, AnchorChain, SelectChain, CheckOperator, CheckWindow, CheckBindings, VerifyUser;
  }

  /** The options of a verification with exactly this chain: everything the static
      options say, bound to the request's audience and body. */
  function OptionsWith(r: Receiver, req: Request, c: Chain, clock: int): Options {
    Options(
      match r.static_.now { case Some(t) => t case None => clock },
      r.static_.skew, Some(req.audience), r.static_.requireChecksum, Some(req.body), Some(c), r.static_.operatorToken)
  }

  /** What a cached pair is worth: it verified a message of its key's holder. */
  ghost predicate Proven(r: Receiver, k: string, c: Chain, req: Request, clock: int) {
    && r.env.decode(req.token).Ok? && r.env.decode(req.token).value.issuer == k
    && VerifyMessage(r.env, req.token, r.anchor, OptionsWith(r, req, c, clock)).Ok?
  }

  /** Unless another chain is pinned, a stored pair has just been proven. */
  lemma StoredIsProven(r: Receiver, req: Request, hasCache: bool, entry: Option<Chain>, clock: int, clock2: int)
    requires entry.Some? ==> hasCache && LookupKey(r, req).Some?
    ensures var op := Decide(r, req, hasCache, entry, clock, clock2).op;
            op.Some? && op.value.Put? && (r.static_.pin.Free? || r.static_.pin == Pinned(Some(op.value.chain))) ==>
              Proven(r, op.value.key, op.value.chain, req, clock)
  {
    OneKey(r, req, hasCache, entry, clock, clock2);
    hide VerifyMessage;
  }

  /** The user token is for the key, issued by the account, which the trust anchor
      issued. */
  ghost predicate IsChainOf(r: Receiver, k: string, c: Chain) {
    exists issuer, account, user :: Links(r, k, c, issuer, account, user)
  }

  ghost predicate Links(r: Receiver, k: string, c: Chain, issuer: string, account: AccountClaims, user: UserClaims) {
    && VerifyAccount(r.env, c.0, issuer) == Ok(account)
    && VerifyUser(r.env, c.1, account.base.subject) == Ok(user)
    && user.base.subject == k
    && (r.anchor.operatorKey.Some? ==> issuer == r.anchor.operatorKey.value)
    && (r.anchor.ring.Some? ==> (issuer, account.epoch) in r.anchor.ring.value)
  }

  lemma ProvenIsChain(r: Receiver, k: string, c: Chain, req: Request, clock: int)
    requires Proven(r, k, c, req, clock)
    ensures IsChainOf(r, k, c)
  {
    var o := OptionsWith(r, req, c, clock);
    var m := VerifyMessage(r.env, req.token, r.anchor, o).value;
    AcceptedChain(r.env, req.token, r.anchor, o);
    CheckedKeepsAccount(r.env, req.token, r.anchor, o);
    assert SelectChain(r.env.decode(req.token).value.chain, o.chain).value == c;
    assert Links(r, k, c, m.account.base.issuer, m.account, m.user);
  }

  // ---- a pair of chain headers, whole or half ----------------------------------------

  /** Half a pair counts for nothing. */
  lemma HalfPair(r: Receiver, req: Request, hasCache: bool, entry: Option<Chain>, clock: int, clock2: int)
    requires req.chainAccount == "" || req.chainUser == ""
    requires entry.Some? ==> hasCache && LookupKey(r, req).Some?
    ensures var bare := req.(chainAccount := "", chainUser := "");
            && LookupKey(r, bare) == LookupKey(r, req)
            && Decide(r, bare, hasCache, entry, clock, clock2) == Decide(r, req, hasCache, entry, clock, clock2)
  {
    hide VerifyMessage;
  }

  /** A whole pair is tried instead of the cache, and decides: its verdict is that of one
      verification with it, a failure never asks for a chain, and a success stores it. */
  lemma DetachedDecides(r: Receiver, req: Request, hasCache: bool, clock: int, clock2: int)
    requires r.static_.pin.Free? && req.chainAccount != "" && req.chainUser != ""
    requires forall t :: r.env.decode(t) != Err(NoChain)
    ensures LookupKey(r, req).None?
    ensures var pair := (req.chainAccount, req.chainUser);
            var out := Decide(r, req, hasCache, None, clock, clock2);
            match VerifyMessage(r.env, req.token, r.anchor, OptionsWith(r, req, pair, clock))
            case Err(reason) => out == Outcome(Reject(reason, false), None)
            case Ok(m) =>
              out.verdict == Accept(m) && out.op == if hasCache then Some(C.Put(m.base.issuer, pair)) else None
  {
    var pair := (req.chainAccount, req.chainUser);
    assert RunOptions(r, req, Some(pair), clock) == OptionsWith(r, req, pair, clock);
    NoChainMeansNoChain(r, req, Some(pair), clock);
    if Run(r, req, Some(pair), clock).Ok? {
      AcceptedChain(r.env, req.token, r.anchor, RunOptions(r, req, Some(pair), clock));
    }
    hide VerifyMessage;
  }

  // ---- a pinned chain ------------------------------------------------------------------

  /** With a chain pinned, even an absent one, any nonempty detached pair whatever is
      stored as soon as the token verifies with the static options. */
  lemma PinnedStoresAnything(r: Receiver, req: Request, pair: Chain, clock: int)
    requires r.static_.pin.Pinned? && pair.0 != "" && pair.1 != ""
    requires Run(r, req, None, clock).Ok?
    ensures r.env.decode(req.token).Ok?
    ensures var out := Decide(r, req.(chainAccount := pair.0, chainUser := pair.1), true, None, clock, clock);
            out.verdict.Accept? && out.op == Some(C.Put(r.env.decode(req.token).value.issuer, pair))
  {
    hide VerifyMessage;
    RunIssuer(r, req, None, clock);
  }

  ghost predicate StoresChain(r: Receiver, req: Request, clock: int) {
    var op := Decide(r, req, true, None, clock, clock).op;
    op.Some? && op.value.Put? ==> IsChainOf(r, op.value.key, op.value.chain)
  }

  /** Some request verifies under the receiver's static options alone. */
  ghost predicate VerifiesSomething(r: Receiver) {
    exists req, clock :: Run(r, req, None, clock).Ok?
  }

  /** No token, so no chain. */
  lemma NotAChain(p: W.Platform, r: Receiver, k: string)
    requires r.env == W.EnvOf(p)
    ensures !IsChainOf(r, k, ("x", "x"))
  {
    assert |W.SplitDots("x")| == 1;
    assert r.env.decode("x").Err?;
  }

  /** Over the real token format a receiver stores nothing but chains to its trust
      anchor, whatever it is sent, exactly when no chain is pinned or nothing ever verifies
      with its static options. */
  lemma StoresOnlyChainsExactly(p: W.Platform, r: Receiver)
    requires r.env == W.EnvOf(p)
    ensures (forall req, clock :: StoresChain(r, req, clock)) <==> r.static_.pin.Free? || !VerifiesSomething(r)
  {
    hide VerifyMessage, W.EnvOf, IsChainOf, RunOptions, Decide;
    if r.static_.pin.Free? || !VerifiesSomething(r) {
      forall req, clock ensures StoresChain(r, req, clock) {
        StoredSoundly(r, req, clock);
      }
    } else {
      var req, clock :| Run(r, req, None, clock).Ok?;
      PinnedStoresAnything(r, req, ("x", "x"), clock);
      NotAChain(p, r, r.env.decode(req.token).value.issuer);
      assert !StoresChain(r, req.(chainAccount := "x", chainUser := "x"), clock);
    }
  }

  lemma StoredSoundly(r: Receiver, req: Request, clock: int)
    requires r.static_.pin.Free? || !VerifiesSomething(r)
    ensures StoresChain(r, req, clock)
  {
    hide VerifyMessage, IsChainOf;
    var op := Decide(r, req, true, None, clock, clock).op;
    if r.static_.pin.Pinned? {
      assert Run(r, req, Some(req.Chain()), clock) == Run(r, req, None, clock);
    } else if op.Some? && op.value.Put? {
      StoredIsProven(r, req, true, None, clock, clock);
      ProvenIsChain(r, op.value.key, op.value.chain, req, clock);
    }
  }

  // ---- transparency ------------------------------------------------------------------

  function Alone(r: Receiver, req: Request, clock: int): Verdict {
    match Run(r, req, None, clock)
    case Ok(claims) => Accept(claims)
    case Err(reason) => Rejection(reason)
  }

  /** For a token that carries its own chain the cache is invisible: whatever it
      holds, the verdict is that of verifying the token alone. */
  lemma CacheTransparent(r: Receiver, req: Request, hasCache: bool, entry: Option<Chain>, clock: int)
    requires entry.Some? ==> hasCache && LookupKey(r, req).Some?
    requires r.static_.pin.Free? && !req.Detached()
    requires r.env.decode(req.token).Ok? ==> r.env.decode(req.token).value.chain.Some?
    ensures Decide(r, req, hasCache, entry, clock, clock).verdict == Alone(r, req, clock)
  {
    if entry.Some? { EmbeddedDecides(r, req, entry.value, clock); }
    hide VerifyMessage;
  }

  /** A supplied chain either agrees with the embedded one or fails. */
  lemma EmbeddedDecides(r: Receiver, req: Request, c: Chain, clock: int)
    requires r.static_.pin.Free?
    requires r.env.decode(req.token).Ok? && r.env.decode(req.token).value.chain.Some?
    ensures Run(r, req, Some(c), clock).Ok? ==>
              Run(r, req, None, clock) == Run(r, req, Some(c), clock)
  {
    SameOptions(r.env, r.env.decode(req.token).value, RunOptions(r, req, Some(c), clock), None);
    hide CheckToken, AnchorChain, CheckChain;
  }

  lemma SameOptions(env: Env, d: Decoded, o: Options, chain: Option<Chain>)
    ensures forall u, a, p :: CheckChain(env, d, u, a, p, o.(chain := chain)) == CheckChain(env, d, u, a, p, o)
  {
  }

  /** And a receiver never asks for the chain of such a token. */
  lemma EmbeddedNeverAsks(r: Receiver, req: Request, hasCache: bool, entry: Option<Chain>, clock: int, clock2: int)
    requires entry.Some? ==> hasCache && LookupKey(r, req).Some?
    requires r.env.decode(req.token).Ok? && r.env.decode(req.token).value.chain.Some?
    requires forall t :: r.env.decode(t) != Err(NoChain)
    ensures var v := Decide(r, req, hasCache, entry, clock, clock2).verdict;
            v.Reject? ==> !v.chainRequired
  {
    NoChainMeansNoChain(r, req, if req.Detached() then Some(req.Chain()) else entry, clock);
    NoChainMeansNoChain(r, req, None, clock2);
    hide VerifyMessage;
  }

  /** A missing chain is reported by the selection alone. */
  lemma NoChainMeansNoChain(r: Receiver, req: Request, chain: Option<Chain>, clock: int)
    requires forall t :: r.env.decode(t) != Err(NoChain)
    ensures Run(r, req, chain, clock) == Err(NoChain) ==>
              r.env.decode(req.token).Ok? && r.env.decode(req.token).value.chain.None?
              && RunOptions(r, req, chain, clock).chain.None?
  {
    hide RunOptions, AnchorChain, CheckChain;
    var o := RunOptions(r, req, chain, clock);
    var token := r.env.decode(req.token);
    if token.Ok? && SelectChain(token.value.chain, o.chain).Ok? && r.anchor.operatorKey.Some? != r.anchor.ring.Some? {
      var c := SelectChain(token.value.chain, o.chain).value;
      var anchored := AnchorChain(r.env, r.anchor, c.0, o.operatorToken);
      AnchorNeverNoChain(r.env, r.anchor, c.0, o.operatorToken);
      if anchored.Ok? { CheckNeverNoChain(r.env, token.value, c.1, anchored.value.0, anchored.value.1, o); }
    }
  }

  lemma AnchorNeverNoChain(env: Env, anchor: Anchor, accountToken: string, operatorToken: Option<string>)
    requires anchor.operatorKey.Some? != anchor.ring.Some?
    requires forall t :: env.decode(t) != Err(NoChain)
    ensures AnchorChain(env, anchor, accountToken, operatorToken) != Err(NoChain)
  {
  }

  lemma CheckNeverNoChain(env: Env, d: Decoded, userToken: string, account: AccountClaims,
                          operator: Option<OperatorClaims>, o: Options)
    requires forall t :: env.decode(t) != Err(NoChain)
    ensures CheckChain(env, d, userToken, account, operator, o) != Err(NoChain)
  {
  }

  // ---- every acceptance has a witness -----------------------------------------------

  /** The places a chain can come from. */
  ghost predicate Available(r: Receiver, req: Request, entry: Option<Chain>, c: Chain) {
    || r.static_.pin == Pinned(Some(c))
    || (req.Detached() && c == req.Chain())
    || entry == Some(c)
    || (r.env.decode(req.token).Ok? && r.env.decode(req.token).value.chain.Some?
        && c == EmbeddedChain(r.env.decode(req.token).value.chain.value))
  }

  /** The token is an authentic message with chain c, for this request's body and
      audience, under the static options. */
  ghost predicate VerifiesWith(r: Receiver, req: Request, c: Chain, clock: int, m: MessageClaims) {
    && Authentic(r.env, req.token, r.anchor, OptionsWith(r, req, c, clock), m)
    && m.checksum == r.env.hash(req.body)
    && (req.audience == "" || m.audience == req.audience)
  }

  lemma SelectedVerifies(r: Receiver, req: Request, chain: Option<Chain>, clock: int) returns (c: Chain)
    requires Run(r, req, chain, clock).Ok?
    ensures r.env.decode(req.token).Ok?
    ensures SelectChain(r.env.decode(req.token).value.chain, RunOptions(r, req, chain, clock).chain) == Ok(c)
    ensures VerifyMessage(r.env, req.token, r.anchor, OptionsWith(r, req, c, clock)) == Run(r, req, chain, clock)
  {
    var d := r.env.decode(req.token).value;
    var o := RunOptions(r, req, chain, clock);
    c := SelectChain(d.chain, o.chain).value;
    SameOptions(r.env, d, o, Some(c));
    hide CheckToken, AnchorChain, CheckChain;
    assert OptionsWith(r, req, c, clock) == o.(chain := Some(c));
  }

  lemma RunWitness(r: Receiver, req: Request, entry: Option<Chain>, chain: Option<Chain>, clock: int)
    returns (c: Chain)
    requires Run(r, req, chain, clock).Ok?
    requires chain.Some? ==> chain == entry || (req.Detached() && chain.value == req.Chain())
    ensures Available(r, req, entry, c)
    ensures VerifiesWith(r, req, c, clock, Run(r, req, chain, clock).value)
  {
    hide VerifyMessage, Authentic;
    c := SelectedVerifies(r, req, chain, clock);
    var o := OptionsWith(r, req, c, clock);
    Bound(r.env, req.token, r.anchor, o);
    AcceptedIff(r.env, req.token, r.anchor, o, Run(r, req, chain, clock).value);
  }

  lemma Bound(env: Env, tok: string, anchor: Anchor, o: Options)
    requires VerifyMessage(env, tok, anchor, o).Ok?
    ensures var m := VerifyMessage(env, tok, anchor, o).value;
            && (o.payload.Some? ==> m.checksum == env.hash(o.payload.value))
            && (o.audience.Some? && o.audience.value != "" ==> m.audience == o.audience.value)
  {
  }

  /** Whatever the static options and the cache hold, an accepted request verifies
      under a chain that was embedded, cached, detached or pinned, against its own
      body and audience, and the verdict carries that verification's claims. */
  lemma AcceptanceWitness(r: Receiver, req: Request, hasCache: bool, entry: Option<Chain>, clock: int, clock2: int)
    requires entry.Some? ==> hasCache && LookupKey(r, req).Some?
    ensures var v := Decide(r, req, hasCache, entry, clock, clock2).verdict;
            v.Accept? ==>
              exists c, t :: Available(r, req, entry, c) && (t == clock || t == clock2)
                             && VerifiesWith(r, req, c, t, v.claims)
  {
    hide VerifyMessage, Available, VerifiesWith, RunOptions;
    var chain := if req.Detached() then Some(req.Chain()) else entry;
    if Run(r, req, chain, clock).Ok? {
      var c := RunWitness(r, req, entry, chain, clock);
    } else if entry.Some? && Run(r, req, None, clock2).Ok? {
      var c := RunWitness(r, req, entry, None, clock2);
    }
  }
}
