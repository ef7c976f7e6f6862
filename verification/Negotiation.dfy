/** Chain negotiation as a whole: concurrent calls on one cache, and the two-party
    exchange (src/valiss/_msgtransport.py, src/valiss/httpsig/_client.py). */
module Negotiation {
  import opened Bits
  import opened Errors
  import opened Token
  import opened Message
  import opened Transport
  import C = ChainCache

  // ---- runs of a receiver ------------------------------------------------------------

  /** A call between its cache lookup and its cache write. */
  datatype Pending = Pending(req: Request, entry: Option<Chain>)

  /** The lookup and the write of a call are separate steps: any number of other
      calls may run in between. */
  datatype Event = Begin(id: nat, req: Request) | Finish(id: nat, clock: int, clock2: int)

  datatype Accepted = Accepted(req: Request, clock: int)

  datatype System = System(cache: C.Lru, pending: map<nat, Pending>, stored: seq<Accepted>)

  const START := System([], map[], [])

  function FinishOutcome(r: Receiver, p: Pending, clock: int, clock2: int): Outcome {
    var entry := if LookupKey(r, p.req).Some? then p.entry else None;
    Decide(r, p.req, true, entry, clock, clock2)
  }

  function Next(r: Receiver, cap: nat, s: System, e: Event): System
    requires cap >= 1
  {
    match e
    case Begin(id, req) =>
      if id in s.pending then s
      else s.(cache := C.ApplyIf(s.cache, cap, LookupOp(r, req)),
              pending := s.pending[id := Pending(req, Found(r, req, s.cache))])
    case Finish(id, clock, clock2) =>
      if id !in s.pending then s
      else
        var op := FinishOutcome(r, s.pending[id], clock, clock2).op;
        System(
          C.ApplyIf(s.cache, cap, op),
          s.pending - {id},
          if op.Some? && op.value.Put? then s.stored + [Accepted(s.pending[id].req, clock)] else s.stored)
  }

  function Execute(r: Receiver, cap: nat, s: System, events: seq<Event>): System
    requires cap >= 1
    decreases |events|
  {
    if events == [] then s else Execute(r, cap, Next(r, cap, s, events[0]), events[1..])
  }

  /** The entry k to c is a detached pair that some call of the run verified a
      message of k's holder with. */
  ghost predicate Earned(r: Receiver, stored: seq<Accepted>, k: string, c: Chain) {
    exists i :: 0 <= i < |stored| && EarnedBy(r, stored[i], k, c)
  }

  ghost predicate EarnedBy(r: Receiver, a: Accepted, k: string, c: Chain) {
    a.req.Detached() && a.req.Chain() == c && Proven(r, k, c, a.req, a.clock)
  }

  ghost predicate Sound(r: Receiver, cap: nat, s: System) {
    && C.WithinCap(s.cache, cap)
    && forall k :: C.Lookup(s.cache, k).Some? ==> Earned(r, s.stored, k, C.Lookup(s.cache, k).value)
  }

  lemma EarnedMore(r: Receiver, stored: seq<Accepted>, a: Accepted, k: string, c: Chain)
    requires Earned(r, stored, k, c)
    ensures Earned(r, stored + [a], k, c)
  {
    var i :| 0 <= i < |stored| && EarnedBy(r, stored[i], k, c);
    assert (stored + [a])[i] == stored[i];
  }

  lemma BeginSound(r: Receiver, cap: nat, s: System, id: nat, req: Request)
    requires cap >= 1 && Sound(r, cap, s)
    ensures Sound(r, cap, Next(r, cap, s, Begin(id, req)))
  {
    hide Earned, LookupKey;
    if LookupKey(r, req).Some? { C.TouchSpec(s.cache, cap, LookupKey(r, req).value); }
  }

  lemma FinishSound(r: Receiver, cap: nat, s: System, id: nat, clock: int, clock2: int)
    requires cap >= 1 && Sound(r, cap, s) && r.static_.pin.Free?
    ensures Sound(r, cap, Next(r, cap, s, Finish(id, clock, clock2)))
  {
    if id in s.pending {
      var p := s.pending[id];
      var entry := if LookupKey(r, p.req).Some? then p.entry else None;
      StoredIsProven(r, p.req, true, entry, clock, clock2);
      OnlyDetachedStores(r, p.req, entry, clock, clock2);
      hide Decide, LookupKey, Proven;
      var op := FinishOutcome(r, p, clock, clock2).op;
      if op.Some? {
        match op.value {
          case Put(k, c) => PutSound(r, cap, s, Accepted(p.req, clock), k, c);
          case Delete(k) => C.RemoveSpec(s.cache, cap, k);
          case Get(k) =>
        }
      }
    }
  }

  lemma OnlyDetachedStores(r: Receiver, req: Request, entry: Option<Chain>, clock: int, clock2: int)
    requires entry.Some? ==> LookupKey(r, req).Some?
    ensures var op := Decide(r, req, true, entry, clock, clock2).op;
            op.Some? ==> !op.value.Get? && (op.value.Put? ==> req.Detached() && op.value.chain == req.Chain())
  {
  }

  lemma PutSound(r: Receiver, cap: nat, s: System, a: Accepted, k: string, c: Chain)
    requires cap >= 1 && Sound(r, cap, s) && EarnedBy(r, a, k, c)
    ensures C.WithinCap(C.Store(s.cache, cap, k, c), cap)
    ensures forall j :: C.Lookup(C.Store(s.cache, cap, k, c), j).Some? ==>
              Earned(r, s.stored + [a], j, C.Lookup(C.Store(s.cache, cap, k, c), j).value)
  {
    hide EarnedBy;
    C.StoreSpec(s.cache, cap, k, c);
    var l := C.Store(s.cache, cap, k, c);
    forall j | C.Lookup(l, j).Some? ensures Earned(r, s.stored + [a], j, C.Lookup(l, j).value) {
      if j == k {
        assert (s.stored + [a])[|s.stored|] == a;
      } else {
        EarnedMore(r, s.stored, a, j, C.Lookup(s.cache, j).value);
      }
    }
  }

  lemma {:induction false} ExecuteSound(r: Receiver, cap: nat, s: System, events: seq<Event>)
    requires cap >= 1 && Sound(r, cap, s) && r.static_.pin.Free?
    ensures Sound(r, cap, Execute(r, cap, s, events))
    decreases |events|
  {
    if events != [] {
      hide Sound, Next;
      match events[0] {
        case Begin(id, req) => BeginSound(r, cap, s, id, req);
        case Finish(id, clock, clock2) => FinishSound(r, cap, s, id, clock, clock2);
      }
      ExecuteSound(r, cap, Next(r, cap, s, events[0]), events[1..]);
    }
  }

  /** Without a pinned chain, in every reachable state each cached pair is one that
      a call of the run verified in full for a message of its key's holder: the user
      token is for the key, the account issued it, the trust anchor issued the
      account. */
  lemma CacheSound(r: Receiver, cap: nat, events: seq<Event>, k: string)
    requires cap >= 1 && r.static_.pin.Free?
    ensures var s := Execute(r, cap, START, events);
            C.Lookup(s.cache, k).Some? ==>
              && Earned(r, s.stored, k, C.Lookup(s.cache, k).value)
              && IsChainOf(r, k, C.Lookup(s.cache, k).value)
  {
    ExecuteSound(r, cap, START, events);
    var s := Execute(r, cap, START, events);
    if C.Lookup(s.cache, k).Some? {
      var c := C.Lookup(s.cache, k).value;
      var i :| 0 <= i < |s.stored| && EarnedBy(r, s.stored[i], k, c);
      ProvenIsChain(r, k, c, s.stored[i].req, s.stored[i].clock);
    }
  }

  // ---- the sending side -----------------------------------------------------------------

  /** A request on the wire: the message token, the detached chain and the body. */
  datatype Outgoing = Outgoing(token: string, chain: Option<Chain>, body: Bytes)

  datatype Response = Response(status: int, chainHeader: string)

  predicate AsksForChain(resp: Response) {
    resp.status == 401 && resp.chainHeader == "required"
  }

  /** The httpx auth flow: a generator that yields the request once or twice. */
  class AuthFlow {
    const negotiate: bool
    const chain: Chain
    var request: Outgoing
    var sent: nat

    constructor (negotiate: bool, chain: Chain, token: string, body: Bytes)
      ensures this.negotiate == negotiate && this.chain == chain
      ensures request == Outgoing(token, None, body) && sent == 1
    {
      this.negotiate := negotiate;
      this.chain := chain;
      request := Outgoing(token, None, body);
      sent := 1;
    }

    /** Resumed with the response to the last yield; `again` says it sent anew. */
    method Resume(resp: Response) returns (again: bool)
      modifies this
      ensures again == (old(sent) == 1 && negotiate && resp.status == 401 && resp.chainHeader == "required")
      ensures sent == if again then 2 else old(sent)
      ensures request == if again then old(request).(chain := Some(chain)) else old(request)
    {
      if sent != 1 || !negotiate {
        return false;
      }
      if resp.status == 401 && resp.chainHeader == "required" {
        request := request.(chain := Some(chain));
        sent := 2;
        return true;
      }
      return false;
    }
  }

  /** What the flow sends against given responses. */
  function FlowSends(negotiate: bool, chain: Chain, h: Outgoing, sent: nat, responses: seq<Response>): seq<Outgoing>
    decreases |responses|
  {
    if responses == [] then [h]
    else if sent == 1 && negotiate && AsksForChain(responses[0]) then
      [h] + FlowSends(negotiate, chain, h.(chain := Some(chain)), 2, responses[1..])
    else [h]
  }

  /** The flow driven through the responses, one per send, until it stops. */
  method Drive(negotiate: bool, chain: Chain, token: string, body: Bytes, responses: seq<Response>)
    returns (sends: seq<Outgoing>)
    ensures sends == FlowSends(negotiate, chain, Outgoing(token, None, body), 1, responses)
  {
    var flow := new AuthFlow(negotiate, chain, token, body);
    ghost var first := flow.request;
    sends := [flow.request];
    for i := 0 to |responses|
      invariant flow.negotiate == negotiate && flow.chain == chain
      invariant |sends| >= 1 && sends[|sends| - 1] == flow.request
      invariant FlowSends(negotiate, chain, first, 1, responses)
             == sends[..|sends| - 1] + FlowSends(negotiate, chain, flow.request, flow.sent, responses[i..])
    {
      var again := flow.Resume(responses[i]);
      if !again { return; }
      assert responses[i..][1..] == responses[i + 1..];
      sends := sends + [flow.request];
    }
  }

  /** The requests response hook, installed only when negotiating: it resends when
      asked, unless the request it answers already carried the chain. */
  function HookSends(chain: Chain, h: Outgoing, responses: seq<Response>): seq<Outgoing>
    decreases |responses|
  {
    if responses == [] || !AsksForChain(responses[0]) || h.chain.Some? then [h]
    else [h] + HookSends(chain, h.(chain := Some(chain)), responses[1..])
  }

  /** Whatever the other side answers, a client sends at most twice, the second time
      exactly when it negotiates and is asked for its chain, with the chain added, and
      both transports send the same. */
  lemma AtMostTwoSends(negotiate: bool, chain: Chain, token: string, body: Bytes, responses: seq<Response>)
    ensures var sends := FlowSends(negotiate, chain, Outgoing(token, None, body), 1, responses);
            && 1 <= |sends| <= 2
            && sends[0] == Outgoing(token, None, body)
            && (|sends| == 2 <==>
                  negotiate && responses != [] && responses[0].status == 401 && responses[0].chainHeader == "required")
            && (|sends| == 2 ==> sends[1] == Outgoing(token, Some(chain), body))
            && (negotiate ==> sends == HookSends(chain, Outgoing(token, None, body), responses))
  {
  }

  // ---- the exchange --------------------------------------------------------------------

  function Received(h: Outgoing, audience: string): Request {
    match h.chain
    case None => Request(h.token, h.body, audience, "", "")
    case Some(c) => Request(h.token, h.body, audience, c.0, c.1)
  }

  function Answer(v: Verdict): Response {
    match v
    case Accept(_) => Response(200, "")
    case Reject(_, required) => Response(401, if required then "required" else "")
  }

  /** A well-formed message token that embeds no chain. */
  ghost predicate Chainless(r: Receiver, tok: string) {
    && r.anchor.operatorKey.Some? != r.anchor.ring.Some?
    && r.env.decode(tok).Ok?
    && CheckToken(r.env, r.env.decode(tok).value).Ok?
    && r.env.decode(tok).value.chain.None?
  }

  /** The token verifies under the chain at the given clock reading. */
  predicate Verifies(r: Receiver, tok: string, body: Bytes, audience: string, c: Chain, clock: int) {
    VerifyMessage(r.env, tok, r.anchor, OptionsWith(r, Request(tok, body, audience, "", ""), c, clock)).Ok?
  }

  lemma VerifiesChainless(r: Receiver, tok: string, body: Bytes, audience: string, c: Chain, clock: int)
    requires Verifies(r, tok, body, audience, c, clock)
    requires r.env.decode(tok).Ok? && r.env.decode(tok).value.chain.None?
    ensures Chainless(r, tok)
  {
  }

  /** A chainless token sent bare is accepted from the cache, or answered with the
      request for its chain; nothing else can happen. */
  lemma FirstSend(r: Receiver, req: Request, hasCache: bool, entry: Option<Chain>, clock: int, clock2: int)
    requires entry.Some? ==> hasCache && LookupKey(r, req).Some?
    requires r.static_.pin.Free? && Chainless(r, req.token) && !req.Detached()
    ensures var v := Decide(r, req, hasCache, entry, clock, clock2).verdict;
            v.Accept? || Answer(v) == Response(401, "required")
  {
  }

  /** A cached chain is evicted exactly when verification with it fails and the token
      embeds no chain, which leaves the entry as the suspect and asks for the chain,
      or verifies on its own; every other failure leaves the cache alone. */
  lemma EvictedExactly(r: Receiver, req: Request, entry: Chain, clock: int, clock2: int)
    requires LookupKey(r, req).Some? && r.static_.pin.Free?
    requires r.anchor.operatorKey.Some? != r.anchor.ring.Some?
    requires forall t :: r.env.decode(t) != Err(NoChain)
    ensures var out := Decide(r, req, true, Some(entry), clock, clock2);
            var suspect := Chainless(r, req.token);
            var alone := Run(r, req, None, clock2);
            && (out.op.Some? <==> Run(r, req, Some(entry), clock).Err? && (suspect || alone.Ok?))
            && (out.op.Some? ==> out.op == Some(C.Delete(r.env.decode(req.token).value.issuer)))
            && (out.op.Some? && suspect ==> out.verdict == Reject(NoChain, true))
            && (Run(r, req, Some(entry), clock).Err? && !suspect ==>
                  out.verdict == if alone.Ok? then Accept(alone.value) else Reject(alone.reason, false))
  {
    NoChainMeansNoChain(r, req, None, clock2);
    AloneNeedsChain(r, req, clock2);
    hide Run;
  }

  /** A token on its own lacks a chain exactly when it is a message that embeds none. */
  lemma AloneNeedsChain(r: Receiver, req: Request, clock: int)
    requires r.static_.pin.Free? && r.anchor.operatorKey.Some? != r.anchor.ring.Some?
    requires forall t :: r.env.decode(t) != Err(NoChain)
    ensures Run(r, req, None, clock) == Err(NoChain) <==> Chainless(r, req.token)
  {
    NoChainMeansNoChain(r, req, None, clock);
    hide AnchorChain, CheckChain;
  }

  /** A refusal asks for the chain exactly when no whole pair came with the request, the
      token is a message that embeds none, and the cached one, if any, failed. */
  lemma AsksExactly(r: Receiver, req: Request, hasCache: bool, entry: Option<Chain>, clock: int, clock2: int)
    requires entry.Some? ==> hasCache && LookupKey(r, req).Some?
    requires r.static_.pin.Free? && r.anchor.operatorKey.Some? != r.anchor.ring.Some?
    requires forall t :: r.env.decode(t) != Err(NoChain)
    ensures var v := Decide(r, req, hasCache, entry, clock, clock2).verdict;
            && (v.Reject? && v.chainRequired <==>
                  (req.chainAccount == "" || req.chainUser == "") && Chainless(r, req.token)
                  && (entry.Some? ==> Run(r, req, entry, clock).Err?))
            && (v.Reject? ==> (v.chainRequired <==> v.reason == NoChain))
            && Answer(v) == (if v.Accept? then Response(200, "")
                             else Response(401, if v.reason == NoChain then "required" else ""))
  {
    var chain := if req.Detached() then Some(req.Chain()) else entry;
    NoChainMeansNoChain(r, req, chain, clock);
    AloneNeedsChain(r, req, clock);
    AloneNeedsChain(r, req, clock2);
    hide Run, Chainless;
  }

  /** Any other refusal of the first send ends the exchange with that send. */
  lemma PlainRefusalEnds(r: Receiver, hasCache: bool, before1: C.Lru, before2: C.Lru, tok: string, chain: Chain,
                         body: Bytes, audience: string, t1: Clocks, t2: Clocks)
    requires r.static_.pin.Free? && r.anchor.operatorKey.Some? != r.anchor.ring.Some?
    requires forall t :: r.env.decode(t) != Err(NoChain)
    ensures var x := Converse(r, hasCache, before1, before2, tok, chain, body, audience, t1, t2);
            !x.accepted && !Chainless(r, tok) ==> x.sends == [Outgoing(tok, None, body)]
  {
    var req := Received(Outgoing(tok, None, body), audience);
    var entry := if hasCache then Found(r, req, before1) else None;
    AsksExactly(r, req, hasCache, entry, t1.first, t1.second);
    hide Decide, Chainless;
  }

  /** A detached chain under which the token verifies is accepted, and stored under the
      token's issuer. */
  lemma SecondSend(r: Receiver, req: Request, hasCache: bool, clock: int, clock2: int)
    requires r.static_.pin.Free? && req.Detached()
    requires Verifies(r, req.token, req.body, req.audience, req.Chain(), clock)
    ensures var out := Decide(r, req, hasCache, None, clock, clock2);
            && out.verdict.Accept?
            && (hasCache ==> out.op == Some(C.Put(r.env.decode(req.token).value.issuer, req.Chain())))
  {
    hide VerifyMessage;
    var bare := Request(req.token, req.body, req.audience, "", "");
    assert RunOptions(r, req, Some(req.Chain()), clock) == OptionsWith(r, bare, req.Chain(), clock);
    RunIssuer(r, req, Some(req.Chain()), clock);
  }

  /** The clock readings of a call's two possible verifications. */
  datatype Clocks = Clocks(first: int, second: int)

  datatype Exchange = Exchange(accepted: bool, sends: seq<Outgoing>, op: Option<C.Op>)

  /** One message from a negotiating client. `before1` and `before2` are the cache
      contents the two calls find: anything may happen to the cache in between. */
  function Converse(r: Receiver, hasCache: bool, before1: C.Lru, before2: C.Lru,
                    tok: string, chain: Chain, body: Bytes, audience: string,
                    t1: Clocks, t2: Clocks): Exchange
  {
    var h := Outgoing(tok, None, body);
    var req := Received(h, audience);
    var out := Decide(r, req, hasCache, if hasCache then Found(r, req, before1) else None, t1.first, t1.second);
    var sends := FlowSends(true, chain, h, 1, [Answer(out.verdict)]);
    if |sends| == 1 then Exchange(out.verdict.Accept?, sends, out.op)
    else
      var req' := Received(sends[1], audience);
      var out' := Decide(r, req', hasCache, if hasCache then Found(r, req', before2) else None, t2.first, t2.second);
      Exchange(out'.verdict.Accept?, sends, out'.op)
  }

  /** Negotiation completes: a chainless token that verifies under its emitter's
      chain when the retransmit is checked is accepted within two sends, for every
      cache content at each send, and a second send leaves the chain stored. */
  lemma NegotiationCompletes(r: Receiver, hasCache: bool, before1: C.Lru, before2: C.Lru,
                             tok: string, chain: Chain, body: Bytes, audience: string,
                             t1: Clocks, t2: Clocks)
    requires r.static_.pin.Free? && chain.0 != "" && chain.1 != ""
    requires r.env.decode(tok).Ok? && r.env.decode(tok).value.chain.None?
    requires Verifies(r, tok, body, audience, chain, t2.first)
    ensures var x := Converse(r, hasCache, before1, before2, tok, chain, body, audience, t1, t2);
            && x.accepted && 1 <= |x.sends| <= 2
            && (|x.sends| == 2 && hasCache ==>
                  x.op == Some(C.Put(r.env.decode(tok).value.issuer, chain)))
  {
    VerifiesChainless(r, tok, body, audience, chain, t2.first);
    var h := Outgoing(tok, None, body);
    var req, req' := Received(h, audience), Received(h.(chain := Some(chain)), audience);
    var entry := if hasCache then Found(r, req, before1) else None;
    FirstSend(r, req, hasCache, entry, t1.first, t1.second);
    var v := Decide(r, req, hasCache, entry, t1.first, t1.second).verdict;
    AtMostTwoSends(true, chain, tok, body, [Answer(v)]);
    SecondSendOptions(r, tok, body, audience, chain, t2.first);
    SecondSend(r, req', hasCache, t2.first, t2.second);
    assert AsksForChain(Answer(v)) ==> |FlowSends(true, chain, h, 1, [Answer(v)])| == 2;
    hide Decide, Verifies, Chainless, VerifyMessage;
  }

  lemma SecondSendOptions(r: Receiver, tok: string, body: Bytes, audience: string, c: Chain, clock: int)
    ensures OptionsWith(r, Request(tok, body, audience, "", ""), c, clock)
         == OptionsWith(r, Request(tok, body, audience, c.0, c.1), c, clock)
  {
  }

  /** While the cache holds the emitter's chain, a valid message needs one send and
      leaves the entry alone. */
  lemma HeldChainOneSend(r: Receiver, before1: C.Lru, before2: C.Lru, tok: string, chain: Chain,
                         body: Bytes, audience: string, t1: Clocks, t2: Clocks)
    requires r.static_.pin.Free? && r.env.decode(tok).Ok? && r.env.decode(tok).value.issuer != ""
    requires C.Lookup(before1, r.env.decode(tok).value.issuer) == Some(chain)
    requires Verifies(r, tok, body, audience, chain, t1.first)
    ensures var x := Converse(r, true, before1, before2, tok, chain, body, audience, t1, t2);
            x.accepted && |x.sends| == 1 && x.op.None?
  {
  }

  /** The steady state: once the chain is stored, and as long as no step deletes or
      rebinds that key and fewer than cap other keys are used, the emitter's next
      valid message is accepted with a single send. */
  lemma SteadyState(r: Receiver, cap: nat, l: C.Lru, ops: seq<C.Op>, others: set<string>,
                    tok: string, chain: Chain, body: Bytes, audience: string,
                    t1: Clocks, t2: Clocks, before2: C.Lru)
    requires cap > |others| && C.WithinCap(l, cap)
    requires r.static_.pin.Free? && r.env.decode(tok).Ok? && r.env.decode(tok).value.issuer != ""
    requires forall i :: 0 <= i < |ops| ==> C.Harmless(ops[i], r.env.decode(tok).value.issuer, chain, others)
    requires Verifies(r, tok, body, audience, chain, t1.first)
    ensures var before1 := C.Run(C.Store(l, cap, r.env.decode(tok).value.issuer, chain), cap, ops);
            var x := Converse(r, true, before1, before2, tok, chain, body, audience, t1, t2);
            x.accepted && |x.sends| == 1 && x.op.None?
  {
    var k := r.env.decode(tok).value.issuer;
    C.StoredSurvives(l, cap, k, chain, ops, others);
    var before1 := C.Run(C.Store(l, cap, k, chain), cap, ops);
    hide Converse, Verifies;
    HeldChainOneSend(r, before1, before2, tok, chain, body, audience, t1, t2);
  }
}
