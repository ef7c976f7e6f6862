/** How often a captured request can be replayed: the signature window against the
    nonce retention window, over whole runs of a verifier (src/valiss/verifier.py,
    src/valiss/replay.py).

    The cache reads its own clock, after the verifier read its: an arrival carries
    both readings. */
module ReplayBound {
  import opened Bits
  import opened Errors
  import opened Text
  import opened Token
  import opened RequestVerifier
  import R = Replay
  import RequestContext

  datatype Arrival = Arrival(req: Request, now: int, cacheNow: int)

  function SeenAfter(cfg: Config, seen: R.Seen, arrivals: seq<Arrival>): R.Seen
    decreases |arrivals|
  {
    if arrivals == [] then seen
    else
      var a := arrivals[0];
      SeenAfter(cfg, Judge(cfg, seen, a.req, a.now, a.cacheNow).seen, arrivals[1..])
  }

  /** The request is authenticated, signed, and its nonce was not seen before. */
  predicate Passes(cfg: Config, seen: R.Seen, a: Arrival) {
    && Authenticated(cfg, a.req, a.now).Ok? && Signed(a.req) && a.req.nonce != ""
    && !Gate(cfg, seen, a.req, a.now, a.cacheNow).seenBefore
  }

  predicate PassesAt(cfg: Config, seen: R.Seen, arrivals: seq<Arrival>, i: nat)
    requires i < |arrivals|
  {
    Passes(cfg, SeenAfter(cfg, seen, arrivals[..i]), arrivals[i])
  }

  /** Calls reach the cache in clock order. */
  ghost predicate InOrder(arrivals: seq<Arrival>) {
    forall i, j :: 0 <= i < j < |arrivals| ==> arrivals[i].cacheNow <= arrivals[j].cacheNow
  }

  /** Only an authenticated, signed request with a nonce touches the cache: passing, it
      records its own nonce, and every other entry keeps its expiry or has expired. */
  lemma OnlyAuthenticatedConsumes(cfg: Config, seen: R.Seen, a: Arrival)
    ensures Judge(cfg, seen, a.req, a.now, a.cacheNow).seen != seen ==>
              Authenticated(cfg, a.req, a.now).Ok? && Signed(a.req) && a.req.nonce != ""
    ensures var after := Judge(cfg, seen, a.req, a.now, a.cacheNow).seen;
            && (forall n :: n in after ==>
                  if Passes(cfg, seen, a) && n == a.req.nonce then after[n] == a.now + 2 * cfg.skew
                  else n in seen && after[n] == seen[n])
            && (forall n :: n in seen && n !in after ==> seen[n] <= a.cacheNow)
  {
    hide Authenticated, RunHooks;
  }

  lemma {:induction false} SeenAfterConcat(cfg: Config, seen: R.Seen, a: seq<Arrival>, b: seq<Arrival>)
    ensures SeenAfter(cfg, seen, a + b) == SeenAfter(cfg, SeenAfter(cfg, seen, a), b)
    decreases |a|
  {
    if a == [] {
      assert a + b == b;
    } else {
      assert (a + b)[1..] == a[1..] + b;
      SeenAfterConcat(cfg, Judge(cfg, seen, a[0].req, a[0].now, a[0].cacheNow).seen, a[1..], b);
    }
  }

  ghost predicate Recorded(seen: R.Seen, nonce: string, expiry: int) {
    nonce in seen && seen[nonce] == expiry
  }

  lemma JudgeRetains(cfg: Config, seen: R.Seen, a: Arrival, nonce: string, expiry: int)
    requires Recorded(seen, nonce, expiry) && a.cacheNow < expiry
    ensures Recorded(Judge(cfg, seen, a.req, a.now, a.cacheNow).seen, nonce, expiry)
  {
  }

  lemma {:induction false} RunRetains(cfg: Config, seen: R.Seen, arrivals: seq<Arrival>, nonce: string, expiry: int)
    requires Recorded(seen, nonce, expiry)
    requires forall i :: 0 <= i < |arrivals| ==> arrivals[i].cacheNow < expiry
    ensures Recorded(SeenAfter(cfg, seen, arrivals), nonce, expiry)
    decreases |arrivals|
  {
    if arrivals != [] {
      var a := arrivals[0];
      JudgeRetains(cfg, seen, a, nonce, expiry);
      RunRetains(cfg, Judge(cfg, seen, a.req, a.now, a.cacheNow).seen, arrivals[1..], nonce, expiry);
    }
  }

  lemma PassRecords(cfg: Config, seen: R.Seen, a: Arrival)
    requires Passes(cfg, seen, a)
    ensures Recorded(Judge(cfg, seen, a.req, a.now, a.cacheNow).seen, a.req.nonce, a.now + 2 * cfg.skew)
  {
  }

  lemma RecordedBlocks(cfg: Config, seen: R.Seen, a: Arrival, expiry: int)
    requires Recorded(seen, a.req.nonce, expiry) && a.cacheNow < expiry
    ensures !Passes(cfg, seen, a)
  {
  }

  /** In any run, two requests with one nonce pass the gate only if the cache sees
      the second at least twice the skew after the verifier saw the first. */
  lemma GateReopens(cfg: Config, seen: R.Seen, arrivals: seq<Arrival>, i: nat, j: nat)
    requires i < j < |arrivals| && InOrder(arrivals)
    requires PassesAt(cfg, seen, arrivals, i) && PassesAt(cfg, seen, arrivals, j)
    requires arrivals[i].req.nonce == arrivals[j].req.nonce
    ensures arrivals[j].cacheNow >= arrivals[i].now + 2 * cfg.skew
  {
    hide Judge, Passes;
    var a, b, mid := arrivals[i], arrivals[j], arrivals[i + 1..j];
    var expiry := a.now + 2 * cfg.skew;
    if b.cacheNow < expiry {
      var before := SeenAfter(cfg, seen, arrivals[..i]);
      var after := Judge(cfg, before, a.req, a.now, a.cacheNow).seen;
      PassRecords(cfg, before, a);
      RunRetains(cfg, after, mid, a.req.nonce, expiry);
      assert arrivals[..j] == arrivals[..i] + ([a] + mid);
      SeenAfterConcat(cfg, seen, arrivals[..i], [a] + mid);
      assert ([a] + mid)[1..] == mid;
      RecordedBlocks(cfg, SeenAfter(cfg, after, mid), b, expiry);
      assert false;
    }
  }

  ghost predicate RecordedBy(cfg: Config, arrivals: seq<Arrival>, i: nat, nonce: string, expiry: int)
    requires i < |arrivals|
  {
    && PassesAt(cfg, map[], arrivals, i) && arrivals[i].req.nonce == nonce
    && expiry == arrivals[i].now + 2 * cfg.skew
  }

  lemma SeenStep(cfg: Config, seen: R.Seen, arrivals: seq<Arrival>, j: nat)
    requires j < |arrivals|
    ensures var before, a := SeenAfter(cfg, seen, arrivals[..j]), arrivals[j];
            SeenAfter(cfg, seen, arrivals[..j + 1]) == Judge(cfg, before, a.req, a.now, a.cacheNow).seen
  {
    hide Judge;
    assert arrivals[..j + 1] == arrivals[..j] + [arrivals[j]];
    SeenAfterConcat(cfg, seen, arrivals[..j], [arrivals[j]]);
    assert [arrivals[j]][1..] == [];
  }

  /** Whatever a run leaves in the cache, some pass of the run recorded. */
  lemma {:induction false} EntryFromPass(cfg: Config, arrivals: seq<Arrival>, j: nat, nonce: string) returns (i: nat)
    requires j <= |arrivals| && nonce in SeenAfter(cfg, map[], arrivals[..j])
    ensures i < j && RecordedBy(cfg, arrivals, i, nonce, SeenAfter(cfg, map[], arrivals[..j])[nonce])
  {
    assert arrivals[..0] == [];
    hide Judge, Passes;
    SeenStep(cfg, map[], arrivals, j - 1);
    var before, a := SeenAfter(cfg, map[], arrivals[..j - 1]), arrivals[j - 1];
    OnlyAuthenticatedConsumes(cfg, before, a);
    if Passes(cfg, before, a) && nonce == a.req.nonce {
      i := j - 1;
    } else {
      i := EntryFromPass(cfg, arrivals, j - 1, nonce);
    }
  }

  lemma PassesUnless(cfg: Config, seen: R.Seen, a: Arrival)
    ensures Passes(cfg, seen, a)
       <==> Authenticated(cfg, a.req, a.now).Ok? && Signed(a.req) && a.req.nonce != ""
            && !(a.req.nonce in seen && seen[a.req.nonce] > a.cacheNow)
  {
    hide Authenticated;
  }

  /** From an empty cache, with calls in clock order, a request passes the gate exactly
      when it is authenticated, signed, has a nonce, and every earlier pass of that
      nonce was read by the verifier at least twice the skew before. */
  lemma PassesExactly(cfg: Config, arrivals: seq<Arrival>, j: nat)
    requires j < |arrivals| && InOrder(arrivals)
    ensures var b := arrivals[j];
            PassesAt(cfg, map[], arrivals, j)
            <==> Authenticated(cfg, b.req, b.now).Ok? && Signed(b.req) && b.req.nonce != ""
                 && forall i :: 0 <= i < j && PassesAt(cfg, map[], arrivals, i) && arrivals[i].req.nonce == b.req.nonce
                                ==> arrivals[i].now + 2 * cfg.skew <= b.cacheNow
  {
    hide Passes, Authenticated, Judge;
    var b, seen := arrivals[j], SeenAfter(cfg, map[], arrivals[..j]);
    PassesUnless(cfg, seen, b);
    if PassesAt(cfg, map[], arrivals, j) {
      forall i | 0 <= i < j && PassesAt(cfg, map[], arrivals, i) && arrivals[i].req.nonce == b.req.nonce
        ensures arrivals[i].now + 2 * cfg.skew <= b.cacheNow
      {
        GateReopens(cfg, map[], arrivals, i, j);
      }
    } else if b.req.nonce in seen {
      var i := EntryFromPass(cfg, arrivals, j, b.req.nonce);
    }
  }

  lemma InsideDrift(cfg: Config, seen: R.Seen, a: Arrival)
    requires Passes(cfg, seen, a)
    ensures cfg.env.parseInstant(a.req.timestamp).Some?
    ensures var ts := cfg.env.parseInstant(a.req.timestamp).value;
            ts - cfg.skew <= a.now <= ts + cfg.skew
  {
  }

  /** One timestamp and nonce can pass twice only across the whole signature window:
      the second pass reaches the cache no earlier than the last instant at which the
      signature is in date. */
  lemma SameRequestTwice(cfg: Config, seen: R.Seen, arrivals: seq<Arrival>, i: nat, j: nat)
    requires i < j < |arrivals| && InOrder(arrivals)
    requires PassesAt(cfg, seen, arrivals, i) && PassesAt(cfg, seen, arrivals, j)
    requires arrivals[i].req.nonce == arrivals[j].req.nonce
    requires arrivals[i].req.timestamp == arrivals[j].req.timestamp
    ensures var ts := cfg.env.parseInstant(arrivals[i].req.timestamp).value;
            && arrivals[j].cacheNow >= ts + cfg.skew >= arrivals[j].now
            // with no lag between the two readings, at exactly one instant
            && (arrivals[j].now == arrivals[j].cacheNow ==>
                  arrivals[i].now == ts - cfg.skew && arrivals[j].now == ts + cfg.skew)
  {
    GateReopens(cfg, seen, arrivals, i, j);
    InsideDrift(cfg, SeenAfter(cfg, seen, arrivals[..i]), arrivals[i]);
    InsideDrift(cfg, SeenAfter(cfg, seen, arrivals[..j]), arrivals[j]);
  }

  /** The bound is tight: a request authenticated at both ends of its window passes
      at both, on any cache that does not know its nonce. */
  lemma BoundIsTight(cfg: Config, seen: R.Seen, req: Request)
    requires Signed(req) && req.nonce != "" && req.nonce !in seen
    requires cfg.env.parseInstant(req.timestamp).Some?
    requires var ts := cfg.env.parseInstant(req.timestamp).value;
             Authenticated(cfg, req, ts - cfg.skew).Ok? && Authenticated(cfg, req, ts + cfg.skew).Ok?
    ensures var ts := cfg.env.parseInstant(req.timestamp).value;
            var arrivals := [Arrival(req, ts - cfg.skew, ts - cfg.skew), Arrival(req, ts + cfg.skew, ts + cfg.skew)];
            PassesAt(cfg, seen, arrivals, 0) && PassesAt(cfg, seen, arrivals, 1)
  {
    hide Authenticated, RunHooks;
    var ts := cfg.env.parseInstant(req.timestamp).value;
    var a, b := Arrival(req, ts - cfg.skew, ts - cfg.skew), Arrival(req, ts + cfg.skew, ts + cfg.skew);
    assert [a, b][..0] == [] && [a, b][..1] == [a] && [a][1..] == [];
    var after := Judge(cfg, seen, req, ts - cfg.skew, ts - cfg.skew).seen;
    PassRecords(cfg, seen, a);
    assert SeenAfter(cfg, seen, [a]) == SeenAfter(cfg, after, []) == after;
  }

  // ---- a captured signature ---------------------------------------------------------------

  /** The transport binds method, host, path and nonce. Only the path, which servers
      hand over percent-decoded, can hold a line break. */
  datatype Operation = Operation(verb: string, host: string, path: string)

  ghost predicate Binds(req: Request, op: Operation) {
    && OneLine(op.verb) && OneLine(op.host) && OneLine(req.nonce)
    && req.context == RequestContext.Context(op.verb, op.host, op.path, req.nonce)
  }

  /** What is asked of the primitives, for one captured signature and the two payloads
      at hand: it verifies for one message only, and the hash does not collide. */
  ghost predicate NoForgery(env: Env, subject: string, raw: Bytes, a: Request, b: Request) {
    && (env.checks(subject, SignedPayload(env, a.timestamp, a.context), raw)
        && env.checks(subject, SignedPayload(env, b.timestamp, b.context), raw) ==>
          SignedPayload(env, a.timestamp, a.context) == SignedPayload(env, b.timestamp, b.context))
    && |env.hash(a.context)| == |env.hash(b.context)|
    && (env.hash(a.context) == env.hash(b.context) ==> a.context == b.context)
  }

  lemma AcceptedSignature(cfg: Config, seen: R.Seen, a: Arrival)
    requires Passes(cfg, seen, a)
    ensures var id := Authenticated(cfg, a.req, a.now).value;
            && cfg.env.parseSignature(a.req.signature).Some?
            && cfg.env.checks(Subject(id), SignedPayload(cfg.env, a.req.timestamp, a.req.context),
                              cfg.env.parseSignature(a.req.signature).value)
  {
  }

  /** A captured signature, in whatever base64 spelling it is sent, authorizes the
      operation it was made for and no other, under the same nonce, and can pass a
      second time only at the single instant where its window and the nonce's
      retention meet. */
  lemma CapturedSignature(cfg: Config, seen: R.Seen, arrivals: seq<Arrival>, i: nat, j: nat,
                          raw: Bytes, op: Operation, op': Operation)
    requires i < j < |arrivals| && InOrder(arrivals)
    requires PassesAt(cfg, seen, arrivals, i) && PassesAt(cfg, seen, arrivals, j)
    requires cfg.env.parseSignature(arrivals[i].req.signature) == Some(raw)
    requires cfg.env.parseSignature(arrivals[j].req.signature) == Some(raw)
    requires var a, b := arrivals[i], arrivals[j];
             && Subject(Authenticated(cfg, a.req, a.now).value) == Subject(Authenticated(cfg, b.req, b.now).value)
             && NoForgery(cfg.env, Subject(Authenticated(cfg, a.req, a.now).value), raw, a.req, b.req)
    requires Binds(arrivals[i].req, op) && Binds(arrivals[j].req, op')
    ensures op == op'
    ensures arrivals[i].req.nonce == arrivals[j].req.nonce
    ensures arrivals[i].req.timestamp == arrivals[j].req.timestamp
    ensures var ts := cfg.env.parseInstant(arrivals[i].req.timestamp).value;
            && arrivals[j].cacheNow >= ts + cfg.skew
            && (arrivals[j].now == arrivals[j].cacheNow ==>
                  arrivals[i].now == ts - cfg.skew && arrivals[j].now == ts + cfg.skew)
  {
    hide SignedPayload, Passes, Authenticated;
    var a, b := arrivals[i], arrivals[j];
    AcceptedSignature(cfg, SeenAfter(cfg, seen, arrivals[..i]), a);
    AcceptedSignature(cfg, SeenAfter(cfg, seen, arrivals[..j]), b);
    SignedPayloadInjective(cfg.env, a.req.timestamp, a.req.context, b.req.timestamp, b.req.context);
    RequestContext.ContextInjective(op.verb, op.host, op.path, a.req.nonce, op'.verb, op'.host, op'.path, b.req.nonce);
    SameRequestTwice(cfg, seen, arrivals, i, j);
  }
}
