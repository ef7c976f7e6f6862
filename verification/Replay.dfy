/** The in-memory replay cache (src/valiss/replay.py).

    `Check` is one call of the source's `seen_before` as a function of the
    dictionary. `Log` is the same service with nothing ever pruned: the history
    of every nonce recorded. Pruning is invisible as long as the clock does not
    go back. Instants are integer microseconds. */
module Replay {
  import opened Errors

  type Seen = map<string, int>

  function Prune(seen: Seen, now: int): Seen {
    map n | n in seen && seen[n] > now :: seen[n]
  }

  datatype Checked = Checked(seenBefore: bool, seen: Seen)

  function Check(seen: Seen, nonce: string, expiry: int, now: int): Checked {
    var kept := Prune(seen, now);
    if nonce in kept && kept[nonce] > now then Checked(true, kept)
    else Checked(false, kept[nonce := expiry])
  }

  class MemoryReplayCache {
    var seen: Seen

    constructor ()
      ensures seen == map[]
    {
      seen := map[];
    }

    /** The clock reading is a parameter. */
    method SeenBefore(nonce: string, expiry: int, now: int) returns (before: bool)
      modifies this
      ensures Checked(before, seen) == Check(old(seen), nonce, expiry, now)
      ensures before <==> nonce in old(seen) && old(seen)[nonce] > now
      ensures forall n :: n in seen && (n != nonce || before) ==> seen[n] > now
    {
      var expired := set n | n in seen && seen[n] <= now;
      ghost var start := seen;
      while expired != {}
        invariant seen.Keys <= start.Keys
        invariant forall n :: n in seen ==> seen[n] == start[n]
        invariant forall n :: n in start && n !in seen ==> start[n] <= now
        invariant expired == set n | n in seen && seen[n] <= now
        decreases |expired|
      {
        var n :| n in expired;
        seen := seen - {n};
        expired := expired - {n};
      }
      assert forall n :: n in seen && seen[n] <= now ==> n in expired;
      assert seen == Prune(start, now);
      if nonce in seen && seen[nonce] > now {
        return true;
      }
      seen := seen[nonce := expiry];
      before := false;
    }
  }

  // ---- the unpruned log -----------------------------------------------------

  datatype Record = Record(nonce: string, expiry: int)

  type Log = seq<Record>

  /** The expiry the nonce was last recorded with. */
  function LastExpiry(log: Log, nonce: string): Option<int> {
    if log == [] then None
    else
      var last := log[|log| - 1];
      if last.nonce == nonce then Some(last.expiry) else LastExpiry(log[..|log| - 1], nonce)
  }

  predicate Live(log: Log, nonce: string, now: int) {
    LastExpiry(log, nonce).Some? && LastExpiry(log, nonce).value > now
  }

  datatype Call = Call(nonce: string, expiry: int, now: int)

  /** The answers of the pruning cache over a run, and the dictionary it ends with. */
  function Answers(seen: Seen, calls: seq<Call>): (run: (seq<bool>, Seen))
    ensures |run.0| == |calls|
    decreases |calls|
  {
    if calls == [] then ([], seen)
    else
      var c := calls[0];
      var step := Check(seen, c.nonce, c.expiry, c.now);
      var (rest, end) := Answers(step.seen, calls[1..]);
      ([step.seenBefore] + rest, end)
  }

  /** The answers of the unpruned log: a nonce was seen before exactly when its
      last recorded expiry lies ahead, and is recorded otherwise. */
  function LogAnswers(log: Log, calls: seq<Call>): (answers: seq<bool>)
    ensures |answers| == |calls|
    decreases |calls|
  {
    if calls == [] then []
    else
      var c := calls[0];
      if Live(log, c.nonce, c.now) then [true] + LogAnswers(log, calls[1..])
      else [false] + LogAnswers(log + [Record(c.nonce, c.expiry)], calls[1..])
  }

  ghost predicate Nondecreasing(calls: seq<Call>, from: int) {
    && (calls != [] ==> from <= calls[0].now)
    && forall i, j :: 0 <= i < j < |calls| ==> calls[i].now <= calls[j].now
  }

  /** At every instant from `now` on, the dictionary and the log agree. */
  ghost predicate Agree(seen: Seen, log: Log, now: int) {
    && (forall n :: n in seen ==> LastExpiry(log, n) == Some(seen[n]))
    && (forall n :: Live(log, n, now) ==> n in seen)
  }

  lemma LastExpiryAppend(log: Log, r: Record, n: string)
    ensures LastExpiry(log + [r], n) == if n == r.nonce then Some(r.expiry) else LastExpiry(log, n)
  {
  }

  lemma CheckAgrees(seen: Seen, log: Log, from: int, c: Call)
    requires Agree(seen, log, from) && from <= c.now
    ensures var step := Check(seen, c.nonce, c.expiry, c.now);
            && step.seenBefore == Live(log, c.nonce, c.now)
            && Agree(step.seen, if step.seenBefore then log else log + [Record(c.nonce, c.expiry)], c.now)
  {
  }

  /** Pruning is invisible: with a clock that never goes back, the pruning cache
      answers as the unpruned log does. */
  lemma {:induction false} PruningInvisible(seen: Seen, log: Log, from: int, calls: seq<Call>)
    requires Agree(seen, log, from) && Nondecreasing(calls, from)
    ensures Answers(seen, calls).0 == LogAnswers(log, calls)
    decreases |calls|
  {
    if calls != [] {
      var c := calls[0];
      CheckAgrees(seen, log, from, c);
      var step := Check(seen, c.nonce, c.expiry, c.now);
      var log' := if step.seenBefore then log else log + [Record(c.nonce, c.expiry)];
      PruningInvisible(step.seen, log', c.now, calls[1..]);
    }
  }

  // ---- exactly when pruning shows ---------------------------------------------

  /** Clock readings in order from the second on; the first finds nothing to prune. */
  ghost predicate OrderedFromSecond(nows: seq<int>) {
    forall i, j :: 1 <= i < j < |nows| ==> nows[i] <= nows[j]
  }

  ghost predicate ReadAt(calls: seq<Call>, nows: seq<int>) {
    |calls| == |nows| && forall i :: 0 <= i < |nows| ==> calls[i].now == nows[i]
  }

  /** Under these readings a new pruning cache answers every sequence of nonces and
      expiries as the log does. */
  ghost predicate NeverShows(nows: seq<int>) {
    forall calls :: ReadAt(calls, nows) ==> Answers(map[], calls).0 == LogAnswers([], calls)
  }

  lemma FirstCall(c: Call)
    ensures Check(map[], c.nonce, c.expiry, c.now) == Checked(false, map[c.nonce := c.expiry])
    ensures !Live([], c.nonce, c.now)
    ensures forall now :: Agree(map[c.nonce := c.expiry], [Record(c.nonce, c.expiry)], now)
  {
    assert [] + [Record(c.nonce, c.expiry)] == [Record(c.nonce, c.expiry)];
    forall n ensures LastExpiry([Record(c.nonce, c.expiry)], n) == if n == c.nonce then Some(c.expiry) else None {
      LastExpiryAppend([], Record(c.nonce, c.expiry), n);
    }
  }

  lemma PruningInvisibleFromEmpty(calls: seq<Call>, nows: seq<int>)
    requires ReadAt(calls, nows) && OrderedFromSecond(nows)
    ensures Answers(map[], calls).0 == LogAnswers([], calls)
  {
    if calls != [] {
      var c, rest := calls[0], calls[1..];
      FirstCall(c);
      var log := [Record(c.nonce, c.expiry)];
      assert [] + log == log;
      if rest != [] {
        assert Nondecreasing(rest, rest[0].now);
        PruningInvisible(map[c.nonce := c.expiry], log, rest[0].now, rest);
      }
    }
  }

  function LogAfter(log: Log, c: Call): Log {
    if Live(log, c.nonce, c.now) then log else log + [Record(c.nonce, c.expiry)]
  }

  lemma FirstAnswers(seen: Seen, log: Log, calls: seq<Call>)
    requires calls != []
    ensures var c := calls[0];
            var step := Check(seen, c.nonce, c.expiry, c.now);
            && Answers(seen, calls).0 == [step.seenBefore] + Answers(step.seen, calls[1..]).0
            && LogAnswers(log, calls) == [Live(log, c.nonce, c.now)] + LogAnswers(LogAfter(log, c), calls[1..])
  {
  }

  /** The log still knows the nonce; the cache does not, or is about to forget it. */
  ghost predicate Forgetting(seen: Seen, log: Log, nonce: string, expiry: int) {
    LastExpiry(log, nonce) == Some(expiry) && (nonce in seen ==> seen[nonce] == expiry)
  }

  lemma OtherCall(seen: Seen, log: Log, c: Call, nonce: string, expiry: int)
    requires Forgetting(seen, log, nonce, expiry) && c.nonce != nonce
    ensures var step := Check(seen, c.nonce, c.expiry, c.now);
            && Forgetting(step.seen, LogAfter(log, c), nonce, expiry)
            && (nonce in step.seen ==> nonce in seen && expiry > c.now)
  {
    LastExpiryAppend(log, Record(c.nonce, c.expiry), nonce);
  }

  /** A nonce whose entry expired for the cache but not for the log is answered
      differently, wherever in a run it is asked for next. */
  lemma {:induction false} PrunedShows(seen: Seen, log: Log, calls: seq<Call>, nonce: string, expiry: int,
                                       i: nat, j: nat)
    requires j < |calls| && calls[j].nonce == nonce && calls[j].now < expiry
    requires forall k :: 0 <= k < j ==> calls[k].nonce != nonce
    requires Forgetting(seen, log, nonce, expiry)
    requires nonce in seen ==> i < j && expiry <= calls[i].now
    ensures Answers(seen, calls).0[j] != LogAnswers(log, calls)[j]
    decreases j
  {
    hide Answers, LogAnswers, LogAfter, Forgetting;
    var c := calls[0];
    FirstAnswers(seen, log, calls);
    if j > 0 {
      hide Check;
      OtherCall(seen, log, c, nonce, expiry);
      var step := Check(seen, c.nonce, c.expiry, c.now);
      PrunedShows(step.seen, LogAfter(log, c), calls[1..], nonce, expiry, if i > 0 then i - 1 else 0, j - 1);
    } else {
      AskedNow(seen, log, c, expiry);
    }
  }

  lemma AskedNow(seen: Seen, log: Log, c: Call, expiry: int)
    requires Forgetting(seen, log, c.nonce, expiry) && c.nonce !in seen && c.now < expiry
    ensures !Check(seen, c.nonce, c.expiry, c.now).seenBefore && Live(log, c.nonce, c.now)
  {
  }

  /** Record, prune after the expiry, ask before it: a clock that goes back at j from
      what it was at i tells the two apart. */
  lemma BackwardClockVisible(nows: seq<int>, i: nat, j: nat)
    requires 1 <= i < j < |nows| && nows[i] > nows[j]
    ensures !NeverShows(nows)
  {
    hide Answers, LogAnswers, Check, LastExpiry;
    var e := nows[i];
    var calls := seq(|nows|, k requires 0 <= k < |nows| => Call(if k == 0 || k == j then "a" else "b", e, nows[k]));
    assert ReadAt(calls, nows);
    var log := [Record("a", e)];
    assert [] + log == log;
    Recorded("a", e);
    FirstCall(calls[0]);
    FirstAnswers(map[], [], calls);
    assert "b"[0] != "a"[0];
    var rest := calls[1..];
    assert forall k :: 0 <= k < j - 1 ==> rest[k].nonce == "b";
    PrunedShows(map["a" := e], log, rest, "a", e, i - 1, j - 1);
    assert Answers(map[], calls).0[j] != LogAnswers([], calls)[j];
  }

  lemma Recorded(nonce: string, expiry: int)
    ensures Forgetting(map[nonce := expiry], [Record(nonce, expiry)], nonce, expiry)
  {
  }

  /** Pruning is invisible, whatever nonces and expiries come, exactly when the clock
      does not go back from the second reading on. */
  lemma NeverShowsExactly(nows: seq<int>)
    ensures NeverShows(nows) <==> OrderedFromSecond(nows)
  {
    if OrderedFromSecond(nows) {
      forall calls | ReadAt(calls, nows) ensures Answers(map[], calls).0 == LogAnswers([], calls) {
        PruningInvisibleFromEmpty(calls, nows);
      }
    } else {
      var i, j :| 1 <= i < j < |nows| && nows[i] > nows[j];
      BackwardClockVisible(nows, i, j);
    }
  }
}
