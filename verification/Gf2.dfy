/** Cyclic redundancy checks over GF(2), for any generator.

    A generator of degree w is x^w + g with g given by its w low coefficients,
    highest power first. `Crc` is the bit-serial register; `IsRemainder` is
    polynomial division; the two agree, and a generator with a constant term
    detects every error burst of at most w bits. */
module Gf2 {
  import opened Bits

  function Step(g: seq<bool>, r: seq<bool>, b: bool): (s: seq<bool>)
    requires |r| == |g| > 0
    ensures |s| == |g|
  {
    Xor(r[1..] + [false], if r[0] != b then g else Zeros(|g|))
  }

  /** The register after it has absorbed the message bits d. */
  function Crc(g: seq<bool>, r: seq<bool>, d: seq<bool>): (s: seq<bool>)
    requires |r| == |g| > 0
    ensures |s| == |g|
    decreases |d|
  {
    if d == [] then r else Crc(g, Step(g, r, d[0]), d[1..])
  }

  lemma {:induction false} CrcConcat(g: seq<bool>, r: seq<bool>, a: seq<bool>, b: seq<bool>)
    requires |r| == |g| > 0
    ensures Crc(g, r, a + b) == Crc(g, Crc(g, r, a), b)
    decreases |a|
  {
    if a == [] {
      assert a + b == b;
    } else {
      assert (a + b)[1..] == a[1..] + b;
      CrcConcat(g, Step(g, r, a[0]), a[1..], b);
    }
  }

  lemma CrcSnoc(g: seq<bool>, r: seq<bool>, d: seq<bool>, b: bool)
    requires |r| == |g| > 0
    ensures Crc(g, r, d + [b]) == Step(g, Crc(g, r, d), b)
  {
    CrcConcat(g, r, d, [b]);
  }

  // ---- the register is the polynomial remainder --------------------------

  /** The generator, or zero, times x^n. */
  function Lead(g: seq<bool>, top: bool, n: nat): (p: seq<bool>)
    ensures |p| == n + |g| + 1
  {
    if top then [true] + g + Zeros(n) else Zeros(n + |g| + 1)
  }

  /** q times the generator, highest power first. */
  function Times(g: seq<bool>, q: seq<bool>): (p: seq<bool>)
    ensures |p| == |q| + |g|
  {
    if q == [] then Zeros(|g|)
    else Xor(Lead(g, q[0], |q| - 1), [false] + Times(g, q[1..]))
  }

  /** f is q times the generator plus r, with r of degree below the generator's. */
  ghost predicate IsQuotient(g: seq<bool>, f: seq<bool>, q: seq<bool>, r: seq<bool>) {
    && |r| == |g| && |f| == |q| + |g|
    && var p := Times(g, q);
       forall i :: 0 <= i < |f| ==> f[i] == (p[i] != (i >= |q| && r[i - |q|]))
  }

  ghost predicate IsRemainder(g: seq<bool>, f: seq<bool>, r: seq<bool>) {
    exists q :: IsQuotient(g, f, q, r)
  }

  /** The polynomial a register r with message bits d still to come stands for. */
  function Pending(r: seq<bool>, d: seq<bool>): (f: seq<bool>)
    ensures |f| == |d| + |r|
  {
    Xor(r + Zeros(|d|), d + Zeros(|r|))
  }

  lemma PendingAt(r: seq<bool>, d: seq<bool>, i: nat)
    requires i < |d| + |r|
    ensures Pending(r, d)[i] == ((i < |r| && r[i]) != (i < |d| && d[i]))
  {
  }

  lemma LeadAt(g: seq<bool>, top: bool, n: nat, i: nat)
    requires i < n + |g| + 1
    ensures Lead(g, top, n)[i] == (top && (i == 0 || (i <= |g| && g[i - 1])))
  {
  }

  lemma StepAt(g: seq<bool>, r: seq<bool>, b: bool, i: nat)
    requires |r| == |g| > i
    ensures Step(g, r, b)[i] == ((i + 1 < |r| && r[i + 1]) != (r[0] != b && g[i]))
  {
  }

  lemma TimesAt(g: seq<bool>, q: seq<bool>, i: nat)
    requires q != [] && i < |q| + |g|
    ensures Times(g, q)[i] == (Lead(g, q[0], |q| - 1)[i] != (i > 0 && Times(g, q[1..])[i - 1]))
  {
  }

  /** Subtracting the leading multiple leaves the stepped register. */
  lemma DivisionStep(g: seq<bool>, r: seq<bool>, d: seq<bool>)
    requires |r| == |g| > 0 && d != []
    ensures Pending(r, d)
         == Xor(Lead(g, r[0] != d[0], |d| - 1), [false] + Pending(Step(g, r, d[0]), d[1..]))
  {
    var f, lead := Pending(r, d), Lead(g, r[0] != d[0], |d| - 1);
    var f' := Pending(Step(g, r, d[0]), d[1..]);
    forall i | 0 <= i < |f| ensures f[i] == Xor(lead, [false] + f')[i] {
      PendingAt(r, d, i);
      LeadAt(g, r[0] != d[0], |d| - 1, i);
      if i > 0 {
        PendingAt(Step(g, r, d[0]), d[1..], i - 1);
        if i <= |g| { StepAt(g, r, d[0], i - 1); }
      }
    }
  }

  /** Long division, following the register. */
  lemma {:induction false} Division(g: seq<bool>, r: seq<bool>, d: seq<bool>) returns (q: seq<bool>)
    requires |r| == |g| > 0
    ensures |q| == |d| && IsQuotient(g, Pending(r, d), q, Crc(g, r, d))
    decreases |d|
  {
    if d == [] {
      q := [];
      assert Pending(r, d) == r;
    } else {
      var q' := Division(g, Step(g, r, d[0]), d[1..]);
      q := [r[0] != d[0]] + q';
      assert q[1..] == q';
      DivisionStep(g, r, d);
      QuotientCons(g, Pending(Step(g, r, d[0]), d[1..]), q, Crc(g, r, d));
    }
  }

  lemma QuotientCons(g: seq<bool>, f: seq<bool>, q: seq<bool>, r: seq<bool>)
    requires q != [] && IsQuotient(g, f, q[1..], r)
    ensures IsQuotient(g, Xor(Lead(g, q[0], |q| - 1), [false] + f), q, r)
  {
    hide Times, Lead;
    var lead, tail, p, t := Lead(g, q[0], |q| - 1), [false] + f, Times(g, q), Times(g, q[1..]);
    var whole := Xor(lead, tail);
    forall i | 0 <= i < |whole| ensures whole[i] == (p[i] != (i >= |q| && r[i - |q|])) {
      TimesAt(g, q, i);
      if i > 0 { assert tail[i] == f[i - 1] == (t[i - 1] != (i - 1 >= |q[1..]| && r[i - 1 - |q[1..]|])); }
    }
  }

  ghost predicate SamePrefix(a: seq<bool>, b: seq<bool>, n: nat) {
    n <= |a| && n <= |b| && forall i :: 0 <= i < n ==> a[i] == b[i]
  }

  lemma TimesTails(g: seq<bool>, p: seq<bool>, q: seq<bool>)
    requires |p| == |q| > 0 && SamePrefix(Times(g, p), Times(g, q), |p|)
    ensures p[0] == q[0]
    ensures SamePrefix(Times(g, p[1..]), Times(g, q[1..]), |p| - 1)
  {
    TimesAt(g, p, 0);
    TimesAt(g, q, 0);
    LeadAt(g, p[0], |p| - 1, 0);
    LeadAt(g, q[0], |q| - 1, 0);
    var tp, tq := Times(g, p[1..]), Times(g, q[1..]);
    forall i | 0 <= i < |p| - 1 ensures tp[i] == tq[i] {
      TimesAt(g, p, i + 1);
      TimesAt(g, q, i + 1);
    }
  }

  lemma {:induction false} TimesInjective(g: seq<bool>, p: seq<bool>, q: seq<bool>)
    requires |p| == |q| && SamePrefix(Times(g, p), Times(g, q), |p|)
    ensures p == q
  {
    if p != [] {
      TimesTails(g, p, q);
      TimesInjective(g, p[1..], q[1..]);
      assert p == [p[0]] + p[1..] && q == [q[0]] + q[1..];
    }
  }

  lemma QuotientUnique(g: seq<bool>, f: seq<bool>, p: seq<bool>, r: seq<bool>, q: seq<bool>, s: seq<bool>)
    requires IsQuotient(g, f, p, r) && IsQuotient(g, f, q, s)
    ensures p == q
  {
    var tp, tq := Times(g, p), Times(g, q);
    forall i | 0 <= i < |p| ensures tp[i] == tq[i] {
      assert f[i] == tp[i] && f[i] == tq[i];
    }
    TimesInjective(g, p, q);
  }

  lemma RemainderUnique(g: seq<bool>, f: seq<bool>, r: seq<bool>, s: seq<bool>)
    requires IsRemainder(g, f, r) && IsRemainder(g, f, s)
    ensures r == s
  {
    var p :| IsQuotient(g, f, p, r);
    var q :| IsQuotient(g, f, q, s);
    QuotientUnique(g, f, p, r, q, s);
    SameQuotient(g, f, p, r, s);
  }

  lemma SameQuotient(g: seq<bool>, f: seq<bool>, q: seq<bool>, r: seq<bool>, s: seq<bool>)
    requires IsQuotient(g, f, q, r) && IsQuotient(g, f, q, s)
    ensures r == s
  {
    hide Times, Lead;
    var t := Times(g, q);
    forall i | 0 <= i < |g| ensures r[i] == s[i] {
      var k := |q| + i;
      assert f[k] == (t[k] != r[k - |q|]) && f[k] == (t[k] != s[k - |q|]);
    }
  }

  /** The final register is the remainder of the message shifted up by the
      degree, and the only one. */
  lemma CrcIsRemainder(g: seq<bool>, d: seq<bool>, r: seq<bool>)
    requires |g| > 0
    ensures IsRemainder(g, d + Zeros(|g|), r) <==> r == Crc(g, Zeros(|g|), d)
  {
    var q := Division(g, Zeros(|g|), d);
    assert Pending(Zeros(|g|), d) == d + Zeros(|g|);
    if IsRemainder(g, d + Zeros(|g|), r) {
      RemainderUnique(g, d + Zeros(|g|), r, Crc(g, Zeros(|g|), d));
    }
  }

  /** Equal polynomials, equal registers. */
  lemma SamePending(g: seq<bool>, r: seq<bool>, d: seq<bool>, s: seq<bool>, e: seq<bool>)
    requires |r| == |s| == |g| > 0
    requires Pending(r, d) == Pending(s, e)
    ensures Crc(g, r, d) == Crc(g, s, e)
  {
    var p := Division(g, r, d);
    var q := Division(g, s, e);
    RemainderUnique(g, Pending(r, d), Crc(g, r, d), Crc(g, s, e));
  }

  // ---- error detection ---------------------------------------------------

  lemma StepLinear(g: seq<bool>, r: seq<bool>, s: seq<bool>, a: bool, b: bool)
    requires |r| == |s| == |g| > 0
    ensures Step(g, Xor(r, s), a != b) == Xor(Step(g, r, a), Step(g, s, b))
  {
  }

  /** The checksum of a sum is the sum of the checksums. */
  lemma {:induction false} CrcLinear(g: seq<bool>, r: seq<bool>, s: seq<bool>, d: seq<bool>, e: seq<bool>)
    requires |r| == |s| == |g| > 0 && |d| == |e|
    ensures Crc(g, Xor(r, s), Xor(d, e)) == Xor(Crc(g, r, d), Crc(g, s, e))
    decreases |d|
  {
    if d != [] {
      StepLinear(g, r, s, d[0], e[0]);
      assert Xor(d, e)[1..] == Xor(d[1..], e[1..]);
      CrcLinear(g, Step(g, r, d[0]), Step(g, s, e[0]), d[1..], e[1..]);
    }
  }

  lemma CrcOfDifference(g: seq<bool>, d: seq<bool>, e: seq<bool>)
    requires |g| > 0 && |d| == |e|
    requires Crc(g, Zeros(|g|), d) == Crc(g, Zeros(|g|), e)
    ensures Crc(g, Zeros(|g|), Xor(d, e)) == Zeros(|g|)
  {
    var z := Zeros(|g|);
    CrcLinear(g, z, z, d, e);
    XorSelf(z);
    XorSelf(Crc(g, z, d));
  }

  /** With a constant term, zero message bits never clear a nonzero register. */
  lemma {:induction false} ZerosInvertible(g: seq<bool>, r: seq<bool>, n: nat)
    requires |r| == |g| > 0 && g[|g| - 1]
    requires Crc(g, r, Zeros(n)) == Zeros(|g|)
    ensures r == Zeros(|g|)
    decreases n
  {
    if n > 0 {
      assert Zeros(n)[1..] == Zeros(n - 1);
      var s := Step(g, r, false);
      ZerosInvertible(g, s, n - 1);
      StepAt(g, r, false, |g| - 1);
      forall i | 1 <= i < |g| ensures !r[i] {
        StepAt(g, r, false, i - 1);
      }
    }
  }

  lemma {:induction false} LeadingZeros(g: seq<bool>, n: nat, d: seq<bool>)
    requires |g| > 0
    ensures Crc(g, Zeros(|g|), Zeros(n) + d) == Crc(g, Zeros(|g|), d)
    decreases n
  {
    if n == 0 {
      assert Zeros(0) + d == d;
    } else {
      assert (Zeros(n) + d)[1..] == Zeros(n - 1) + d;
      assert Step(g, Zeros(|g|), false) == Zeros(|g|);
      LeadingZeros(g, n - 1, d);
    }
  }

  /** d and e agree outside the k bits that start at position a. */
  ghost predicate DifferWithin(d: seq<bool>, e: seq<bool>, a: nat, k: nat) {
    |d| == |e| && forall i :: 0 <= i < |d| && !(a <= i < a + k) ==> d[i] == e[i]
  }

  /** The first w bits of a message, zero-filled. */
  function Window(rest: seq<bool>, w: nat): (r: seq<bool>)
    ensures |r| == w
  {
    (rest + Zeros(w))[..w]
  }

  lemma WindowPending(rest: seq<bool>, w: nat)
    requires forall i :: w <= i < |rest| ==> !rest[i]
    ensures Pending(Zeros(w), rest) == Pending(Window(rest, w), Zeros(|rest|))
  {
  }

  lemma BurstNonzero(g: seq<bool>, rest: seq<bool>)
    requires |g| > 0 && g[|g| - 1]
    requires forall i :: |g| <= i < |rest| ==> !rest[i]
    requires Crc(g, Zeros(|g|), rest) == Zeros(|g|)
    ensures forall i :: 0 <= i < |rest| ==> !rest[i]
  {
    var w := Window(rest, |g|);
    WindowPending(rest, |g|);
    SamePending(g, Zeros(|g|), rest, w, Zeros(|rest|));
    ZerosInvertible(g, w, |rest|);
    forall i | 0 <= i < |rest| ensures !rest[i] {
      if i < |g| { assert w[i] == rest[i]; }
    }
  }

  /** Messages that differ only inside as many consecutive bits as the degree
      have different checksums. */
  lemma BurstDetected(g: seq<bool>, d: seq<bool>, e: seq<bool>, a: nat)
    requires |g| > 0 && g[|g| - 1]
    requires DifferWithin(d, e, a, |g|) && a <= |d|
    requires Crc(g, Zeros(|g|), d) == Crc(g, Zeros(|g|), e)
    ensures d == e
  {
    var z, rest := Zeros(|g|), Xor(d, e)[a..];
    CrcOfDifference(g, d, e);
    assert Xor(d, e) == Zeros(a) + rest;
    LeadingZeros(g, a, rest);
    BurstNonzero(g, rest);
    forall i | 0 <= i < |d| ensures d[i] == e[i] {
      if a <= i < a + |g| { assert Xor(d, e)[i] == rest[i - a]; }
    }
  }
}
