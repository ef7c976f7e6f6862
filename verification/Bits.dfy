/** Fixed-width binary digits, most significant first.

    Every byte-level codec in the project (CRC-16, base32, base64url) is a
    regrouping of one bit string, so they all share this vocabulary. */
module Bits {

  type Byte = n: int | 0 <= n < 256
  type Bytes = seq<Byte>

  function Pow2(n: nat): (p: nat)
    ensures p >= 1
  {
    if n == 0 then 1 else 2 * Pow2(n - 1)
  }

  /** The low w bits of n, most significant first. */
  function BitsOf(n: nat, w: nat): (bs: seq<bool>)
    ensures |bs| == w
  {
    if w == 0 then [] else BitsOf(n / 2, w - 1) + [n % 2 == 1]
  }

  function NatOf(bs: seq<bool>): nat {
    if bs == [] then 0
    else 2 * NatOf(bs[..|bs| - 1]) + if bs[|bs| - 1] then 1 else 0
  }

  function Zeros(n: nat): (z: seq<bool>)
    ensures |z| == n
    ensures forall i :: 0 <= i < n ==> !z[i]
  {
    seq(n, _ => false)
  }

  function Xor(a: seq<bool>, b: seq<bool>): (x: seq<bool>)
    requires |a| == |b|
    ensures |x| == |a|
    ensures forall i :: 0 <= i < |a| ==> x[i] == (a[i] != b[i])
  {
    seq(|a|, i requires 0 <= i < |a| => a[i] != b[i])
  }

  lemma XorSelf(a: seq<bool>)
    ensures Xor(a, a) == Zeros(|a|)
  {
  }

  /** Exclusive or on non-negative integers. */
  function XorNat(a: nat, b: nat): nat
    decreases a + b
  {
    if a == 0 then b
    else if b == 0 then a
    else 2 * XorNat(a / 2, b / 2) + if a % 2 != b % 2 then 1 else 0
  }

  lemma {:induction false} NatOfBitsOf(n: nat, w: nat)
    requires n < Pow2(w)
    ensures NatOf(BitsOf(n, w)) == n
  {
    if w > 0 {
      NatOfBitsOf(n / 2, w - 1);
      assert BitsOf(n, w)[..w - 1] == BitsOf(n / 2, w - 1);
    }
  }

  lemma {:induction false} BitsOfNatOf(bs: seq<bool>)
    ensures NatOf(bs) < Pow2(|bs|)
    ensures BitsOf(NatOf(bs), |bs|) == bs
  {
    if bs != [] {
      BitsOfNatOf(bs[..|bs| - 1]);
      assert NatOf(bs) / 2 == NatOf(bs[..|bs| - 1]);
    }
  }

  lemma {:induction false} NatOfInjective(a: seq<bool>, b: seq<bool>)
    requires |a| == |b| && NatOf(a) == NatOf(b)
    ensures a == b
  {
    BitsOfNatOf(a);
    BitsOfNatOf(b);
  }

  lemma {:induction false} NatOfConcat(a: seq<bool>, b: seq<bool>)
    ensures NatOf(a + b) == NatOf(a) * Pow2(|b|) + NatOf(b)
  {
    hide NatOf, Pow2;
    if b == [] {
      assert a + b == a;
      PowersAndEmpty();
    } else {
      var n := |b| - 1;
      assert (a + b)[..|a| + n] == a + b[..n];
      NatOfConcat(a, b[..n]);
      NatOfLast(b);
      NatOfLast(a + b);
      Pow2Doubles(n);
      TimesDouble(NatOf(a), Pow2(n));
    }
  }

  lemma PowersAndEmpty()
    ensures Pow2(0) == 1 && NatOf([]) == 0
  {
  }

  lemma NatOfLast(bs: seq<bool>)
    requires bs != []
    ensures NatOf(bs) == 2 * NatOf(bs[..|bs| - 1]) + if bs[|bs| - 1] then 1 else 0
  {
  }

  lemma Pow2Doubles(n: nat)
    ensures Pow2(n + 1) == 2 * Pow2(n)
  {
  }

  lemma TimesDouble(x: nat, p: nat)
    ensures x * (2 * p) == 2 * (x * p)
  {
  }

  lemma {:induction false} BitsOfZero(w: nat)
    ensures BitsOf(0, w) == Zeros(w)
  {
    if w > 0 { BitsOfZero(w - 1); }
  }

  lemma {:induction false} BitsOfXor(a: nat, b: nat, w: nat)
    ensures BitsOf(XorNat(a, b), w) == Xor(BitsOf(a, w), BitsOf(b, w))
  {
    if w == 0 {
    } else {
      BitsOfXor(a / 2, b / 2, w - 1);
      if a == 0 { BitsOfZero(w); } else if b == 0 { BitsOfZero(w); }
    }
  }

  lemma {:induction false} XorNatBound(a: nat, b: nat, w: nat)
    requires a < Pow2(w) && b < Pow2(w)
    ensures XorNat(a, b) < Pow2(w)
  {
    if w > 0 && a != 0 && b != 0 { XorNatBound(a / 2, b / 2, w - 1); }
  }

  lemma {:induction false} BitsOfShifted(n: nat, w: nat, k: nat)
    ensures BitsOf(n * Pow2(k), w + k) == BitsOf(n, w) + Zeros(k)
  {
    if k > 0 {
      BitsOfShifted(n, w, k - 1);
      assert n * Pow2(k) == 2 * (n * Pow2(k - 1));
      assert BitsOf(n, w) + Zeros(k) == (BitsOf(n, w) + Zeros(k - 1)) + [false];
    } else {
      assert BitsOf(n, w) + Zeros(0) == BitsOf(n, w);
    }
  }

  /** Widening on the left leaves the low bits alone. */
  lemma {:induction false} BitsOfWider(n: nat, w: nat)
    ensures BitsOf(n, w + 1)[1..] == BitsOf(n, w)
  {
    if w > 0 {
      BitsOfWider(n / 2, w - 1);
      assert BitsOf(n, w + 1)[1..] == BitsOf(n / 2, w)[1..] + [n % 2 == 1];
    }
  }

  lemma {:induction false} BitsOfMod(n: nat, w: nat)
    ensures BitsOf(n % Pow2(w), w) == BitsOf(n, w)
  {
    if w > 0 {
      var p := Pow2(w - 1);
      assert n % (2 * p) / 2 == (n / 2) % p && n % (2 * p) % 2 == n % 2 by {
        var q, r := n / 2 / p, n / 2 % p;
        assert n == (2 * p) * q + (2 * r + n % 2);
        ModUnique(n, 2 * p, q, 2 * r + n % 2);
      }
      BitsOfMod(n / 2, w - 1);
    }
  }

  lemma ModUnique(n: nat, m: nat, q: nat, r: nat)
    requires m > 0 && r < m && n == m * q + r
    ensures n % m == r && n / m == q
  {
    var d, e := n / m, n % m;
    assert n == m * d + e;
    if q > d {
      MulApart(m, d, q);
    } else if d > q {
      MulApart(m, q, d);
    }
  }

  lemma {:induction false} MulApart(m: nat, a: nat, b: nat)
    requires a < b
    ensures m * b >= m * a + m
    decreases b
  {
    if a + 1 < b { MulApart(m, a, b - 1); }
    assert m * b == m * (b - 1) + m;
  }

  // ---- regrouping ------------------------------------------------------

  /** The concatenated w-bit renderings of a digit string. */
  function Join(ds: seq<nat>, w: nat): (bs: seq<bool>)
    ensures |bs| == w * |ds|
  {
    if ds == [] then [] else
      assert w * |ds| == w + w * (|ds| - 1);
      BitsOf(ds[0], w) + Join(ds[1..], w)
  }

  lemma GroupBound(bs: seq<bool>, w: nat)
    requires |bs| == w
    ensures NatOf(bs) < Pow2(w)
  {
  }

  lemma OneGroupFewer(n: nat, w: nat)
    requires 0 < w <= n
    ensures n / w == 1 + (n - w) / w
  {
    var q, r := (n - w) / w, (n - w) % w;
    assert n - w == w * q + r;
    assert w * (1 + q) == w + w * q;
    ModUnique(n, w, 1 + q, r);
  }

  /** The whole w-bit groups of a bit string; a short last group is dropped. */
  function Split(bs: seq<bool>, w: nat): (ds: seq<nat>)
    requires w > 0
    ensures |ds| == |bs| / w
    ensures forall i :: 0 <= i < |ds| ==> ds[i] < Pow2(w)
    decreases |bs|
  {
    if |bs| < w then []
    else
      GroupBound(bs[..w], w);
      OneGroupFewer(|bs|, w);
      [NatOf(bs[..w])] + Split(bs[w..], w)
  }

  /** Zero bits that complete the last w-bit group. */
  function PadBits(bs: seq<bool>, w: nat): (p: seq<bool>)
    requires w > 0
    ensures |p| % w == 0 && |bs| <= |p| < |bs| + w && p[..|bs|] == bs
  {
    var r := |bs| % w;
    if r == 0 then bs
    else
      ModUnique(|bs| + (w - r), w, |bs| / w + 1, 0);
      bs + Zeros(w - r)
  }

  lemma {:induction false} SplitJoin(ds: seq<nat>, w: nat, tail: seq<bool>)
    requires w > 0 && |tail| < w
    requires forall i :: 0 <= i < |ds| ==> ds[i] < Pow2(w)
    ensures Split(Join(ds, w) + tail, w) == ds
  {
    if ds == [] {
      assert Join(ds, w) + tail == tail;
    } else {
      var all := Join(ds, w) + tail;
      assert all == BitsOf(ds[0], w) + (Join(ds[1..], w) + tail);
      assert all[..w] == BitsOf(ds[0], w) && all[w..] == Join(ds[1..], w) + tail;
      NatOfBitsOf(ds[0], w);
      SplitJoin(ds[1..], w, tail);
    }
  }

  lemma SplitStep(bs: seq<bool>, w: nat)
    requires 0 < w <= |bs|
    ensures Split(bs, w) == [NatOf(bs[..w])] + Split(bs[w..], w)
  {
  }

  /** The groups of a longer bit string begin with those of its start. */
  lemma {:induction false} SplitPrefix(a: seq<bool>, b: seq<bool>, w: nat)
    requires w > 0
    ensures Split(a, w) <= Split(a + b, w)
    decreases |a|
  {
    if |a| >= w {
      hide Split, NatOf;
      SplitStep(a, w);
      SplitStep(a + b, w);
      SplitPrefix(a[w..], b, w);
      assert (a + b)[..w] == a[..w] && (a + b)[w..] == a[w..] + b;
    }
  }

  lemma JoinInjective(ds: seq<nat>, es: seq<nat>, w: nat)
    requires w > 0 && Join(ds, w) == Join(es, w)
    requires (forall i :: 0 <= i < |ds| ==> ds[i] < Pow2(w)) && (forall i :: 0 <= i < |es| ==> es[i] < Pow2(w))
    ensures ds == es
  {
    assert Join(ds, w) + [] == Join(ds, w) && Join(es, w) + [] == Join(es, w);
    SplitJoin(ds, w, []);
    SplitJoin(es, w, []);
  }

  lemma {:induction false} JoinSplit(bs: seq<bool>, w: nat)
    requires w > 0 && |bs| % w == 0
    ensures Join(Split(bs, w), w) == bs
    decreases |bs|
  {
    if |bs| >= w {
      RestAligned(|bs|, w);
      JoinSplit(bs[w..], w);
      BitsOfNatOf(bs[..w]);
      assert Split(bs, w) == [NatOf(bs[..w])] + Split(bs[w..], w);
      assert bs == bs[..w] + bs[w..];
    } else {
      assert Split(bs, w) == [];
      assert |bs| == 0;
    }
  }

  lemma RestAligned(n: nat, w: nat)
    requires w > 0 && n >= w && n % w == 0
    ensures (n - w) % w == 0
  {
    assert n == w * (n / w);
    assert n / w >= 1;
    ModUnique(n - w, w, n / w - 1, 0);
  }

  lemma {:induction false} JoinConcat(a: seq<nat>, b: seq<nat>, w: nat)
    ensures Join(a + b, w) == Join(a, w) + Join(b, w)
  {
    if a == [] {
      assert a + b == b;
    } else {
      assert (a + b)[1..] == a[1..] + b;
      JoinConcat(a[1..], b, w);
    }
  }
}
