/** CRC-16/XMODEM, the nkeys checksum (src/valiss/nkeys.py).

    `Compute` is the source's byte and bit loop on integers. `Crc` is the same
    register run bit by bit, and module Gf2 says what that register means. */
module Crc16 {
  import opened Bits
  import Gf2

  type Register = r: seq<bool> | |r| == 16 witness Zeros(16)

  const POLY := 0x1021

  /** x^12 + x^5 + 1 as a register. */
  const POLY_BITS: Register :=
    [false, false, false, true, false, false, false, false,
     false, false, true, false, false, false, false, true]

  /** One pass of the inner loop: shift left, fold the polynomial in when a one
      falls off, keep sixteen bits. */
  function ShiftNat(crc: nat): nat {
    (if crc / 0x8000 % 2 == 1 then XorNat(2 * crc, POLY) else 2 * crc) % 0x10000
  }

  function Shift(r: Register): Register {
    Xor(r[1..] + [false], if r[0] then POLY_BITS else Zeros(16))
  }

  /** The register after it has absorbed the message bits d. */
  function Crc(r: Register, d: seq<bool>): Register {
    Gf2.Crc(POLY_BITS, r, d)
  }

  function Checksum(data: Bytes): nat {
    NatOf(Crc(Zeros(16), Join(data, 8)))
  }

  lemma ChecksumRange(data: Bytes)
    ensures Checksum(data) < 0x10000
  {
    Pow2Values();
    BitsOfNatOf(Crc(Zeros(16), Join(data, 8)));
  }

  // ---- the source's loop computes Checksum ------------------------------

  lemma PolyBits()
    ensures BitsOf(POLY, 16) == POLY_BITS
  {
    assert POLY == 4129;
    assert BitsOf(0, 0) == [] && BitsOf(0, 1) == [false] && BitsOf(0, 2) == [false, false];
    assert BitsOf(0, 3) == [false, false, false];
    assert BitsOf(1, 4) == [false, false, false, true];
    assert BitsOf(2, 5) == [false, false, false, true, false];
    assert BitsOf(4, 6) == [false, false, false, true, false, false];
    assert BitsOf(8, 7) == POLY_BITS[..7];
    assert BitsOf(16, 8) == POLY_BITS[..8];
    assert BitsOf(32, 9) == POLY_BITS[..9];
    assert BitsOf(64, 10) == POLY_BITS[..10];
    assert BitsOf(129, 11) == POLY_BITS[..11];
    assert BitsOf(258, 12) == POLY_BITS[..12];
    assert BitsOf(516, 13) == POLY_BITS[..13];
    assert BitsOf(1032, 14) == POLY_BITS[..14];
    assert BitsOf(2064, 15) == POLY_BITS[..15];
  }

  lemma Pow2Values()
    ensures Pow2(5) == 32 && Pow2(6) == 64 && Pow2(8) == 256 && Pow2(16) == 0x10000
  {
  }

  lemma {:induction false} TopBit(n: nat, w: nat)
    requires w > 0
    ensures BitsOf(n, w)[0] == (n / Pow2(w - 1) % 2 == 1)
  {
    if w > 1 {
      TopBit(n / 2, w - 1);
      HalfDiv(n, Pow2(w - 2));
    }
  }

  lemma HalfDiv(n: nat, p: nat)
    requires p > 0
    ensures n / 2 / p == n / (2 * p)
  {
    var q, r := n / 2 / p, n / 2 % p;
    assert n / 2 == p * q + r;
    assert (2 * p) * q == 2 * (p * q);
    ModUnique(n, 2 * p, q, 2 * r + n % 2);
  }

  lemma DoubledBits(crc: nat)
    ensures BitsOf(2 * crc, 16) == BitsOf(crc, 16)[1..] + [false]
  {
    BitsOfWider(2 * crc, 16);
    assert BitsOf(2 * crc, 17) == BitsOf(crc, 16) + [false];
  }

  lemma ShiftNatBits(crc: nat)
    requires crc < 0x10000
    ensures ShiftNat(crc) < 0x10000
    ensures BitsOf(ShiftNat(crc), 16) == Shift(BitsOf(crc, 16))
  {
    Pow2Values();
    assert Pow2(15) == 0x8000;
    hide XorNat, BitsOf, Pow2;
    TopBit(crc, 16);
    DoubledBits(crc);
    BitsOfMod(2 * crc, 16);
    BitsOfMod(XorNat(2 * crc, POLY), 16);
    BitsOfXor(2 * crc, POLY, 16);
    PolyBits();
  }

  lemma ShiftNatOf(r: Register)
    ensures ShiftNat(NatOf(r)) == NatOf(Shift(r))
  {
    BitsOfNatOf(r);
    Pow2Values();
    ShiftNatBits(NatOf(r));
    NatOfBitsOf(ShiftNat(NatOf(r)), 16);
  }

  /** A byte by its eight bits. */
  lemma ByteBits(b: nat) returns (msg: seq<bool>)
    requires b < 256
    ensures |msg| == 8 && NatOf(msg) == b
  {
    Pow2Values();
    NatOfBitsOf(b, 8);
    msg := BitsOf(b, 8);
  }

  lemma AddByte(r: Register, msg: seq<bool>)
    requires |msg| == 8
    ensures XorNat(NatOf(r), NatOf(msg) * 256) == NatOf(Masked(r, msg, 0))
  {
    var b := NatOf(msg);
    Pow2Values();
    BitsOfNatOf(r);
    BitsOfNatOf(msg);
    XorNatBound(NatOf(r), b * 256, 16);
    BitsOfXor(NatOf(r), b * 256, 16);
    BitsOfShifted(b, 8, 8);
    NatOfBitsOf(XorNat(NatOf(r), b * 256), 16);
    assert msg[..0] == [] && msg[0..] == msg;
  }

  /** Adding eight message bits at once and shifting equals absorbing them one
      by one: after j shifts the register is the bitwise one, still masked by
      the message bits that were added early. */
  function Masked(before: Register, msg: seq<bool>, j: nat): Register
    requires |msg| == 8 && j <= 8
  {
    Xor(Crc(before, msg[..j]), msg[j..] + Zeros(8 + j))
  }

  lemma ShiftUnderMask(r: Register, b: bool, rest: seq<bool>, k: nat)
    requires |rest| + k == 15
    ensures Shift(Xor(r, [b] + rest + Zeros(k))) == Xor(Gf2.Step(POLY_BITS, r, b), rest + Zeros(k + 1))
  {
    var x: Register := Xor(r, [b] + rest + Zeros(k));
    var lhs, rhs := Shift(x), Xor(Gf2.Step(POLY_BITS, r, b), rest + Zeros(k + 1));
    assert x[0] == (r[0] != b);
    forall i | 0 <= i < 16 ensures lhs[i] == rhs[i] {
      if i < 15 {
        assert (x[1..] + [false])[i] == (r[i + 1] != (rest + Zeros(k))[i]);
      }
    }
  }

  lemma MaskedShift(before: Register, msg: seq<bool>, j: nat)
    requires |msg| == 8 && j < 8
    ensures Shift(Masked(before, msg, j)) == Masked(before, msg, j + 1)
  {
    hide Shift, Gf2.Step, Gf2.Crc;
    Gf2.CrcSnoc(POLY_BITS, before, msg[..j], msg[j]);
    assert msg[..j] + [msg[j]] == msg[..j + 1];
    assert msg[j..] == [msg[j]] + msg[j + 1..];
    ShiftUnderMask(Crc(before, msg[..j]), msg[j], msg[j + 1..], 8 + j);
  }

  /** The register once the first i bytes are absorbed. */
  function After(data: Bytes, i: nat): Register
    requires i <= |data|
  {
    Crc(Zeros(16), Join(data[..i], 8))
  }

  lemma ByteAbsorbed(data: Bytes, i: nat, msg: seq<bool>)
    requires i < |data| && |msg| == 8 && NatOf(msg) == data[i]
    ensures Masked(After(data, i), msg, 8) == After(data, i + 1)
  {
    hide Gf2.Crc, Gf2.Step, NatOf, BitsOf;
    BitsOfNatOf(msg);
    var before := After(data, i);
    assert msg[..8] == msg;
    assert Xor(Crc(before, msg), msg[8..] + Zeros(16)) == Crc(before, msg);
    assert data[..i + 1] == data[..i] + [data[i]];
    JoinConcat(data[..i], [data[i]], 8);
    assert Join([data[i]], 8) == msg;
    Gf2.CrcConcat(POLY_BITS, Zeros(16), Join(data[..i], 8), msg);
  }

  lemma AfterEnds(data: Bytes)
    ensures NatOf(After(data, 0)) == 0
    ensures NatOf(After(data, |data|)) == Checksum(data)
  {
    NatOfZeros(16);
    assert data[..|data|] == data;
  }

  lemma {:induction false} NatOfZeros(n: nat)
    ensures NatOf(Zeros(n)) == 0
  {
    if n > 0 {
      assert Zeros(n)[..n - 1] == Zeros(n - 1);
      NatOfZeros(n - 1);
    }
  }

  method Compute(data: Bytes) returns (crc: nat)
    ensures crc == Checksum(data)
  {
    AfterEnds(data);
    crc := 0;
    for i := 0 to |data|
      invariant crc == NatOf(After(data, i))
    {
      ghost var before := After(data, i);
      var b: nat := data[i];
      ghost var msg := ByteBits(b);
      AddByte(before, msg);
      crc := XorNat(crc, b * 256);
      for j := 0 to 8
        invariant crc == NatOf(Masked(before, msg, j))
      {
        ShiftNatOf(Masked(before, msg, j));
        MaskedShift(before, msg, j);
        crc := ShiftNat(crc);
      }
      ByteAbsorbed(data, i, msg);
    }
  }

  /** The source's checksum is the remainder of the message times x^16 on
      division by x^16 + x^12 + x^5 + 1 over GF(2), and nothing else is. */
  lemma ChecksumIsRemainder(data: Bytes, r: seq<bool>)
    ensures Gf2.IsRemainder(POLY_BITS, Join(data, 8) + Zeros(16), r)
       <==> |r| == 16 && NatOf(r) == Checksum(data)
  {
    Gf2.CrcIsRemainder(POLY_BITS, Join(data, 8), r);
    if |r| == 16 && NatOf(r) == Checksum(data) {
      NatOfInjective(r, Crc(Zeros(16), Join(data, 8)));
    }
  }

  /** Changing anything within sixteen consecutive bits changes the checksum. */
  lemma BurstChangesChecksum(data: Bytes, data': Bytes, a: nat)
    requires a <= 8 * |data| && data != data'
    requires Gf2.DifferWithin(Join(data, 8), Join(data', 8), a, 16)
    ensures Checksum(data) != Checksum(data')
  {
    var d, d' := Join(data, 8), Join(data', 8);
    if Checksum(data) == Checksum(data') {
      NatOfInjective(Crc(Zeros(16), d), Crc(Zeros(16), d'));
      Gf2.BurstDetected(POLY_BITS, d, d', a);
      Pow2Values();
      JoinInjective(data, data', 8);
    }
  }

  /** Up to four message bits stand, unreduced, right before position 4. */
  ghost predicate Carried(r: Register, w: seq<bool>) {
    && |w| <= 4
    && forall i :: 0 <= i < 8 - |w| ==> r[i] == (4 - |w| <= i < 4 && w[i - (4 - |w|)])
  }

  lemma CarriedStep(r: Register, w: seq<bool>, b: bool)
    requires |w| < 4 && Carried(r, w)
    ensures Carried(Gf2.Step(POLY_BITS, r, b), w + [b])
  {
    var w', s := w + [b], Gf2.Step(POLY_BITS, r, b);
    assert !r[0];
    forall i | 0 <= i < 8 - |w'| ensures s[i] == (4 - |w'| <= i < 4 && w'[i - (4 - |w'|)]) {
      Gf2.StepAt(POLY_BITS, r, b, i);
      assert POLY_BITS[i] == (i == 3);
    }
  }

  lemma {:induction false} CarriedMessage(w: seq<bool>)
    requires |w| <= 4
    ensures Carried(Crc(Zeros(16), w), w)
  {
    if w != [] {
      var n := |w| - 1;
      CarriedMessage(w[..n]);
      CarriedStep(Crc(Zeros(16), w[..n]), w[..n], w[n]);
      Gf2.CrcSnoc(POLY_BITS, Zeros(16), w[..n], w[n]);
      assert w[..n] + [w[n]] == w;
    }
  }

  /** A message of four bits is too short to be reduced: it stands in the top of
      its own checksum. */
  lemma ShortMessage(w: seq<bool>)
    requires |w| == 4
    ensures Crc(Zeros(16), w)[..4] == w
  {
    CarriedMessage(w);
  }

  // ---- nine message bits and one of the checksum -------------------------------------

  predicate At(q: seq<bool>, i: int) {
    0 <= i < |q| && q[i]
  }

  lemma AtTail(q: seq<bool>, i: int)
    requires q != []
    ensures At(q, i) == if i == 0 then q[0] else At(q[1..], i - 1)
  {
  }

  /** The coefficients a product with x^16 + x^12 + x^5 + 1 collects at position i. */
  predicate Taps(q: seq<bool>, i: int) {
    ((At(q, i) != At(q, i - 4)) != At(q, i - 11)) != At(q, i - 16)
  }

  lemma LeadTaps(top: bool, n: nat, i: nat)
    requires i < n + 17
    ensures Gf2.Lead(POLY_BITS, top, n)[i] == (top && (i == 0 || i == 4 || i == 11 || i == 16))
  {
    Gf2.LeadAt(POLY_BITS, top, n, i);
  }

  lemma TapsTail(q: seq<bool>, i: nat)
    requires q != []
    ensures Taps(q, i) == ((q[0] && (i == 0 || i == 4 || i == 11 || i == 16)) != (i > 0 && Taps(q[1..], i - 1)))
  {
    hide At;
    AtTail(q, i);
    AtTail(q, i - 4);
    AtTail(q, i - 11);
    AtTail(q, i - 16);
    AtOutside(q[1..]);
  }

  lemma AtOutside(q: seq<bool>)
    ensures forall i :: i < 0 || i >= |q| ==> !At(q, i)
  {
  }

  lemma NoTaps(i: nat)
    requires i < 16
    ensures Gf2.Times(POLY_BITS, []) == Zeros(16) && !Taps([], i)
  {
  }

  lemma {:induction false} TimesTaps(q: seq<bool>, i: nat)
    requires i < |q| + 16
    ensures Gf2.Times(POLY_BITS, q)[i] == Taps(q, i)
  {
    hide Gf2.Times, Gf2.Lead, Taps, At;
    if q == [] {
      NoTaps(i);
    } else {
      Gf2.TimesAt(POLY_BITS, q, i);
      LeadTaps(q[0], |q| - 1, i);
      TapsTail(q, i);
      if i > 0 { TimesTaps(q[1..], i - 1); }
    }
  }

  /** The nine coefficients drop out one by one. */
  lemma NoCoefficients(q: seq<bool>)
    requires |q| == 9 && forall i :: 9 <= i < 25 && i != 17 ==> !Taps(q, i)
    ensures forall k :: 0 <= k < 9 ==> !q[k]
    ensures forall i :: !Taps(q, i)
  {
    assert !Taps(q, 24) && !Taps(q, 23) && !Taps(q, 22) && !Taps(q, 21) && !Taps(q, 20);
    assert !q[8] && !q[7] && !q[6] && !q[5] && !q[4];
    assert !Taps(q, 19) && !Taps(q, 18) && !Taps(q, 16) && !Taps(q, 12);
    assert !q[3] && !q[2] && !q[0] && !q[1];
  }

  /** The division behind a nine-bit message's checksum. */
  lemma NineQuotient(w: seq<bool>) returns (q: seq<bool>)
    requires |w| == 9
    ensures |q| == 9 && forall i :: 0 <= i < 25 ==> Taps(q, i) == if i < 9 then w[i] else Crc(Zeros(16), w)[i - 9]
  {
    hide Taps, Gf2.Times, Gf2.Pending;
    var r := Crc(Zeros(16), w);
    q := Gf2.Division(POLY_BITS, Zeros(16), w);
    forall i | 0 <= i < 25 ensures Taps(q, i) == if i < 9 then w[i] else r[i - 9] {
      Gf2.PendingAt(Zeros(16), w, i);
      TimesTaps(q, i);
    }
  }

  /** No nonzero message of nine bits has a checksum of at most the bit in the middle. */
  lemma NineBits(w: seq<bool>)
    requires |w| == 9 && forall j :: 0 <= j < 16 && j != 8 ==> !Crc(Zeros(16), w)[j]
    ensures forall i :: 0 <= i < 9 ==> !w[i]
  {
    hide Taps, Crc;
    var q := NineQuotient(w);
    forall i | 9 <= i < 25 && i != 17 ensures !Taps(q, i) {
      assert !Crc(Zeros(16), w)[i - 9];
    }
    NoCoefficients(q);
  }
}
