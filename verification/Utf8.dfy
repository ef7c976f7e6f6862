/** UTF-8, as Python's str.encode and bytes.decode use it. */
module Utf8 {
  import opened Bits
  import opened Errors

  function EncodeChar(c: char): (bs: Bytes)
    ensures |bs| >= 1
  {
    var n: nat := c as int;
    if n < 0x80 then [n]
    else if n < 0x800 then [0xc0 + n / 0x40, 0x80 + n % 0x40]
    else if n < 0x10000 then [0xe0 + n / 0x1000, 0x80 + n / 0x40 % 0x40, 0x80 + n % 0x40]
    else [0xf0 + n / 0x40000, 0x80 + n / 0x1000 % 0x40, 0x80 + n / 0x40 % 0x40, 0x80 + n % 0x40]
  }

  function Encode(s: string): Bytes {
    if s == "" then [] else EncodeChar(s[0]) + Encode(s[1..])
  }

  predicate IsTail(b: Byte) {
    0x80 <= b < 0xc0
  }

  predicate IsScalar(n: nat) {
    n < 0xd800 || 0xe000 <= n < 0x110000
  }

  datatype Decoded = Bad | Char(c: char, rest: Bytes)

  /** The first character: shortest form only, no surrogates. */
  function DecodeChar(bs: Bytes): (d: Decoded)
    ensures d.Char? ==> |d.rest| < |bs|
  {
    if bs == [] then Bad
    else
      var a: nat := bs[0];
      if a < 0x80 then Char(a as char, bs[1..])
      else if a < 0xe0 then
        if a < 0xc0 || |bs| < 2 || !IsTail(bs[1]) then Bad
        else
          var b: nat := bs[1];
          var n := (a - 0xc0) * 0x40 + (b - 0x80);
          if n < 0x80 then Bad else Char(n as char, bs[2..])
      else if a < 0xf0 then
        if |bs| < 3 || !IsTail(bs[1]) || !IsTail(bs[2]) then Bad
        else
          var b: nat, c: nat := bs[1], bs[2];
          var n := (a - 0xe0) * 0x1000 + (b - 0x80) * 0x40 + (c - 0x80);
          if n < 0x800 || !IsScalar(n) then Bad else Char(n as char, bs[3..])
      else
        if |bs| < 4 || !IsTail(bs[1]) || !IsTail(bs[2]) || !IsTail(bs[3]) then Bad
        else
          var b: nat, c: nat, d: nat := bs[1], bs[2], bs[3];
          var n := (a - 0xf0) * 0x40000 + (b - 0x80) * 0x1000 + (c - 0x80) * 0x40 + (d - 0x80);
          if n < 0x10000 || !IsScalar(n) then Bad else Char(n as char, bs[4..])
  }

  function Decode(bs: Bytes): Option<string>
    decreases |bs|
  {
    if bs == [] then Some("")
    else match DecodeChar(bs)
      case Bad => None
      case Char(c, rest) =>
        match Decode(rest)
        case None => None
        case Some(s) => Some([c] + s)
  }

  lemma CharRoundTrip(c: char, rest: Bytes)
    ensures DecodeChar(EncodeChar(c) + rest) == Char(c, rest)
  {
    var n: nat := c as int;
    hide DecodeChar;
    if n < 0x80 {
      OneByte(n, rest);
    } else if n < 0x800 {
      TwoBytes(n, rest);
    } else if n < 0x10000 {
      ThreeBytes(n, rest);
    } else {
      FourBytes(n, rest);
    }
  }

  lemma OneByte(n: nat, rest: Bytes)
    requires n < 0x80
    ensures DecodeChar([n] + rest) == Char(n as char, rest)
  {
  }

  lemma TwoBytes(n: nat, rest: Bytes)
    requires 0x80 <= n < 0x800
    ensures DecodeChar([0xc0 + n / 0x40, 0x80 + n % 0x40] + rest) == Char(n as char, rest)
  {
  }

  lemma ThreeBytes(n: nat, rest: Bytes)
    requires 0x800 <= n < 0x10000 && IsScalar(n)
    ensures DecodeChar([0xe0 + n / 0x1000, 0x80 + n / 0x40 % 0x40, 0x80 + n % 0x40] + rest)
         == Char(n as char, rest)
  {
    var x, y, z := n / 0x1000, n / 0x40 % 0x40, n % 0x40;
    assert n == x * 0x1000 + y * 0x40 + z && x < 16;
    var bs: Bytes := [0xe0 + x, 0x80 + y, 0x80 + z] + rest;
    assert bs[0] == 0xe0 + x && bs[1] == 0x80 + y && bs[2] == 0x80 + z && bs[3..] == rest;
  }

  lemma FourBytes(n: nat, rest: Bytes)
    requires 0x10000 <= n < 0x110000
    ensures DecodeChar([0xf0 + n / 0x40000, 0x80 + n / 0x1000 % 0x40, 0x80 + n / 0x40 % 0x40, 0x80 + n % 0x40] + rest)
         == Char(n as char, rest)
  {
    var w, x, y, z := n / 0x40000, n / 0x1000 % 0x40, n / 0x40 % 0x40, n % 0x40;
    SixBitDigits(n);
    hide DecodeChar;
    FourDigits(w, x, y, z, rest);
  }

  lemma SixBitDigits(n: nat)
    requires n < 0x110000
    ensures n == n / 0x40000 * 0x40000 + n / 0x1000 % 0x40 * 0x1000 + n / 0x40 % 0x40 * 0x40 + n % 0x40
    ensures n / 0x40000 < 5
  {
    var q1 := n / 0x40;
    var q2 := q1 / 0x40;
    var q3 := q2 / 0x40;
    assert n / 0x1000 == q2;
    assert n / 0x40000 == q3;
  }

  lemma FourDigits(w: nat, x: nat, y: nat, z: nat, rest: Bytes)
    requires w < 5 && x < 0x40 && y < 0x40 && z < 0x40
    requires 0x10000 <= w * 0x40000 + x * 0x1000 + y * 0x40 + z < 0x110000
    ensures DecodeChar([0xf0 + w, 0x80 + x, 0x80 + y, 0x80 + z] + rest)
         == Char((w * 0x40000 + x * 0x1000 + y * 0x40 + z) as char, rest)
  {
  }

  lemma {:induction false} RoundTrip(s: string)
    ensures Decode(Encode(s)) == Some(s)
  {
    if s != "" {
      CharRoundTrip(s[0], Encode(s[1..]));
      RoundTrip(s[1..]);
      assert s == [s[0]] + s[1..];
    }
  }

  lemma Injective(a: string, b: string)
    requires Encode(a) == Encode(b)
    ensures a == b
  {
    RoundTrip(a);
    RoundTrip(b);
  }

  /** A character is decoded from its own encoding only: no longer form, no surrogate. */
  lemma CharExactly(bs: Bytes)
    requires DecodeChar(bs).Char?
    ensures bs == EncodeChar(DecodeChar(bs).c) + DecodeChar(bs).rest
  {
    var a: nat := bs[0];
    if a < 0x80 {
      assert bs == [bs[0]] + bs[1..];
    } else if a < 0xe0 {
      assert bs == [bs[0], bs[1]] + bs[2..];
      TwoDigitsBack(bs[0], bs[1]);
    } else if a < 0xf0 {
      assert bs == [bs[0], bs[1], bs[2]] + bs[3..];
      ThreeDigitsBack(bs[0], bs[1], bs[2]);
    } else {
      assert bs == [bs[0], bs[1], bs[2], bs[3]] + bs[4..];
      FourDigitsBack(bs[0], bs[1], bs[2], bs[3]);
    }
  }

  lemma TwoDigitsBack(a: Byte, b: Byte)
    requires 0xc0 <= a < 0xe0 && IsTail(b)
    ensures var n := (a - 0xc0) * 0x40 + (b - 0x80); a == 0xc0 + n / 0x40 && b == 0x80 + n % 0x40
  {
  }

  lemma ThreeDigitsBack(a: Byte, b: Byte, c: Byte)
    requires 0xe0 <= a < 0xf0 && IsTail(b) && IsTail(c)
    ensures var n := (a - 0xe0) * 0x1000 + (b - 0x80) * 0x40 + (c - 0x80);
            a == 0xe0 + n / 0x1000 && b == 0x80 + n / 0x40 % 0x40 && c == 0x80 + n % 0x40
  {
    var x, y, z: nat := a - 0xe0, b - 0x80, c - 0x80;
    var n := x * 0x1000 + y * 0x40 + z;
    assert n / 0x40 == x * 0x40 + y && n / 0x1000 == x;
  }

  lemma FourDigitsBack(a: Byte, b: Byte, c: Byte, d: Byte)
    requires 0xf0 <= a && IsTail(b) && IsTail(c) && IsTail(d)
    ensures var n := (a - 0xf0) * 0x40000 + (b - 0x80) * 0x1000 + (c - 0x80) * 0x40 + (d - 0x80);
            && a == 0xf0 + n / 0x40000 && b == 0x80 + n / 0x1000 % 0x40
            && c == 0x80 + n / 0x40 % 0x40 && d == 0x80 + n % 0x40
  {
    var w, x, y, z: nat := a - 0xf0, b - 0x80, c - 0x80, d - 0x80;
    var n := w * 0x40000 + x * 0x1000 + y * 0x40 + z;
    assert n / 0x40 == w * 0x1000 + x * 0x40 + y && n / 0x1000 == w * 0x40 + x && n / 0x40000 == w;
  }

  /** Bytes decode to a text exactly when they are its encoding. */
  lemma {:induction false} DecodesExactly(bs: Bytes, s: string)
    ensures Decode(bs) == Some(s) <==> bs == Encode(s)
    decreases |bs|
  {
    if bs == Encode(s) {
      RoundTrip(s);
    } else if Decode(bs) == Some(s) && bs != [] {
      CharExactly(bs);
      DecodesExactly(DecodeChar(bs).rest, s[1..]);
    }
  }

  // ---- byte order is code-point order ------------------------------------------

  /** The texts first differ at i, where a ends or has the smaller character. */
  ghost predicate TextSplit(a: string, b: string, i: nat) {
    && i <= |a| && i <= |b| && a[..i] == b[..i]
    && if i == |a| then i < |b| else i < |b| && a[i] < b[i]
  }

  ghost predicate ByteSplit(a: Bytes, b: Bytes, i: nat) {
    && i <= |a| && i <= |b| && a[..i] == b[..i]
    && if i == |a| then i < |b| else i < |b| && a[i] < b[i]
  }

  ghost predicate TextBefore(a: string, b: string) {
    exists i: nat :: TextSplit(a, b, i)
  }

  ghost predicate BytesBefore(a: Bytes, b: Bytes) {
    exists i: nat :: ByteSplit(a, b, i)
  }

  lemma {:induction false} EncodeConcat(a: string, b: string)
    ensures Encode(a + b) == Encode(a) + Encode(b)
  {
    if a == "" {
      assert a + b == b;
    } else {
      assert (a + b)[1..] == a[1..] + b;
      EncodeConcat(a[1..], b);
    }
  }

  /** The bytes first differ at k, where x has the smaller one. */
  ghost predicate Below(x: Bytes, y: Bytes, k: nat) {
    k < |x| && k < |y| && x[..k] == y[..k] && x[k] < y[k]
  }

  lemma TwoBelow(a: Byte, b: Byte, a': Byte, b': Byte) returns (k: nat)
    requires a < a' || (a == a' && b < b')
    ensures Below([a, b], [a', b'], k)
  {
    k := if a < a' then 0 else 1;
  }

  lemma ThreeBelow(a: Byte, b: Byte, c: Byte, a': Byte, b': Byte, c': Byte) returns (k: nat)
    requires a < a' || (a == a' && (b < b' || (b == b' && c < c')))
    ensures Below([a, b, c], [a', b', c'], k)
  {
    k := if a < a' then 0 else if b < b' then 1 else 2;
  }

  lemma FourBelow(a: Byte, b: Byte, c: Byte, d: Byte, a': Byte, b': Byte, c': Byte, d': Byte) returns (k: nat)
    requires a < a' || (a == a' && (b < b' || (b == b' && (c < c' || (c == c' && d < d')))))
    ensures Below([a, b, c, d], [a', b', c', d'], k)
  {
    k := if a < a' then 0 else if b < b' then 1 else if c < c' then 2 else 3;
  }

  /** Numbers are ordered as their digits, six bits each, from the highest. */
  lemma DigitOrder(m: nat, n: nat)
    requires m < n < 0x110000
    ensures var (a, b, c, d) := (m / 0x40000, m / 0x1000 % 0x40, m / 0x40 % 0x40, m % 0x40);
            var (a', b', c', d') := (n / 0x40000, n / 0x1000 % 0x40, n / 0x40 % 0x40, n % 0x40);
            a < a' || (a == a' && (b < b' || (b == b' && (c < c' || (c == c' && d < d')))))
  {
    SixBitDigits(m);
    SixBitDigits(n);
    ByDigits(m / 0x40000, m / 0x1000 % 0x40, m / 0x40 % 0x40, m % 0x40,
             n / 0x40000, n / 0x1000 % 0x40, n / 0x40 % 0x40, n % 0x40);
  }

  lemma ByDigits(a: nat, b: nat, c: nat, d: nat, a': nat, b': nat, c': nat, d': nat)
    requires b < 0x40 && c < 0x40 && d < 0x40 && b' < 0x40 && c' < 0x40 && d' < 0x40
    requires a * 0x40000 + b * 0x1000 + c * 0x40 + d < a' * 0x40000 + b' * 0x1000 + c' * 0x40 + d'
    ensures a < a' || (a == a' && (b < b' || (b == b' && (c < c' || (c == c' && d < d')))))
  {
  }

  /** How many bytes a character takes. */
  function Size(c: char): nat {
    if c as int < 0x80 then 1 else if c as int < 0x800 then 2 else if c as int < 0x10000 then 3 else 4
  }

  /** A longer encoding has the larger first byte. */
  lemma LeadOrder(c: char, d: char)
    requires c < d && (Size(d) == 1 || Size(c) != Size(d))
    ensures Below(EncodeChar(c), EncodeChar(d), 0)
  {
  }

  lemma TwoOrder(c: char, d: char) returns (k: nat)
    requires c < d && Size(c) == Size(d) == 2
    ensures Below(EncodeChar(c), EncodeChar(d), k)
  {
    hide Below;
    var m: nat, n: nat := c as int, d as int;
    assert m == m / 0x40 * 0x40 + m % 0x40 && n == n / 0x40 * 0x40 + n % 0x40;
    k := TwoBelow(0xc0 + m / 0x40, 0x80 + m % 0x40, 0xc0 + n / 0x40, 0x80 + n % 0x40);
  }

  lemma HighDigits(n: nat)
    requires n < 0x10000
    ensures n / 0x40000 == 0 && n / 0x1000 % 0x40 == n / 0x1000
  {
  }

  lemma ThreeOrder(c: char, d: char) returns (k: nat)
    requires c < d && Size(c) == Size(d) == 3
    ensures Below(EncodeChar(c), EncodeChar(d), k)
  {
    hide Below;
    var m: nat, n: nat := c as int, d as int;
    DigitOrder(m, n);
    HighDigits(m);
    HighDigits(n);
    k := ThreeBelow(0xe0 + m / 0x1000, 0x80 + m / 0x40 % 0x40, 0x80 + m % 0x40,
                    0xe0 + n / 0x1000, 0x80 + n / 0x40 % 0x40, 0x80 + n % 0x40);
  }

  lemma FourOrder(c: char, d: char) returns (k: nat)
    requires c < d && Size(c) == Size(d) == 4
    ensures Below(EncodeChar(c), EncodeChar(d), k)
  {
    hide Below;
    var m: nat, n: nat := c as int, d as int;
    DigitOrder(m, n);
    k := FourBelow(0xf0 + m / 0x40000, 0x80 + m / 0x1000 % 0x40, 0x80 + m / 0x40 % 0x40, 0x80 + m % 0x40,
                   0xf0 + n / 0x40000, 0x80 + n / 0x1000 % 0x40, 0x80 + n / 0x40 % 0x40, 0x80 + n % 0x40);
  }

  /** The encoding of a smaller character has the smaller byte where the two differ. */
  lemma CharOrder(c: char, d: char) returns (k: nat)
    requires c < d
    ensures Below(EncodeChar(c), EncodeChar(d), k)
  {
    hide Below, EncodeChar;
    if Size(d) == 1 || Size(c) != Size(d) {
      k := 0;
      LeadOrder(c, d);
    } else if Size(d) == 2 {
      k := TwoOrder(c, d);
    } else if Size(d) == 3 {
      k := ThreeOrder(c, d);
    } else {
      k := FourOrder(c, d);
    }
  }

  lemma OrderKept(a: string, b: string)
    requires TextBefore(a, b)
    ensures BytesBefore(Encode(a), Encode(b))
  {
    var i: nat :| TextSplit(a, b, i);
    var p := Encode(a[..i]);
    assert a == a[..i] + a[i..] && b == b[..i] + b[i..];
    EncodeConcat(a[..i], a[i..]);
    EncodeConcat(b[..i], b[i..]);
    if i == |a| {
      assert ByteSplit(Encode(a), Encode(b), |p|);
    } else {
      var k := CharOrder(a[i], b[i]);
      SameStart(p, EncodeChar(a[i]), Encode(a[i..][1..]), EncodeChar(b[i]), Encode(b[i..][1..]), k);
    }
  }

  lemma SameStart(p: Bytes, x: Bytes, xs: Bytes, y: Bytes, ys: Bytes, k: nat)
    requires k < |x| && k < |y| && x[..k] == y[..k] && x[k] < y[k]
    ensures BytesBefore(p + (x + xs), p + (y + ys))
  {
    var u, v := p + (x + xs), p + (y + ys);
    assert u[..|p| + k] == p + x[..k] && v[..|p| + k] == p + y[..k];
    assert ByteSplit(u, v, |p| + k);
  }

  lemma {:induction false} TextTotal(a: string, b: string)
    ensures a == b || TextBefore(a, b) || TextBefore(b, a)
  {
    if a == "" || b == "" || a[0] != b[0] {
      assert a != b ==> TextSplit(a, b, 0) || TextSplit(b, a, 0);
    } else {
      var x, y := a[1..], b[1..];
      TextTotal(x, y);
      assert a == [a[0]] + x && b == [b[0]] + y;
      forall i: nat | TextSplit(x, y, i) ensures TextSplit(a, b, i + 1) {
        assert a[..i + 1] == [a[0]] + x[..i] && b[..i + 1] == [b[0]] + y[..i];
      }
      forall i: nat | TextSplit(y, x, i) ensures TextSplit(b, a, i + 1) {
        assert a[..i + 1] == [a[0]] + x[..i] && b[..i + 1] == [b[0]] + y[..i];
      }
    }
  }

  lemma DiffersBeyond(a: Bytes, b: Bytes, i: nat, j: nat)
    requires ByteSplit(a, b, i) && i < j && j <= |a| && j <= |b|
    ensures a[..j] != b[..j]
  {
    assert a[..j][i] != b[..j][i];
  }

  lemma BytesOneWay(a: Bytes, b: Bytes)
    ensures !(BytesBefore(a, b) && BytesBefore(b, a)) && !BytesBefore(a, a)
  {
    forall i: nat, j: nat | ByteSplit(a, b, i) ensures !ByteSplit(b, a, j) {
      if i < j && j <= |a| && j <= |b| { DiffersBeyond(a, b, i, j); }
      if j < i && ByteSplit(b, a, j) { DiffersBeyond(b, a, j, i); }
    }
  }

  /** Texts stand in the order of their code points exactly when their encodings stand
      in the order of their bytes. */
  lemma OrderExactly(a: string, b: string)
    ensures TextBefore(a, b) <==> BytesBefore(Encode(a), Encode(b))
  {
    hide Encode, TextBefore, BytesBefore;
    TextTotal(a, b);
    BytesOneWay(Encode(a), Encode(b));
    if TextBefore(a, b) { OrderKept(a, b); }
    if TextBefore(b, a) { OrderKept(b, a); }
  }
}
