/** The two text encodings of the project: base32 without padding
    (section 6 of RFC 4648, src/valiss/nkeys.py) and base64url without padding
    (section 5 of RFC 4648, src/valiss/token.py). */
module Radix {
  import opened Bits
  import opened Errors

  datatype Alphabet = Base32 | Base64Url

  function Width(a: Alphabet): nat {
    match a case Base32 => 5 case Base64Url => 6
  }

  function Symbol(a: Alphabet, v: nat): char
    requires v < Pow2(Width(a))
  {
    assert Pow2(5) == 32 && Pow2(6) == 64;
    match a
    case Base32 =>
      if v < 26 then ('A' as int + v) as char else ('2' as int + (v - 26)) as char
    case Base64Url =>
      if v < 26 then ('A' as int + v) as char
      else if v < 52 then ('a' as int + (v - 26)) as char
      else if v < 62 then ('0' as int + (v - 52)) as char
      else if v == 62 then '-'
      else '_'
  }

  function Value(a: Alphabet, c: char): Option<nat> {
    match a
    case Base32 =>
      if 'A' <= c <= 'Z' then Some(c as int - 'A' as int)
      else if '2' <= c <= '7' then Some(c as int - '2' as int + 26)
      else None
    case Base64Url =>
      if 'A' <= c <= 'Z' then Some(c as int - 'A' as int)
      else if 'a' <= c <= 'z' then Some(c as int - 'a' as int + 26)
      else if '0' <= c <= '9' then Some(c as int - '0' as int + 52)
      else if c == '-' then Some(62)
      else if c == '_' then Some(63)
      else None
  }

  lemma ValueOfSymbol(a: Alphabet, v: nat)
    requires v < Pow2(Width(a))
    ensures Value(a, Symbol(a, v)) == Some(v)
  {
    assert Pow2(5) == 32 && Pow2(6) == 64;
  }

  lemma SymbolOfValue(a: Alphabet, c: char)
    requires Value(a, c).Some?
    ensures Value(a, c).value < Pow2(Width(a)) && Symbol(a, Value(a, c).value) == c
  {
    assert Pow2(5) == 32 && Pow2(6) == 64;
  }

  /** Where the runs of the tables of RFC 4648, sections 6 and 5, begin and end. */
  lemma TableRuns()
    ensures Pow2(5) == 32 && Pow2(6) == 64
    ensures Symbol(Base32, 0) == 'A' && Symbol(Base32, 25) == 'Z'
    ensures Symbol(Base32, 26) == '2' && Symbol(Base32, 31) == '7'
    ensures Symbol(Base64Url, 0) == 'A' && Symbol(Base64Url, 25) == 'Z' && Symbol(Base64Url, 26) == 'a'
    ensures Symbol(Base64Url, 51) == 'z' && Symbol(Base64Url, 52) == '0' && Symbol(Base64Url, 61) == '9'
    ensures Symbol(Base64Url, 62) == '-' && Symbol(Base64Url, 63) == '_'
  {
    assert Pow2(5) == 32 && Pow2(6) == 64;
  }

  /** Inside a run the symbols follow one another. */
  lemma TableSteps(a: Alphabet, v: nat)
    requires v + 1 < Pow2(Width(a)) && v != 25 && (a.Base64Url? ==> v != 51 && v != 61 && v != 62)
    ensures Symbol(a, v + 1) as int == Symbol(a, v) as int + 1
  {
    assert Pow2(5) == 32 && Pow2(6) == 64;
  }

  predicate IsDigits(a: Alphabet, ds: seq<nat>) {
    forall i :: 0 <= i < |ds| ==> ds[i] < Pow2(Width(a))
  }

  predicate IsText(a: Alphabet, s: string) {
    forall i :: 0 <= i < |s| ==> Value(a, s[i]).Some?
  }

  function Text(a: Alphabet, ds: seq<nat>): (s: string)
    requires IsDigits(a, ds)
    ensures |s| == |ds| && forall i :: 0 <= i < |s| ==> s[i] == Symbol(a, ds[i])
  {
    seq(|ds|, i requires 0 <= i < |ds| => Symbol(a, ds[i]))
  }

  function Values(a: Alphabet, s: string): (ds: seq<nat>)
    requires IsText(a, s)
    ensures |ds| == |s| && forall i :: 0 <= i < |s| ==> ds[i] == Value(a, s[i]).value
    ensures IsDigits(a, ds)
  {
    forall i | 0 <= i < |s| ensures Value(a, s[i]).value < Pow2(Width(a)) { SymbolOfValue(a, s[i]); }
    seq(|s|, i requires 0 <= i < |s| => Value(a, s[i]).value)
  }

  lemma ValuesOfText(a: Alphabet, ds: seq<nat>)
    requires IsDigits(a, ds)
    ensures IsText(a, Text(a, ds)) && Values(a, Text(a, ds)) == ds
  {
    forall i | 0 <= i < |ds| ensures Value(a, Text(a, ds)[i]) == Some(ds[i]) {
      ValueOfSymbol(a, ds[i]);
    }
  }

  lemma TextOfValues(a: Alphabet, s: string)
    requires IsText(a, s)
    ensures Text(a, Values(a, s)) == s
  {
  }

  /** The bytes regrouped into digits, the last one zero-filled. */
  function Digits(a: Alphabet, raw: Bytes): (ds: seq<nat>)
    ensures IsDigits(a, ds)
  {
    Split(PadBits(Join(raw, 8), Width(a)), Width(a))
  }

  /** The whole bytes the digits hold; leftover bits are ignored. */
  function Undigits(a: Alphabet, ds: seq<nat>): (raw: Bytes)
    ensures |raw| == Width(a) * |ds| / 8
  {
    assert Pow2(4) == 16 && Pow2(8) == 256;
    Split(Join(ds, Width(a)), 8)
  }

  function Encode(a: Alphabet, raw: Bytes): (s: string)
  {
    Text(a, Digits(a, raw))
  }

  lemma UndigitsDigits(a: Alphabet, raw: Bytes)
    ensures Undigits(a, Digits(a, raw)) == raw
  {
    var bits, w := Join(raw, 8), Width(a);
    var padded := PadBits(bits, w);
    JoinSplit(padded, w);
    assert padded == bits + padded[|bits|..];
    assert Pow2(4) == 16 && Pow2(8) == 256;
    SplitJoin(raw, 8, padded[|bits|..]);
  }

  /** Digits whose bits fill whole bytes are recovered exactly. */
  lemma DigitsUndigits(a: Alphabet, ds: seq<nat>)
    requires IsDigits(a, ds) && Width(a) * |ds| % 8 == 0
    ensures Digits(a, Undigits(a, ds)) == ds
  {
    var w := Width(a);
    JoinSplit(Join(ds, w), 8);
    assert Join(Undigits(a, ds), 8) == Join(ds, w);
    assert |Join(ds, w)| % w == 0 by { ModUnique(w * |ds|, w, |ds|, 0); }
    assert PadBits(Join(ds, w), w) == Join(ds, w);
    SplitJoin(ds, w, []);
    assert Join(ds, w) + [] == Join(ds, w);
  }

  lemma EncodeText(a: Alphabet, raw: Bytes)
    ensures IsText(a, Encode(a, raw)) && Values(a, Encode(a, raw)) == Digits(a, raw)
  {
    ValuesOfText(a, Digits(a, raw));
  }

  // ---- base32, padding stripped on output and restored on input ---------

  function Repeat(c: char, n: nat): (s: string)
    ensures |s| == n && forall i :: 0 <= i < n ==> s[i] == c
  {
    seq(n, _ => c)
  }

  function StripRight(s: string, c: char): (t: string)
    ensures |t| <= |s| && t == s[..|t|]
    ensures t != [] ==> t[|t| - 1] != c
    ensures forall i :: |t| <= i < |s| ==> s[i] == c
  {
    if s != [] && s[|s| - 1] == c then StripRight(s[..|s| - 1], c) else s
  }

  lemma {:induction false} StripPadding(s: string, c: char, n: nat)
    requires s == [] || s[|s| - 1] != c
    ensures StripRight(s + Repeat(c, n), c) == s
  {
    if n == 0 {
      assert s + Repeat(c, 0) == s;
    } else {
      var t := s + Repeat(c, n);
      assert t[..|t| - 1] == s + Repeat(c, n - 1);
      StripPadding(s, c, n - 1);
    }
  }

  /** How many '=' complete a group of m characters. */
  function Padding(n: nat, m: nat): (p: nat)
    requires m > 0
    ensures p < m && (n + p) % m == 0
  {
    var r := n % m;
    if r == 0 then 0
    else
      ModUnique(n + (m - r), m, n / m + 1, 0);
      m - r
  }

  function Base32Decode(encoded: string): Result<Bytes> {
    var padded := encoded + Repeat('=', Padding(|encoded|, 8));
    var body := StripRight(padded, '=');
    if !IsText(Base32, body) then Err(Unclassified)
    else if |padded| - |body| !in {0, 1, 3, 4, 6} then Err(Unclassified)
    else Ok(Undigits(Base32, Values(Base32, body)))
  }

  predicate IsBase32(c: char) {
    'A' <= c <= 'Z' || '2' <= c <= '7'
  }

  /** n characters of the base32 alphabet, a number of them that whole bytes can fill, and
      then no more padding than completes the last group of eight. */
  ghost predicate PaddedDigits(s: string, n: nat) {
    && n <= |s| <= (n + 7) / 8 * 8 && n % 8 in {0, 2, 4, 5, 7}
    && (forall i :: 0 <= i < n ==> IsBase32(s[i])) && (forall i :: n <= i < |s| ==> s[i] == '=')
  }

  lemma DigitsOf(s: string)
    ensures IsText(Base32, s) <==> forall i :: 0 <= i < |s| ==> IsBase32(s[i])
  {
    forall i | 0 <= i < |s| ensures Value(Base32, s[i]).Some? <==> IsBase32(s[i]) {
    }
    hide Value, IsBase32;
  }

  lemma BodyDigits(s: string) returns (n: nat)
    requires Base32Decode(s).Ok?
    ensures PaddedDigits(s, n)
  {
    var p := Padding(|s|, 8);
    var body := StripRight(s + Repeat('=', p), '=');
    DigitsOf(body);
    hide Value, IsBase32, IsText, StripRight, Padding, Undigits;
    n := |body|;
    PaddingCounts(|s|, p, n);
    WithinText(s, p, body);
  }

  /** A body left by stripping lies inside the text, and only padding follows it there. */
  lemma WithinText(s: string, p: nat, body: string)
    requires |body| <= |s| + p && body == (s + Repeat('=', p))[..|body|]
    requires body != "" ==> body[|body| - 1] != '='
    requires forall i :: |body| <= i < |s| + p ==> (s + Repeat('=', p))[i] == '='
    ensures |body| <= |s| && body == s[..|body|] && forall i :: |body| <= i < |s| ==> s[i] == '='
  {
    var padded := s + Repeat('=', p);
    assert forall i :: 0 <= i < |s| ==> s[i] == padded[i];
    if body != "" { assert padded[|body| - 1] == body[|body| - 1]; }
  }

  /** Exactly such strings decode. */
  lemma Base32Exactly(s: string)
    ensures Base32Decode(s).Ok? <==> exists n: nat :: PaddedDigits(s, n)
  {
    hide Base32Decode, PaddedDigits;
    if Base32Decode(s).Ok? { var n := BodyDigits(s); }
    if n: nat :| PaddedDigits(s, n) { BodyFound(s, n, Padding(|s|, 8)); }
  }

  lemma PaddingCounts(m: nat, p: nat, n: nat)
    requires p < 8 && (m + p) % 8 == 0 && n <= m + p && m + p - n in {0, 1, 3, 4, 6}
    ensures n % 8 in {0, 2, 4, 5, 7} && m + p == (n + 7) / 8 * 8
  {
    assert m + p == 8 * ((m + p) / 8);
  }

  lemma BodyFound(s: string, n: nat, p: nat)
    requires PaddedDigits(s, n) && p == Padding(|s|, 8)
    ensures Base32Decode(s).Ok?
  {
    var body := s[..n];
    var k := |s| - n + p;
    GroupsOfEight(|s|, n, p);
    assert s + Repeat('=', p) == body + Repeat('=', k);
    assert IsText(Base32, body) by {
      forall i | 0 <= i < n ensures Value(Base32, body[i]).Some? { assert IsBase32(s[i]); }
    }
    if body != "" { DigitNotPadding(body); }
    hide Value, IsBase32, StripRight, Padding;
    StripPadding(body, '=', k);
  }

  lemma GroupsOfEight(m: nat, n: nat, p: nat)
    requires n <= m <= (n + 7) / 8 * 8 && n % 8 in {0, 2, 4, 5, 7} && p < 8 && (m + p) % 8 == 0
    ensures m + p - n in {0, 1, 3, 4, 6}
  {
    assert m + p == 8 * ((m + p) / 8);
  }

  lemma DigitCount(raw: Bytes)
    ensures var n := |Digits(Base32, raw)|;
            5 * n < 8 * |raw| + 5 && 8 * |raw| <= 5 * n && Padding(n, 8) in {0, 1, 3, 4, 6}
  {
  }

  /** Decoding inverts encoding, for every byte string. */
  lemma Base32RoundTrip(raw: Bytes)
    ensures Base32Decode(Encode(Base32, raw)) == Ok(raw)
  {
    var s := Encode(Base32, raw);
    EncodeText(Base32, raw);
    DigitCount(raw);
    if s != [] { assert Value(Base32, s[|s| - 1]).Some?; }
    StripPadding(s, '=', Padding(|s|, 8));
    UndigitsDigits(Base32, raw);
  }

  /** A string that decodes to whole groups of five bytes is the encoding of
      what it decodes to. */
  lemma Base32Canonical(s: string)
    requires Base32Decode(s).Ok? && |Base32Decode(s).value| % 5 == 0
    ensures s == Encode(Base32, Base32Decode(s).value)
  {
    hide Digits, Undigits, IsText, IsDigits, StripRight, Padding;
    var raw := Base32Decode(s).value;
    var padded := s + Repeat('=', Padding(|s|, 8));
    var body := StripRight(padded, '=');
    NothingStripped(|padded|, |body|);
    assert body == padded == s;
    DigitsUndigits(Base32, Values(Base32, s));
    TextOfValues(Base32, s);
  }

  lemma NothingStripped(m: nat, n: nat)
    requires m % 8 == 0 && n <= m && m - n in {0, 1, 3, 4, 6}
    ensures 5 * n / 8 % 5 == 0 ==> n == m && 5 * n % 8 == 0
  {
    var q, d := m / 8, m - n;
    assert 5 * n == 40 * q - 5 * d;
    assert d == 1 ==> 5 * n / 8 == 5 * (q - 1) + 4;
    assert d == 3 ==> 5 * n / 8 == 5 * (q - 1) + 3;
    assert d == 4 ==> 5 * n / 8 == 5 * (q - 1) + 2;
    assert d == 6 ==> 5 * n / 8 == 5 * (q - 1) + 1;
  }

  // ---- the spellings of 36 bytes: a sealed seed ------------------------------------

  /** 58 digits, then up to six padding characters. */
  predicate Is58Digits(s: string) {
    && 58 <= |s| <= 64 && IsText(Base32, s[..58])
    && forall i :: 58 <= i < |s| ==> s[i] == '='
  }

  lemma Decoded58(s: string)
    requires Is58Digits(s)
    ensures Base32Decode(s) == Ok(Undigits(Base32, Values(Base32, s[..58])))
  {
    hide Undigits, Value, IsText;
    var body := s[..58];
    ModUnique(|s| + Padding(|s|, 8), 8, 8, 0);
    assert s + Repeat('=', Padding(|s|, 8)) == body + Repeat('=', 6) by { PaddedTo64(|s|); }
    DigitNotPadding(body);
    StripPadding(body, '=', 6);
  }

  lemma PaddedTo64(n: nat)
    requires 58 <= n <= 64
    ensures Padding(n, 8) == 64 - n
  {
  }

  lemma DigitNotPadding(s: string)
    requires s != "" && IsText(Base32, s)
    ensures s[|s| - 1] != '='
  {
    assert Value(Base32, s[|s| - 1]).Some?;
  }

  /** Nothing else decodes to 36 bytes. */
  lemma Only58Digits(s: string)
    requires Base32Decode(s).Ok? && |Base32Decode(s).value| == 36
    ensures Is58Digits(s)
  {
    hide Undigits, Value, IsText, StripRight, Padding;
    var pad := Padding(|s|, 8);
    var padded := s + Repeat('=', pad);
    var body := StripRight(padded, '=');
    BodyOf36(|padded|, |body|);
    assert |body| == 58 && |padded| == 64;
    assert s[..58] == body;
    assert forall i :: 58 <= i < |s| ==> s[i] == padded[i];
  }

  lemma BodyOf36(m: nat, n: nat)
    requires m % 8 == 0 && n <= m && m - n in {0, 1, 3, 4, 6} && 5 * n / 8 == 36
    ensures n == 58 && m == 64
  {
    assert 58 <= n <= 59;
    assert m == 8 * (m / 8);
  }

  /** The bits 58 digits contribute to whole bytes: all but the last two. */
  lemma LeadingBits(ds: seq<nat>)
    requires |ds| == 58 && IsDigits(Base32, ds)
    ensures |Join(ds, 5)| == 290 && Join(ds, 5)[..288] == Join(ds[..57], 5) + BitsOf(ds[57] / 4, 3)
    ensures Join(Undigits(Base32, ds), 8) == Join(ds, 5)[..288]
  {
    var bits := Join(ds, 5);
    assert ds == ds[..57] + [ds[57]];
    JoinConcat(ds[..57], [ds[57]], 5);
    assert Join([ds[57]], 5) == BitsOf(ds[57], 5);
    TopThreeBits(ds[57]);
    hide Join, BitsOf, Split, IsDigits;
    var lead := bits[..288];
    assert lead == Join(ds[..57], 5) + BitsOf(ds[57], 5)[..3];
    JoinSplit(lead, 8);
    assert bits == lead + bits[288..];
    Bytes36(lead);
    SplitJoin(Split(lead, 8), 8, bits[288..]);
  }

  lemma Bytes36(lead: seq<bool>)
    requires |lead| == 288
    ensures forall i :: 0 <= i < |Split(lead, 8)| ==> Split(lead, 8)[i] < Pow2(8)
  {
  }

  lemma TopThreeBits(v: nat)
    ensures BitsOf(v, 5)[..3] == BitsOf(v / 4, 3)
  {
    assert v / 2 / 2 == v / 4;
    assert BitsOf(v, 5) == BitsOf(v / 2, 4) + [v % 2 == 1];
    assert BitsOf(v / 2, 4) == BitsOf(v / 4, 3) + [v / 2 % 2 == 1];
  }

  /** Two strings of 58 digits hold the same bytes exactly when they agree but for the
      last two bits. */
  lemma SameBytes(ds: seq<nat>, es: seq<nat>)
    requires |ds| == |es| == 58 && IsDigits(Base32, ds) && IsDigits(Base32, es)
    ensures Undigits(Base32, ds) == Undigits(Base32, es) <==> ds[..57] == es[..57] && ds[57] / 4 == es[57] / 4
  {
    LeadingBits(ds);
    LeadingBits(es);
    if Undigits(Base32, ds) == Undigits(Base32, es) {
      hide Join, BitsOf, Undigits;
      var a, b := Join(ds[..57], 5), Join(es[..57], 5);
      assert a + BitsOf(ds[57] / 4, 3) == b + BitsOf(es[57] / 4, 3);
      assert |a| == |b| == 285;
      assert a == (a + BitsOf(ds[57] / 4, 3))[..285] && b == (b + BitsOf(es[57] / 4, 3))[..285];
      assert BitsOf(ds[57] / 4, 3) == (a + BitsOf(ds[57] / 4, 3))[285..] == BitsOf(es[57] / 4, 3);
      assert Pow2(5) == 32;
      JoinInjective(ds[..57], es[..57], 5);
      assert Pow2(5) == 32 && Pow2(3) == 8;
      NatOfBitsOf(ds[57] / 4, 3);
      NatOfBitsOf(es[57] / 4, 3);
    } else if ds[..57] == es[..57] && ds[57] / 4 == es[57] / 4 {
      hide BitsOf, Undigits;
      Regrouped(ds, es);
    }
  }

  lemma Regrouped(ds: seq<nat>, es: seq<nat>)
    requires IsDigits(Base32, ds) && IsDigits(Base32, es)
    requires Join(Undigits(Base32, ds), 8) == Join(Undigits(Base32, es), 8)
    ensures Undigits(Base32, ds) == Undigits(Base32, es)
  {
    hide Join, IsDigits;
    var x, y := Undigits(Base32, ds), Undigits(Base32, es);
    assert Pow2(4) == 16 && Pow2(8) == 256;
    JoinInjective(x, y, 8);
  }

  /** What is encoded ends on zero bits. */
  lemma EncodedEndsOnZeros(raw: Bytes)
    requires |raw| == 36
    ensures |Digits(Base32, raw)| == 58 && Digits(Base32, raw)[57] % 4 == 0
  {
    var padded := PadBits(Join(raw, 8), 5);
    DigitCount(raw);
    JoinSplit(padded, 5);
    hide Join, Split;
    EndsOnZeros(Digits(Base32, raw), padded);
  }

  lemma EndsOnZeros(ds: seq<nat>, bits: seq<bool>)
    requires |ds| == 58 && Join(ds, 5) == bits && |bits| == 290 && !bits[288] && !bits[289]
    ensures ds[57] % 4 == 0
  {
    assert ds == ds[..57] + [ds[57]];
    JoinConcat(ds[..57], [ds[57]], 5);
    assert Join([ds[57]], 5) == BitsOf(ds[57], 5);
    LowTwoBits(ds[57]);
    hide Join, BitsOf;
    assert bits[288] == BitsOf(ds[57], 5)[3] && bits[289] == BitsOf(ds[57], 5)[4];
  }

  lemma LowTwoBits(v: nat)
    ensures BitsOf(v, 5)[4] == (v % 2 == 1) && BitsOf(v, 5)[3] == (v / 2 % 2 == 1)
  {
    assert BitsOf(v, 5) == BitsOf(v / 2, 4) + [v % 2 == 1];
    assert BitsOf(v / 2, 4) == BitsOf(v / 2 / 2, 3) + [v / 2 % 2 == 1];
  }

  /** Padding the decoder would add may already be there in part. */
  lemma ExplicitPadding(s: string)
    requires |s| % 8 != 0
    ensures Base32Decode(s + "=") == Base32Decode(s)
  {
    var p := Padding(|s|, 8);
    assert Padding(|s + "="|, 8) == p - 1;
    assert s + "=" + Repeat('=', p - 1) == s + Repeat('=', p);
  }

  /** With its last digit turned into padding, a text of 56 digits loses its last byte. */
  lemma LastDigitDropped(s: string)
    requires |s| == 56 && IsText(Base32, s)
    ensures Base32Decode(s).Ok? && |Base32Decode(s).value| == 35
    ensures Base32Decode(s[55 := '=']) == Ok(Base32Decode(s).value[..34])
  {
    var t, body, ds := s[55 := '='], s[..55], Values(Base32, s);
    hide Undigits, Value, Join, Split;
    assert Padding(56, 8) == 0 && s + Repeat('=', 0) == s && t + Repeat('=', 0) == t;
    assert t == body + Repeat('=', 1);
    DigitNotPadding(s);
    DigitNotPadding(body);
    StripPadding(s, '=', 0);
    StripPadding(body, '=', 1);
    assert Values(Base32, body) == ds[..55];
    FewerDigits(ds);
  }

  lemma FewerDigits(ds: seq<nat>)
    requires |ds| == 56
    ensures Undigits(Base32, ds[..55]) == Undigits(Base32, ds)[..34]
  {
    assert ds == ds[..55] + [ds[55]];
    JoinConcat(ds[..55], [ds[55]], 5);
    SplitPrefix(Join(ds[..55], 5), Join([ds[55]], 5), 8);
  }

  // ---- base64url ---------------------------------------------------------

  function Base64UrlDecode(encoded: string): Result<Bytes> {
    if !IsText(Base64Url, encoded) || |encoded| % 4 == 1 then Err(Malformed)
    else Ok(Undigits(Base64Url, Values(Base64Url, encoded)))
  }

  lemma Base64UrlRoundTrip(raw: Bytes)
    ensures Base64UrlDecode(Encode(Base64Url, raw)) == Ok(raw)
  {
    hide Split, PadBits, Join, Undigits, Values, Encode, IsText, IsDigits;
    EncodeText(Base64Url, raw);
    UndigitsDigits(Base64Url, raw);
    NeverOneOver(|Digits(Base64Url, raw)|, |raw|);
  }

  /** Whole bytes never leave one digit over. */
  lemma NeverOneOver(n: nat, bytes: nat)
    requires 8 * bytes <= 6 * n < 8 * bytes + 6
    ensures n % 4 != 1
  {
  }

  /** The characters of the base64url alphabet. */
  predicate IsBase64Url(c: char) {
    'A' <= c <= 'Z' || 'a' <= c <= 'z' || '0' <= c <= '9' || c == '-' || c == '_'
  }

  /** A string decodes exactly when it is made of the alphabet's characters alone, without
      padding, and its length leaves no single digit over; anything else is malformed. */
  lemma Base64UrlExactly(s: string)
    ensures Base64UrlDecode(s).Ok? <==> (forall i :: 0 <= i < |s| ==> IsBase64Url(s[i])) && |s| % 4 != 1
    ensures Base64UrlDecode(s).Err? ==> Base64UrlDecode(s) == Err(Malformed)
  {
    forall i | 0 <= i < |s| ensures Value(Base64Url, s[i]).Some? <==> IsBase64Url(s[i]) {
    }
    hide Value, IsBase64Url;
  }

  lemma EncodedBits(a: Alphabet, raw: Bytes)
    ensures IsText(a, Encode(a, raw))
    ensures Join(Values(a, Encode(a, raw)), Width(a)) == PadBits(Join(raw, 8), Width(a))
  {
    EncodeText(a, raw);
    JoinSplit(PadBits(Join(raw, 8), Width(a)), Width(a));
  }

  /** What a base64url text decodes to: the bytes whose bits its digits begin with. */
  lemma DecodedBits(s: string)
    requires Base64UrlDecode(s).Ok?
    ensures IsText(Base64Url, s) && |Base64UrlDecode(s).value| == 6 * |s| / 8
    ensures var raw := Base64UrlDecode(s).value;
            8 * |raw| <= 6 * |s| && Join(raw, 8) == Join(Values(Base64Url, s), 6)[..8 * |raw|]
  {
    var raw, bits := Base64UrlDecode(s).value, Join(Values(Base64Url, s), 6);
    var lead := bits[..8 * |raw|];
    assert Pow2(4) == 16 && Pow2(8) == 256;
    ModUnique(8 * |raw|, 8, |raw|, 0);
    assert bits == lead + bits[8 * |raw|..];
    JoinSplit(lead, 8);
    var whole := Split(lead, 8);
    SplitJoin(whole, 8, bits[8 * |raw|..]);
    assert Split(bits, 8) == whole;
  }

  lemma LengthFixed(n: nat, m: nat)
    requires n % 4 != 1 && m % 4 != 1 && 6 * n / 8 == 6 * m / 8
    ensures n == m
  {
    var q, k := n / 4, m / 4;
    assert n == 4 * q + n % 4 && m == 4 * k + m % 4;
    assert 6 * n / 8 == 3 * q + 6 * (n % 4) / 8 && 6 * m / 8 == 3 * k + 6 * (m % 4) / 8;
  }

  /** A text that decodes is the encoding of what it decodes to exactly when the bits its
      digits hold beyond whole bytes are zero: decoding ignores them. */
  lemma Base64UrlCanonical(s: string)
    requires Base64UrlDecode(s).Ok?
    ensures IsText(Base64Url, s)
    ensures var raw := Base64UrlDecode(s).value;
            s == Encode(Base64Url, raw)
            <==> forall i :: 8 * |raw| <= i < 6 * |s| ==> !Join(Values(Base64Url, s), 6)[i]
  {
    var raw := Base64UrlDecode(s).value;
    var t := Encode(Base64Url, raw);
    DecodedBits(s);
    EncodedBits(Base64Url, raw);
    Base64UrlRoundTrip(raw);
    DecodedBits(t);
    LengthFixed(|s|, |t|);
    hide Base64UrlDecode, Encode, Join, IsText;
    var ds, es := Values(Base64Url, s), Values(Base64Url, t);
    PaddedZeros(Join(raw, 8), 6);
    var x, y := Join(ds, 6), Join(es, 6);
    if forall i :: 8 * |raw| <= i < 6 * |s| ==> !x[i] {
      assert x == y by {
        assert forall i :: 0 <= i < 8 * |raw| ==> x[i] == x[..8 * |raw|][i] && y[i] == y[..8 * |raw|][i];
      }
      JoinInjective(ds, es, 6);
      TextOfValues(Base64Url, s);
      TextOfValues(Base64Url, t);
    }
  }

  lemma PaddedZeros(bits: seq<bool>, w: nat)
    requires w > 0
    ensures forall i :: |bits| <= i < |PadBits(bits, w)| ==> !PadBits(bits, w)[i]
  {
  }

  lemma Base64UrlNoDot(raw: Bytes)
    ensures '.' !in Encode(Base64Url, raw)
  {
  }
}
