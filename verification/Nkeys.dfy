/** nkey strings: prefix byte, key material and CRC-16 in unpadded base32
    (src/valiss/nkeys.py). */
module Nkeys {
  import opened Bits
  import opened Errors
  import opened Radix
  import Crc16
  import Gf2

  const PREFIX_OPERATOR: Byte := 112
  const PREFIX_ACCOUNT: Byte := 0
  const PREFIX_USER: Byte := 160
  const PREFIX_SEED: Byte := 144

  predicate IsPublicPrefix(prefix: nat) {
    prefix == PREFIX_OPERATOR || prefix == PREFIX_ACCOUNT || prefix == PREFIX_USER
  }

  function LittleEndian(n: nat): (bs: Bytes)
    ensures |bs| == 2
  {
    [n % 256, n / 256 % 256]
  }

  function Seal(raw: Bytes): string {
    Encode(Base32, raw + LittleEndian(Crc16.Checksum(raw)))
  }

  function Open(encoded: string): Result<Bytes> {
    var raw :- Base32Decode(encoded);
    if |raw| < 4 then Err(Unclassified)
    else
      var data, lo, hi := raw[..|raw| - 2], raw[|raw| - 2], raw[|raw| - 1];
      if Crc16.Checksum(data) != (lo as nat) + 256 * (hi as nat) then Err(Unclassified)
      else Ok(data)
  }

  function EncodePublic(prefix: Byte, rawKey: Bytes): Result<string> {
    if !IsPublicPrefix(prefix) then Err(Unclassified) else Ok(Seal([prefix] + rawKey))
  }

  /** The three high bits of the public prefix go under the five-bit seed
      prefix, the other five lead the second byte. */
  function SeedHead(prefix: Byte): Bytes {
    [PREFIX_SEED + prefix / 32, prefix % 32 * 8]
  }

  function EncodeSeed(prefix: Byte, rawSeed: Bytes): Result<string> {
    if !IsPublicPrefix(prefix) then Err(Unclassified) else Ok(Seal(SeedHead(prefix) + rawSeed))
  }

  function DecodePublic(encoded: string): Result<(Byte, Bytes)> {
    var data :- Open(encoded);
    if !IsPublicPrefix(data[0]) then Err(Unclassified) else Ok((data[0], data[1..]))
  }

  function DecodeSeed(encoded: string): Result<(Byte, Bytes)> {
    var data :- Open(encoded);
    if |data| < 4 then Err(Unclassified)
    else if data[0] / 8 * 8 != PREFIX_SEED then Err(Unclassified)
    else
      var prefix := data[0] % 8 * 32 + data[1] / 8;
      if !IsPublicPrefix(prefix) then Err(Unclassified)
      else if |data| - 2 != 32 then Err(Unclassified)
      else Ok((prefix, data[2..]))
  }

  predicate IsValidPublic(encoded: string, prefix: Byte) {
    var decoded := DecodePublic(encoded);
    decoded.Ok? && decoded.value.0 == prefix && |decoded.value.1| == 32
  }

  // ---- round trips -------------------------------------------------------

  lemma OpenSeal(raw: Bytes)
    requires |raw| >= 2
    ensures Open(Seal(raw)) == Ok(raw)
  {
    hide Crc16.Checksum, Base32Decode, Encode;
    Crc16.ChecksumRange(raw);
    var c := Crc16.Checksum(raw);
    var whole := raw + LittleEndian(c);
    Base32RoundTrip(whole);
    assert whole[..|whole| - 2] == raw;
    assert whole[|whole| - 2..] == LittleEndian(c);
  }

  /** Public keys survive the trip through text, at any nonzero length. */
  lemma PublicRoundTrip(prefix: Byte, rawKey: Bytes)
    requires IsPublicPrefix(prefix) && |rawKey| >= 1
    ensures EncodePublic(prefix, rawKey).Ok?
    ensures DecodePublic(EncodePublic(prefix, rawKey).value) == Ok((prefix, rawKey))
  {
    hide Open, Seal;
    OpenSeal([prefix] + rawKey);
  }

  /** Seeds do too, through the split of the prefix over two bytes. */
  lemma SeedRoundTrip(prefix: Byte, rawSeed: Bytes)
    requires IsPublicPrefix(prefix) && |rawSeed| == 32
    ensures EncodeSeed(prefix, rawSeed).Ok?
    ensures DecodeSeed(EncodeSeed(prefix, rawSeed).value) == Ok((prefix, rawSeed))
  {
    hide Open, Seal;
    var data := SeedHead(prefix) + rawSeed;
    OpenSeal(data);
    assert data[2..] == rawSeed;
  }

  /** No string is both a public key and a seed, so neither encoding can be
      taken for the other. */
  lemma PublicOrSeed(encoded: string)
    ensures !(DecodePublic(encoded).Ok? && DecodeSeed(encoded).Ok?)
  {
  }

  /** A 32-byte public key has exactly one spelling. */
  lemma PublicCanonical(encoded: string)
    requires DecodePublic(encoded).Ok? && |DecodePublic(encoded).value.1| == 32
    ensures var (prefix, key) := DecodePublic(encoded).value;
            EncodePublic(prefix, key) == Ok(encoded)
  {
    hide Base32Decode, Encode, Crc16.Checksum;
    var raw := Base32Decode(encoded).value;
    Base32Canonical(encoded);
    var data := raw[..33];
    assert data == [data[0]] + data[1..];
    LittleEndianOf(raw[33], raw[34]);
    assert raw == data + LittleEndian(Crc16.Checksum(data));
  }

  lemma LittleEndianOf(lo: Byte, hi: Byte)
    ensures LittleEndian((lo as nat) + 256 * (hi as nat)) == [lo, hi]
  {
  }

  lemma PublicInjective(a: string, b: string)
    requires DecodePublic(a).Ok? && DecodePublic(a) == DecodePublic(b)
    requires |DecodePublic(a).value.1| == 32
    ensures a == b
  {
    PublicCanonical(a);
    PublicCanonical(b);
  }

  /** A string decodes to a public key exactly when it is a base32 spelling of that key's
      encoding; no key is empty. */
  lemma PublicExactly(s: string, prefix: Byte, rawKey: Bytes)
    ensures DecodePublic(s) == Ok((prefix, rawKey)) <==>
              IsPublicPrefix(prefix) && |rawKey| >= 1
              && Base32Decode(s) == Ok([prefix] + rawKey + LittleEndian(Crc16.Checksum([prefix] + rawKey)))
  {
    hide Base32Decode, Crc16.Checksum;
    var data := [prefix] + rawKey;
    var whole := data + LittleEndian(Crc16.Checksum(data));
    Crc16.ChecksumRange(data);
    assert whole[..|whole| - 2] == data && whole[|whole| - 2..] == LittleEndian(Crc16.Checksum(data));
    if DecodePublic(s) == Ok((prefix, rawKey)) { OpenedWhole(s, data); }
  }

  lemma OpenedWhole(s: string, data: Bytes)
    requires Open(s).Ok? && data != [] && data[0] == Open(s).value[0] && data[1..] == Open(s).value[1..]
    ensures Base32Decode(s) == Ok(data + LittleEndian(Crc16.Checksum(data)))
  {
    hide Base32Decode, Crc16.Checksum;
    var raw := Base32Decode(s).value;
    LittleEndianOf(raw[|raw| - 2], raw[|raw| - 1]);
    assert data == [data[0]] + data[1..] && Open(s).value == [Open(s).value[0]] + Open(s).value[1..];
    assert raw == raw[..|raw| - 2] + [raw[|raw| - 2], raw[|raw| - 1]];
  }

  // ---- what a key looks like ------------------------------------------------------

  /** The first ten bits of the bytes, read both ways. */
  lemma FirstTenBits(ds: seq<nat>, raw: Bytes)
    requires |ds| >= 2 && |raw| >= 2 && IsDigits(Base32, ds)
    requires Join(raw, 8) <= Join(ds, 5)
    ensures 32 * ds[0] + ds[1] == (256 * raw[0] as nat + raw[1] as nat) / 64
  {
    assert Pow2(5) == 32 && Pow2(8) == 256;
    TwoGroups(raw[0], raw[1], 8);
    TwoGroups(ds[0], ds[1], 5);
    hide Join, BitsOf, NatOf, Pow2, IsDigits;
    var x, y := Join([raw[0], raw[1]], 8), Join([ds[0], ds[1]], 5);
    LeadingPair(raw, 8);
    LeadingPair(ds, 5);
    assert x[..10] == Join(raw, 8)[..10] == Join(ds, 5)[..10] == y;
    TopTen(x);
  }

  lemma LeadingPair(ds: seq<nat>, w: nat)
    requires |ds| >= 2
    ensures |Join([ds[0], ds[1]], w)| == 2 * w && Join([ds[0], ds[1]], w) <= Join(ds, w)
  {
    assert ds == [ds[0], ds[1]] + ds[2..];
    JoinConcat([ds[0], ds[1]], ds[2..], w);
  }

  lemma TopTen(x: seq<bool>)
    requires |x| == 16
    ensures NatOf(x[..10]) == NatOf(x) / 64
  {
    assert Pow2(6) == 64;
    assert x == x[..10] + x[10..];
    hide NatOf, Pow2;
    NatOfConcat(x[..10], x[10..]);
    BitsOfNatOf(x[10..]);
    ModUnique(NatOf(x), 64, NatOf(x[..10]), NatOf(x[10..]));
  }

  lemma TwoGroups(u: nat, v: nat, w: nat)
    requires u < Pow2(w) && v < Pow2(w)
    ensures |Join([u, v], w)| == 2 * w && NatOf(Join([u, v], w)) == u * Pow2(w) + v
  {
    assert [u, v][1..] == [v] && [v][1..] == [];
    assert Join([u, v], w) == BitsOf(u, w) + BitsOf(v, w);
    NatOfBitsOf(u, w);
    NatOfBitsOf(v, w);
    hide NatOf, BitsOf, Join;
    NatOfConcat(BitsOf(u, w), BitsOf(v, w));
  }

  lemma FirstLetters(raw: Bytes)
    requires |raw| >= 3
    ensures var s := Encode(Base32, raw);
            && |s| >= 2 && Value(Base32, s[0]) == Some(raw[0] / 8)
            && Value(Base32, s[1]) == Some(raw[0] % 8 * 4 + raw[1] / 64)
  {
    var s := Encode(Base32, raw);
    DigitCount(raw);
    EncodedBits(Base32, raw);
    EncodeText(Base32, raw);
    hide Encode, Digits, Value, PadBits;
    var ds := Values(Base32, s);
    FirstTenBits(ds, raw);
    assert Pow2(5) == 32;
    assert s[0] in s && Value(Base32, s[0]).Some? && Value(Base32, s[1]).Some?;
    SplitTen(ds[0], ds[1], raw[0], raw[1]);
  }

  lemma SplitTen(d: nat, e: nat, a: Byte, b: Byte)
    requires d < 32 && e < 32 && 32 * d + e == (256 * a as nat + b as nat) / 64
    ensures d == a / 8 && e == a % 8 * 4 + b / 64
  {
    assert (256 * a as nat + b as nat) / 64 == 4 * a as nat + b / 64;
    assert a as nat == 8 * (a / 8) + a % 8;
  }

  /** The letter of a key's role. */
  function Letter(prefix: Byte): char
    requires IsPublicPrefix(prefix)
  {
    if prefix == PREFIX_OPERATOR then 'O' else if prefix == PREFIX_ACCOUNT then 'A' else 'U'
  }

  /** A public key starts with the letter of its role, a seed with S and then that letter. */
  lemma KeyLetters(prefix: Byte, raw: Bytes)
    requires IsPublicPrefix(prefix) && |raw| == 32
    ensures EncodePublic(prefix, raw).Ok? && |EncodePublic(prefix, raw).value| == 56
    ensures EncodePublic(prefix, raw).value[0] == Letter(prefix)
    ensures EncodeSeed(prefix, raw).Ok? && |EncodeSeed(prefix, raw).value| == 58
    ensures EncodeSeed(prefix, raw).value[..2] == ['S', Letter(prefix)]
  {
    hide Encode, Crc16.Checksum, Value;
    SealLength([prefix] + raw);
    SealShape(SeedHead(prefix) + raw);
    FirstLetters([prefix] + raw + LittleEndian(Crc16.Checksum([prefix] + raw)));
    FirstLetters(SeedHead(prefix) + raw + LittleEndian(Crc16.Checksum(SeedHead(prefix) + raw)));
    LetterValues();
  }

  lemma LetterValues()
    ensures forall c :: Value(Base32, c) == Some(14) <==> c == 'O'
    ensures forall c :: Value(Base32, c) == Some(0) <==> c == 'A'
    ensures forall c :: Value(Base32, c) == Some(20) <==> c == 'U'
    ensures forall c :: Value(Base32, c) == Some(18) <==> c == 'S'
  {
  }

  // ---- the spellings of a seed ------------------------------------------------

  /** The seed's text with k in the three bits of the second byte that decoding
      ignores; encoding leaves them zero. */
  function SeedText(prefix: Byte, rawSeed: Bytes, k: nat): string
    requires k < 8
  {
    Seal([SeedHead(prefix)[0], prefix % 32 * 8 + k] + rawSeed)
  }

  /** The same text up to its last two bits and its padding. */
  predicate Spells(s: string, t: string)
    requires Is58Digits(t)
  {
    && Is58Digits(s) && s[..57] == t[..57]
    && Value(Base32, s[57]).value / 4 == Value(Base32, t[57]).value / 4
  }

  lemma SeedTextDecodes(prefix: Byte, rawSeed: Bytes, k: nat)
    requires IsPublicPrefix(prefix) && |rawSeed| == 32 && k < 8
    ensures DecodeSeed(SeedText(prefix, rawSeed, k)) == Ok((prefix, rawSeed))
  {
    hide Open, Seal;
    var data := [SeedHead(prefix)[0], prefix % 32 * 8 + k] + rawSeed;
    OpenSeal(data);
    assert data[2..] == rawSeed;
  }

  lemma SealShape(raw: Bytes)
    requires |raw| == 34
    ensures Is58Digits(Seal(raw)) && |Seal(raw)| == 58
    ensures Base32Decode(Seal(raw)) == Ok(raw + LittleEndian(Crc16.Checksum(raw)))
    ensures Value(Base32, Seal(raw)[57]).value % 4 == 0
  {
    hide Crc16.Checksum, Digits, Base32Decode, IsText, Value;
    var whole := raw + LittleEndian(Crc16.Checksum(raw));
    Base32RoundTrip(whole);
    EncodedEndsOnZeros(whole);
    EncodeText(Base32, whole);
    Only58Digits(Seal(raw));
  }

  lemma SpelledAlike(s: string, t: string)
    requires Is58Digits(s) && Is58Digits(t)
    ensures Base32Decode(s) == Base32Decode(t) <==> Spells(s, t)
  {
    Decoded58(s);
    Decoded58(t);
    hide Base32Decode, Undigits, IsText, Value;
    var ds, es := Values(Base32, s[..58]), Values(Base32, t[..58]);
    SameBytes(ds, es);
    assert ds[..57] == es[..57] <==> s[..57] == t[..57] by { PrefixValues(s, t, ds, es); }
  }

  lemma PrefixValues(s: string, t: string, ds: seq<nat>, es: seq<nat>)
    requires Is58Digits(s) && Is58Digits(t)
    requires ds == Values(Base32, s[..58]) && es == Values(Base32, t[..58])
    ensures ds[..57] == es[..57] <==> s[..57] == t[..57]
  {
    TextOfValues(Base32, s[..58]);
    TextOfValues(Base32, t[..58]);
    hide Value, IsText;
    if ds[..57] == es[..57] {
      forall i | 0 <= i < 57 ensures s[i] == t[i] {
        assert ds[..57][i] == ds[i] && es[..57][i] == es[i];
        assert s[..58][i] == Symbol(Base32, ds[i]) && t[..58][i] == Symbol(Base32, es[i]);
      }
    } else if s[..57] == t[..57] {
      forall i | 0 <= i < 57 ensures ds[i] == es[i] {
        assert s[..57][i] == s[i] && t[..57][i] == t[i] && s[..58][i] == s[i] && t[..58][i] == t[i];
      }
    }
  }

  /** The bytes behind a seed's text. */
  lemma SeedBytes(s: string)
    requires DecodeSeed(s).Ok?
    ensures Is58Digits(s) && Open(s).Ok? && |Open(s).value| == 34 && IsPublicPrefix(DecodeSeed(s).value.0)
    ensures var (prefix, rawSeed) := DecodeSeed(s).value;
            var data := Open(s).value;
            && |rawSeed| == 32 && data == [SeedHead(prefix)[0], prefix % 32 * 8 + data[1] % 8] + rawSeed
            && Base32Decode(s) == Ok(data + LittleEndian(Crc16.Checksum(data)))
  {
    hide Base32Decode, Crc16.Checksum;
    var raw := Base32Decode(s).value;
    var data := Open(s).value;
    LittleEndianOf(raw[34], raw[35]);
    assert raw == data + [raw[34], raw[35]];
    Only58Digits(s);
    assert data == [data[0], data[1]] + data[2..];
  }

  /** A string decodes to a seed exactly when it is one of its spellings: eight values of
      the ignored bits in the second byte, four of the last digit's two pad bits, and up
      to six padding characters. */
  lemma SeedSpellings(prefix: Byte, rawSeed: Bytes, s: string)
    requires IsPublicPrefix(prefix) && |rawSeed| == 32
    ensures forall k :: 0 <= k < 8 ==> Is58Digits(SeedText(prefix, rawSeed, k))
    ensures DecodeSeed(s) == Ok((prefix, rawSeed))
       <==> exists k :: 0 <= k < 8 && Spells(s, SeedText(prefix, rawSeed, k))
  {
    hide Open, Seal, SeedText, Spells, Is58Digits, DecodeSeed, Base32Decode;
    forall k | 0 <= k < 8
      ensures Is58Digits(SeedText(prefix, rawSeed, k))
      ensures Spells(s, SeedText(prefix, rawSeed, k)) ==> DecodeSeed(s) == Ok((prefix, rawSeed))
    {
      SeedTextShape(prefix, rawSeed, k);
      if Spells(s, SeedText(prefix, rawSeed, k)) {
        SpellsShape(s, SeedText(prefix, rawSeed, k));
        SpelledAlike(s, SeedText(prefix, rawSeed, k));
        SeedTextDecodes(prefix, rawSeed, k);
        DecodedAlike(s, SeedText(prefix, rawSeed, k));
      }
    }
    if DecodeSeed(s) == Ok((prefix, rawSeed)) {
      SeedBytes(s);
      var k := Open(s).value[1] % 8;
      SpelledWith(prefix, rawSeed, s, k);
    }
  }

  lemma SeedTextShape(prefix: Byte, rawSeed: Bytes, k: nat)
    requires |rawSeed| == 32 && k < 8
    ensures Is58Digits(SeedText(prefix, rawSeed, k)) && |SeedText(prefix, rawSeed, k)| == 58
    ensures Value(Base32, SeedText(prefix, rawSeed, k)[57]).value % 4 == 0
  {
    hide Seal, Value, Is58Digits;
    SealShape([SeedHead(prefix)[0], prefix % 32 * 8 + k] + rawSeed);
    DigitAt(SeedText(prefix, rawSeed, k));
  }

  lemma DigitAt(s: string)
    requires Is58Digits(s)
    ensures Value(Base32, s[57]).Some?
  {
    assert s[..58][57] == s[57];
  }

  lemma SpellsShape(s: string, t: string)
    requires Is58Digits(t) && Spells(s, t)
    ensures Is58Digits(s)
  {
  }

  lemma DecodedAlike(s: string, t: string)
    requires Base32Decode(s) == Base32Decode(t)
    ensures Open(s) == Open(t) && DecodeSeed(s) == DecodeSeed(t)
  {
    hide Base32Decode, Crc16.Checksum;
  }

  /** Which spelling a decoded seed is. */
  lemma SpelledWith(prefix: Byte, rawSeed: Bytes, s: string, k: nat)
    requires DecodeSeed(s) == Ok((prefix, rawSeed)) && |rawSeed| == 32 && k < 8
    requires Open(s).Ok? && |Open(s).value| == 34
    ensures Is58Digits(SeedText(prefix, rawSeed, k))
    ensures Spells(s, SeedText(prefix, rawSeed, k)) <==> k == Open(s).value[1] % 8
  {
    hide Open, Seal, DecodeSeed, Base32Decode, Spells, Is58Digits, Crc16.Checksum;
    SeedBytes(s);
    SeedTextShape(prefix, rawSeed, k);
    var data := [SeedHead(prefix)[0], prefix % 32 * 8 + k] + rawSeed;
    SealShape(data);
    SpelledAlike(s, Seal(data));
    if Base32Decode(s) == Base32Decode(Seal(data)) {
      var whole := data + LittleEndian(Crc16.Checksum(data));
      var mine := Open(s).value;
      assert whole[1] == data[1] && (mine + LittleEndian(Crc16.Checksum(mine)))[1] == mine[1];
    }
  }

  /** A seed's text is its encoding exactly when it has 58 characters and the bits that
      decoding ignores are zero, in the second byte and in the last digit. */
  lemma SeedCanonical(s: string)
    requires DecodeSeed(s).Ok?
    ensures |s| >= 58 && Value(Base32, s[57]).Some? && Open(s).Ok? && |Open(s).value| == 34
    ensures var (prefix, rawSeed) := DecodeSeed(s).value;
            EncodeSeed(prefix, rawSeed) == Ok(s)
            <==> |s| == 58 && Open(s).value[1] % 8 == 0 && Value(Base32, s[57]).value % 4 == 0
  {
    hide Open, Seal, DecodeSeed, Value;
    SeedBytes(s);
    DigitAt(s);
    var (prefix, rawSeed) := DecodeSeed(s).value;
    assert SeedHead(prefix) == [SeedHead(prefix)[0], prefix % 32 * 8 + 0];
    var t := SeedText(prefix, rawSeed, 0);
    SeedTextShape(prefix, rawSeed, 0);
    SpelledWith(prefix, rawSeed, s, 0);
    if |s| == 58 && Spells(s, t) && Value(Base32, s[57]).value % 4 == 0 {
      DigitAt(t);
      SameDigit(s[57], t[57]);
      assert s == s[..57] + [s[57]] && t == t[..57] + [t[57]];
    }
  }

  /** Length and last digit alone do not decide: with any ignored bit of the second byte
      set, a text of 58 characters that ends on zero bits is still not the encoding. */
  lemma SecondByteMatters(prefix: Byte, rawSeed: Bytes, k: nat)
    requires IsPublicPrefix(prefix) && |rawSeed| == 32 && 0 < k < 8
    ensures var s := SeedText(prefix, rawSeed, k);
            && DecodeSeed(s) == Ok((prefix, rawSeed)) && |s| == 58
            && Value(Base32, s[57]).Some? && Value(Base32, s[57]).value % 4 == 0
            && EncodeSeed(prefix, rawSeed) != Ok(s)
  {
    hide Open, Seal, Value, DecodeSeed;
    var s, data := SeedText(prefix, rawSeed, k), [SeedHead(prefix)[0], prefix % 32 * 8 + k] + rawSeed;
    SeedTextDecodes(prefix, rawSeed, k);
    SeedTextShape(prefix, rawSeed, k);
    OpenSeal(data);
    assert data[1] % 8 == k;
    SeedCanonical(s);
  }

  lemma SameDigit(c: char, d: char)
    requires Value(Base32, c).Some? && Value(Base32, d).Some?
    requires Value(Base32, c).value % 4 == Value(Base32, d).value % 4
    requires Value(Base32, c).value / 4 == Value(Base32, d).value / 4
    ensures c == d
  {
    var x, y := Value(Base32, c).value, Value(Base32, d).value;
    assert x == 4 * (x / 4) + x % 4 && y == 4 * (y / 4) + y % 4;
    SymbolOfValue(Base32, c);
    SymbolOfValue(Base32, d);
  }

  lemma SealLength(raw: Bytes)
    requires |raw| == 33 || |raw| == 34
    ensures |Seal(raw)| == if |raw| == 33 then 56 else 58
  {
  }

  // ---- single-character errors --------------------------------------------

  /** The 280 bits of an encoded 32-byte key: 264 data bits, then the checksum,
      low byte first. */
  ghost predicate Codeword(bits: seq<bool>) {
    && |bits| == 280
    && Crc16.Crc(Zeros(16), bits[..264]) == bits[272..] + bits[264..272]
  }

  lemma ChecksumBits(data: Bytes, lo: Byte, hi: Byte)
    requires Crc16.Checksum(data) == (lo as nat) + 256 * (hi as nat)
    ensures Crc16.Crc(Zeros(16), Join(data, 8)) == BitsOf(hi, 8) + BitsOf(lo, 8)
  {
    Crc16.Pow2Values();
    NatOfBitsOf(lo, 8);
    NatOfBitsOf(hi, 8);
    NatOfConcat(BitsOf(hi, 8), BitsOf(lo, 8));
    NatOfInjective(Crc16.Crc(Zeros(16), Join(data, 8)), BitsOf(hi, 8) + BitsOf(lo, 8));
  }

  lemma OpenedIsCodeword(raw: Bytes)
    requires |raw| == 35
    requires Crc16.Checksum(raw[..33]) == (raw[33] as nat) + 256 * (raw[34] as nat)
    ensures Codeword(Join(raw, 8))
  {
    var data, lo, hi := raw[..33], raw[33], raw[34];
    assert raw == data + ([lo] + [hi]);
    JoinConcat(data, [lo] + [hi], 8);
    JoinConcat([lo], [hi], 8);
    assert Join([lo], 8) == BitsOf(lo, 8) && Join([hi], 8) == BitsOf(hi, 8);
    ChecksumBits(data, lo, hi);
    hide Join, BitsOf, Crc16.Crc, Crc16.Checksum;
    var bits := Join(raw, 8);
    assert bits[..264] == Join(data, 8);
    assert bits[264..272] == BitsOf(lo, 8) && bits[272..] == BitsOf(hi, 8);
  }

  lemma SameData(x: seq<bool>, y: seq<bool>)
    requires Codeword(x) && Codeword(y) && x[..264] == y[..264]
    ensures x == y
  {
    hide Crc16.Crc;
    var cx, cy := x[272..] + x[264..272], y[272..] + y[264..272];
    assert cx == cy;
    assert cx[..8] == x[272..] && cx[8..] == x[264..272];
    assert cy[..8] == y[272..] && cy[8..] == y[264..272];
    assert x == x[..264] + x[264..272] + x[272..];
    assert y == y[..264] + y[264..272] + y[272..];
  }

  /** The checksum of the data's difference is the checksums' difference. */
  lemma DifferenceChecksum(x: seq<bool>, y: seq<bool>, a: nat)
    requires Codeword(x) && Codeword(y) && a <= 264 && Gf2.DifferWithin(x, y, a, 10)
    ensures Crc16.Crc(Zeros(16), Xor(x[..264], y[..264])[a..])
         == Xor(x[272..] + x[264..272], y[272..] + y[264..272])
  {
    var d, e, z := x[..264], y[..264], Zeros(16);
    Gf2.CrcLinear(Crc16.POLY_BITS, z, z, d, e);
    XorSelf(z);
    assert Xor(d, e) == Zeros(a) + Xor(d, e)[a..];
    Gf2.LeadingZeros(Crc16.POLY_BITS, a, Xor(d, e)[a..]);
  }

  /** Groups 51 and 52 hold nine data bits and the top bit of the checksum's low byte,
      groups 52 and 53 four data bits and its top six. */
  lemma StraddlingGroups(x: seq<bool>, y: seq<bool>, a: nat)
    requires Codeword(x) && Codeword(y) && (a == 255 || a == 260) && Gf2.DifferWithin(x, y, a, 10)
    ensures x[..264] == y[..264]
  {
    var d, e := x[..264], y[..264];
    var w := Xor(d, e)[a..];
    DifferenceChecksum(x, y, a);
    hide Crc16.Crc;
    var c := Crc16.Crc(Zeros(16), w);
    forall j | 0 <= j < 16 && (j < 8 || (a == 255 && j > 8)) ensures !c[j] {
      var cx, cy := x[272..] + x[264..272], y[272..] + y[264..272];
      assert cx[j] == (if j < 8 then x[272 + j] else x[256 + j]);
      assert cy[j] == (if j < 8 then y[272 + j] else y[256 + j]);
    }
    if a == 255 {
      Crc16.NineBits(w);
    } else {
      Crc16.ShortMessage(w);
      assert forall i :: 0 <= i < 4 ==> w[i] == c[..4][i] == c[i];
    }
    forall i | 0 <= i < 264 ensures d[i] == e[i] {
      if i >= a { assert !w[i - a] && w[i - a] == Xor(d, e)[i]; }
    }
  }

  /** Two codewords that differ within two neighbouring five-bit groups are equal. */
  lemma PairDistance(x: seq<bool>, y: seq<bool>, i: nat)
    requires Codeword(x) && Codeword(y) && i < 55
    requires Gf2.DifferWithin(x, y, 5 * i, 10)
    ensures x == y
  {
    hide Crc16.Crc;
    if i <= 50 {
      DataBurst(x, y, i);
    } else if i <= 52 {
      StraddlingGroups(x, y, 5 * i);
    } else {
      assert x[..264] == y[..264];
    }
    SameData(x, y);
  }

  lemma DataBurst(x: seq<bool>, y: seq<bool>, i: nat)
    requires Codeword(x) && Codeword(y) && i <= 50
    requires Gf2.DifferWithin(x, y, 5 * i, 10)
    ensures x[..264] == y[..264]
  {
    assert x[264..272] == y[264..272] && x[272..] == y[272..];
    Gf2.BurstDetected(Crc16.POLY_BITS, x[..264], y[..264], 5 * i);
  }

  /** In particular within one. */
  lemma CodewordDistance(x: seq<bool>, y: seq<bool>, i: nat)
    requires Codeword(x) && Codeword(y) && i < 56
    requires Gf2.DifferWithin(x, y, 5 * i, 5)
    ensures x == y
  {
    hide Codeword;
    PairDistance(x, y, if i < 55 then i else 54);
  }

  /** The bits a 56-character string that passes the checksum stands for. */
  lemma OpenBits(s: string)
    requires |s| == 56 && IsText(Base32, s) && Open(s).Ok?
    ensures Codeword(Join(Values(Base32, s), 5))
  {
    hide Crc16.Checksum;
    assert Padding(56, 8) == 0 && s + Repeat('=', 0) == s;
    assert Value(Base32, s[55]).Some?;
    assert StripRight(s, '=') == s;
    var vals := Values(Base32, s);
    var raw := Undigits(Base32, vals);
    assert Base32Decode(s) == Ok(raw);
    OpenedIsCodeword(raw);
    JoinSplit(Join(vals, 5), 8);
  }

  lemma {:induction false} JoinUpdated(ds: seq<nat>, i: nat, v: nat)
    requires i < |ds|
    ensures Gf2.DifferWithin(Join(ds, 5), Join(ds[i := v], 5), 5 * i, 5)
  {
    hide Join, BitsOf;
    var ds' := ds[i := v];
    assert ds == ds[..i] + ([ds[i]] + ds[i + 1..]);
    assert ds' == ds[..i] + ([v] + ds[i + 1..]);
    JoinConcat(ds[..i], [ds[i]] + ds[i + 1..], 5);
    JoinConcat(ds[..i], [v] + ds[i + 1..], 5);
    JoinConcat([ds[i]], ds[i + 1..], 5);
    JoinConcat([v], ds[i + 1..], 5);
  }

  lemma UnpaddedText(t: string)
    requires |t| == 56 && t[55] != '=' && Open(t).Ok?
    ensures IsText(Base32, t)
  {
  }

  lemma JoinUpdatedPair(ds: seq<nat>, i: nat, u: nat, v: nat)
    requires i + 1 < |ds|
    ensures Gf2.DifferWithin(Join(ds, 5), Join(ds[i := u][i + 1 := v], 5), 5 * i, 10)
  {
    JoinUpdated(ds, i, u);
    JoinUpdated(ds[i := u], i + 1, v);
    hide Join;
  }

  lemma NeighboursEqual(s: string, t: string, i: nat)
    requires |s| == 56 && IsText(Base32, s) && Open(s).Ok?
    requires |t| == 56 && IsText(Base32, t) && Open(t).Ok?
    requires i < 55 && t == s[i := t[i]][i + 1 := t[i + 1]]
    ensures s == t
  {
    hide Open, Value;
    OpenBits(s);
    OpenBits(t);
    var a, b := Values(Base32, s), Values(Base32, t);
    assert b == a[i := b[i]][i + 1 := b[i + 1]];
    JoinUpdatedPair(a, i, b[i], b[i + 1]);
    PairDistance(Join(a, 5), Join(b, 5), i);
    TextInjective(s, t);
  }

  /** Changing one character of a valid 32-byte public key, or two neighbouring ones,
      leaves no string the checksum accepts, unless the last becomes padding. */
  lemma NeighboursRejected(s: string, prefix: Byte, i: nat, c: char, d: char)
    requires IsValidPublic(s, prefix) && i < 55
    ensures |s| == 56
    ensures var t := s[i := c][i + 1 := d]; t != s && t[55] != '=' ==> Open(t).Err?
  {
    hide Open, DecodePublic;
    ValidText(s, prefix);
    var t := s[i := c][i + 1 := d];
    if t != s && t[55] != '=' && Open(t).Ok? {
      UnpaddedText(t);
      NeighboursEqual(s, t, i);
      assert false;
    }
  }

  /** So swapping two neighbouring characters is always noticed. */
  lemma SwapRejected(s: string, prefix: Byte, i: nat)
    requires IsValidPublic(s, prefix) && i < 55
    ensures |s| == 56
    ensures s[i] != s[i + 1] ==> Open(s[i := s[i + 1]][i + 1 := s[i]]).Err?
  {
    hide Open, DecodePublic;
    ValidText(s, prefix);
    NeighboursRejected(s, prefix, i, s[i + 1], s[i]);
    DigitNotPadding(s);
    DigitNotPadding(s[..55]);
  }

  /** Replacing one character of a valid 32-byte public key by any other leaves
      no string the checksum accepts, except that the last character may become
      padding, which shortens the key. */
  lemma SubstitutionRejected(s: string, prefix: Byte, i: nat, c: char)
    requires IsValidPublic(s, prefix)
    ensures |s| == 56
    ensures i < 56 && c != s[i] && (i < 55 || c != '=') ==> Open(s[i := c]).Err?
  {
    hide Open, DecodePublic;
    ValidText(s, prefix);
    DigitNotPadding(s);
    if i < 55 {
      NeighboursRejected(s, prefix, i, c, s[i + 1]);
      assert s[i := c][i + 1 := s[i + 1]] == s[i := c];
    } else if i == 55 {
      NeighboursRejected(s, prefix, 54, s[54], c);
      assert s[54 := s[54]][55 := c] == s[55 := c];
    }
  }

  /** And then it is accepted exactly when the checksum of the shorter key happens to
      stand where it ends. */
  lemma PaddedLastAccepted(s: string, prefix: Byte)
    requires IsValidPublic(s, prefix)
    ensures |s| == 56 && Base32Decode(s).Ok? && |Base32Decode(s).value| == 35
    ensures var raw := Base32Decode(s).value;
            Open(s[55 := '=']).Ok? <==> Crc16.Checksum(raw[..32]) == (raw[32] as nat) + 256 * (raw[33] as nat)
  {
    hide Base32Decode, Open, DecodePublic, IsText;
    ValidText(s, prefix);
    LastDigitDropped(s);
    var raw := Base32Decode(s).value;
    assert raw[..34][..32] == raw[..32];
    OpensWhen(s[55 := '='], raw[..34]);
  }

  lemma OpensWhen(t: string, raw: Bytes)
    requires Base32Decode(t) == Ok(raw) && |raw| == 34
    ensures Open(t).Ok? <==> Crc16.Checksum(raw[..32]) == (raw[32] as nat) + 256 * (raw[33] as nat)
  {
    hide Base32Decode, Crc16.Checksum;
  }

  lemma TextInjective(s: string, t: string)
    requires IsText(Base32, s) && IsText(Base32, t)
    requires Join(Values(Base32, s), 5) == Join(Values(Base32, t), 5)
    ensures s == t
  {
    var a, b := Values(Base32, s), Values(Base32, t);
    assert Pow2(5) == 32;
    JoinInjective(a, b, 5);
    TextOfValues(Base32, s);
    TextOfValues(Base32, t);
  }

  lemma ValidText(s: string, prefix: Byte)
    requires IsValidPublic(s, prefix)
    ensures |s| == 56 && IsText(Base32, s) && Open(s).Ok?
  {
    hide Base32Decode, Encode, Digits, IsText, Crc16.Checksum, Padding;
    var raw := Base32Decode(s).value;
    assert |raw| == 35;
    Base32Canonical(s);
    EncodeText(Base32, raw);
    DigitCount(raw);
  }

  /** So no single-character change of a valid key is a valid key. */
  lemma SubstitutionInvalid(s: string, prefix: Byte, i: nat, c: char, prefix': Byte)
    requires IsValidPublic(s, prefix) && i < |s| && c != s[i]
    ensures !IsValidPublic(s[i := c], prefix')
  {
    hide Open, DecodePublic;
    SubstitutionRejected(s, prefix, i, c);
    assert s[i := c][i] == c && Value(Base32, '=').None?;
    if IsValidPublic(s[i := c], prefix') {
      ValidText(s[i := c], prefix');
      assert false;
    }
  }
}
