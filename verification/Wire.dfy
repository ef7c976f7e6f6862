/** The version-1 token envelope: header, JSON claims, signature
    (src/valiss/token.py). Gives `Token.Env` its concrete meaning. */
module Wire {
  import opened Bits
  import opened Errors
  import opened Json
  import opened Nkeys
  import opened Radix
  import opened Token
  import Text
  import Utf8

  type Digest = b: Bytes | |b| == 32 witness seq(32, _ => 0)

  /** The library calls: SHA-256, Ed25519, timestamp and base64 parsing. */
  datatype Platform = Platform(
    sha256: Bytes -> Digest,
    publicOf: Bytes -> Digest,                  // public key of a seed
    sign: (Bytes, Bytes) -> Bytes,              // seed, message
    verify: (Bytes, Bytes, Bytes) -> bool,      // public key, message, signature
    parseInstant: string -> Option<int>,
    parseSignature: string -> Option<Bytes>)

  /** What Ed25519 promises: signatures made with a seed verify under its key. */
  ghost predicate Correct(p: Platform) {
    forall seed, message :: p.verify(p.publicOf(seed), message, p.sign(seed, message))
  }

  datatype KeyPair = KeyPair(prefix: Byte, publicRaw: Bytes, seed: Option<Bytes>)

  function PublicKey(kp: KeyPair): Result<string> {
    EncodePublic(kp.prefix, kp.publicRaw)
  }

  function FromPublicKey(encoded: string): Result<KeyPair> {
    var (prefix, raw) :- DecodePublic(encoded);
    if |raw| != 32 then Err(Unclassified) else Ok(KeyPair(prefix, raw, None))
  }

  function FromSeed(p: Platform, seed: string): Result<KeyPair> {
    var (prefix, raw) :- DecodeSeed(Text.Strip(seed));
    Ok(KeyPair(prefix, p.publicOf(raw), Some(raw)))
  }

  /** A text names a key pair, without its seed, exactly when it is the encoding of a 32-byte
      public key. */
  lemma NamesKey(s: string, kp: KeyPair)
    ensures FromPublicKey(s) == Ok(kp) <==> kp.seed.None? && |kp.publicRaw| == 32 && PublicKey(kp) == Ok(s)
  {
    hide DecodePublic, EncodePublic;
    if FromPublicKey(s) == Ok(kp) {
      PublicCanonical(s);
    } else if |kp.publicRaw| == 32 && PublicKey(kp) == Ok(s) {
      EncodedPrefix(kp);
      PublicRoundTrip(kp.prefix, kp.publicRaw);
    }
  }

  lemma EncodedPrefix(kp: KeyPair)
    requires PublicKey(kp).Ok?
    ensures IsPublicPrefix(kp.prefix)
  {
  }

  function Hex(bs: Bytes): (s: string)
    ensures |s| == 2 * |bs|
  {
    if bs == [] then ""
    else
      var b: nat := bs[0];
      [HexDigit(b / 16), HexDigit(b % 16)] + Hex(bs[1..])
  }

  /** The value of a lowercase hexadecimal digit, -1 for anything else. */
  ghost function Nibble(c: char): int {
    if '0' <= c <= '9' then c as int - '0' as int
    else if 'a' <= c <= 'f' then c as int - 'a' as int + 10
    else -1
  }

  /** Two lowercase digits for each byte, the high half first. */
  lemma {:induction false} HexSpells(bs: Bytes, i: nat)
    requires i < |bs|
    ensures var hi, lo := Nibble(Hex(bs)[2 * i]), Nibble(Hex(bs)[2 * i + 1]);
            hi >= 0 && lo >= 0 && bs[i] as int == 16 * hi + lo
  {
    if i == 0 {
      var b: nat := bs[0];
      assert b == 16 * (b / 16) + b % 16;
    } else {
      HexSpells(bs[1..], i - 1);
      assert Hex(bs)[2 * i] == Hex(bs[1..])[2 * (i - 1)] && Hex(bs)[2 * i + 1] == Hex(bs[1..])[2 * (i - 1) + 1];
    }
  }

  // ---- typed fields ---------------------------------------------------------------------

  function Get(fields: seq<Field>, key: string): Json {
    if fields == [] then Null
    else if fields[0].key == key then fields[0].value
    else Get(fields[1..], key)
  }

  function WireStr(fields: seq<Field>, key: string): Result<string> {
    match Get(fields, key) case Null => Ok("") case Str(s) => Ok(s) case _ => Err(Malformed)
  }

  function WireInt(fields: seq<Field>, key: string, lo: int, hi: int): Result<int> {
    match Get(fields, key)
    case Null => Ok(0)
    case Int(n) => if n < lo || n > hi then Err(Malformed) else Ok(n)
    case _ => Err(Malformed)
  }

  function WireBool(fields: seq<Field>, key: string): Result<bool> {
    match Get(fields, key) case Null => Ok(false) case Bool(b) => Ok(b) case _ => Err(Malformed)
  }

  function WireObj(fields: seq<Field>, key: string): Result<Option<seq<Field>>> {
    match Get(fields, key) case Null => Ok(None) case Obj(o) => Ok(Some(o)) case _ => Err(Malformed)
  }

  function OptionalStr(fields: seq<Field>, key: string): Result<Option<string>> {
    match Get(fields, key) case Null => Ok(None) case Str(s) => Ok(Some(s)) case _ => Err(Malformed)
  }

  function WireChain(fields: seq<Field>): Result<Option<ChainObject>> {
    var o :- WireObj(fields, "chain");
    if o.None? then Ok(None)
    else
      var account :- OptionalStr(o.value, "account");
      var user :- OptionalStr(o.value, "user");
      Ok(Some(ChainObject(account, user)))
  }

  const TS_MIN := -62135596800
  const TS_MAX := 253402300799
  const UINT64_MAX := 0xffff_ffff_ffff_ffff
  const INT64_MAX := 0x7fff_ffff_ffff_ffff

  function KindOf(text: string): Kind {
    if text == "operator" then Operator
    else if text == "account" then Account
    else if text == "user" then User
    else if text == "message" then Message
    else OtherKind(text)
  }

  function DecodedOf(payload: seq<Field>): Result<Decoded> {
    var obj :- WireObj(payload, "valiss");
    var body := if obj.Some? then obj.value else [];
    var id :- WireStr(payload, "jti");
    var issuer :- WireStr(payload, "iss");
    var subject :- WireStr(payload, "sub");
    var name :- WireStr(payload, "name");
    var audience :- WireStr(payload, "aud");
    var issuedAt :- WireInt(payload, "iat", TS_MIN, TS_MAX);
    var expires :- WireInt(payload, "exp", TS_MIN, TS_MAX);
    var notBefore :- WireInt(payload, "nbf", TS_MIN, TS_MAX);
    var kind :- WireStr(body, "type");
    var epoch :- WireInt(body, "epoch", 0, UINT64_MAX);
    var bearer :- WireBool(body, "bearer");
    var checksum :- WireStr(body, "checksum");
    var chain :- WireChain(body);
    var ext :- WireObj(body, "ext");
    if epoch < 0 then Err(Malformed)
    else
      Ok(Decoded(id, issuer, subject, name, audience, issuedAt, expires, notBefore,
                 KindOf(kind), epoch, bearer, checksum, chain, if ext.Some? then ext.value else []))
  }

  // ---- decoding -------------------------------------------------------------------------

  function SplitDots(s: string): (parts: seq<string>)
    ensures |parts| >= 1
  {
    if s == "" then [""]
    else
      var rest := SplitDots(s[1..]);
      if s[0] == '.' then [""] + rest else [[s[0]] + rest[0]] + rest[1..]
  }

  function LoadsObject(encoded: string): Result<seq<Field>> {
    var raw :- Base64UrlDecode(encoded);
    match LoadsBytes(raw)
    case Some(Obj(fields)) => Ok(fields)
    case _ => Err(Malformed)
  }

  predicate HasKey(fields: seq<Field>, key: string) {
    exists i :: 0 <= i < |fields| && fields[i].key == key
  }

  function PeekVersion(tok: string): Result<(int, seq<string>)> {
    var parts := SplitDots(tok);
    if |parts| != 3 then Err(Malformed)
    else
      var header :- LoadsObject(parts[0]);
      if Get(header, "typ") != Str("JWT") || Get(header, "alg") != Str("ed25519-nkey") then Err(UnsupportedType)
      else if !HasKey(header, "ver") then Ok((0, parts))
      else match Get(header, "ver")
        case Int(v) => if v < -INT64_MAX - 1 || v > INT64_MAX then Err(Malformed) else Ok((v, parts))
        case _ => Err(Malformed)
  }

  function DecodeV1(p: Platform, header: string, claims: string, signature: string): Result<Decoded> {
    var payload :- LoadsObject(claims);
    var d :- DecodedOf(payload);
    match FromPublicKey(d.issuer)
    case Err(_) => Err(BadIssuerKey)
    case Ok(kp) =>
      var sig :- Base64UrlDecode(signature);
      if p.verify(kp.publicRaw, Utf8.Encode(header + "." + claims), sig) then Ok(d) else Err(BadSignature)
  }

  function DecodeToken(p: Platform, tok: string): Result<Decoded> {
    var (version, parts) :- PeekVersion(tok);
    if version == 1 && |parts| == 3 then DecodeV1(p, parts[0], parts[1], parts[2])
    else Err(UnsupportedVersion)
  }

  predicate Checks(p: Platform, key: string, message: Bytes, signature: Bytes) {
    var kp := FromPublicKey(key);
    kp.Ok? && p.verify(kp.value.publicRaw, message, signature)
  }

  /** The primitives the token checks run on. */
  function EnvOf(p: Platform): Env {
    Env(
      t => DecodeToken(p, t),
      k => IsValidPublic(k, PREFIX_OPERATOR),
      k => IsValidPublic(k, PREFIX_ACCOUNT),
      k => IsValidPublic(k, PREFIX_USER),
      x => Hex(p.sha256(x)),
      p.parseInstant,
      p.parseSignature,
      (k, m, s) => Checks(p, k, m, s))
  }

  // ---- what a decoded token is worth --------------------------------------------------

  function JoinDots(parts: seq<string>): string
    requires |parts| >= 1
  {
    if |parts| == 1 then parts[0] else parts[0] + "." + JoinDots(parts[1..])
  }

  lemma {:induction false} JoinSplitDots(s: string)
    ensures JoinDots(SplitDots(s)) == s
  {
    if s != "" {
      var rest := SplitDots(s[1..]);
      JoinSplitDots(s[1..]);
      if s[0] == '.' {
        assert ([""] + rest)[1..] == rest;
      } else {
        assert ([[s[0]] + rest[0]] + rest[1..])[1..] == rest[1..];
      }
      assert s == [s[0]] + s[1..];
    }
  }

  lemma ThreeParts(s: string)
    requires |SplitDots(s)| == 3
    ensures var parts := SplitDots(s); s == parts[0] + "." + parts[1] + "." + parts[2]
  {
    var parts := SplitDots(s);
    JoinSplitDots(s);
    hide SplitDots;
    assert parts[1..][1..] == parts[2..] && JoinDots(parts[2..]) == parts[2];
    assert JoinDots(parts[1..]) == parts[1] + "." + parts[2];
  }

  /** The signature in the last segment verifies, under the key named as issuer, for
      everything before it. */
  ghost predicate SignedBy(p: Platform, tok: string, issuer: string, input: string, signature: string) {
    && tok == input + "." + signature
    && FromPublicKey(issuer).Ok? && Base64UrlDecode(signature).Ok?
    && p.verify(FromPublicKey(issuer).value.publicRaw, Utf8.Encode(input), Base64UrlDecode(signature).value)
  }

  /** The header names the token type, the algorithm and version 1. */
  ghost predicate HasV1Header(tok: string) {
    var header := LoadsObject(SplitDots(tok)[0]);
    && header.Ok?
    && Get(header.value, "typ") == Str("JWT") && Get(header.value, "alg") == Str("ed25519-nkey")
    && Get(header.value, "ver") == Int(1)
  }

  /** The values the wire format can carry. */
  ghost predicate InWireRange(d: Decoded) {
    && TS_MIN <= d.issuedAt <= TS_MAX && TS_MIN <= d.expires <= TS_MAX && TS_MIN <= d.notBefore <= TS_MAX
    && d.epoch <= UINT64_MAX
  }

  /** A token that decodes carries a valid signature by its own issuer over its
      header and claims, and only values in range. */
  lemma DecodedIsSigned(p: Platform, tok: string)
    requires DecodeToken(p, tok).Ok?
    ensures |SplitDots(tok)| == 3 && HasV1Header(tok)
    ensures InWireRange(DecodeToken(p, tok).value)
    ensures exists input, signature :: SignedBy(p, tok, DecodeToken(p, tok).value.issuer, input, signature)
  {
    hide LoadsObject, FromPublicKey, SplitDots, Base64UrlDecode, Utf8.Encode, DecodedOf, HasKey, Get, InWireRange;
    var parts := PeekVersion(tok).value.1;
    assert parts == SplitDots(tok);
    ThreeParts(tok);
    DecodedOfInRange(LoadsObject(parts[1]).value);
    assert SignedBy(p, tok, DecodeToken(p, tok).value.issuer, parts[0] + "." + parts[1], parts[2]);
  }

  // ---- exactly what decodes, and what the rest is called ------------------------------

  /** The header names the token type and the algorithm. */
  ghost predicate IsEnvelope(tok: string) {
    && |SplitDots(tok)| == 3 && LoadsObject(SplitDots(tok)[0]).Ok?
    && var header := LoadsObject(SplitDots(tok)[0]).value;
       Get(header, "typ") == Str("JWT") && Get(header, "alg") == Str("ed25519-nkey")
  }

  /** The claims segment reads as d. */
  ghost predicate Claims1(tok: string, d: Decoded) {
    && |SplitDots(tok)| == 3 && LoadsObject(SplitDots(tok)[1]).Ok?
    && DecodedOf(LoadsObject(SplitDots(tok)[1]).value) == Ok(d)
  }

  /** A token decodes to d exactly when it has three segments and a version-1 header,
      its claims read as d, and its last segment is a signature over the rest by the
      key d names as issuer. */
  lemma DecodesExactly(p: Platform, tok: string, d: Decoded)
    ensures DecodeToken(p, tok) == Ok(d) <==>
              && |SplitDots(tok)| == 3 && HasV1Header(tok) && Claims1(tok, d)
              && var parts := SplitDots(tok); SignedBy(p, tok, d.issuer, parts[0] + "." + parts[1], parts[2])
  {
    hide LoadsObject, FromPublicKey, SplitDots, Base64UrlDecode, Utf8.Encode, DecodedOf;
    if |SplitDots(tok)| == 3 {
      ThreeParts(tok);
      if LoadsObject(SplitDots(tok)[0]).Ok? { VersionKeyed(LoadsObject(SplitDots(tok)[0]).value); }
    }
  }

  lemma VersionKeyed(header: seq<Field>)
    ensures !HasKey(header, "ver") ==> Get(header, "ver") == Null
  {
    if !HasKey(header, "ver") { NoKeyNull(header, "ver"); }
  }

  lemma {:induction false} NoKeyNull(fields: seq<Field>, key: string)
    requires !HasKey(fields, key)
    ensures Get(fields, key) == Null
  {
    if fields != [] {
      assert forall i :: 0 <= i < |fields[1..]| ==> fields[1..][i] == fields[i + 1];
      NoKeyNull(fields[1..], key);
    }
  }

  /** A refused token is of an unsupported type when its readable header names another
      type or algorithm; of an unsupported version when it names another integer, or no
      version; under a bad issuer key, or badly signed, when its claims read but name no
      key, or its signature does not verify; and malformed otherwise. */
  lemma RefusedExactly(p: Platform, tok: string)
    ensures DecodeToken(p, tok) == Err(UnsupportedType) <==>
              |SplitDots(tok)| == 3 && LoadsObject(SplitDots(tok)[0]).Ok? && !IsEnvelope(tok)
    ensures DecodeToken(p, tok) == Err(UnsupportedVersion) <==>
              IsEnvelope(tok)
              && var header := LoadsObject(SplitDots(tok)[0]).value;
                 if HasKey(header, "ver") then
                   Get(header, "ver").Int? && Get(header, "ver").n != 1
                   && -0x8000_0000_0000_0000 <= Get(header, "ver").n < 0x8000_0000_0000_0000
                 else true
    ensures DecodeToken(p, tok) == Err(BadIssuerKey) <==>
              |SplitDots(tok)| == 3 && HasV1Header(tok) && exists d :: Claims1(tok, d) && FromPublicKey(d.issuer).Err?
    ensures DecodeToken(p, tok) == Err(BadSignature) <==>
              |SplitDots(tok)| == 3 && HasV1Header(tok) && exists d :: Claims1(tok, d) && Forged(p, tok, d)
    ensures DecodeToken(p, tok).Err? ==> IsDecodeReason(DecodeToken(p, tok).reason)
  {
    hide LoadsObject, FromPublicKey, SplitDots, Base64UrlDecode, Utf8.Encode, DecodedOf;
    PartReasons();
    var parts := SplitDots(tok);
    if |parts| == 3 && LoadsObject(parts[0]).Ok? { VersionKeyed(LoadsObject(parts[0]).value); }
    if |parts| == 3 && LoadsObject(parts[1]).Ok? && DecodedOf(LoadsObject(parts[1]).value).Ok? {
      assert Claims1(tok, DecodedOf(LoadsObject(parts[1]).value).value);
    }
  }

  /** The issuer is a key and the signature reads, but does not verify under it. */
  ghost predicate Forged(p: Platform, tok: string, d: Decoded)
    requires |SplitDots(tok)| == 3
  {
    var parts := SplitDots(tok);
    && FromPublicKey(d.issuer).Ok? && Base64UrlDecode(parts[2]).Ok?
    && !p.verify(FromPublicKey(d.issuer).value.publicRaw, Utf8.Encode(parts[0] + "." + parts[1]),
                 Base64UrlDecode(parts[2]).value)
  }

  lemma PartReasons()
    ensures forall s :: LoadsObject(s).Err? ==> LoadsObject(s).reason == Malformed
    ensures forall s :: Base64UrlDecode(s).Err? ==> Base64UrlDecode(s).reason == Malformed
    ensures forall payload :: DecodedOf(payload).Err? ==> DecodedOf(payload).reason == Malformed
  {
    forall payload ensures DecodedOf(payload).Err? ==> DecodedOf(payload).reason == Malformed {
      TypedExactly(payload);
    }
  }

  lemma DecodedOfInRange(payload: seq<Field>)
    ensures DecodedOf(payload).Ok? ==> InWireRange(DecodedOf(payload).value)
  {
    hide Get, WireStr, WireChain, KindOf;
  }

  ghost predicate Textual(v: Json) {
    v.Null? || v.Str?
  }

  ghost predicate Numeric(v: Json, lo: int, hi: int) {
    v.Null? || (v.Int? && lo <= v.n <= hi)
  }

  /** The object under a key, empty when the key is absent or null. */
  ghost function Under(fields: seq<Field>, key: string): seq<Field> {
    match Get(fields, key) case Obj(o) => o case _ => []
  }

  ghost predicate Structured(v: Json) {
    v.Null? || v.Obj?
  }

  /** Every claim valiss reads is absent, null, or of its own type and range. */
  ghost predicate WellTyped(payload: seq<Field>) {
    && Textual(Get(payload, "jti")) && Textual(Get(payload, "iss")) && Textual(Get(payload, "sub"))
    && Textual(Get(payload, "name")) && Textual(Get(payload, "aud"))
    && Numeric(Get(payload, "iat"), TS_MIN, TS_MAX) && Numeric(Get(payload, "exp"), TS_MIN, TS_MAX)
    && Numeric(Get(payload, "nbf"), TS_MIN, TS_MAX)
    && Structured(Get(payload, "valiss")) && WellTypedBody(Under(payload, "valiss"))
  }

  ghost predicate WellTypedBody(body: seq<Field>) {
    && Textual(Get(body, "type")) && Textual(Get(body, "checksum"))
    && Numeric(Get(body, "epoch"), 0, UINT64_MAX)
    && (Get(body, "bearer").Null? || Get(body, "bearer").Bool?)
    && Structured(Get(body, "chain")) && WellTypedChain(Under(body, "chain"))
    && Structured(Get(body, "ext"))
  }

  ghost predicate WellTypedChain(chain: seq<Field>) {
    Textual(Get(chain, "account")) && Textual(Get(chain, "user"))
  }

  lemma FieldTyped(fields: seq<Field>, key: string, lo: int, hi: int)
    ensures WireStr(fields, key).Ok? <==> Textual(Get(fields, key))
    ensures lo <= 0 <= hi ==> (WireInt(fields, key, lo, hi).Ok? <==> Numeric(Get(fields, key), lo, hi))
    ensures WireObj(fields, key).Ok? <==> Structured(Get(fields, key))
    ensures WireObj(fields, key).Ok? ==>
              Under(fields, key) == if WireObj(fields, key).value.Some? then WireObj(fields, key).value.value else []
    ensures WireStr(fields, key).Err? ==> WireStr(fields, key).reason == Malformed
    ensures WireInt(fields, key, lo, hi).Err? ==> WireInt(fields, key, lo, hi).reason == Malformed
    ensures lo <= 0 <= hi && WireInt(fields, key, lo, hi).Ok? ==> lo <= WireInt(fields, key, lo, hi).value <= hi
    ensures WireObj(fields, key).Err? ==> WireObj(fields, key).reason == Malformed
  {
    hide Get;
  }

  lemma BoolTyped(fields: seq<Field>, key: string)
    ensures WireBool(fields, key).Ok? <==> Get(fields, key).Null? || Get(fields, key).Bool?
    ensures WireBool(fields, key).Err? ==> WireBool(fields, key).reason == Malformed
  {
    hide Get;
  }

  lemma ChainTyped(body: seq<Field>)
    ensures WireChain(body).Ok? <==> Structured(Get(body, "chain")) && WellTypedChain(Under(body, "chain"))
    ensures WireChain(body).Err? ==> WireChain(body).reason == Malformed
  {
    assert Get([], "account") == Get([], "user") == Null;
    hide Get;
  }

  /** The claims decode exactly when they are well typed, and are malformed
      otherwise. */
  lemma TypedExactly(payload: seq<Field>)
    ensures DecodedOf(payload).Ok? <==> WellTyped(payload)
    ensures DecodedOf(payload).Err? ==> DecodedOf(payload).reason == Malformed
  {
    hide Get, KindOf, WireStr, WireInt, WireBool, WireObj, WireChain, Textual, Numeric, Structured, Under,
         WellTypedChain;
    var body := Under(payload, "valiss");
    FieldTyped(payload, "jti", 0, 0);
    FieldTyped(payload, "iss", 0, 0);
    FieldTyped(payload, "sub", 0, 0);
    FieldTyped(payload, "name", 0, 0);
    FieldTyped(payload, "aud", 0, 0);
    FieldTyped(payload, "iat", TS_MIN, TS_MAX);
    FieldTyped(payload, "exp", TS_MIN, TS_MAX);
    FieldTyped(payload, "nbf", TS_MIN, TS_MAX);
    FieldTyped(payload, "valiss", 0, 0);
    FieldTyped(body, "type", 0, 0);
    FieldTyped(body, "checksum", 0, 0);
    FieldTyped(body, "epoch", 0, UINT64_MAX);
    FieldTyped(body, "ext", 0, 0);
    BoolTyped(body, "bearer");
    ChainTyped(body);
  }

  /** Decoding never reports a missing chain: that reason belongs to message
      verification alone. */
  lemma DecodeNeverNoChain(p: Platform, tok: string)
    ensures DecodeToken(p, tok) != Err(NoChain)
    ensures DecodesPlainly(EnvOf(p))
  {
    forall t ensures DecodeToken(p, t).Err? ==> IsDecodeReason(DecodeToken(p, t).reason) {
      RefusedExactly(p, t);
    }
    hide DecodeToken;
  }
}
