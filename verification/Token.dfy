/** Claims, validity windows and the per-level token checks (src/valiss/token.py).

    Instants and durations are integer microseconds. `Env` collects the
    operations these checks call: token decoding with its self-signature check,
    key-role tests, hashing and signature verification. Module Wire gives the
    decoding its concrete meaning. */
module Token {
  import opened Bits
  import opened Errors
  import opened Text
  import Json
  import Utf8

  type Ext = seq<Json.Field>

  /** An embedded provenance chain; either token may be absent. */
  datatype ChainObject = ChainObject(account: Option<string>, user: Option<string>)

  datatype Kind = Operator | Account | User | Message | OtherKind(text: string)

  /** The version-neutral view of a parsed, signature-checked token. */
  datatype Decoded = Decoded(
    id: string, issuer: string, subject: string, name: string, audience: string,
    issuedAt: int, expires: int, notBefore: int,
    kind: Kind, epoch: nat, bearer: bool, checksum: string,
    chain: Option<ChainObject>, ext: Ext)

  datatype Env = Env(
    decode: string -> Result<Decoded>,
    isOperatorKey: string -> bool,
    isAccountKey: string -> bool,
    isUserKey: string -> bool,
    hash: Bytes -> string,                      // lowercase-hex SHA-256
    parseInstant: string -> Option<int>,        // RFC 3339 timestamps
    parseSignature: string -> Option<Bytes>,    // standard base64
    checks: (string, Bytes, Bytes) -> bool)     // key, message, signature

  datatype Claims = Claims(
    id: string, issuer: string, subject: string,
    issuedAt: Option<int>, expiresAt: Option<int>, notBefore: Option<int>)
  {
    predicate Expired(now: int, skew: int) {
      expiresAt.Some? && now - skew > expiresAt.value
    }

    predicate NotYetValid(now: int, skew: int) {
      notBefore.Some? && now + skew < notBefore.value
    }

    /** Inside the validity window, widened by the skew on both sides. */
    predicate Covers(now: int, skew: int) {
      && (expiresAt.Some? ==> now <= expiresAt.value + skew)
      && (notBefore.Some? ==> notBefore.value - skew <= now)
    }
  }

  datatype OperatorClaims = OperatorClaims(base: Claims, name: string, epoch: nat, ext: Ext)
  datatype AccountClaims = AccountClaims(base: Claims, name: string, epoch: nat, ext: Ext)
  datatype UserClaims = UserClaims(base: Claims, name: string, epoch: nat, bearer: bool, ext: Ext)

  function CheckWindow(c: Claims, now: int, skew: int): Result<()> {
    if c.Expired(now, skew) then Err(Expired)
    else if c.NotYetValid(now, skew) then Err(NotYetValid)
    else Ok(())
  }

  const SECOND := 1_000_000

  /** A zero wire timestamp means the field was absent. */
  function Instant(seconds: int): Option<int> {
    if seconds == 0 then None else Some(seconds * SECOND)
  }

  function ClaimsOf(d: Decoded): Claims {
    Claims(d.id, d.issuer, d.subject, Instant(d.issuedAt), Instant(d.expires), Instant(d.notBefore))
  }

  function NameOf(name: string, subject: string): string {
    if name != "" then name else subject
  }

  function VerifyOperator(env: Env, tok: string, operatorKey: string): Result<OperatorClaims> {
    var d :- env.decode(tok);
    if d.kind != Operator then Err(WrongType)
    else if d.issuer != operatorKey || d.subject != operatorKey then Err(WrongIssuer)
    else if !env.isOperatorKey(d.subject) then Err(WrongSubjectRole)
    else Ok(OperatorClaims(ClaimsOf(d), NameOf(d.name, d.subject), d.epoch, d.ext))
  }

  function VerifyAccount(env: Env, tok: string, operatorKey: string): Result<AccountClaims> {
    var d :- env.decode(tok);
    if d.kind != Account then Err(WrongType)
    else if d.issuer != operatorKey then Err(WrongIssuer)
    else if !env.isAccountKey(d.subject) then Err(WrongSubjectRole)
    else Ok(AccountClaims(ClaimsOf(d), NameOf(d.name, d.subject), d.epoch, d.ext))
  }

  function VerifyUser(env: Env, tok: string, accountKey: string): Result<UserClaims> {
    var d :- env.decode(tok);
    if d.kind != User then Err(WrongType)
    else if d.issuer != accountKey then Err(WrongIssuer)
    else if !env.isUserKey(d.subject) then Err(WrongSubjectRole)
    else Ok(UserClaims(ClaimsOf(d), NameOf(d.name, d.subject), d.epoch, d.bearer, d.ext))
  }

  function IssuerOf(env: Env, tok: string): Result<string> {
    var d :- env.decode(tok);
    Ok(d.issuer)
  }

  // ---- what each level accepts ---------------------------------------------------

  /** The registered claims of a token, its times in microseconds, zero being no time. */
  ghost predicate Registers(c: Claims, d: Decoded) {
    && c.id == d.id && c.issuer == d.issuer && c.subject == d.subject
    && (if d.issuedAt == 0 then c.issuedAt.None? else c.issuedAt == Some(1_000_000 * d.issuedAt))
    && (if d.expires == 0 then c.expiresAt.None? else c.expiresAt == Some(1_000_000 * d.expires))
    && (if d.notBefore == 0 then c.notBefore.None? else c.notBefore == Some(1_000_000 * d.notBefore))
  }

  lemma RegistersExactly(c: Claims, d: Decoded)
    ensures Registers(c, d) <==> c == ClaimsOf(d)
  {
  }

  /** The token's name, or its subject when it has none. */
  ghost predicate Names(name: string, d: Decoded) {
    if d.name == "" then name == d.subject else name == d.name
  }

  /** An operator token is one of that kind that an operator key signed over itself. */
  lemma OperatorExactly(env: Env, tok: string, key: string, c: OperatorClaims)
    ensures VerifyOperator(env, tok, key) == Ok(c) <==>
              env.decode(tok).Ok?
              && var d := env.decode(tok).value;
                 && d.kind == Kind.Operator && d.issuer == d.subject == key && env.isOperatorKey(d.subject)
                 && Registers(c.base, d) && Names(c.name, d) && c.epoch == d.epoch && c.ext == d.ext
  {
  }

  /** An account token is one of that kind that the key given signed over an account key. */
  lemma AccountExactly(env: Env, tok: string, key: string, c: AccountClaims)
    ensures VerifyAccount(env, tok, key) == Ok(c) <==>
              env.decode(tok).Ok?
              && var d := env.decode(tok).value;
                 && d.kind == Kind.Account && d.issuer == key && env.isAccountKey(d.subject)
                 && Registers(c.base, d) && Names(c.name, d) && c.epoch == d.epoch && c.ext == d.ext
  {
  }

  /** A user token is one of that kind that the key given signed over a user key. */
  lemma UserExactly(env: Env, tok: string, key: string, c: UserClaims)
    ensures VerifyUser(env, tok, key) == Ok(c) <==>
              env.decode(tok).Ok?
              && var d := env.decode(tok).value;
                 && d.kind == Kind.User && d.issuer == key && env.isUserKey(d.subject)
                 && Registers(c.base, d) && Names(c.name, d) && c.epoch == d.epoch && c.bearer == d.bearer
                 && c.ext == d.ext
  {
  }

  /** No token is accepted at two levels, whatever keys are asked for. */
  lemma OneLevel(env: Env, tok: string, k: string, k': string)
    ensures !(VerifyOperator(env, tok, k).Ok? && VerifyAccount(env, tok, k').Ok?)
    ensures !(VerifyOperator(env, tok, k).Ok? && VerifyUser(env, tok, k').Ok?)
    ensures !(VerifyAccount(env, tok, k).Ok? && VerifyUser(env, tok, k').Ok?)
  {
    hide VerifyOperator, VerifyAccount, VerifyUser, Registers, Names;
    if VerifyOperator(env, tok, k).Ok? { OperatorExactly(env, tok, k, VerifyOperator(env, tok, k).value); }
    if VerifyAccount(env, tok, k).Ok? { AccountExactly(env, tok, k, VerifyAccount(env, tok, k).value); }
    if VerifyAccount(env, tok, k').Ok? { AccountExactly(env, tok, k', VerifyAccount(env, tok, k').value); }
    if VerifyUser(env, tok, k').Ok? { UserExactly(env, tok, k', VerifyUser(env, tok, k').value); }
  }

  /** The reasons decoding itself can give. */
  predicate IsDecodeReason(reason: Reason) {
    reason in {Malformed, UnsupportedType, UnsupportedVersion, BadIssuerKey, BadSignature}
  }

  ghost predicate DecodesPlainly(env: Env) {
    forall t :: env.decode(t).Err? ==> IsDecodeReason(env.decode(t).reason)
  }

  /** Past the end of the window, or not past it and before its start, widened by the
      skew. */
  ghost predicate Lapsed(c: Claims, now: int, skew: int) {
    c.expiresAt.Some? && now > c.expiresAt.value + skew
  }

  ghost predicate Early(c: Claims, now: int, skew: int) {
    !Lapsed(c, now, skew) && c.notBefore.Some? && now < c.notBefore.value - skew
  }

  /** The token decodes, to a kind other than the level's, or an issuer other than the
      key, or a subject without the level's role. */
  ghost predicate Mistyped(env: Env, tok: string, kind: Kind) {
    env.decode(tok).Ok? && env.decode(tok).value.kind != kind
  }

  ghost predicate Misissued(env: Env, tok: string, key: string) {
    env.decode(tok).Ok? && env.decode(tok).value.issuer != key
  }

  ghost predicate Roleless(env: Env, tok: string, role: string -> bool) {
    env.decode(tok).Ok? && !role(env.decode(tok).value.subject)
  }

  /** A credential is refused at its level only for what is wrong with it. */
  lemma LevelRefusal(env: Env, tok: string, key: string, reason: Reason)
    requires DecodesPlainly(env) && !IsDecodeReason(reason)
    ensures VerifyOperator(env, tok, key) == Err(reason) ==>
              || (reason == WrongType && Mistyped(env, tok, Kind.Operator))
              || (reason == WrongIssuer
                  && (Misissued(env, tok, key) || env.decode(tok).value.issuer != env.decode(tok).value.subject))
              || (reason == WrongSubjectRole && Roleless(env, tok, env.isOperatorKey))
    ensures VerifyAccount(env, tok, key) == Err(reason) ==>
              || (reason == WrongType && Mistyped(env, tok, Kind.Account))
              || (reason == WrongIssuer && Misissued(env, tok, key))
              || (reason == WrongSubjectRole && Roleless(env, tok, env.isAccountKey))
    ensures VerifyUser(env, tok, key) == Err(reason) ==>
              || (reason == WrongType && Mistyped(env, tok, Kind.User))
              || (reason == WrongIssuer && Misissued(env, tok, key))
              || (reason == WrongSubjectRole && Roleless(env, tok, env.isUserKey))
  {
  }

  // ---- request signatures ------------------------------------------------------

  const REQUEST_PREFIX := "valiss-req-v1\n"

  /** The bytes a subject signs: version tag, timestamp, hash of the context. */
  function SignedPayload(env: Env, timestamp: string, context: Bytes): Bytes {
    Utf8.Encode(REQUEST_PREFIX + timestamp + "\n" + env.hash(context))
  }

  function VerifySignature(env: Env, subject: string, timestamp: string, signature: string,
                           context: Bytes, now: int, skew: int): Result<()>
  {
    match env.parseInstant(timestamp)
    case None => Err(Skew)
    case Some(ts) =>
      var drift := now - ts;
      if drift > skew || drift < -skew then Err(Skew)
      else match env.parseSignature(signature)
        case None => Err(BadSignatureEncoding)
        case Some(raw) =>
          if env.checks(subject, SignedPayload(env, timestamp, context), raw) then Ok(())
          else Err(BadRequestSignature)
  }

  /** Expiry and activation together are the widened window. */
  lemma WindowIsInterval(c: Claims, now: int, skew: int)
    ensures c.Covers(now, skew) <==> !c.Expired(now, skew) && !c.NotYetValid(now, skew)
  {
  }

  /** The signed bytes are a tagged text of three lines, so a signature made under any
      other version tag never fits them, whatever follows the tag. */
  lemma VersionSeparated(env: Env, timestamp: string, context: Bytes, tag: string, rest: string)
    requires OneLine(tag)
    ensures Utf8.Decode(SignedPayload(env, timestamp, context))
         == Some("valiss-req-v1\n" + timestamp + "\n" + env.hash(context))
    ensures SignedPayload(env, timestamp, context) == Utf8.Encode(tag + "\n" + rest) ==> tag == "valiss-req-v1"
  {
    var v, tail := "valiss-req-v1", timestamp + "\n" + env.hash(context);
    var text, other := v + "\n" + tail, tag + "\n" + rest;
    assert REQUEST_PREFIX + timestamp + "\n" + env.hash(context) == text;
    assert "valiss-req-v1\n" + timestamp + "\n" + env.hash(context) == text;
    Utf8.RoundTrip(text);
    if SignedPayload(env, timestamp, context) == Utf8.Encode(other) {
      Utf8.Injective(text, other);
      FirstLine(v, tail, tag, rest);
    }
  }

  /** The signed bytes determine the timestamp and the context's hash, whatever
      either contains, because hashes have one length. */
  lemma SignedPayloadInjective(env: Env, t: string, x: Bytes, t': string, x': Bytes)
    requires |env.hash(x)| == |env.hash(x')|
    requires SignedPayload(env, t, x) == SignedPayload(env, t', x')
    ensures t == t' && env.hash(x) == env.hash(x')
  {
    var p, h, h' := REQUEST_PREFIX, env.hash(x), env.hash(x');
    var a, a' := p + t + "\n" + h, p + t' + "\n" + h';
    Utf8.Injective(a, a');
    assert |t| == |t'|;
    assert a[|p|..|p| + |t|] == t && a'[|p|..|p| + |t'|] == t';
    assert a[|a| - |h|..] == h && a'[|a'| - |h'|..] == h';
  }
}
