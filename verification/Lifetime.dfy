/** When a minted credential is honoured, and what its id is worth
    (src/valiss/token.py, src/valiss/message.py, src/valiss/keyring.py). */
module Lifetime {
  import opened Bits
  import opened Errors
  import opened Json
  import opened Nkeys
  import opened Radix
  import opened Token
  import opened Wire
  import opened Issue
  import opened Minting
  import opened Message
  import Keyring
  import V = RequestVerifier

  // ---- the validity asked for is the validity enforced -----------------------------------

  /** Not before the activation asked for and not after the expiry asked for, widened
      by the skew. Activation is a whole second, at most the one asked for. */
  ghost predicate Within(v: Validity, m: int, now: int, skew: int) {
    && (v.notBefore.Some? && v.notBefore.value >= 1_000_000 ==>
          now + skew > v.notBefore.value - 1_000_000
          && (v.notBefore.value % 1_000_000 == 0 ==> now + skew >= v.notBefore.value))
    && (Until(v, m).Some? && Until(v, m).value >= 1_000_000 ==> now - skew <= Until(v, m).value)
  }

  lemma CoversWithin(c: Claims, v: Validity, m: int, now: int, skew: int)
    requires TimesRead(c, v, m) && c.Covers(now, skew)
    ensures Within(v, m, now, skew)
  {
  }

  /** The token carries the times of validity v, given at m. */
  ghost predicate Carries(env: Env, tok: string, v: Validity, m: int) {
    env.decode(tok).Ok? && TimesRead(ClaimsOf(env.decode(tok).value), v, m)
  }

  lemma AccountCarries(env: Env, tok: string, key: string, v: Validity, m: int)
    requires VerifyAccount(env, tok, key).Ok?
    ensures Carries(env, tok, v, m) <==> TimesRead(VerifyAccount(env, tok, key).value.base, v, m)
  {
    hide TimesRead;
  }

  lemma UserCarries(env: Env, tok: string, key: string, v: Validity, m: int)
    requires VerifyUser(env, tok, key).Ok?
    ensures Carries(env, tok, v, m) <==> TimesRead(VerifyUser(env, tok, key).value.base, v, m)
  {
    hide TimesRead;
  }

  lemma OperatorCarries(env: Env, tok: string, key: string, v: Validity, m: int)
    requires VerifyOperator(env, tok, key).Ok?
    ensures Carries(env, tok, v, m) <==> TimesRead(VerifyOperator(env, tok, key).value.base, v, m)
  {
    hide TimesRead;
  }

  /** A request is honoured only inside the validity its tokens were minted with. */
  lemma RequestWithin(cfg: V.Config, req: V.Request, now: int, v: Validity, m: int)
    requires V.Authenticated(cfg, req, now).Ok?
    ensures req.accountToken != "" && Carries(cfg.env, req.accountToken, v, m) ==> Within(v, m, now, cfg.skew)
    ensures req.userToken != "" && Carries(cfg.env, req.userToken, v, m) ==> Within(v, m, now, cfg.skew)
  {
    hide V.Authenticated, TimesRead, Within, Carries, VerifyAccount, VerifyUser, V.Possesses, V.PolicyEpoch;
    var id := V.Authenticated(cfg, req, now).value;
    V.AuthenticatedIff(cfg, req, id, now);
    var accountToken :| V.Presents(cfg, req, accountToken) && V.IssuedUnder(cfg, accountToken, id);
    if req.accountToken != "" && Carries(cfg.env, req.accountToken, v, m) {
      AccountCarries(cfg.env, req.accountToken, id.account.base.issuer, v, m);
      CoversWithin(id.account.base, v, m, now, cfg.skew);
    }
    if req.userToken != "" && Carries(cfg.env, req.userToken, v, m) {
      UserCarries(cfg.env, req.userToken, id.account.base.subject, v, m);
      CoversWithin(id.user.value.base, v, m, now, cfg.skew);
    }
  }

  /** A message is accepted only inside the validity it, its chain and the operator
      token enforced were minted with. */
  lemma MessageWithin(env: Env, tok: string, anchor: Anchor, o: Options, v: Validity, m: int)
    requires VerifyMessage(env, tok, anchor, o).Ok?
    ensures Carries(env, tok, v, m) ==> Within(v, m, o.now, o.skew)
    ensures forall chain :: IsChainFor(env.decode(tok).value, o.chain, chain) ==>
              (Carries(env, chain.0, v, m) ==> Within(v, m, o.now, o.skew))
              && (Carries(env, chain.1, v, m) ==> Within(v, m, o.now, o.skew))
    ensures o.operatorToken.Some? && Carries(env, o.operatorToken.value, v, m) ==> Within(v, m, o.now, o.skew)
  {
    hide VerifyMessage, TimesRead, Within, VerifyAccount, VerifyUser, VerifyOperator, OneEpoch, BoundTo, Registers;
    var c := VerifyMessage(env, tok, anchor, o).value;
    AcceptedIff(env, tok, anchor, o, c);
    RegistersExactly(c.base, env.decode(tok).value);
    var used :| IsChainFor(env.decode(tok).value, o.chain, used) && Vouched(env, anchor, o.operatorToken, used, c);
    AccountCarries(env, used.0, c.account.base.issuer, v, m);
    UserCarries(env, used.1, c.account.base.subject, v, m);
    if TimesRead(c.base, v, m) { CoversWithin(c.base, v, m, o.now, o.skew); }
    if TimesRead(c.account.base, v, m) { CoversWithin(c.account.base, v, m, o.now, o.skew); }
    if TimesRead(c.user.base, v, m) { CoversWithin(c.user.base, v, m, o.now, o.skew); }
    if o.operatorToken.Some? && Carries(env, o.operatorToken.value, v, m) {
      OperatorCarries(env, o.operatorToken.value, c.account.base.issuer, v, m);
      CoversWithin(c.operator.value.base, v, m, o.now, o.skew);
    }
  }

  /** What is minted carries the validity it was minted with. */
  lemma MintedCarries(p: Platform, kp: KeyPair, name: string, subject: string, v: Validity, epoch: nat, bearer: bool,
                      exts: seq<Extension>, m: int)
    requires Correct(p) && Held(p, kp) && Mintable(v, epoch, exts, m)
    ensures var tok := IssueAccount(p, kp, name, subject, v, epoch, exts, m);
            tok.Ok? ==> tok.value != "" && Carries(EnvOf(p), tok.value, v, m)
    ensures var tok := IssueUser(p, kp, name, subject, v, epoch, bearer, exts, m);
            tok.Ok? ==> tok.value != "" && Carries(EnvOf(p), tok.value, v, m)
  {
    hide IssueAccount, IssueUser, VerifyAccount, VerifyUser, EnvOf, TimesRead, Carries, Mintable, Held, Correct,
         PublicKey, ContentDerived, ExtensionsClaim;
    HeldKey(p, kp);
    var key := PublicKey(kp).value;
    var account := IssueAccount(p, kp, name, subject, v, epoch, exts, m);
    if account.Ok? {
      AccountRoundTrip(p, kp, name, subject, v, epoch, exts, m);
      AccountCarries(EnvOf(p), account.value, key, v, m);
      ContentNonempty(p, account.value, VerifyAccount(EnvOf(p), account.value, key).value.base.id);
    }
    var user := IssueUser(p, kp, name, subject, v, epoch, bearer, exts, m);
    if user.Ok? {
      UserRoundTrip(p, kp, name, subject, v, epoch, bearer, exts, m);
      UserCarries(EnvOf(p), user.value, key, v, m);
      ContentNonempty(p, user.value, VerifyUser(EnvOf(p), user.value, key).value.base.id);
    }
  }

  lemma ContentNonempty(p: Platform, tok: string, id: string)
    requires ContentDerived(p, tok, id)
    ensures tok != ""
  {
    hide LoadsObject, GoJson, Encode;
  }

  /** So no verifier honours a minted account or user token outside the validity it was
      minted with: not before its activation, not after its expiry. */
  lemma CredentialHonoured(p: Platform, kp: KeyPair, name: string, subject: string, v: Validity, epoch: nat,
                           bearer: bool, exts: seq<Extension>, m: int, cfg: V.Config, req: V.Request, now: int)
    requires Correct(p) && Held(p, kp) && Mintable(v, epoch, exts, m) && cfg.env == EnvOf(p)
    requires || IssueAccount(p, kp, name, subject, v, epoch, exts, m) == Ok(req.accountToken)
             || IssueUser(p, kp, name, subject, v, epoch, bearer, exts, m) == Ok(req.userToken)
    ensures V.Authenticated(cfg, req, now).Ok? ==> Within(v, m, now, cfg.skew)
  {
    hide IssueAccount, IssueUser, V.Authenticated, EnvOf, Carries, Mintable, Within;
    MintedCarries(p, kp, name, subject, v, epoch, bearer, exts, m);
    if V.Authenticated(cfg, req, now).Ok? { RequestWithin(cfg, req, now, v, m); }
  }

  /** Nor does any receiver accept a minted message outside its validity. */
  lemma MessageHonoured(p: Platform, kp: KeyPair, audience: string, checksum: string, chain: Option<(string, string)>,
                        epoch: nat, v: Validity, exts: seq<Extension>, m: int, anchor: Anchor, o: Options)
    requires Correct(p) && Held(p, kp) && Mintable(v, epoch, exts, m)
    requires IssueMessage(p, kp, audience, checksum, chain, epoch, v, exts, m).Ok?
    ensures var tok := IssueMessage(p, kp, audience, checksum, chain, epoch, v, exts, m).value;
            VerifyMessage(EnvOf(p), tok, anchor, o).Ok? ==> Within(v, m, o.now, o.skew)
  {
    hide IssueMessage, VerifyMessage, EnvOf, TimesRead, Mintable, Within, ContentDerived, ExtensionsClaim, PublicKey;
    var tok := IssueMessage(p, kp, audience, checksum, chain, epoch, v, exts, m).value;
    var d := MessageDecodes(p, kp, audience, checksum, chain, epoch, v, exts, m);
    assert Carries(EnvOf(p), tok, v, m);
    if VerifyMessage(EnvOf(p), tok, anchor, o).Ok? { MessageWithin(EnvOf(p), tok, anchor, o, v, m); }
  }

  // ---- ids stand for contents ------------------------------------------------------------

  /** The token decodes, and its id is the hash of the rest of its claims. */
  ghost predicate Derived(p: Platform, tok: string) {
    DecodeToken(p, tok).Ok? && ContentDerived(p, tok, DecodeToken(p, tok).value.id)
  }

  /** The claims a token's id is the hash of, as serialized. */
  ghost function Content(p: Platform, tok: string): Bytes
    requires Derived(p, tok)
  {
    GoJson(Obj(LoadsObject(SplitDots(tok)[1]).value[1..]))
  }

  /** The hash tells the contents of these two tokens apart. */
  ghost predicate Distinguishes(p: Platform, t: string, u: string)
    requires Derived(p, t) && Derived(p, u)
  {
    p.sha256(Content(p, t)) == p.sha256(Content(p, u)) ==> Content(p, t) == Content(p, u)
  }

  lemma IdIsHash(p: Platform, t: string)
    requires Derived(p, t)
    ensures DecodeToken(p, t).value.id == Encode(Base32, p.sha256(Content(p, t)))
  {
    hide DecodeToken, SplitDots, LoadsObject, GoJson, Encode;
  }

  /** The claims of a token, its id first. */
  lemma ClaimsSplit(p: Platform, t: string) returns (claims: seq<Field>)
    requires Derived(p, t)
    ensures claims != [] && claims[0] == Field("jti", Str(DecodeToken(p, t).value.id))
    ensures WellFormedFields(claims[1..]) && Content(p, t) == GoJson(Obj(claims[1..]))
    ensures DecodedOf(claims) == DecodeToken(p, t)
  {
    hide SplitDots, LoadsObject, GoJson, Encode, DecodedOf, FromPublicKey, Base64UrlDecode;
    claims := LoadsObject(SplitDots(t)[1]).value;
  }

  /** Two tokens of one id say the same, unless the hash confuses their contents. */
  lemma SameIdSameClaims(p: Platform, t: string, u: string)
    requires Derived(p, t) && Derived(p, u) && Distinguishes(p, t, u)
    requires DecodeToken(p, t).value.id == DecodeToken(p, u).value.id
    ensures DecodeToken(p, t) == DecodeToken(p, u)
  {
    hide Derived, DecodeToken, DecodedOf, Content, Encode, GoJson, LoadsBytes, WellFormedFields, Base32Decode;
    IdIsHash(p, t);
    IdIsHash(p, u);
    Base32RoundTrip(p.sha256(Content(p, t)));
    Base32RoundTrip(p.sha256(Content(p, u)));
    var a := ClaimsSplit(p, t);
    var b := ClaimsSplit(p, u);
    GoJsonRoundTrip(Obj(a[1..]));
    GoJsonRoundTrip(Obj(b[1..]));
    assert a == [a[0]] + a[1..] && b == [b[0]] + b[1..];
  }

  /** What the keyring asks of token ids holds of minted tokens as long as the hash
      confuses no two of them. */
  lemma MintedIdsHonest(p: Platform, tokens: seq<string>)
    requires forall t :: t in tokens ==> Derived(p, t)
    requires forall t, u :: t in tokens && u in tokens ==> Distinguishes(p, t, u)
    ensures Keyring.IdsHonest(EnvOf(p), tokens)
  {
    hide Derived, Distinguishes, DecodeToken, Keyring.Claimed;
    if Keyring.AllValid(EnvOf(p), tokens) {
      var cs := Keyring.ClaimsIn(EnvOf(p), tokens);
      forall i, j | 0 <= i < |cs| && 0 <= j < |cs| && cs[i].base.id == cs[j].base.id ensures cs[i] == cs[j] {
        SameClaimed(p, tokens[i], tokens[j]);
      }
    }
  }

  lemma SameClaimed(p: Platform, t: string, u: string)
    requires Derived(p, t) && Derived(p, u) && Distinguishes(p, t, u)
    requires Keyring.Claimed(EnvOf(p), t).Ok? && Keyring.Claimed(EnvOf(p), u).Ok?
    requires Keyring.Claimed(EnvOf(p), t).value.base.id == Keyring.Claimed(EnvOf(p), u).value.base.id
    ensures Keyring.Claimed(EnvOf(p), t) == Keyring.Claimed(EnvOf(p), u)
  {
    hide ContentDerived, Distinguishes, DecodeToken, IsValidPublic;
    SameIdSameClaims(p, t, u);
  }
}
