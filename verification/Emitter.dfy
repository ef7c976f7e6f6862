/** From an emitter's credentials to an accepted message
    (src/valiss/_msgtransport.py, src/valiss/message.py). */
module Emitter {
  import opened Bits
  import opened Errors
  import opened Nkeys
  import opened Token
  import opened Wire
  import opened Issue
  import opened Minting
  import opened Message
  import C = Creds
  import CC = ChainCache
  import N = Negotiation
  import T = Transport
  import V = RequestVerifier
  import Crc16
  import Json
  import Radix
  import Text
  import Utf8

  /** Validates bundle credentials: the signing pair and the epoch to mint under. */
  function Minter(p: Platform, c: C.Creds): Result<(KeyPair, nat)> {
    if c.account == "" || c.user == "" || c.seed == "" then Err(Unclassified)
    else
      var kp :- FromSeed(p, c.seed);
      var env := EnvOf(p);
      var issuer :- IssuerOf(env, c.account);
      var account :- VerifyAccount(env, c.account, issuer);
      var user :- VerifyUser(env, c.user, account.base.subject);
      if account.epoch != user.epoch then Err(Unclassified) else Ok((kp, user.epoch))
  }

  function Account(p: Platform, c: C.Creds): AccountClaims
    requires Minter(p, c).Ok?
  {
    VerifyAccount(EnvOf(p), c.account, IssuerOf(EnvOf(p), c.account).value).value
  }

  function User(p: Platform, c: C.Creds): UserClaims
    requires Minter(p, c).Ok?
  {
    VerifyUser(EnvOf(p), c.user, Account(p, c).base.subject).value
  }

  /** The chain a transport embeds: its own, or none when it negotiates. */
  function EmbeddedBy(c: C.Creds, negotiate: bool): Option<(string, string)> {
    if negotiate then None else Some((c.account, c.user))
  }

  /** The message a transport mints, for `ttl` from `m`. */
  function Mint(p: Platform, c: C.Creds, negotiate: bool, audience: string, body: Bytes, ttl: int, m: int)
    : Result<string>
    requires Minter(p, c).Ok?
  {
    var (kp, epoch) := Minter(p, c).value;
    IssueMessage(p, kp, audience, EnvOf(p).hash(body), EmbeddedBy(c, negotiate), epoch,
                 Validity(Some(ttl), None, None), [], m)
  }

  /** Options of a receiver that checks this audience and body and, for a message that
      embeds no chain, is supplied with the emitter's. */
  predicate Expects(o: Options, c: C.Creds, negotiate: bool, audience: string, body: Bytes) {
    && o.audience == Some(audience) && o.payload == Some(body) && o.operatorToken.None?
    && o.chain == if negotiate then Some((c.account, c.user)) else None
  }

  /** What a receiver that pins the account's issuer answers. */
  function Receive(p: Platform, c: C.Creds, tok: string, o: Options): Result<MessageClaims>
    requires Minter(p, c).Ok?
  {
    VerifyMessage(EnvOf(p), tok, Anchor(Some(Account(p, c).base.issuer), None), o)
  }

  /** Credentials pass the minter exactly when all three parts are there, the seed reads as
      the pair returned, the account token verifies under its own issuer, the user token
      under the account, and both are of the epoch returned. */
  lemma MinterExactly(p: Platform, c: C.Creds, kp: KeyPair, epoch: nat)
    ensures Minter(p, c) == Ok((kp, epoch)) <==>
              && c.account != "" && c.user != "" && c.seed != "" && FromSeed(p, c.seed) == Ok(kp)
              && exists account, user :: ChainOf(EnvOf(p), c, account, user) && account.epoch == user.epoch == epoch
  {
    hide FromSeed, EnvOf, VerifyUser, VerifyAccount, IssuerOf;
    var env := EnvOf(p);
    if IssuerOf(env, c.account).Ok? { LevelIssuer(env, c.account, IssuerOf(env, c.account).value); }
    forall account, user | ChainOf(env, c, account, user)
      ensures IssuerOf(env, c.account) == Ok(account.base.issuer)
    {
      LevelIssuer(env, c.account, account.base.issuer);
    }
    if Minter(p, c).Ok? {
      var account := VerifyAccount(env, c.account, IssuerOf(env, c.account).value).value;
      assert ChainOf(env, c, account, VerifyUser(env, c.user, account.base.subject).value);
    }
  }

  /** The account token verifies under its issuer, the user token under the account. */
  ghost predicate ChainOf(env: Env, c: C.Creds, account: AccountClaims, user: UserClaims) {
    && VerifyAccount(env, c.account, account.base.issuer) == Ok(account)
    && VerifyUser(env, c.user, account.base.subject) == Ok(user)
  }

  /** Spaces around a seed's text do not matter. */
  lemma SeedSurroundings(p: Platform, a: string, seed: string, b: string)
    requires Text.AllSpace(a) && Text.AllSpace(b)
    ensures FromSeed(p, a + seed + b) == FromSeed(p, seed)
  {
    hide DecodeSeed, Text.Strip;
    Text.StripOuter(a, seed, b);
  }

  lemma HashIsHex(p: Platform, body: Bytes)
    ensures IsHexSha256(EnvOf(p).hash(body)) && EnvOf(p).hash(body) != ""
  {
    hide Hex, IsHexSha256;
    DigestIsHex(p.sha256(body));
  }

  /** The preconditions under which an emitter mints: its seed is the one its user
      token names, and the times fit the source's datetime type. */
  ghost predicate Ready(p: Platform, c: C.Creds, ttl: int, m: int) {
    && Correct(p)
    && Minter(p, c).Ok?
    && PublicKey(Minter(p, c).value.0) == Ok(User(p, c).base.subject)
    && ttl > 0 && !(-1_000_000 < m + ttl < 1_000_000)
    && Holdable(Some(m)) && Holdable(Some(m + ttl))
  }

  lemma EmitterHolds(p: Platform, c: C.Creds)
    requires Minter(p, c).Ok?
    ensures Held(p, Minter(p, c).value.0)
    ensures Minter(p, c).value.1 == User(p, c).epoch == Account(p, c).epoch <= UINT64_MAX
    ensures EnvOf(p).isUserKey(User(p, c).base.subject)
    ensures Account(p, c).base.issuer == IssuerOf(EnvOf(p), c.account).value
    ensures User(p, c).base.issuer == Account(p, c).base.subject
  {
    hide DecodeToken, IsValidPublic, FromSeed, Held, SignedBy, HasV1Header, SplitDots;
    SeedHolds(p, c.seed);
    DecodedIsSigned(p, c.user);
  }

  lemma SeedHolds(p: Platform, seed: string)
    ensures FromSeed(p, seed).Ok? ==> Held(p, FromSeed(p, seed).value)
  {
    hide Open, Text.Strip;
  }

  lemma NoExtensions()
    ensures ExtensionsClaim([]) == Ok([])
  {
  }

  lemma Mints(p: Platform, c: C.Creds, negotiate: bool, audience: string, body: Bytes, ttl: int, m: int)
    returns (d: Decoded)
    requires Ready(p, c, ttl, m)
    ensures Mint(p, c, negotiate, audience, body, ttl, m).Ok?
    ensures EnvOf(p).decode(Mint(p, c, negotiate, audience, body, ttl, m).value) == Ok(d)
    ensures d.kind == Kind.Message && d.issuer == d.subject == User(p, c).base.subject
    ensures d.audience == audience && d.checksum == EnvOf(p).hash(body) && d.epoch == User(p, c).epoch
    ensures d.chain == if negotiate then None else Some(Embedded((c.account, c.user)))
    ensures ClaimsOf(d).expiresAt == Some(Seconds(m + ttl) * SECOND) && ClaimsOf(d).notBefore == None
  {
    hide DecodeToken, EncodeV1, IsValidPublic, PublicKey, ExtensionsClaim, FromSeed, Hex, IssueMessage, ReadAs,
         VerifyAccount, VerifyUser, Seconds, ContentDerived, EmitterChain;
    var (kp, epoch) := Minter(p, c).value;
    EmitterHolds(p, c);
    HashIsHex(p, body);
    NoExtensions();
    NoneDistinct();
    MinterRole(p, kp, User(p, c).base.subject);
    EmitterChained(p, c);
    var v, chain := Validity(Some(ttl), None, None), EmbeddedBy(c, negotiate);
    IssuesMessageExactly(p, kp, audience, EnvOf(p).hash(body), chain, epoch, v, [], m);
    d := MessageDecodes(p, kp, audience, EnvOf(p).hash(body), chain, epoch, v, [], m);
    SecondsRead(m + ttl);
    ReadOnce(Some(m + ttl), ClaimsOf(d).expiresAt, Instant(Seconds(m + ttl)));
    SecondZero(m + ttl);
    NoTimeRead();
    ReadOnce(None, ClaimsOf(d).notBefore, None);
  }

  lemma MinterRole(p: Platform, kp: KeyPair, key: string)
    requires Held(p, kp) && PublicKey(kp) == Ok(key) && EnvOf(p).isUserKey(key)
    ensures kp.prefix == PREFIX_USER
  {
    hide IsValidPublic, PublicKey;
    HeldRole(p, kp);
    assert IsValidPublic(key, PREFIX_USER);
  }

  lemma EmitterChained(p: Platform, c: C.Creds)
    requires Minter(p, c).Ok?
    ensures EmitterChain(EnvOf(p), (c.account, c.user), User(p, c).base.subject)
  {
    hide DecodeToken, IsValidPublic, FromSeed, VerifyAccount, VerifyUser, EnvOf;
    assert EmitterChainUnder(EnvOf(p), (c.account, c.user), User(p, c).base.subject,
                             IssuerOf(EnvOf(p), c.account).value);
  }

  /** With its own chain embedded or supplied and every binding met, only the windows
      are left to decide. */
  lemma WindowsDecide(env: Env, tok: string, d: Decoded, chain: (string, string), key: string, o: Options)
    requires env.decode(tok) == Ok(d) && CheckToken(env, d).Ok? && CheckBindings(env, d.audience, d.checksum, o).Ok?
    requires SelectChain(d.chain, o.chain) == Ok(chain) && o.operatorToken.None?
    requires VerifyAccount(env, chain.0, key).Ok?
    requires VerifyUser(env, chain.1, VerifyAccount(env, chain.0, key).value.base.subject).Ok?
    requires var account := VerifyAccount(env, chain.0, key).value;
             var user := VerifyUser(env, chain.1, account.base.subject).value;
             user.base.subject == d.issuer && d.epoch == account.epoch == user.epoch
    ensures var account := VerifyAccount(env, chain.0, key).value;
            var user := VerifyUser(env, chain.1, account.base.subject).value;
            VerifyMessage(env, tok, Anchor(Some(key), None), o).Ok?
            <==> account.base.Covers(o.now, o.skew) && user.base.Covers(o.now, o.skew)
                 && ClaimsOf(d).Covers(o.now, o.skew)
  {
    hide VerifyAccount, VerifyUser, CheckToken, CheckBindings, ClaimsOf, SelectChain;
  }

  /** A minted message is accepted at exactly the instants inside the account and
      user windows up to its expiry in whole seconds, all widened by the skew. */
  lemma AcceptedExactly(p: Platform, c: C.Creds, negotiate: bool, audience: string, body: Bytes, ttl: int, m: int,
                        o: Options)
    requires Ready(p, c, ttl, m) && Expects(o, c, negotiate, audience, body)
    ensures Mint(p, c, negotiate, audience, body, ttl, m).Ok?
    ensures Receive(p, c, Mint(p, c, negotiate, audience, body, ttl, m).value, o).Ok?
       <==> Account(p, c).base.Covers(o.now, o.skew) && User(p, c).base.Covers(o.now, o.skew)
            && o.now <= Seconds(m + ttl) * SECOND + o.skew
  {
    hide DecodeToken, Mint, IsValidPublic, FromSeed, Hex, VerifyMessage, VerifyAccount, VerifyUser, ClaimsOf, EnvOf;
    var d := Mints(p, c, negotiate, audience, body, ttl, m);
    EmitterHolds(p, c);
    HashIsHex(p, body);
    WindowsDecide(EnvOf(p), Mint(p, c, negotiate, audience, body, ttl, m).value, d, (c.account, c.user),
                  Account(p, c).base.issuer, o);
  }

  /** With at least a second of skew, flooring the expiry to whole seconds costs
      nothing: the message is accepted through its whole lifetime. */
  lemma AcceptedThroughout(p: Platform, c: C.Creds, negotiate: bool, audience: string, body: Bytes, ttl: int, m: int,
                           o: Options)
    requires Ready(p, c, ttl, m) && Expects(o, c, negotiate, audience, body)
    requires o.skew >= SECOND && m <= o.now <= m + ttl
    requires Account(p, c).base.Covers(o.now, o.skew) && User(p, c).base.Covers(o.now, o.skew)
    ensures Mint(p, c, negotiate, audience, body, ttl, m).Ok?
    ensures Receive(p, c, Mint(p, c, negotiate, audience, body, ttl, m).value, o).Ok?
  {
    AcceptedExactly(p, c, negotiate, audience, body, ttl, m, o);
    WholeSeconds(m + ttl);
    hide Mint, Receive, Ready;
  }

  /** A receiver that pins the account's issuer and no chain. */
  ghost predicate Trusts(p: Platform, c: C.Creds, r: T.Receiver)
    requires Minter(p, c).Ok?
  {
    && r.env == EnvOf(p) && r.anchor == Anchor(Some(Account(p, c).base.issuer), None)
    && r.static_.pin.Free? && r.static_.operatorToken.None? && r.static_.now.None?
  }

  /** A negotiating emitter's message is delivered within two sends, whatever the
      receiver's cache holds at each, when the second would be read inside the account
      and user windows and before the expiry, widened by the skew. */
  lemma DeliveredByNegotiation(p: Platform, c: C.Creds, r: T.Receiver, hasCache: bool, before1: CC.Lru, before2: CC.Lru,
                               audience: string, body: Bytes, ttl: int, m: int, t1: N.Clocks, t2: N.Clocks)
    requires Ready(p, c, ttl, m) && Trusts(p, c, r)
    requires var (t, skew) := (t2.first, r.static_.skew);
             Account(p, c).base.Covers(t, skew) && User(p, c).base.Covers(t, skew)
             && t <= Seconds(m + ttl) * SECOND + skew
    ensures Mint(p, c, true, audience, body, ttl, m).Ok?
    ensures var tok := Mint(p, c, true, audience, body, ttl, m).value;
            var x := N.Converse(r, hasCache, before1, before2, tok, (c.account, c.user), body, audience, t1, t2);
            x.accepted && 1 <= |x.sends| <= 2
  {
    hide Mint, VerifyMessage, EnvOf, FromSeed, VerifyAccount, VerifyUser, N.Converse, T.Decide;
    var d := Mints(p, c, true, audience, body, ttl, m);
    var tok, chain := Mint(p, c, true, audience, body, ttl, m).value, (c.account, c.user);
    var o := T.OptionsWith(r, T.Request(tok, body, audience, "", ""), chain, t2.first);
    AcceptedExactly(p, c, true, audience, body, ttl, m, o);
    assert N.Verifies(r, tok, body, audience, chain, t2.first);
    N.NegotiationCompletes(r, hasCache, before1, before2, tok, chain, body, audience, t1, t2);
  }

  lemma WholeSeconds(us: int)
    ensures us < Seconds(us) * SECOND + SECOND
  {
  }

  // ---- signed requests -----------------------------------------------------------

  /** A request signature made with a key's seed verifies under that key at exactly the
      instants within the skew of its timestamp. */
  lemma SignatureVerifies(p: Platform, kp: KeyPair, timestamp: string, signature: string, context: Bytes, ts: int,
                          now: int, skew: int)
    requires Correct(p) && Held(p, kp) && p.parseInstant(timestamp) == Some(ts)
    requires p.parseSignature(signature)
          == Some(p.sign(kp.seed.value, SignedPayload(EnvOf(p), timestamp, context)))
    ensures PublicKey(kp).Ok?
    ensures VerifySignature(EnvOf(p), PublicKey(kp).value, timestamp, signature, context, now, skew).Ok?
       <==> ts - skew <= now <= ts + skew
  {
    hide SignedPayload, PublicKey, FromPublicKey;
    HeldKey(p, kp);
    SignatureChecks(p, kp, SignedPayload(EnvOf(p), timestamp, context));
  }

  /** The request credentials send: both tokens, and a signature over the context. */
  ghost predicate Sends(p: Platform, c: C.Creds, req: V.Request, ts: int)
    requires Minter(p, c).Ok? && Held(p, Minter(p, c).value.0)
  {
    && req.accountToken == c.account && req.userToken == c.user
    && V.Signed(req) && p.parseInstant(req.timestamp) == Some(ts)
    && p.parseSignature(req.signature)
       == Some(p.sign(Minter(p, c).value.0.seed.value, SignedPayload(EnvOf(p), req.timestamp, req.context)))
  }

  /** A verifier that pins the account's issuer, without a policy of its own. */
  ghost predicate Pins(p: Platform, c: C.Creds, cfg: V.Config)
    requires Minter(p, c).Ok?
  {
    cfg.env == EnvOf(p) && cfg.anchor == V.Pinned(Account(p, c).base.issuer, None)
  }

  /** A request signed with credentials authenticates, as their account and user, at
      exactly the instants inside both windows and within the skew of its timestamp,
      as long as the account is allowed. */
  lemma RequestAuthenticates(p: Platform, c: C.Creds, cfg: V.Config, req: V.Request, ts: int, now: int)
    requires Correct(p) && Minter(p, c).Ok? && Held(p, Minter(p, c).value.0)
    requires PublicKey(Minter(p, c).value.0) == Ok(User(p, c).base.subject)
    requires Pins(p, c, cfg) && Sends(p, c, req, ts)
    ensures V.Authenticated(cfg, req, now).Ok? <==>
              Account(p, c).base.Covers(now, cfg.skew) && User(p, c).base.Covers(now, cfg.skew)
              && ts - cfg.skew <= now <= ts + cfg.skew && cfg.allowed(Account(p, c).base.id)
    ensures V.Authenticated(cfg, req, now).Ok? ==>
              V.Authenticated(cfg, req, now).value == V.Identity(Account(p, c), Some(User(p, c)), None)
  {
    hide FromSeed, EnvOf, VerifyUser, VerifyAccount, IssuerOf, Minter, Account, User, V.Authenticated, SignedPayload,
         PublicKey, Held, Correct;
    var id := V.Identity(Account(p, c), Some(User(p, c)), None);
    MinterChain(p, c);
    SignatureVerifies(p, Minter(p, c).value.0, req.timestamp, req.signature, req.context, ts, now, cfg.skew);
    SignatureProves(cfg, req, id);
    V.AuthenticatedIff(cfg, req, id, now);
    assert V.Presents(cfg, req, c.account) && V.IssuedUnder(cfg, c.account, id);
    if V.Authenticated(cfg, req, now).Ok? {
      var got := V.Authenticated(cfg, req, now).value;
      V.AuthenticatedIff(cfg, req, got, now);
      assert got == id;
    }
  }

  lemma MinterChain(p: Platform, c: C.Creds)
    requires Minter(p, c).Ok?
    ensures c.account != "" && c.user != ""
    ensures VerifyAccount(EnvOf(p), c.account, Account(p, c).base.issuer) == Ok(Account(p, c))
    ensures VerifyUser(EnvOf(p), c.user, Account(p, c).base.subject) == Ok(User(p, c))
  {
    hide FromSeed, EnvOf, VerifyUser, VerifyAccount, IssuerOf;
    LevelIssuer(EnvOf(p), c.account, IssuerOf(EnvOf(p), c.account).value);
  }

  lemma SignatureProves(cfg: V.Config, req: V.Request, id: V.Identity)
    requires id.user.Some? && V.Signed(req)
    ensures V.Possesses(cfg, req, id) <==>
              cfg.env.parseSignature(req.signature).Some?
              && cfg.env.checks(id.user.value.base.subject, SignedPayload(cfg.env, req.timestamp, req.context),
                                cfg.env.parseSignature(req.signature).value)
  {
  }

  // ---- from keys to credentials ------------------------------------------------

  /** Seed text has nothing to strip. */
  lemma SeedTrimmed(prefix: Byte, raw: Bytes)
    requires IsPublicPrefix(prefix) && |raw| == 32
    ensures EncodeSeed(prefix, raw).Ok? && EncodeSeed(prefix, raw).value != ""
    ensures Text.Strip(EncodeSeed(prefix, raw).value) == EncodeSeed(prefix, raw).value
  {
    hide Crc16.Checksum, Radix.Encode, Text.Strip;
    var data := SeedHead(prefix) + raw;
    SealLength(data);
    Base32Trimmed(data + LittleEndian(Crc16.Checksum(data)));
  }

  lemma Base32Trimmed(raw: Bytes)
    ensures Text.Trimmed(Radix.Encode(Radix.Base32, raw))
  {
    var s := Radix.Encode(Radix.Base32, raw);
    Radix.EncodeText(Radix.Base32, raw);
    hide Radix.Encode;
    if s != "" {
      assert Radix.Value(Radix.Base32, s[0]).Some? && Radix.Value(Radix.Base32, s[|s| - 1]).Some?;
    }
  }

  lemma SeedRestores(p: Platform, kp: KeyPair)
    requires Held(p, kp) && |kp.seed.value| == 32
    ensures EncodeSeed(kp.prefix, kp.seed.value).Ok? && EncodeSeed(kp.prefix, kp.seed.value).value != ""
    ensures FromSeed(p, EncodeSeed(kp.prefix, kp.seed.value).value) == Ok(kp)
  {
    hide DecodeSeed, EncodeSeed, Text.Strip;
    SeedTrimmed(kp.prefix, kp.seed.value);
    SeedRoundTrip(kp.prefix, kp.seed.value);
  }

  lemma SegmentsNonempty(tok: string)
    requires |SplitDots(tok)| == 3
    ensures tok != ""
  {
  }

  /** What an operator, an account and a user key mint for one trust domain. */
  function Bundle(p: Platform, op: KeyPair, acct: KeyPair, usr: KeyPair, v: Validity, w: Validity,
                  epoch: nat, now: int): Result<C.Creds>
  {
    var accountKey :- PublicKey(acct);
    var userKey :- PublicKey(usr);
    var account :- IssueAccount(p, op, "", accountKey, v, epoch, [], now);
    var user :- IssueUser(p, acct, "", userKey, w, epoch, false, [], now);
    if usr.seed.None? then Err(Unclassified)
    else
      var seed :- EncodeSeed(usr.prefix, usr.seed.value);
      Ok(C.Creds(account, user, seed))
  }

  lemma AccountMinted(p: Platform, op: KeyPair, accountKey: string, v: Validity, epoch: nat, now: int)
    requires Correct(p) && Held(p, op) && op.prefix == PREFIX_OPERATOR && IsValidPublic(accountKey, PREFIX_ACCOUNT)
    requires ValidityGiven(v) && Mintable(v, epoch, [], now)
    ensures PublicKey(op).Ok? && IssueAccount(p, op, "", accountKey, v, epoch, [], now).Ok?
    ensures var tok := IssueAccount(p, op, "", accountKey, v, epoch, [], now).value;
            var read := VerifyAccount(EnvOf(p), tok, PublicKey(op).value);
            && tok != "" && read.Ok? && read.value.epoch == epoch
            && read.value.base.subject == accountKey && Ok(read.value.base.issuer) == PublicKey(op)
  {
    hide DecodeToken, IsValidPublic, PublicKey, IssueAccount, IssueOperator, IssueUser, SplitDots, Held, ValidityGiven,
         Mintable, Correct, ExtensionsClaim, NameOf, VerifyAccount, CheckValidity;
    HeldRole(p, op);
    NoneDistinct();
    IssuesExactly(p, op, "", accountKey, v, epoch, false, [], now);
    AccountRoundTrip(p, op, "", accountKey, v, epoch, [], now);
    SegmentsNonempty(IssueAccount(p, op, "", accountKey, v, epoch, [], now).value);
  }

  lemma UserMinted(p: Platform, acct: KeyPair, userKey: string, w: Validity, epoch: nat, now: int)
    requires Correct(p) && Held(p, acct) && acct.prefix == PREFIX_ACCOUNT && IsValidPublic(userKey, PREFIX_USER)
    requires ValidityGiven(w) && Mintable(w, epoch, [], now)
    ensures PublicKey(acct).Ok? && IssueUser(p, acct, "", userKey, w, epoch, false, [], now).Ok?
    ensures var tok := IssueUser(p, acct, "", userKey, w, epoch, false, [], now).value;
            var read := VerifyUser(EnvOf(p), tok, PublicKey(acct).value);
            tok != "" && read.Ok? && read.value.epoch == epoch && read.value.base.subject == userKey
  {
    hide DecodeToken, IsValidPublic, PublicKey, IssueAccount, IssueOperator, IssueUser, SplitDots, Held, ValidityGiven,
         Mintable, Correct, ExtensionsClaim, NameOf, VerifyUser, CheckValidity;
    HeldRole(p, acct);
    NoneDistinct();
    IssuesExactly(p, acct, "", userKey, w, epoch, false, [], now);
    UserRoundTrip(p, acct, "", userKey, w, epoch, false, [], now);
    SegmentsNonempty(IssueUser(p, acct, "", userKey, w, epoch, false, [], now).value);
  }

  /** Credentials whose parts agree pass the minter. */
  lemma MinterAccepts(p: Platform, c: C.Creds, kp: KeyPair, issuer: string)
    requires c.account != "" && c.user != "" && c.seed != "" && FromSeed(p, c.seed) == Ok(kp)
    requires VerifyAccount(EnvOf(p), c.account, issuer).Ok?
    requires var account := VerifyAccount(EnvOf(p), c.account, issuer).value;
             var user := VerifyUser(EnvOf(p), c.user, account.base.subject);
             user.Ok? && user.value.epoch == account.epoch
    ensures var account := VerifyAccount(EnvOf(p), c.account, issuer).value;
            var user := VerifyUser(EnvOf(p), c.user, account.base.subject).value;
            && Minter(p, c) == Ok((kp, user.epoch))
            && Account(p, c) == account && User(p, c) == user
  {
    hide FromSeed, VerifyAccount, VerifyUser, IssuerOf, EnvOf;
    LevelIssuer(EnvOf(p), c.account, issuer);
  }

  /** End to end: three keys of the right roles always mint credentials that pass the
      minter, belong to the operator and are ready to sign messages. */
  lemma BundleReady(p: Platform, op: KeyPair, acct: KeyPair, usr: KeyPair, v: Validity, w: Validity,
                    epoch: nat, now: int, ttl: int, m: int)
    requires Correct(p) && Held(p, op) && Held(p, acct) && Held(p, usr) && |usr.seed.value| == 32
    requires op.prefix == PREFIX_OPERATOR && acct.prefix == PREFIX_ACCOUNT && usr.prefix == PREFIX_USER
    requires ValidityGiven(v) && ValidityGiven(w)
    requires Mintable(v, epoch, [], now) && Mintable(w, epoch, [], now)
    requires ttl > 0 && !(-1_000_000 < m + ttl < 1_000_000) && Holdable(Some(m)) && Holdable(Some(m + ttl))
    ensures Bundle(p, op, acct, usr, v, w, epoch, now).Ok?
    ensures var c := Bundle(p, op, acct, usr, v, w, epoch, now).value;
            && Ready(p, c, ttl, m)
            && Ok(Account(p, c).base.issuer) == PublicKey(op)
            && Ok(Account(p, c).base.subject) == PublicKey(acct)
            && Ok(User(p, c).base.subject) == PublicKey(usr)
            && User(p, c).epoch == epoch
  {
    hide IsValidPublic, PublicKey, FromSeed, EncodeSeed, IssueAccount, IssueUser, Held, ValidityGiven, Mintable,
         Seconds, Correct, VerifyAccount, VerifyUser, EnvOf, Minter, Account, User;
    HeldRole(p, op);
    HeldRole(p, acct);
    HeldRole(p, usr);
    AccountMinted(p, op, PublicKey(acct).value, v, epoch, now);
    UserMinted(p, acct, PublicKey(usr).value, w, epoch, now);
    HeldSeed(p, usr);
    SeedRestores(p, usr);
    var c := Bundle(p, op, acct, usr, v, w, epoch, now).value;
    MinterAccepts(p, c, usr, PublicKey(op).value);
  }

  lemma HeldSeed(p: Platform, kp: KeyPair)
    requires Held(p, kp)
    ensures kp.seed.Some?
  {
  }

  // ---- through the credentials file -----------------------------------------------

  /** Made of the characters of tokens and seeds. */
  ghost predicate IsTokenText(s: string) {
    forall i :: 0 <= i < |s| ==> s[i] == '.' || Radix.Value(Radix.Base64Url, s[i]).Some?
  }

  lemma TokenTextClean(s: string, section: C.Section)
    requires IsTokenText(s) && s != ""
    ensures C.Clean(s, section) && s != C.Begin(section)
  {
    MarkerHasSpace(section);
    hide C.Begin, C.End;
  }

  lemma MarkerHasSpace(section: C.Section)
    ensures |C.Begin(section)| > 10 && C.Begin(section)[10] == ' '
    ensures |C.End(section)| > 9 && C.End(section)[9] == ' '
  {
    assert "-----BEGIN VALISS "[10] == ' ' && "------END VALISS "[9] == ' ';
  }

  lemma EncodedIsTokenText(p: Platform, kp: KeyPair, r: Registered, b: Body)
    requires EncodeV1(p, kp, r, b).Ok?
    ensures IsTokenText(EncodeV1(p, kp, r, b).value)
  {
    hide Radix.Encode, Radix.Value, Utf8.Encode, Json.GoJson, Present, PayloadSlots;
    var input := SigningInput(p, r, b);
    Base64UrlText(Utf8.Encode(HEADER));
    Base64UrlText(Json.GoJson(Json.Obj(Present(PayloadSlots(p, r, b)))));
    Base64UrlText(p.sign(kp.seed.value, Utf8.Encode(input)));
    assert IsTokenText(input);
  }

  lemma Base64UrlText(raw: Bytes)
    ensures IsTokenText(Radix.Encode(Radix.Base64Url, raw))
  {
    Radix.EncodeText(Radix.Base64Url, raw);
    hide Radix.Encode, Radix.Value;
  }

  lemma SeedIsTokenText(prefix: Byte, raw: Bytes)
    requires IsPublicPrefix(prefix)
    ensures IsTokenText(EncodeSeed(prefix, raw).value)
  {
    hide Crc16.Checksum, Radix.Encode;
    var data := SeedHead(prefix) + raw;
    var s := Seal(data);
    Radix.EncodeText(Radix.Base32, data + LittleEndian(Crc16.Checksum(data)));
    forall i | 0 <= i < |s| ensures Radix.Value(Radix.Base64Url, s[i]).Some? {
      assert Radix.Value(Radix.Base32, s[i]).Some?;
    }
  }

  lemma AllTokenText(c: C.Creds)
    requires IsTokenText(c.account) && IsTokenText(c.user) && IsTokenText(c.seed)
    requires c.account != "" && c.user != "" && c.seed != ""
    ensures C.Storable(c)
  {
    forall s: C.Section ensures C.Clean(C.Field(c, s), s) {
      TokenTextClean(C.Field(c, s), s);
    }
    forall i: C.Section, s: C.Section ensures C.Field(c, i) != C.Begin(s) {
      TokenTextClean(C.Field(c, i), s);
    }
    hide C.Clean, C.Begin, IsTokenText;
    assert C.Clean(C.Field(c, C.Account), C.Account) && C.Clean(C.Field(c, C.User), C.User);
    assert C.Clean(C.Field(c, C.Seed), C.Seed);
  }

  /** Whatever a bundle holds, its file gives it back. */
  lemma BundleSurvivesFile(p: Platform, op: KeyPair, acct: KeyPair, usr: KeyPair, v: Validity, w: Validity,
                           epoch: nat, now: int)
    requires Correct(p) && Held(p, op) && Held(p, acct) && Held(p, usr) && |usr.seed.value| == 32
    requires op.prefix == PREFIX_OPERATOR && acct.prefix == PREFIX_ACCOUNT && usr.prefix == PREFIX_USER
    requires ValidityGiven(v) && ValidityGiven(w)
    requires Mintable(v, epoch, [], now) && Mintable(w, epoch, [], now)
    ensures Bundle(p, op, acct, usr, v, w, epoch, now).Ok?
    ensures var c := Bundle(p, op, acct, usr, v, w, epoch, now).value;
            C.ParseText(C.FormatText(c)) == Ok(c)
  {
    hide IsValidPublic, PublicKey, FromSeed, EncodeSeed, IssueAccount, IssueUser, ValidityGiven, Mintable, IsTokenText,
         Correct, VerifyAccount, VerifyUser, EnvOf, C.ParseText, C.FormatText, C.Storable;
    HeldRole(p, op);
    HeldRole(p, acct);
    HeldRole(p, usr);
    AccountMinted(p, op, PublicKey(acct).value, v, epoch, now);
    UserMinted(p, acct, PublicKey(usr).value, w, epoch, now);
    SeedRestores(p, usr);
    IssuedIsTokenText(p, op, acct, PublicKey(acct).value, PublicKey(usr).value, v, w, epoch, now);
    SeedIsTokenText(usr.prefix, usr.seed.value);
    var c := Bundle(p, op, acct, usr, v, w, epoch, now).value;
    AllTokenText(c);
    C.RoundTrip(c);
  }

  lemma IssuedIsTokenText(p: Platform, op: KeyPair, acct: KeyPair, accountKey: string, userKey: string,
                          v: Validity, w: Validity, epoch: nat, now: int)
    ensures var tok := IssueAccount(p, op, "", accountKey, v, epoch, [], now);
            tok.Ok? ==> IsTokenText(tok.value)
    ensures var tok := IssueUser(p, acct, "", userKey, w, epoch, false, [], now);
            tok.Ok? ==> IsTokenText(tok.value)
  {
    hide IsValidPublic, PublicKey, EncodeV1, IsTokenText, ExtensionsClaim, CheckValidity;
    forall kp, r, b | EncodeV1(p, kp, r, b).Ok? ensures IsTokenText(EncodeV1(p, kp, r, b).value) {
      EncodedIsTokenText(p, kp, r, b);
    }
  }
}
