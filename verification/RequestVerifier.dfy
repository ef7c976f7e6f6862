/** The per-request verifier (src/valiss/verifier.py).

    The class runs the source's steps on its replay cache and hook lists.
    `Judge` is the same request handling as a function of the nonces seen so
    far. Consumer hooks are functions of the request and the identity. */
module RequestVerifier {
  import opened Bits
  import opened Errors
  import opened Token
  import opened Keyring
  import R = Replay

  datatype Request = Request(
    accountToken: string, userToken: string, timestamp: string, signature: string,
    context: Bytes, nonce: string)

  datatype Identity = Identity(
    account: AccountClaims, user: Option<UserClaims>, operator: Option<OperatorClaims>)

  /** A pinned operator with or without its policy, a pinned operator whose
      configured token does not verify, or a keyring. */
  datatype Anchor =
    | Pinned(key: string, policy: Option<OperatorClaims>)
    | Misconfigured
    | Trusting(ring: Ring)

  datatype HookResult = Pass | Refuse(reason: Reason) | Crash

  type Resolver = string -> Result<string>
  type Validator = (Request, Identity) -> HookResult

  /** Whether an extension type accepts what a token carries under its name. */
  type ExtensionType = Ext -> bool

  datatype Config = Config(
    env: Env, anchor: Anchor, skew: int, resolver: Option<Resolver>, allowed: string -> bool,
    extensions: seq<ExtensionType>, validators: seq<Validator>)

  function PinOperator(env: Env, key: string, operatorToken: Option<string>): Anchor {
    if operatorToken.None? then Pinned(key, None)
    else match VerifyOperator(env, operatorToken.value, key)
      case Ok(claims) => Pinned(key, Some(claims))
      case Err(_) => Misconfigured
  }

  // ---- before the replay gate -----------------------------------------------------------

  function AccountToken(cfg: Config, req: Request): Result<string> {
    if req.accountToken != "" then Ok(req.accountToken)
    else if req.userToken == "" then Err(Missing)
    else if cfg.resolver.None? then Err(NoResolver)
    else
      var accountKey :- IssuerOf(cfg.env, req.userToken);
      cfg.resolver.value(accountKey)
  }

  function Anchored(cfg: Config, accountToken: string): Result<(AccountClaims, Option<OperatorClaims>)> {
    match cfg.anchor
    case Misconfigured => Err(OperatorMisconfigured)
    case Pinned(key, policy) =>
      var account :- VerifyAccount(cfg.env, accountToken, key);
      Ok((account, policy))
    case Trusting(ring) =>
      var issuer :- IssuerOf(cfg.env, accountToken);
      var account :- VerifyAccount(cfg.env, accountToken, issuer);
      if (issuer, account.epoch) !in ring then Err(UnknownOperator)
      else Ok((account, Some(ring[(issuer, account.epoch)])))
  }

  function CheckPolicy(policy: Option<OperatorClaims>, account: AccountClaims, now: int, skew: int): Result<()> {
    if policy.None? then Ok(())
    else
      var _ :- CheckWindow(policy.value.base, now, skew);
      if account.epoch != policy.value.epoch then Err(EpochMismatch) else Ok(())
  }

  function CheckUser(cfg: Config, req: Request, account: AccountClaims, policy: Option<OperatorClaims>, now: int)
    : Result<Option<UserClaims>>
  {
    if req.userToken == "" then Ok(None)
    else
      var user :- VerifyUser(cfg.env, req.userToken, account.base.subject);
      if policy.Some? && user.epoch != policy.value.epoch then Err(EpochMismatch)
      else
        var _ :- CheckWindow(user.base, now, cfg.skew);
        Ok(Some(user))
  }

  predicate Signed(req: Request) {
    req.timestamp != "" || req.signature != ""
  }

  /** Possession: a signature by the effective subject, or a bearer user token. */
  function CheckPossession(cfg: Config, req: Request, id: Identity, now: int): Result<()> {
    if !Signed(req) then
      if id.user.None? || !id.user.value.bearer then Err(NotBearer) else Ok(())
    else VerifySignature(cfg.env, Subject(id), req.timestamp, req.signature, req.context, now, cfg.skew)
  }

  function Subject(id: Identity): string {
    if id.user.Some? then id.user.value.base.subject else id.account.base.subject
  }

  /** Everything below the anchor and above the replay gate. */
  function AdmitUnder(cfg: Config, req: Request, account: AccountClaims, policy: Option<OperatorClaims>, now: int)
    : Result<Identity>
  {
    var _ :- CheckPolicy(policy, account, now, cfg.skew);
    var _ :- CheckWindow(account.base, now, cfg.skew);
    if !cfg.allowed(account.base.id) then Err(NotAllowlisted)
    else
      var user :- CheckUser(cfg, req, account, policy, now);
      var id := Identity(account, user, policy);
      var _ :- CheckPossession(cfg, req, id, now);
      Ok(id)
  }

  /** The chain and the signature, at one instant. */
  function Authenticated(cfg: Config, req: Request, now: int): Result<Identity> {
    if cfg.anchor.Misconfigured? then Err(OperatorMisconfigured)
    else
      var accountToken :- AccountToken(cfg, req);
      var (account, policy) :- Anchored(cfg, accountToken);
      AdmitUnder(cfg, req, account, policy, now)
  }

  // ---- the gate and the hooks --------------------------------------------------------------

  function CheckExtensions(types: seq<ExtensionType>, id: Identity): Result<()> {
    if types == [] then Ok(())
    else if !types[0](id.account.ext) then Err(ExtensionInvalid)
    else if id.user.Some? && !types[0](id.user.value.ext) then Err(ExtensionInvalid)
    else CheckExtensions(types[1..], id)
  }

  function RunValidators(validators: seq<Validator>, req: Request, id: Identity): Result<()> {
    if validators == [] then Ok(())
    else match validators[0](req, id)
      case Pass => RunValidators(validators[1..], req, id)
      case Refuse(reason) => Err(reason)
      case Crash => Err(ValidatorRejected)
  }

  function RunHooks(cfg: Config, req: Request, id: Identity): Result<Identity> {
    var _ :- CheckExtensions(cfg.extensions, id);
    var _ :- RunValidators(cfg.validators, req, id);
    Ok(id)
  }

  datatype Judgement = Judgement(result: Result<Identity>, seen: R.Seen)

  /** The replay gate, with the cache's own reading of the clock. */
  function Gate(cfg: Config, seen: R.Seen, req: Request, now: int, cacheNow: int): R.Checked {
    R.Check(seen, req.nonce, now + 2 * cfg.skew, cacheNow)
  }

  /** One request against a verifier that has a replay cache. */
  function Judge(cfg: Config, seen: R.Seen, req: Request, now: int, cacheNow: int): Judgement {
    match Authenticated(cfg, req, now)
    case Err(reason) => Judgement(Err(reason), seen)
    case Ok(id) =>
      if !Signed(req) then Judgement(RunHooks(cfg, req, id), seen)
      else if req.nonce == "" then Judgement(Err(NonceRequired), seen)
      else
        var gate := Gate(cfg, seen, req, now, cacheNow);
        if gate.seenBefore then Judgement(Err(Reason.Replay), gate.seen)
        else Judgement(RunHooks(cfg, req, id), gate.seen)
  }

  /** One request against a verifier without one. */
  function JudgeOpen(cfg: Config, req: Request, now: int): Result<Identity> {
    var id :- Authenticated(cfg, req, now);
    RunHooks(cfg, req, id)
  }

  datatype Response = Response(result: Result<Identity>, cache: Option<R.Seen>)

  /** One request against a verifier, with a replay cache or without. */
  function Respond(cfg: Config, cache: Option<R.Seen>, req: Request, now: int, cacheNow: int): Response {
    match cache
    case None => Response(JudgeOpen(cfg, req, now), None)
    case Some(seen) =>
      var j := Judge(cfg, seen, req, now, cacheNow);
      Response(j.result, Some(j.seen))
  }

  class Verifier {
    const env: Env
    const anchor: Anchor
    const skew: int
    const resolver: Option<Resolver>
    const allowed: string -> bool
    const replay: R.MemoryReplayCache?
    var extensions: seq<ExtensionType>
    var validators: seq<Validator>

    ghost function Settings(): Config
      reads this
    {
      Config(env, anchor, skew, resolver, allowed, extensions, validators)
    }

    constructor (env: Env, operatorKey: string, operatorToken: Option<string>, skew: int,
                 resolver: Option<Resolver>, allowed: string -> bool, replay: R.MemoryReplayCache?,
                 extensions: seq<ExtensionType>, validators: seq<Validator>)
      ensures Settings() == Config(env, PinOperator(env, operatorKey, operatorToken), skew, resolver, allowed,
                                   extensions, validators)
      ensures this.replay == replay
    {
      this.env, this.skew, this.resolver, this.allowed := env, skew, resolver, allowed;
      this.replay := replay;
      anchor := PinOperator(env, operatorKey, operatorToken);
      this.extensions, this.validators := extensions, validators;
    }

    constructor WithKeyring(env: Env, ring: Ring, skew: int, resolver: Option<Resolver>,
                            allowed: string -> bool, replay: R.MemoryReplayCache?,
                            extensions: seq<ExtensionType>, validators: seq<Validator>)
      ensures Settings() == Config(env, Trusting(ring), skew, resolver, allowed, extensions, validators)
      ensures this.replay == replay
    {
      this.env, this.skew, this.resolver, this.allowed := env, skew, resolver, allowed;
      this.replay := replay;
      anchor := Trusting(ring);
      this.extensions, this.validators := extensions, validators;
    }

    method AddValidator(v: Validator)
      modifies this
      ensures Settings() == old(Settings()).(validators := old(validators) + [v])
    {
      validators := validators + [v];
    }

    method RequireExtension(t: ExtensionType)
      modifies this
      ensures Settings() == old(Settings()).(extensions := old(extensions) + [t])
    {
      extensions := extensions + [t];
    }

    /** The chain and the signature: the checks before the replay gate, in order. */
    method Authenticate(req: Request, now: int) returns (r: Result<Identity>)
      ensures r == Authenticated(Settings(), req, now)
    {
      hide Anchored, VerifyUser, VerifySignature, IssuerOf;
      if anchor.Misconfigured? { return Err(OperatorMisconfigured); }
      var cfg := Config(env, anchor, skew, resolver, allowed, extensions, validators);
      var accountToken := req.accountToken;
      if accountToken == "" {
        if req.userToken == "" { return Err(Missing); }
        if resolver.None? { return Err(NoResolver); }
        var accountKey := IssuerOf(env, req.userToken);
        if accountKey.Err? { return Err(accountKey.reason); }
        var resolved := resolver.value(accountKey.value);
        if resolved.Err? { return Err(resolved.reason); }
        accountToken := resolved.value;
      }
      assert AccountToken(cfg, req) == Ok(accountToken);
      hide AccountToken;
      var anchored := Anchored(cfg, accountToken);
      if anchored.Err? { return Err(anchored.reason); }
      var (account, policy) := anchored.value;

      if policy.Some? {
        if policy.value.base.Expired(now, skew) { return Err(Expired); }
        if policy.value.base.NotYetValid(now, skew) { return Err(NotYetValid); }
        if account.epoch != policy.value.epoch { return Err(EpochMismatch); }
      }
      assert CheckPolicy(policy, account, now, skew) == Ok(());
      hide CheckPolicy;
      if account.base.Expired(now, skew) { return Err(Expired); }
      if account.base.NotYetValid(now, skew) { return Err(NotYetValid); }
      if !allowed(account.base.id) { return Err(NotAllowlisted); }

      var user: Option<UserClaims> := None;
      if req.userToken != "" {
        var verified := VerifyUser(env, req.userToken, account.base.subject);
        if verified.Err? { return Err(verified.reason); }
        if policy.Some? && verified.value.epoch != policy.value.epoch { return Err(EpochMismatch); }
        if verified.value.base.Expired(now, skew) { return Err(Expired); }
        if verified.value.base.NotYetValid(now, skew) { return Err(NotYetValid); }
        user := Some(verified.value);
      }
      assert CheckUser(cfg, req, account, policy, now) == Ok(user);
      hide CheckUser;
      var id := Identity(account, user, policy);

      if req.timestamp == "" && req.signature == "" {
        if user.None? || !user.value.bearer { return Err(NotBearer); }
      } else {
        var checked := VerifySignature(env, Subject(id), req.timestamp, req.signature, req.context, now, skew);
        if checked.Err? { return Err(checked.reason); }
      }
      assert CheckPossession(cfg, req, id, now).Ok?;
      return Ok(id);
    }

    method Verify(req: Request, now: int, cacheNow: int) returns (r: Result<Identity>)
      modifies replay
      ensures Settings() == old(Settings())
      ensures replay == null ==> r == JudgeOpen(Settings(), req, now)
      ensures replay != null ==>
                Judgement(r, replay.seen) == Judge(Settings(), old(replay.seen), req, now, cacheNow)
    {
      hide Authenticated, R.Check;
      var authenticated := Authenticate(req, now);
      if authenticated.Err? { return Err(authenticated.reason); }
      var id := authenticated.value;
      if Signed(req) && replay != null {
        if req.nonce == "" { return Err(NonceRequired); }
        var before := replay.SeenBefore(req.nonce, now + 2 * skew, cacheNow);
        if before { return Err(Reason.Replay); }
      }
      for i := 0 to |extensions|
        invariant CheckExtensions(extensions, id) == CheckExtensions(extensions[i..], id)
      {
        if !extensions[i](id.account.ext) { return Err(ExtensionInvalid); }
        if id.user.Some? && !extensions[i](id.user.value.ext) { return Err(ExtensionInvalid); }
      }
      for i := 0 to |validators|
        invariant RunValidators(validators, req, id) == RunValidators(validators[i..], req, id)
      {
        match validators[i](req, id) {
          case Pass =>
          case Refuse(reason) => return Err(reason);
          case Crash => return Err(ValidatorRejected);
        }
      }
      return Ok(id);
    }
  }

  // ---- what authentication means ------------------------------------------------------------

  /** Every window the request is subject to, at one instant; `id` is what it
      authenticated as. */
  predicate AllCover(cfg: Config, req: Request, id: Identity, now: int) {
    && (id.operator.Some? ==> id.operator.value.base.Covers(now, cfg.skew))
    && id.account.base.Covers(now, cfg.skew)
    && (id.user.Some? ==> id.user.value.base.Covers(now, cfg.skew))
    && (Signed(req) ==>
          cfg.env.parseInstant(req.timestamp).Some?
          && var ts := cfg.env.parseInstant(req.timestamp).value; ts - cfg.skew <= now <= ts + cfg.skew)
  }

  /** The account token is the request's own, or what the resolver gives for the
      issuer of its user token. */
  ghost predicate Presents(cfg: Config, req: Request, accountToken: string) {
    if req.accountToken != "" then accountToken == req.accountToken
    else
      && req.userToken != "" && cfg.resolver.Some?
      && IssuerOf(cfg.env, req.userToken).Ok?
      && cfg.resolver.value(IssuerOf(cfg.env, req.userToken).value) == Ok(accountToken)
  }

  /** The trust anchor issued the account, and the policy enforced is the anchor's. */
  ghost predicate IssuedUnder(cfg: Config, accountToken: string, id: Identity) {
    var issuer := id.account.base.issuer;
    && VerifyAccount(cfg.env, accountToken, issuer) == Ok(id.account)
    && match cfg.anchor
       case Misconfigured => false
       case Pinned(key, policy) => issuer == key && id.operator == policy
       case Trusting(ring) =>
         (issuer, id.account.epoch) in ring && id.operator == Some(ring[(issuer, id.account.epoch)])
  }

  /** The account issued the user token, if there is one. */
  ghost predicate UserUnder(cfg: Config, req: Request, id: Identity) {
    if req.userToken == "" then id.user.None?
    else id.user.Some? && VerifyUser(cfg.env, req.userToken, id.account.base.subject) == Ok(id.user.value)
  }

  /** Under a policy every credential is of the policy's epoch. */
  ghost predicate PolicyEpoch(id: Identity) {
    id.operator.Some? ==>
      id.account.epoch == id.operator.value.epoch && (id.user.Some? ==> id.user.value.epoch == id.operator.value.epoch)
  }

  /** The sender holds the key of the most specific credential, or it is a bearer's. */
  ghost predicate Possesses(cfg: Config, req: Request, id: Identity) {
    if Signed(req) then
      && cfg.env.parseSignature(req.signature).Some?
      && cfg.env.checks(Subject(id), SignedPayload(cfg.env, req.timestamp, req.context),
                        cfg.env.parseSignature(req.signature).value)
    else id.user.Some? && id.user.value.bearer
  }

  ghost predicate Genuine(cfg: Config, req: Request, id: Identity, now: int) {
    && (exists accountToken :: Presents(cfg, req, accountToken) && IssuedUnder(cfg, accountToken, id))
    && cfg.allowed(id.account.base.id)
    && UserUnder(cfg, req, id) && PolicyEpoch(id) && Possesses(cfg, req, id)
    && AllCover(cfg, req, id, now)
  }

  lemma TokenPresented(cfg: Config, req: Request, accountToken: string)
    ensures AccountToken(cfg, req) == Ok(accountToken) <==> Presents(cfg, req, accountToken)
  {
  }

  lemma AnchoredIff(cfg: Config, accountToken: string, id: Identity)
    ensures Anchored(cfg, accountToken) == Ok((id.account, id.operator)) <==> IssuedUnder(cfg, accountToken, id)
  {
  }

  lemma UserIff(cfg: Config, req: Request, id: Identity, now: int)
    ensures CheckUser(cfg, req, id.account, id.operator, now) == Ok(id.user)
       <==> UserUnder(cfg, req, id)
            && (id.user.Some? ==>
                  id.user.value.base.Covers(now, cfg.skew)
                  && (id.operator.Some? ==> id.user.value.epoch == id.operator.value.epoch))
  {
    hide VerifyUser;
  }

  lemma PossessionIff(cfg: Config, req: Request, id: Identity, now: int)
    ensures CheckPossession(cfg, req, id, now).Ok?
       <==> Possesses(cfg, req, id)
            && (Signed(req) ==>
                  cfg.env.parseInstant(req.timestamp).Some?
                  && var ts := cfg.env.parseInstant(req.timestamp).value; ts - cfg.skew <= now <= ts + cfg.skew)
  {
    hide SignedPayload;
  }

  lemma AdmittedIff(cfg: Config, req: Request, id: Identity, now: int)
    ensures AdmitUnder(cfg, req, id.account, id.operator, now) == Ok(id)
       <==> cfg.allowed(id.account.base.id) && UserUnder(cfg, req, id) && PolicyEpoch(id)
            && Possesses(cfg, req, id) && AllCover(cfg, req, id, now)
  {
    hide CheckUser, CheckPossession, UserUnder, Possesses;
    UserIff(cfg, req, id, now);
    PossessionIff(cfg, req, id, now);
  }

  lemma AdmittedCarries(cfg: Config, req: Request, account: AccountClaims, policy: Option<OperatorClaims>, now: int)
    ensures var r := AdmitUnder(cfg, req, account, policy, now);
            r.Ok? ==> r.value.account == account && r.value.operator == policy
  {
    hide CheckUser, CheckPossession, CheckPolicy, CheckWindow;
  }

  /** A request authenticates as id exactly when id is genuine: credentials issued
      level by level from the trust anchor, allowed, of the policy's epoch, with
      possession shown and every window open. */
  lemma AuthenticatedIff(cfg: Config, req: Request, id: Identity, now: int)
    ensures Authenticated(cfg, req, now) == Ok(id) <==> Genuine(cfg, req, id, now)
  {
    hide AccountToken, Anchored, AdmitUnder, Presents, IssuedUnder, UserUnder, PolicyEpoch, Possesses, AllCover;
    AdmittedIff(cfg, req, id, now);
    if Authenticated(cfg, req, now) == Ok(id) {
      var accountToken := AccountToken(cfg, req).value;
      var (account, policy) := Anchored(cfg, accountToken).value;
      AdmittedCarries(cfg, req, account, policy, now);
      TokenPresented(cfg, req, accountToken);
      AnchoredIff(cfg, accountToken, id);
    } else if Genuine(cfg, req, id, now) {
      var accountToken :| Presents(cfg, req, accountToken) && IssuedUnder(cfg, accountToken, id);
      TokenPresented(cfg, req, accountToken);
      AnchoredIff(cfg, accountToken, id);
      NotMisconfigured(cfg, accountToken, id);
    }
  }

  lemma NotMisconfigured(cfg: Config, accountToken: string, id: Identity)
    requires IssuedUnder(cfg, accountToken, id)
    ensures !cfg.anchor.Misconfigured?
  {
  }

  ghost predicate AcceptedBy(t: ExtensionType, id: Identity) {
    t(id.account.ext) && (id.user.Some? ==> t(id.user.value.ext))
  }

  lemma {:induction false} ExtensionsPass(types: seq<ExtensionType>, id: Identity)
    ensures CheckExtensions(types, id).Ok? <==> forall i :: 0 <= i < |types| ==> AcceptedBy(types[i], id)
  {
    if types != [] {
      ExtensionsPass(types[1..], id);
      assert types == [types[0]] + types[1..];
    }
  }

  lemma {:induction false} ValidatorsPass(validators: seq<Validator>, req: Request, id: Identity)
    ensures RunValidators(validators, req, id).Ok? <==>
              forall i :: 0 <= i < |validators| ==> validators[i](req, id).Pass?
  {
    if validators != [] {
      ValidatorsPass(validators[1..], req, id);
      assert validators == [validators[0]] + validators[1..];
    }
  }

  /** Every registered extension type accepts both credentials, every validator passes. */
  ghost predicate HooksPass(cfg: Config, req: Request, id: Identity) {
    && (forall i :: 0 <= i < |cfg.extensions| ==> AcceptedBy(cfg.extensions[i], id))
    && (forall i :: 0 <= i < |cfg.validators| ==> cfg.validators[i](req, id).Pass?)
  }

  /** A signed request carries a nonce that is not held with an expiry ahead. */
  ghost predicate NonceUnused(seen: R.Seen, req: Request, cacheNow: int) {
    Signed(req) ==> req.nonce != "" && !(req.nonce in seen && seen[req.nonce] > cacheNow)
  }

  /** A request is accepted as id exactly when id is genuine, every registered
      extension type accepts both credentials and every validator passes; with a
      replay cache a signed request also needs a nonce that was not seen. */
  lemma AcceptedIff(cfg: Config, seen: R.Seen, req: Request, id: Identity, now: int, cacheNow: int)
    ensures JudgeOpen(cfg, req, now) == Ok(id) <==> Genuine(cfg, req, id, now) && HooksPass(cfg, req, id)
    ensures Judge(cfg, seen, req, now, cacheNow).result == Ok(id)
       <==> Genuine(cfg, req, id, now) && HooksPass(cfg, req, id) && NonceUnused(seen, req, cacheNow)
  {
    hide Authenticated, Genuine;
    AuthenticatedIff(cfg, req, id, now);
    ExtensionsPass(cfg.extensions, id);
    ValidatorsPass(cfg.validators, req, id);
    if Authenticated(cfg, req, now).Ok? {
      HooksKeep(cfg, req, Authenticated(cfg, req, now).value);
    }
  }

  // ---- what a refusal means ------------------------------------------------------------------

  /** The account token stands in the request or comes from the resolver, and the anchor
      or it is at fault. */
  ghost predicate AnchorBlamed(cfg: Config, accountToken: string, reason: Reason) {
    match reason
    case WrongType => Mistyped(cfg.env, accountToken, Kind.Account)
    case WrongIssuer => cfg.anchor.Pinned? && Misissued(cfg.env, accountToken, cfg.anchor.key)
    case WrongSubjectRole => Roleless(cfg.env, accountToken, cfg.env.isAccountKey)
    case UnknownOperator =>
      cfg.anchor.Trusting? && cfg.env.decode(accountToken).Ok?
      && var d := cfg.env.decode(accountToken).value; (d.issuer, d.epoch) !in cfg.anchor.ring
    case _ => false
  }

  /** A credential below the anchor, its time, its epoch or the proof of possession is
      at fault. */
  ghost predicate CredentialBlamed(cfg: Config, req: Request, account: AccountClaims, policy: Option<OperatorClaims>,
                                   now: int, reason: Reason)
  {
    var u := cfg.env.decode(req.userToken);
    var user := req.userToken != "" && u.Ok?;
    match reason
    case Expired =>
      || Lapsed(account.base, now, cfg.skew) || (policy.Some? && Lapsed(policy.value.base, now, cfg.skew))
      || (user && Lapsed(ClaimsOf(u.value), now, cfg.skew))
    case NotYetValid =>
      || Early(account.base, now, cfg.skew) || (policy.Some? && Early(policy.value.base, now, cfg.skew))
      || (user && Early(ClaimsOf(u.value), now, cfg.skew))
    case EpochMismatch =>
      policy.Some? && (account.epoch != policy.value.epoch || (user && u.value.epoch != policy.value.epoch))
    case NotAllowlisted => !cfg.allowed(account.base.id)
    case WrongType => user && Mistyped(cfg.env, req.userToken, Kind.User)
    case WrongIssuer => user && Misissued(cfg.env, req.userToken, account.base.subject)
    case WrongSubjectRole => user && Roleless(cfg.env, req.userToken, cfg.env.isUserKey)
    case NotBearer => req.timestamp == "" && req.signature == "" && (user ==> !u.value.bearer)
    case Skew =>
      match cfg.env.parseInstant(req.timestamp) {
        case None => true
        case Some(ts) => now > ts + cfg.skew || now < ts - cfg.skew
      }
    case BadSignatureEncoding => cfg.env.parseSignature(req.signature).None?
    case BadRequestSignature =>
      cfg.env.parseSignature(req.signature).Some?
      && !cfg.env.checks(if user then u.value.subject else account.base.subject,
                         SignedPayload(cfg.env, req.timestamp, req.context),
                         cfg.env.parseSignature(req.signature).value)
    case _ => false
  }

  lemma UserDecoded(env: Env, tok: string, key: string, reason: Reason)
    requires DecodesPlainly(env) && !IsDecodeReason(reason)
    ensures VerifyUser(env, tok, key) == Err(reason) ==>
              || (reason == WrongType && Mistyped(env, tok, Kind.User))
              || (reason == WrongIssuer && Misissued(env, tok, key))
              || (reason == WrongSubjectRole && Roleless(env, tok, env.isUserKey))
    ensures VerifyUser(env, tok, key).Ok? ==>
              var user := VerifyUser(env, tok, key).value;
              && env.decode(tok).Ok? && user.base == ClaimsOf(env.decode(tok).value)
              && user.epoch == env.decode(tok).value.epoch && user.base.subject == env.decode(tok).value.subject
              && user.bearer == env.decode(tok).value.bearer
  {
    LevelRefusal(env, tok, key, reason);
    hide DecodesPlainly;
  }

  lemma UserRefusal(cfg: Config, req: Request, account: AccountClaims, policy: Option<OperatorClaims>, now: int,
                    reason: Reason)
    requires DecodesPlainly(cfg.env) && !IsDecodeReason(reason)
    requires CheckUser(cfg, req, account, policy, now) == Err(reason)
    ensures CredentialBlamed(cfg, req, account, policy, now, reason)
  {
    UserDecoded(cfg.env, req.userToken, account.base.subject, reason);
    hide DecodesPlainly, VerifyUser, ClaimsOf, SignedPayload;
  }

  lemma PossessionRefusal(cfg: Config, req: Request, account: AccountClaims, policy: Option<OperatorClaims>,
                          user: Option<UserClaims>, now: int, reason: Reason)
    requires DecodesPlainly(cfg.env) && !IsDecodeReason(reason)
    requires CheckUser(cfg, req, account, policy, now) == Ok(user)
    requires CheckPossession(cfg, req, Identity(account, user, policy), now) == Err(reason)
    ensures CredentialBlamed(cfg, req, account, policy, now, reason)
  {
    UserDecoded(cfg.env, req.userToken, account.base.subject, reason);
    hide DecodesPlainly, VerifyUser, ClaimsOf, SignedPayload, CheckWindow;
  }

  lemma AdmitRefusal(cfg: Config, req: Request, account: AccountClaims, policy: Option<OperatorClaims>, now: int,
                     reason: Reason)
    requires DecodesPlainly(cfg.env) && !IsDecodeReason(reason)
    requires AdmitUnder(cfg, req, account, policy, now) == Err(reason)
    ensures CredentialBlamed(cfg, req, account, policy, now, reason)
  {
    hide DecodesPlainly, VerifyUser, ClaimsOf, SignedPayload, CheckUser, CheckPossession;
    var user := CheckUser(cfg, req, account, policy, now);
    if user.Err? && user.reason == reason { UserRefusal(cfg, req, account, policy, now, reason); }
    if user.Ok? && CheckPossession(cfg, req, Identity(account, user.value, policy), now) == Err(reason) {
      PossessionRefusal(cfg, req, account, policy, user.value, now, reason);
    }
  }

  /** Why a request does not authenticate. */
  ghost predicate RequestBlamed(cfg: Config, req: Request, now: int, reason: Reason) {
    || (reason == OperatorMisconfigured && cfg.anchor.Misconfigured?)
    || (reason == Missing && req.accountToken == "" && req.userToken == "")
    || (reason == NoResolver && req.accountToken == "" && req.userToken != "" && cfg.resolver.None?)
    || (req.accountToken == "" && cfg.resolver.Some? && cfg.env.decode(req.userToken).Ok?
        && cfg.resolver.value(cfg.env.decode(req.userToken).value.issuer) == Err(reason))
    || (exists t :: Presents(cfg, req, t) && ChainBlamed(cfg, req, t, now, reason))
  }

  ghost predicate ChainBlamed(cfg: Config, req: Request, accountToken: string, now: int, reason: Reason) {
    || AnchorBlamed(cfg, accountToken, reason)
    || (exists account, policy :: Anchored(cfg, accountToken) == Ok((account, policy))
                                  && CredentialBlamed(cfg, req, account, policy, now, reason))
  }

  lemma AnchorRefusal(cfg: Config, accountToken: string, reason: Reason)
    requires DecodesPlainly(cfg.env) && !IsDecodeReason(reason) && !cfg.anchor.Misconfigured?
    requires Anchored(cfg, accountToken) == Err(reason)
    ensures AnchorBlamed(cfg, accountToken, reason)
  {
  }

  lemma PresentRefusal(cfg: Config, req: Request, now: int, reason: Reason)
    requires DecodesPlainly(cfg.env) && !IsDecodeReason(reason)
    requires AccountToken(cfg, req) == Err(reason)
    ensures RequestBlamed(cfg, req, now, reason)
  {
    hide ChainBlamed, Presents;
  }

  /** A request fails to authenticate only for a reason that holds of it. */
  lemma UnauthenticatedMeans(cfg: Config, req: Request, now: int, reason: Reason)
    requires DecodesPlainly(cfg.env) && !IsDecodeReason(reason)
    requires Authenticated(cfg, req, now) == Err(reason)
    ensures RequestBlamed(cfg, req, now, reason)
  {
    hide DecodesPlainly, AdmitUnder, Anchored, AccountToken, Presents, AnchorBlamed, CredentialBlamed;
    if !cfg.anchor.Misconfigured? {
      var t := AccountToken(cfg, req);
      if t.Err? {
        PresentRefusal(cfg, req, now, reason);
      } else {
        TokenPresented(cfg, req, t.value);
        var anchored := Anchored(cfg, t.value);
        if anchored.Err? {
          AnchorRefusal(cfg, t.value, reason);
        } else {
          AdmitRefusal(cfg, req, anchored.value.0, anchored.value.1, now, reason);
        }
        assert ChainBlamed(cfg, req, t.value, now, reason);
      }
    }
  }

  /** The first validator that does not pass, and what it says. */
  ghost predicate FirstToRefuse(validators: seq<Validator>, req: Request, id: Identity, i: nat, reason: Reason) {
    && i < |validators| && (forall h :: 0 <= h < i ==> validators[h](req, id).Pass?)
    && (validators[i](req, id) == Refuse(reason) || (validators[i](req, id).Crash? && reason == ValidatorRejected))
  }

  lemma {:induction false} ValidatorsRefuse(validators: seq<Validator>, req: Request, id: Identity) returns (i: nat)
    requires RunValidators(validators, req, id).Err?
    ensures FirstToRefuse(validators, req, id, i, RunValidators(validators, req, id).reason)
  {
    i := 0;
    if validators[0](req, id).Pass? {
      i := ValidatorsRefuse(validators[1..], req, id);
      assert validators == [validators[0]] + validators[1..];
      i := i + 1;
    }
  }

  lemma {:induction false} ExtensionsRefuse(types: seq<ExtensionType>, id: Identity)
    ensures CheckExtensions(types, id).Err? ==> CheckExtensions(types, id) == Err(ExtensionInvalid)
  {
    if types != [] { ExtensionsRefuse(types[1..], id); }
  }

  /** A registered extension type refuses a credential, or, all of them accepting, the
      first validator that does not pass gave the reason. */
  ghost predicate HooksBlamed(cfg: Config, req: Request, id: Identity, reason: Reason) {
    var accepted := forall i :: 0 <= i < |cfg.extensions| ==> AcceptedBy(cfg.extensions[i], id);
    if accepted then exists i: nat :: FirstToRefuse(cfg.validators, req, id, i, reason) else reason == ExtensionInvalid
  }

  lemma HooksRefuse(cfg: Config, req: Request, id: Identity, reason: Reason)
    requires RunHooks(cfg, req, id) == Err(reason)
    ensures HooksBlamed(cfg, req, id, reason)
  {
    hide AcceptedBy, FirstToRefuse;
    ExtensionsPass(cfg.extensions, id);
    ExtensionsRefuse(cfg.extensions, id);
    if CheckExtensions(cfg.extensions, id).Ok? {
      var i := ValidatorsRefuse(cfg.validators, req, id);
    }
  }

  /** Whatever a verifier refuses, with a replay cache or without, it refuses for a reason
      that holds: of the request, of its nonce, or in the words of a hook. */
  lemma RefusalMeans(cfg: Config, cache: Option<R.Seen>, req: Request, now: int, cacheNow: int, reason: Reason)
    requires DecodesPlainly(cfg.env) && !IsDecodeReason(reason)
    requires Respond(cfg, cache, req, now, cacheNow).result == Err(reason)
    ensures match Authenticated(cfg, req, now)
            case Err(_) => RequestBlamed(cfg, req, now, reason)
            case Ok(id) =>
              || (cache.Some? && Signed(req) && reason == NonceRequired && req.nonce == "")
              || (cache.Some? && Signed(req) && reason == Reason.Replay
                  && req.nonce in cache.value && cache.value[req.nonce] > cacheNow)
              || HooksBlamed(cfg, req, id, reason)
  {
    hide DecodesPlainly, RequestBlamed, HooksBlamed, Authenticated, RunHooks, AccountToken;
    match Authenticated(cfg, req, now)
    case Err(r) => UnauthenticatedMeans(cfg, req, now, reason);
    case Ok(id) => if RunHooks(cfg, req, id) == Err(reason) { HooksRefuse(cfg, req, id, reason); }
  }

  /** A verifier configured with an operator token enforces it: one that does not verify
      under the pinned key refuses every request, a good one is the policy of every identity
      accepted. */
  lemma PolicyEnforced(cfg: Config, key: string, operatorToken: string, cache: Option<R.Seen>, req: Request, now: int,
                       cacheNow: int)
    ensures var pinned := cfg.(anchor := PinOperator(cfg.env, key, Some(operatorToken)));
            var policy := VerifyOperator(cfg.env, operatorToken, key);
            match Respond(pinned, cache, req, now, cacheNow).result
            case Err(reason) => policy.Err? ==> reason == OperatorMisconfigured
            case Ok(id) => policy.Ok? && id.operator == Some(policy.value)
  {
    hide RunHooks, AccountToken, VerifyAccount, AdmitUnder;
    var pinned := cfg.(anchor := PinOperator(cfg.env, key, Some(operatorToken)));
    if Authenticated(pinned, req, now).Ok? {
      var (account, policy) := Anchored(pinned, AccountToken(pinned, req).value).value;
      AdmittedCarries(pinned, req, account, policy, now);
      HooksKeep(pinned, req, Authenticated(pinned, req, now).value);
    }
  }

  /** A proof is never a credential: a message token in either place of a request, like any
      token of another level, never authenticates. */
  lemma WrongLevelRefused(cfg: Config, req: Request, now: int)
    ensures req.accountToken != "" && Mistyped(cfg.env, req.accountToken, Kind.Account) ==>
              Authenticated(cfg, req, now).Err?
    ensures req.userToken != "" && Mistyped(cfg.env, req.userToken, Kind.User) ==> Authenticated(cfg, req, now).Err?
  {
    if Authenticated(cfg, req, now).Ok? {
      hide Authenticated, AllCover, Possesses, PolicyEpoch;
      var id := Authenticated(cfg, req, now).value;
      AuthenticatedIff(cfg, req, id, now);
    }
  }

  // ---- accepting instants ----------------------------------------------------------------

  lemma PossessionWindow(cfg: Config, req: Request, id: Identity, now: int, later: int)
    requires CheckPossession(cfg, req, id, now).Ok?
    ensures Signed(req) ==> cfg.env.parseInstant(req.timestamp).Some?
    ensures CheckPossession(cfg, req, id, later).Ok? <==>
              (Signed(req) ==>
                 var ts := cfg.env.parseInstant(req.timestamp).value; ts - cfg.skew <= later <= ts + cfg.skew)
    ensures Signed(req) ==>
              var ts := cfg.env.parseInstant(req.timestamp).value; ts - cfg.skew <= now <= ts + cfg.skew
    ensures CheckPossession(cfg, req, id, later).Err? ==>
              Signed(req) && CheckPossession(cfg, req, id, later).reason == Reason.Skew
  {
  }

  /** Why a request accepted at `now` is refused at another instant. */
  predicate OutOfWindow(req: Request, now: int, later: int, reason: Reason) {
    || (reason == Reason.Skew && Signed(req))
    || reason == if later > now then Expired else NotYetValid
  }

  lemma WindowLater(c: Claims, skew: int, now: int, later: int)
    requires CheckWindow(c, now, skew).Ok?
    ensures c.Covers(now, skew)
    ensures CheckWindow(c, later, skew)
         == if c.Covers(later, skew) then Ok(()) else Err(if later > now then Expired else NotYetValid)
  {
  }

  lemma PolicyLater(policy: Option<OperatorClaims>, account: AccountClaims, skew: int, now: int, later: int)
    requires CheckPolicy(policy, account, now, skew).Ok?
    ensures policy.Some? ==> policy.value.base.Covers(now, skew)
    ensures CheckPolicy(policy, account, later, skew)
         == if policy.Some? ==> policy.value.base.Covers(later, skew) then Ok(())
            else Err(if later > now then Expired else NotYetValid)
  {
    hide CheckWindow;
    if policy.Some? { WindowLater(policy.value.base, skew, now, later); }
  }

  lemma UserLater(cfg: Config, req: Request, account: AccountClaims, policy: Option<OperatorClaims>, now: int,
                  later: int)
    requires CheckUser(cfg, req, account, policy, now).Ok?
    ensures var user := CheckUser(cfg, req, account, policy, now).value;
            && (user.Some? ==> user.value.base.Covers(now, cfg.skew))
            && CheckUser(cfg, req, account, policy, later)
               == if user.Some? ==> user.value.base.Covers(later, cfg.skew) then Ok(user)
                  else Err(if later > now then Expired else NotYetValid)
  {
    hide CheckWindow, VerifyUser;
    var user := CheckUser(cfg, req, account, policy, now).value;
    if user.Some? { WindowLater(user.value.base, cfg.skew, now, later); }
  }

  lemma AdmitWindow(cfg: Config, req: Request, account: AccountClaims, policy: Option<OperatorClaims>, now: int,
                    later: int)
    requires AdmitUnder(cfg, req, account, policy, now).Ok?
    ensures var id := AdmitUnder(cfg, req, account, policy, now).value;
            && AllCover(cfg, req, id, now)
            && (AdmitUnder(cfg, req, account, policy, later).Ok? <==> AllCover(cfg, req, id, later))
            && (AdmitUnder(cfg, req, account, policy, later).Ok? ==>
                  AdmitUnder(cfg, req, account, policy, later).value == id)
            && (AdmitUnder(cfg, req, account, policy, later).Err? ==>
                  OutOfWindow(req, now, later, AdmitUnder(cfg, req, account, policy, later).reason))
  {
    hide CheckPossession, CheckPolicy, CheckUser, CheckWindow;
    var id := AdmitUnder(cfg, req, account, policy, now).value;
    PolicyLater(policy, account, cfg.skew, now, later);
    WindowLater(account.base, cfg.skew, now, later);
    UserLater(cfg, req, account, policy, now, later);
    PossessionWindow(cfg, req, id, now, later);
  }

  /** Without a replay cache, the instants at which a request is accepted are none,
      or exactly those in all its windows, always with the same identity. */
  lemma AcceptingInstants(cfg: Config, req: Request, now: int, later: int)
    requires JudgeOpen(cfg, req, now).Ok?
    ensures var id := JudgeOpen(cfg, req, now).value;
            && AllCover(cfg, req, id, now)
            && (JudgeOpen(cfg, req, later).Ok? <==> AllCover(cfg, req, id, later))
            && (JudgeOpen(cfg, req, later).Ok? ==> JudgeOpen(cfg, req, later) == Ok(id))
            && (JudgeOpen(cfg, req, later).Err? ==> OutOfWindow(req, now, later, JudgeOpen(cfg, req, later).reason))
  {
    hide OutOfWindow, AllCover, AdmitUnder, Anchored, AccountToken;
    var (account, policy) := Anchored(cfg, AccountToken(cfg, req).value).value;
    AdmitWindow(cfg, req, account, policy, now, later);
    HooksKeep(cfg, req, AdmitUnder(cfg, req, account, policy, now).value);
  }

  lemma PossessionWider(cfg: Config, skew: int, req: Request, id: Identity, now: int)
    requires CheckPossession(cfg, req, id, now).Ok? && skew >= cfg.skew
    ensures CheckPossession(cfg.(skew := skew), req, id, now).Ok?
  {
  }

  lemma AdmitWider(cfg: Config, skew: int, req: Request, account: AccountClaims, policy: Option<OperatorClaims>,
                   now: int)
    requires AdmitUnder(cfg, req, account, policy, now).Ok? && skew >= cfg.skew
    ensures AdmitUnder(cfg.(skew := skew), req, account, policy, now) == AdmitUnder(cfg, req, account, policy, now)
  {
    hide CheckPossession, VerifyUser;
    PossessionWider(cfg, skew, req, AdmitUnder(cfg, req, account, policy, now).value, now);
  }

  /** A larger skew accepts whatever a smaller one does. */
  lemma SkewMonotone(cfg: Config, skew: int, req: Request, now: int)
    requires JudgeOpen(cfg, req, now).Ok? && skew >= cfg.skew
    ensures JudgeOpen(cfg.(skew := skew), req, now) == JudgeOpen(cfg, req, now)
  {
    hide AdmitUnder;
    var (account, policy) := Anchored(cfg, AccountToken(cfg, req).value).value;
    AdmitWider(cfg, skew, req, account, policy, now);
  }

  lemma HooksKeep(cfg: Config, req: Request, id: Identity)
    ensures RunHooks(cfg, req, id).Ok? ==> RunHooks(cfg, req, id).value == id
  {
  }

  // ---- the keyring selects what trial would find -------------------------------------------

  function Under(cfg: Config, c: OperatorClaims): Config {
    cfg.(anchor := Pinned(c.base.subject, Some(c)))
  }

  /** The operator the keyring selects for an account token, if it selects one. */
  predicate Selects(cfg: Config, ring: Ring, accountToken: string, c: OperatorClaims) {
    var r := Anchored(cfg.(anchor := Trusting(ring)), accountToken);
    r.Ok? && r.value.1 == Some(c) && r.value.0.base.issuer == c.base.subject
  }

  lemma SelectedAnchor(cfg: Config, ring: Ring, accountToken: string, c: OperatorClaims)
    requires Selects(cfg, ring, accountToken, c)
    ensures Anchored(Under(cfg, c), accountToken) == Anchored(cfg.(anchor := Trusting(ring)), accountToken)
  {
  }

  lemma OtherAnchor(cfg: Config, ring: Ring, accountToken: string, c: OperatorClaims, req: Request, now: int)
    requires Key(c) in ring && ring[Key(c)] == c && !Selects(cfg, ring, accountToken, c)
    ensures var r := Anchored(Under(cfg, c), accountToken);
            r.Ok? ==> r.value.1 == Some(c) && r.value.0.epoch != c.epoch
  {
  }

  lemma WrongEpochRefused(cfg: Config, req: Request, account: AccountClaims, c: OperatorClaims, now: int)
    requires account.epoch != c.epoch
    ensures AdmitUnder(cfg, req, account, Some(c), now).Err?
  {
  }

  lemma AdmitIgnoresAnchor(cfg: Config, anchor: Anchor, req: Request, account: AccountClaims,
                           policy: Option<OperatorClaims>, now: int)
    ensures AdmitUnder(cfg.(anchor := anchor), req, account, policy, now) == AdmitUnder(cfg, req, account, policy, now)
  {
  }

  lemma AuthenticatedUnder(cfg: Config, ring: Ring, c: OperatorClaims, req: Request, now: int)
    requires Key(c) in ring && ring[Key(c)] == c
    ensures var accountToken := AccountToken(cfg, req);
            if accountToken.Ok? && Selects(cfg, ring, accountToken.value, c) then
              Authenticated(Under(cfg, c), req, now) == Authenticated(cfg.(anchor := Trusting(ring)), req, now)
            else Authenticated(Under(cfg, c), req, now).Err?
  {
    var cfg', cfg'' := Under(cfg, c), cfg.(anchor := Trusting(ring));
    assert AccountToken(cfg', req) == AccountToken(cfg, req) == AccountToken(cfg'', req);
    var accountToken := AccountToken(cfg, req);
    if accountToken.Ok? {
      var r := Anchored(cfg', accountToken.value);
      if r.Ok? {
        AdmitIgnoresAnchor(cfg, cfg'.anchor, req, r.value.0, r.value.1, now);
        AdmitIgnoresAnchor(cfg, cfg''.anchor, req, r.value.0, r.value.1, now);
      }
      if Selects(cfg, ring, accountToken.value, c) {
        SelectedAnchor(cfg, ring, accountToken.value, c);
      } else {
        OtherAnchor(cfg, ring, accountToken.value, c, req, now);
        if r.Ok? { WrongEpochRefused(cfg', req, r.value.0, c, now); }
      }
    }
    hide Anchored, AdmitUnder, AccountToken, Selects;
  }

  lemma SomeSelected(cfg: Config, ring: Ring, accountToken: string)
    requires forall k :: k in ring ==> Key(ring[k]) == k
    requires Anchored(cfg.(anchor := Trusting(ring)), accountToken).Ok?
    ensures exists k :: k in ring && Selects(cfg, ring, accountToken, ring[k])
  {
  }

  lemma HooksIgnoreAnchor(cfg: Config, anchor: Anchor, req: Request, id: Identity)
    ensures RunHooks(cfg.(anchor := anchor), req, id) == RunHooks(cfg, req, id)
  {
  }

  /** A verifier over a keyring and one pinned to an operator of the ring, with its
      policy: either they treat the request alike, replay cache included, or the
      pinned one refuses it without touching the cache. */
  lemma TrialAgreesOrRefuses(cfg: Config, ring: Ring, c: OperatorClaims, cache: Option<R.Seen>, req: Request,
                             now: int, cacheNow: int)
    requires Key(c) in ring && ring[Key(c)] == c
    ensures var one := Respond(Under(cfg, c), cache, req, now, cacheNow);
            || one == Respond(cfg.(anchor := Trusting(ring)), cache, req, now, cacheNow)
            || (one.result.Err? && one.cache == cache)
  {
    hide Authenticated, RunHooks;
    AuthenticatedUnder(cfg, ring, c, req, now);
    var cfg', cfg'' := Under(cfg, c), cfg.(anchor := Trusting(ring));
    if Authenticated(cfg', req, now).Ok? {
      var id := Authenticated(cfg', req, now).value;
      HooksIgnoreAnchor(cfg, cfg'.anchor, req, id);
      HooksIgnoreAnchor(cfg, cfg''.anchor, req, id);
    }
  }

  /** The keyring verifier accepts exactly when one of its entries does on its own, and
      then with the same identity and the same effect on the cache. */
  lemma EntriesRefineTrial(cfg: Config, ring: Ring, cache: Option<R.Seen>, req: Request, now: int, cacheNow: int)
    requires forall k :: k in ring ==> Key(ring[k]) == k
    ensures var all := Respond(cfg.(anchor := Trusting(ring)), cache, req, now, cacheNow);
            && (all.result.Ok? <==>
                  exists k :: k in ring && Respond(Under(cfg, ring[k]), cache, req, now, cacheNow).result.Ok?)
            && (forall k :: k in ring && Respond(Under(cfg, ring[k]), cache, req, now, cacheNow).result.Ok? ==>
                  Respond(Under(cfg, ring[k]), cache, req, now, cacheNow) == all
                  && all.result.value.operator == Some(ring[k]))
  {
    var cfg'' := cfg.(anchor := Trusting(ring));
    var all := Respond(cfg'', cache, req, now, cacheNow);
    forall k | k in ring && Respond(Under(cfg, ring[k]), cache, req, now, cacheNow).result.Ok?
      ensures Respond(Under(cfg, ring[k]), cache, req, now, cacheNow) == all
      ensures all.result.value.operator == Some(ring[k])
    {
      TrialAgreesOrRefuses(cfg, ring, ring[k], cache, req, now, cacheNow);
      PinnedOperator(Under(cfg, ring[k]), ring[k], cache, req, now, cacheNow);
    }
    if all.result.Ok? {
      var k := SelectedKey(cfg, ring, req, now);
      AuthenticatedUnder(cfg, ring, ring[k], req, now);
      hide Authenticated, RunHooks;
      var id := Authenticated(cfg'', req, now).value;
      HooksIgnoreAnchor(cfg, cfg''.anchor, req, id);
      HooksIgnoreAnchor(cfg, Under(cfg, ring[k]).anchor, req, id);
      assert Respond(Under(cfg, ring[k]), cache, req, now, cacheNow) == all;
    }
  }

  /** A verifier pinned to one operator token, its policy enforced. */
  function PinnedTo(cfg: Config, operatorToken: string): Config
    requires Claimed(cfg.env, operatorToken).Ok?
  {
    cfg.(anchor := PinOperator(cfg.env, IssuerOf(cfg.env, operatorToken).value, Some(operatorToken)))
  }

  lemma PinnedToEntry(cfg: Config, operatorToken: string)
    requires Claimed(cfg.env, operatorToken).Ok?
    ensures PinnedTo(cfg, operatorToken) == Under(cfg, Claimed(cfg.env, operatorToken).value)
  {
  }

  /** The keyring verifier accepts exactly when one of its operator tokens, handed to a
      verifier of its own, makes that one accept; then with the same identity and the
      same effect on the cache, and the operator is that token's. */
  lemma KeyringRefinesTrial(cfg: Config, tokens: seq<string>, ring: Ring, cache: Option<R.Seen>, req: Request,
                            now: int, cacheNow: int)
    requires AllValid(cfg.env, tokens) && IsRingOf(Elements(ClaimsIn(cfg.env, tokens)), ring)
    ensures var all := Respond(cfg.(anchor := Trusting(ring)), cache, req, now, cacheNow);
            && (all.result.Ok? <==>
                  exists t :: t in tokens && Respond(PinnedTo(cfg, t), cache, req, now, cacheNow).result.Ok?)
            && (forall t :: t in tokens && Respond(PinnedTo(cfg, t), cache, req, now, cacheNow).result.Ok? ==>
                  Respond(PinnedTo(cfg, t), cache, req, now, cacheNow) == all
                  && all.result.value.operator == Some(Claimed(cfg.env, t).value))
  {
    hide Respond, Claimed, Key, PinnedTo, Under;
    EntriesRefineTrial(cfg, ring, cache, req, now, cacheNow);
    forall t | t in tokens && Respond(PinnedTo(cfg, t), cache, req, now, cacheNow).result.Ok?
      ensures var all := Respond(cfg.(anchor := Trusting(ring)), cache, req, now, cacheNow);
              Respond(PinnedTo(cfg, t), cache, req, now, cacheNow) == all && all.result.Ok?
              && all.result.value.operator == Some(Claimed(cfg.env, t).value)
    {
      PinnedToEntry(cfg, t);
      var k := TokenEntry(cfg.env, tokens, ring, t);
    }
    if Respond(cfg.(anchor := Trusting(ring)), cache, req, now, cacheNow).result.Ok? {
      var k :| k in ring && Respond(Under(cfg, ring[k]), cache, req, now, cacheNow).result.Ok?;
      var t := EntryToken(cfg.env, tokens, ring, k);
      PinnedToEntry(cfg, t);
    }
  }

  lemma TokenEntry(env: Env, tokens: seq<string>, ring: Ring, t: string) returns (k: (string, nat))
    requires AllValid(env, tokens) && IsRingOf(Elements(ClaimsIn(env, tokens)), ring) && t in tokens
    ensures k in ring && ring[k] == Claimed(env, t).value
  {
    hide Claimed;
    var i :| 0 <= i < |tokens| && tokens[i] == t;
    assert ClaimsIn(env, tokens)[i] in Elements(ClaimsIn(env, tokens));
    k := Key(Claimed(env, t).value);
  }

  lemma EntryToken(env: Env, tokens: seq<string>, ring: Ring, k: (string, nat)) returns (t: string)
    requires AllValid(env, tokens) && IsRingOf(Elements(ClaimsIn(env, tokens)), ring) && k in ring
    ensures t in tokens && ring[k] == Claimed(env, t).value
  {
    hide Claimed;
    var i :| 0 <= i < |tokens| && ClaimsIn(env, tokens)[i] == ring[k];
    t := tokens[i];
  }

  /** Adding operators to a keyring never loses an acceptance. */
  lemma RingMonotone(cfg: Config, ring: Ring, more: Ring, cache: Option<R.Seen>, req: Request, now: int, cacheNow: int)
    requires forall k :: k in ring ==> Key(ring[k]) == k && k in more && more[k] == ring[k]
    requires Respond(cfg.(anchor := Trusting(ring)), cache, req, now, cacheNow).result.Ok?
    ensures Respond(cfg.(anchor := Trusting(more)), cache, req, now, cacheNow)
         == Respond(cfg.(anchor := Trusting(ring)), cache, req, now, cacheNow)
  {
    EntriesRefineTrial(cfg, ring, cache, req, now, cacheNow);
    hide Respond;
    var k :| k in ring && Respond(Under(cfg, ring[k]), cache, req, now, cacheNow).result.Ok?;
    TrialAgreesOrRefuses(cfg, more, more[k], cache, req, now, cacheNow);
  }

  lemma SelectedKey(cfg: Config, ring: Ring, req: Request, now: int) returns (k: (string, nat))
    requires forall k :: k in ring ==> Key(ring[k]) == k
    requires Authenticated(cfg.(anchor := Trusting(ring)), req, now).Ok?
    ensures k in ring && AccountToken(cfg, req).Ok?
    ensures Selects(cfg, ring, AccountToken(cfg, req).value, ring[k])
  {
    hide AdmitUnder, Anchored, Selects;
    assert AccountToken(cfg.(anchor := Trusting(ring)), req) == AccountToken(cfg, req);
    var accountToken := AccountToken(cfg, req).value;
    SomeSelected(cfg, ring, accountToken);
    k :| k in ring && Selects(cfg, ring, accountToken, ring[k]);
  }

  lemma PinnedOperator(cfg: Config, c: OperatorClaims, cache: Option<R.Seen>, req: Request, now: int, cacheNow: int)
    requires cfg.anchor.Pinned? && cfg.anchor.policy == Some(c)
    requires Respond(cfg, cache, req, now, cacheNow).result.Ok?
    ensures Respond(cfg, cache, req, now, cacheNow).result.value.operator == Some(c)
  {
  }
}
