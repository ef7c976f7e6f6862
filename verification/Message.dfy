/** Message tokens: the chain walk operator, account, user, message
    (src/valiss/message.py). */
module Message {
  import opened Bits
  import opened Errors
  import opened Token
  import opened Keyring

  /** (account token, user token) */
  type Chain = (string, string)

  datatype MessageClaims = MessageClaims(
    base: Claims, audience: string, checksum: string, epoch: nat, ext: Ext,
    account: AccountClaims, user: UserClaims, operator: Option<OperatorClaims>)

  /** Exactly one of the two must be given. */
  datatype Anchor = Anchor(operatorKey: Option<string>, ring: Option<Ring>)

  datatype Options = Options(
    now: int, skew: int, audience: Option<string>, requireChecksum: bool,
    payload: Option<Bytes>, chain: Option<Chain>, operatorToken: Option<string>)

  function OrEmpty(s: Option<string>): string {
    if s.Some? then s.value else ""
  }

  /** The chain a message token is walked with. */
  function SelectChain(embedded: Option<ChainObject>, supplied: Option<Chain>): Result<Chain> {
    match (embedded, supplied)
    case (None, None) => Err(NoChain)
    case (None, Some(c)) => Ok(c)
    case (Some(e), None) => Ok((OrEmpty(e.account), OrEmpty(e.user)))
    case (Some(e), Some(c)) =>
      if c.0 != OrEmpty(e.account) || c.1 != OrEmpty(e.user) then Err(ChainMismatch) else Ok(c)
  }

  /** The account claims and the operator policy to enforce. */
  function AnchorChain(env: Env, anchor: Anchor, accountToken: string, operatorToken: Option<string>)
    : Result<(AccountClaims, Option<OperatorClaims>)>
    requires anchor.operatorKey.Some? != anchor.ring.Some?
  {
    if anchor.ring.Some? then
      if operatorToken.Some? then Err(Unclassified)
      else
        var issuer :- IssuerOf(env, accountToken);
        var account :- VerifyAccount(env, accountToken, issuer);
        if (issuer, account.epoch) !in anchor.ring.value then Err(UnknownOperator)
        else Ok((account, Some(anchor.ring.value[(issuer, account.epoch)])))
    else
      var account :- VerifyAccount(env, accountToken, anchor.operatorKey.value);
      if operatorToken.None? then Ok((account, None))
      else
        var operator :- VerifyOperator(env, operatorToken.value, anchor.operatorKey.value);
        Ok((account, Some(operator)))
  }

  function CheckOperator(operator: Option<OperatorClaims>, epoch: nat, now: int, skew: int): Result<()> {
    if operator.None? then Ok(())
    else if operator.value.base.Expired(now, skew) then Err(Expired)
    else if operator.value.base.NotYetValid(now, skew) then Err(NotYetValid)
    else if epoch != operator.value.epoch then Err(EpochMismatch)
    else Ok(())
  }

  function CheckBindings(env: Env, audience: string, checksum: string, o: Options): Result<()> {
    if o.audience.Some? && o.audience.value != "" && audience != o.audience.value then Err(WrongAudience)
    else if o.payload.Some? then
      if checksum == "" then Err(ChecksumMissing)
      else if checksum != env.hash(o.payload.value) then Err(ChecksumMismatch)
      else Ok(())
    else if o.requireChecksum && checksum == "" then Err(ChecksumMissing)
    else Ok(())
  }

  /** The token itself: a message, self-signed by a user key. */
  function CheckToken(env: Env, d: Decoded): Result<()> {
    if d.kind != Kind.Message then Err(WrongType)
    else if d.issuer != d.subject then Err(WrongIssuer)
    else if !env.isUserKey(d.subject) then Err(WrongSubjectRole)
    else Ok(())
  }

  /** Everything below the anchor: user, policy, epochs, windows, bindings. */
  function CheckChain(env: Env, d: Decoded, userToken: string, account: AccountClaims,
                      operator: Option<OperatorClaims>, o: Options): Result<MessageClaims>
  {
    var user :- VerifyUser(env, userToken, account.base.subject);
    if user.base.subject != d.issuer then Err(ChainUserMismatch)
    else
      var _ :- CheckOperator(operator, d.epoch, o.now, o.skew);
      if d.epoch != account.epoch then Err(EpochMismatch)
      else if d.epoch != user.epoch then Err(EpochMismatch)
      else
        var claims := MessageClaims(
          ClaimsOf(d), d.audience, d.checksum, d.epoch, d.ext, account, user, operator);
        var _ :- CheckWindow(account.base, o.now, o.skew);
        var _ :- CheckWindow(user.base, o.now, o.skew);
        var _ :- CheckWindow(claims.base, o.now, o.skew);
        var _ :- CheckBindings(env, claims.audience, claims.checksum, o);
        Ok(claims)
  }

  function VerifyMessage(env: Env, tok: string, anchor: Anchor, o: Options): Result<MessageClaims> {
    if anchor.operatorKey.Some? == anchor.ring.Some? then Err(Unclassified)
    else
      var d :- env.decode(tok);
      var _ :- CheckToken(env, d);
      var chain :- SelectChain(d.chain, o.chain);
      var (account, operator) :- AnchorChain(env, anchor, chain.0, o.operatorToken);
      CheckChain(env, d, chain.1, account, operator, o)
  }

  // ---- what acceptance means ---------------------------------------------------

  function EmbeddedChain(e: ChainObject): Chain {
    (OrEmpty(e.account), OrEmpty(e.user))
  }

  /** The one chain that is embedded, supplied, or both. */
  ghost predicate IsChainFor(d: Decoded, supplied: Option<Chain>, chain: Chain) {
    && (d.chain.Some? || supplied.Some?)
    && (supplied.Some? ==> supplied.value == chain)
    && (d.chain.Some? ==> EmbeddedChain(d.chain.value) == chain)
  }

  /** Each credential of the chain is issued by the one above, the top one by the
      trust anchor. */
  ghost predicate Vouched(env: Env, anchor: Anchor, operatorToken: Option<string>, chain: Chain, c: MessageClaims) {
    var issuer := c.account.base.issuer;
    && VerifyAccount(env, chain.0, issuer) == Ok(c.account)
    && VerifyUser(env, chain.1, c.account.base.subject) == Ok(c.user)
    && (anchor.operatorKey.Some? ==>
          issuer == anchor.operatorKey.value
          && c.operator.Some? == operatorToken.Some?
          && (c.operator.Some? ==> VerifyOperator(env, operatorToken.value, issuer) == Ok(c.operator.value)))
    && (anchor.ring.Some? ==>
          operatorToken.None? && (issuer, c.account.epoch) in anchor.ring.value
          && c.operator == Some(anchor.ring.value[(issuer, c.account.epoch)]))
  }

  /** The token is a message signed by the chain's user, and says what c says. */
  ghost predicate Says(env: Env, d: Decoded, c: MessageClaims) {
    && d.kind == Kind.Message && d.issuer == d.subject == c.user.base.subject && env.isUserKey(d.subject)
    && Registers(c.base, d) && c.audience == d.audience && c.checksum == d.checksum
    && c.epoch == d.epoch && c.ext == d.ext
  }

  ghost predicate OneEpoch(c: MessageClaims) {
    c.epoch == c.account.epoch == c.user.epoch && (c.operator.Some? ==> c.epoch == c.operator.value.epoch)
  }

  /** Every window of the verified chain, at one instant. */
  predicate AllCover(c: MessageClaims, now: int, skew: int) {
    && (c.operator.Some? ==> c.operator.value.base.Covers(now, skew))
    && c.account.base.Covers(now, skew)
    && c.user.base.Covers(now, skew)
    && c.base.Covers(now, skew)
  }

  /** The token is bound to the destination and the bytes asked for. */
  ghost predicate BoundTo(env: Env, c: MessageClaims, o: Options) {
    && (o.audience.Some? && o.audience.value != "" ==> c.audience == o.audience.value)
    && (o.payload.Some? ==> c.checksum == env.hash(o.payload.value))
    && (o.payload.Some? || o.requireChecksum ==> c.checksum != "")
  }

  ghost predicate Authentic(env: Env, tok: string, anchor: Anchor, o: Options, c: MessageClaims) {
    && anchor.operatorKey.Some? != anchor.ring.Some?
    && env.decode(tok).Ok?
    && (exists chain :: IsChainFor(env.decode(tok).value, o.chain, chain)
                        && Vouched(env, anchor, o.operatorToken, chain, c))
    && Says(env, env.decode(tok).value, c)
    && OneEpoch(c) && AllCover(c, o.now, o.skew) && BoundTo(env, c, o)
  }

  lemma ChainSelected(d: Decoded, supplied: Option<Chain>, chain: Chain)
    ensures SelectChain(d.chain, supplied) == Ok(chain) <==> IsChainFor(d, supplied, chain)
  {
  }

  lemma LevelIssuer(env: Env, tok: string, key: string)
    ensures VerifyAccount(env, tok, key).Ok? ==>
              VerifyAccount(env, tok, key).value.base.issuer == key && IssuerOf(env, tok) == Ok(key)
  {
  }

  lemma AnchorVouches(env: Env, anchor: Anchor, operatorToken: Option<string>, chain: Chain, c: MessageClaims)
    requires anchor.operatorKey.Some? != anchor.ring.Some?
    requires VerifyUser(env, chain.1, c.account.base.subject) == Ok(c.user)
    ensures AnchorChain(env, anchor, chain.0, operatorToken) == Ok((c.account, c.operator))
       <==> Vouched(env, anchor, operatorToken, chain, c)
  {
    hide VerifyAccount, VerifyOperator, VerifyUser, IssuerOf;
    LevelIssuer(env, chain.0, c.account.base.issuer);
    if anchor.operatorKey.Some? {
      LevelIssuer(env, chain.0, anchor.operatorKey.value);
    } else if IssuerOf(env, chain.0).Ok? {
      LevelIssuer(env, chain.0, IssuerOf(env, chain.0).value);
    }
  }

  lemma ChecksMean(env: Env, d: Decoded, userToken: string, o: Options, c: MessageClaims)
    ensures CheckToken(env, d).Ok? && CheckChain(env, d, userToken, c.account, c.operator, o) == Ok(c)
       <==> VerifyUser(env, userToken, c.account.base.subject) == Ok(c.user)
            && Says(env, d, c) && OneEpoch(c) && AllCover(c, o.now, o.skew) && BoundTo(env, c, o)
  {
    hide VerifyUser, ClaimsOf, Registers;
    RegistersExactly(c.base, d);
  }

  /** A message is accepted with claims c exactly when it is authentic: one chain, a
      credential at each level issued by the level above, one epoch, every window
      open, every binding asked for met. */
  lemma AcceptedIff(env: Env, tok: string, anchor: Anchor, o: Options, c: MessageClaims)
    ensures VerifyMessage(env, tok, anchor, o) == Ok(c) <==> Authentic(env, tok, anchor, o, c)
  {
    hide SelectChain, IsChainFor, AnchorChain, Vouched, CheckToken, CheckChain, Says, OneEpoch, AllCover, BoundTo;
    if anchor.operatorKey.Some? != anchor.ring.Some? && env.decode(tok).Ok? {
      var d := env.decode(tok).value;
      if VerifyMessage(env, tok, anchor, o) == Ok(c) {
        var chain := SelectChain(d.chain, o.chain).value;
        CheckedKeepsAccount(env, tok, anchor, o);
        ChainSelected(d, o.chain, chain);
        ChecksMean(env, d, chain.1, o, c);
        AnchorVouches(env, anchor, o.operatorToken, chain, c);
      } else if Authentic(env, tok, anchor, o, c) {
        var chain :| IsChainFor(d, o.chain, chain) && Vouched(env, anchor, o.operatorToken, chain, c);
        ChainSelected(d, o.chain, chain);
        VouchedUser(env, anchor, o.operatorToken, chain, c);
        ChecksMean(env, d, chain.1, o, c);
        AnchorVouches(env, anchor, o.operatorToken, chain, c);
      }
    }
  }

  lemma VouchedUser(env: Env, anchor: Anchor, operatorToken: Option<string>, chain: Chain, c: MessageClaims)
    requires Vouched(env, anchor, operatorToken, chain, c)
    ensures VerifyUser(env, chain.1, c.account.base.subject) == Ok(c.user)
  {
  }

  // ---- what a refusal means ------------------------------------------------------

  /** The token itself is at fault, or its chain is missing or not the one supplied. */
  ghost predicate TokenBlamed(env: Env, d: Decoded, supplied: Option<Chain>, reason: Reason) {
    match reason
    case WrongType => d.kind != Kind.Message
    case WrongIssuer => d.issuer != d.subject
    case WrongSubjectRole => !env.isUserKey(d.subject)
    case NoChain => d.chain.None? && supplied.None?
    case ChainMismatch => d.chain.Some? && supplied.Some? && EmbeddedChain(d.chain.value) != supplied.value
    case _ => false
  }

  /** The account token or the operator token is at fault, or the ring does not know them. */
  ghost predicate AnchorBlamed(env: Env, anchor: Anchor, operatorToken: Option<string>, accountToken: string,
                               reason: Reason)
  {
    match reason
    case WrongType => Mistyped(env, accountToken, Kind.Account)
                      || (operatorToken.Some? && Mistyped(env, operatorToken.value, Kind.Operator))
    case WrongIssuer =>
      anchor.operatorKey.Some?
      && (Misissued(env, accountToken, anchor.operatorKey.value)
          || (operatorToken.Some? && env.decode(operatorToken.value).Ok?
              && var d := env.decode(operatorToken.value).value; !(d.issuer == d.subject == anchor.operatorKey.value)))
    case WrongSubjectRole => Roleless(env, accountToken, env.isAccountKey)
                             || (operatorToken.Some? && Roleless(env, operatorToken.value, env.isOperatorKey))
    case UnknownOperator =>
      anchor.ring.Some? && env.decode(accountToken).Ok?
      && (env.decode(accountToken).value.issuer, env.decode(accountToken).value.epoch) !in anchor.ring.value
    case _ => false
  }

  /** The user token is at fault, or the epochs, the windows or the bindings are. */
  ghost predicate ChecksBlamed(env: Env, d: Decoded, userToken: string, account: AccountClaims,
                               operator: Option<OperatorClaims>, o: Options, reason: Reason)
  {
    var u := env.decode(userToken);
    match reason
    case WrongType => Mistyped(env, userToken, Kind.User)
    case WrongIssuer => Misissued(env, userToken, account.base.subject)
    case WrongSubjectRole => Roleless(env, userToken, env.isUserKey)
    case ChainUserMismatch => u.Ok? && u.value.subject != d.issuer
    case EpochMismatch =>
      u.Ok? && !(d.epoch == account.epoch == u.value.epoch && (operator.Some? ==> d.epoch == operator.value.epoch))
    case Expired =>
      || Lapsed(account.base, o.now, o.skew) || Lapsed(ClaimsOf(d), o.now, o.skew)
      || (u.Ok? && Lapsed(ClaimsOf(u.value), o.now, o.skew))
      || (operator.Some? && Lapsed(operator.value.base, o.now, o.skew))
    case NotYetValid =>
      || Early(account.base, o.now, o.skew) || Early(ClaimsOf(d), o.now, o.skew)
      || (u.Ok? && Early(ClaimsOf(u.value), o.now, o.skew))
      || (operator.Some? && Early(operator.value.base, o.now, o.skew))
    case WrongAudience => o.audience.Some? && o.audience.value != "" && d.audience != o.audience.value
    case ChecksumMissing => d.checksum == "" && (o.payload.Some? || o.requireChecksum)
    case ChecksumMismatch => o.payload.Some? && d.checksum != "" && d.checksum != env.hash(o.payload.value)
    case _ => false
  }

  ghost predicate Blamed(env: Env, d: Decoded, anchor: Anchor, o: Options, chain: Chain, reason: Reason) {
    && IsChainFor(d, o.chain, chain)
    && (|| AnchorBlamed(env, anchor, o.operatorToken, chain.0, reason)
        || (exists account, operator ::
              Anchors(env, anchor, chain.0, o.operatorToken, account, operator)
              && ChecksBlamed(env, d, chain.1, account, operator, o, reason)))
  }

  /** The anchor vouches for the account token, with this policy. */
  ghost predicate Anchors(env: Env, anchor: Anchor, accountToken: string, operatorToken: Option<string>,
                               account: AccountClaims, operator: Option<OperatorClaims>)
  {
    && anchor.operatorKey.Some? != anchor.ring.Some?
    && AnchorChain(env, anchor, accountToken, operatorToken) == Ok((account, operator))
  }

  lemma TokenRefusal(env: Env, d: Decoded, supplied: Option<Chain>, reason: Reason)
    ensures CheckToken(env, d) == Err(reason) ==> TokenBlamed(env, d, supplied, reason)
    ensures SelectChain(d.chain, supplied) == Err(reason) ==> TokenBlamed(env, d, supplied, reason)
  {
  }

  lemma AnchorRefusal(env: Env, anchor: Anchor, accountToken: string, operatorToken: Option<string>, reason: Reason)
    requires anchor.operatorKey.Some? != anchor.ring.Some? && (anchor.ring.Some? ==> operatorToken.None?)
    requires DecodesPlainly(env) && !IsDecodeReason(reason)
    requires AnchorChain(env, anchor, accountToken, operatorToken) == Err(reason)
    ensures AnchorBlamed(env, anchor, operatorToken, accountToken, reason)
  {
  }

  lemma WindowRefusal(c: Claims, now: int, skew: int, reason: Reason)
    requires CheckWindow(c, now, skew) == Err(reason)
    ensures (reason == Expired && Lapsed(c, now, skew)) || (reason == NotYetValid && Early(c, now, skew))
  {
  }

  lemma OperatorRefusal(operator: Option<OperatorClaims>, epoch: nat, now: int, skew: int, reason: Reason)
    requires CheckOperator(operator, epoch, now, skew) == Err(reason)
    ensures operator.Some?
    ensures || (reason == Expired && Lapsed(operator.value.base, now, skew))
            || (reason == NotYetValid && Early(operator.value.base, now, skew))
            || (reason == EpochMismatch && epoch != operator.value.epoch)
  {
  }

  lemma BindingRefusal(env: Env, d: Decoded, o: Options, reason: Reason)
    requires CheckBindings(env, d.audience, d.checksum, o) == Err(reason)
    ensures || (reason == WrongAudience && o.audience.Some? && o.audience.value != "" && d.audience != o.audience.value)
            || (reason == ChecksumMissing && d.checksum == "" && (o.payload.Some? || o.requireChecksum))
            || (reason == ChecksumMismatch && o.payload.Some? && d.checksum != ""
                && d.checksum != env.hash(o.payload.value))
  {
  }

  /** Which of the checks refused. */
  lemma FailedCheck(env: Env, d: Decoded, userToken: string, account: AccountClaims,
                    operator: Option<OperatorClaims>, o: Options, reason: Reason)
    requires CheckChain(env, d, userToken, account, operator, o) == Err(reason)
    ensures var user := VerifyUser(env, userToken, account.base.subject);
            || user == Err(reason)
            || (user.Ok? && reason == ChainUserMismatch && user.value.base.subject != d.issuer)
            || (user.Ok? && reason == EpochMismatch && !(d.epoch == account.epoch == user.value.epoch))
            || (user.Ok? && CheckWindow(user.value.base, o.now, o.skew) == Err(reason))
            || (user.Ok? && CheckOperator(operator, d.epoch, o.now, o.skew) == Err(reason))
            || CheckWindow(account.base, o.now, o.skew) == Err(reason)
            || CheckWindow(ClaimsOf(d), o.now, o.skew) == Err(reason)
            || CheckBindings(env, d.audience, d.checksum, o) == Err(reason)
  {
    hide VerifyUser, ClaimsOf, CheckOperator, CheckWindow, CheckBindings;
  }

  lemma UserRefusal(env: Env, d: Decoded, userToken: string, account: AccountClaims,
                    operator: Option<OperatorClaims>, o: Options, reason: Reason)
    requires DecodesPlainly(env) && !IsDecodeReason(reason)
    requires var user := VerifyUser(env, userToken, account.base.subject);
             || user == Err(reason)
             || (user.Ok? && reason == ChainUserMismatch && user.value.base.subject != d.issuer)
             || (user.Ok? && reason == EpochMismatch && !(d.epoch == account.epoch == user.value.epoch))
             || (user.Ok? && CheckWindow(user.value.base, o.now, o.skew) == Err(reason))
    ensures ChecksBlamed(env, d, userToken, account, operator, o, reason)
  {
    hide DecodesPlainly, VerifyUser, ClaimsOf, CheckWindow, Lapsed, Early;
    LevelDecoded(env, userToken, account.base.subject, reason);
    var user := VerifyUser(env, userToken, account.base.subject);
    if user.Ok? && CheckWindow(user.value.base, o.now, o.skew) == Err(reason) {
      WindowRefusal(user.value.base, o.now, o.skew, reason);
    }
  }

  lemma ChecksRefusal(env: Env, d: Decoded, userToken: string, account: AccountClaims,
                      operator: Option<OperatorClaims>, o: Options, reason: Reason)
    requires DecodesPlainly(env) && !IsDecodeReason(reason)
    requires CheckChain(env, d, userToken, account, operator, o) == Err(reason)
    ensures ChecksBlamed(env, d, userToken, account, operator, o, reason)
  {
    hide DecodesPlainly, VerifyUser, ClaimsOf, CheckOperator, CheckWindow, CheckBindings, Lapsed, Early, CheckChain;
    FailedCheck(env, d, userToken, account, operator, o, reason);
    if VerifyUser(env, userToken, account.base.subject).Ok?
       && CheckOperator(operator, d.epoch, o.now, o.skew) == Err(reason) {
      LevelDecoded(env, userToken, account.base.subject, reason);
      OperatorRefusal(operator, d.epoch, o.now, o.skew, reason);
    } else if CheckWindow(account.base, o.now, o.skew) == Err(reason) {
      WindowRefusal(account.base, o.now, o.skew, reason);
    } else if CheckWindow(ClaimsOf(d), o.now, o.skew) == Err(reason) {
      WindowRefusal(ClaimsOf(d), o.now, o.skew, reason);
    } else if CheckBindings(env, d.audience, d.checksum, o) == Err(reason) {
      BindingRefusal(env, d, o, reason);
    } else {
      UserRefusal(env, d, userToken, account, operator, o, reason);
    }
  }

  lemma LevelDecoded(env: Env, tok: string, key: string, reason: Reason)
    requires DecodesPlainly(env) && !IsDecodeReason(reason)
    ensures VerifyUser(env, tok, key) == Err(reason) ==>
              || (reason == WrongType && Mistyped(env, tok, Kind.User))
              || (reason == WrongIssuer && Misissued(env, tok, key))
              || (reason == WrongSubjectRole && Roleless(env, tok, env.isUserKey))
    ensures VerifyUser(env, tok, key).Ok? ==>
              var user := VerifyUser(env, tok, key).value;
              && env.decode(tok).Ok? && user.base == ClaimsOf(env.decode(tok).value)
              && user.epoch == env.decode(tok).value.epoch && user.base.subject == env.decode(tok).value.subject
  {
    LevelRefusal(env, tok, key, reason);
    hide DecodesPlainly;
  }

  /** A message is refused only for a reason that holds of it: of the token, of its
      chain, or of what it is checked against. */
  lemma RefusalMeans(env: Env, tok: string, anchor: Anchor, o: Options, reason: Reason)
    requires anchor.operatorKey.Some? != anchor.ring.Some? && (anchor.ring.Some? ==> o.operatorToken.None?)
    requires DecodesPlainly(env) && !IsDecodeReason(reason)
    requires VerifyMessage(env, tok, anchor, o) == Err(reason)
    ensures env.decode(tok).Ok?
    ensures var d := env.decode(tok).value;
            TokenBlamed(env, d, o.chain, reason) || exists chain :: Blamed(env, d, anchor, o, chain, reason)
  {
    assert env.decode(tok).Ok?;
    var d := env.decode(tok).value;
    hide DecodesPlainly, SelectChain, CheckToken, AnchorChain, CheckChain, TokenBlamed, AnchorBlamed, ChecksBlamed,
         IsChainFor;
    TokenRefusal(env, d, o.chain, reason);
    if CheckToken(env, d).Ok? && SelectChain(d.chain, o.chain).Ok? {
      var chain := SelectChain(d.chain, o.chain).value;
      ChainSelected(d, o.chain, chain);
      var anchored := AnchorChain(env, anchor, chain.0, o.operatorToken);
      if anchored.Ok? {
        ChecksRefusal(env, d, chain.1, anchored.value.0, anchored.value.1, o, reason);
        assert Anchors(env, anchor, chain.0, o.operatorToken, anchored.value.0, anchored.value.1);
      } else {
        AnchorRefusal(env, anchor, chain.0, o.operatorToken, reason);
      }
      assert Blamed(env, d, anchor, o, chain, reason);
    }
  }

  /** The options without the bindings asked for. */
  function Unbound(o: Options): Options {
    o.(audience := None, payload := None, requireChecksum := false)
  }

  /** The bindings are checked last: they never change another refusal, and refuse only a
      message that is otherwise accepted. */
  lemma BindingsLast(env: Env, tok: string, anchor: Anchor, o: Options)
    ensures var bare := VerifyMessage(env, tok, anchor, Unbound(o));
            VerifyMessage(env, tok, anchor, o)
            == if bare.Err? then bare
               else if o.audience.Some? && o.audience.value != "" && bare.value.audience != o.audience.value then
                 Err(WrongAudience)
               else if bare.value.checksum == "" && (o.payload.Some? || o.requireChecksum) then Err(ChecksumMissing)
               else if o.payload.Some? && bare.value.checksum != env.hash(o.payload.value) then Err(ChecksumMismatch)
               else bare
  {
    hide SelectChain, CheckToken, AnchorChain, VerifyUser, CheckOperator, CheckWindow;
  }

  // ---- when a message is accepted -----------------------------------------------

  /** A closed interval of instants; a missing end is unbounded. */
  datatype Interval = Interval(lo: Option<int>, hi: Option<int>) {
    predicate Contains(t: int) {
      (lo.Some? ==> lo.value <= t) && (hi.Some? ==> t <= hi.value)
    }

    function Meet(other: Interval): Interval {
      Interval(
        if lo.None? then other.lo else if other.lo.None? then lo
        else Some(if lo.value < other.lo.value then other.lo.value else lo.value),
        if hi.None? then other.hi else if other.hi.None? then hi
        else Some(if hi.value < other.hi.value then hi.value else other.hi.value))
    }
  }

  function Window(c: Claims, skew: int): Interval {
    Interval(
      if c.notBefore.None? then None else Some(c.notBefore.value - skew),
      if c.expiresAt.None? then None else Some(c.expiresAt.value + skew))
  }

  /** The meet of the operator, account, user and message windows. */
  function ChainWindow(c: MessageClaims, skew: int): Interval {
    var chain := Window(c.account.base, skew).Meet(Window(c.user.base, skew)).Meet(Window(c.base, skew));
    if c.operator.None? then chain else Window(c.operator.value.base, skew).Meet(chain)
  }

  lemma MeetContains(a: Interval, b: Interval, t: int)
    ensures a.Meet(b).Contains(t) <==> a.Contains(t) && b.Contains(t)
  {
  }

  lemma WindowCovers(c: Claims, t: int, skew: int)
    ensures Window(c, skew).Contains(t) <==> c.Covers(t, skew)
  {
  }

  lemma ChainWindowCovers(c: MessageClaims, t: int, skew: int)
    ensures ChainWindow(c, skew).Contains(t) <==> AllCover(c, t, skew)
  {
    var a, u, m := Window(c.account.base, skew), Window(c.user.base, skew), Window(c.base, skew);
    WindowCovers(c.account.base, t, skew);
    WindowCovers(c.user.base, t, skew);
    WindowCovers(c.base, t, skew);
    MeetContains(a, u, t);
    MeetContains(a.Meet(u), m, t);
    if c.operator.Some? {
      WindowCovers(c.operator.value.base, t, skew);
      MeetContains(Window(c.operator.value.base, skew), a.Meet(u).Meet(m), t);
    }
  }

  lemma AcceptedWithinWindows(env: Env, tok: string, anchor: Anchor, o: Options, now: int)
    requires VerifyMessage(env, tok, anchor, o).Ok?
    ensures var c := VerifyMessage(env, tok, anchor, o).value;
            VerifyMessage(env, tok, anchor, o.(now := now))
            == if AllCover(c, now, o.skew) then Ok(c) else Err(if now > o.now then Expired else NotYetValid)
  {
    hide VerifyUser, SelectChain, CheckToken;
    var d := env.decode(tok).value;
    var chain := SelectChain(d.chain, o.chain).value;
    var (account, operator) := AnchorChain(env, anchor, chain.0, o.operatorToken).value;
    CheckedWithinWindows(env, d, chain.1, account, operator, o, now);
    hide AnchorChain, CheckChain, AllCover;
  }

  lemma CheckedWithinWindows(env: Env, d: Decoded, userToken: string, account: AccountClaims,
                             operator: Option<OperatorClaims>, o: Options, now: int)
    requires CheckChain(env, d, userToken, account, operator, o).Ok?
    ensures var c := CheckChain(env, d, userToken, account, operator, o).value;
            CheckChain(env, d, userToken, account, operator, o.(now := now))
            == if AllCover(c, now, o.skew) then Ok(c) else Err(if now > o.now then Expired else NotYetValid)
  {
    hide VerifyUser, ClaimsOf;
  }

  /** The instants at which a message is accepted form one closed interval: either
      none, or exactly the meet of its windows widened by the skew, always with
      the same claims. After it the message is expired, before it not yet valid. */
  lemma AcceptingInterval(env: Env, tok: string, anchor: Anchor, o: Options, now: int)
    requires VerifyMessage(env, tok, anchor, o).Ok?
    ensures var c := VerifyMessage(env, tok, anchor, o).value;
            var again := VerifyMessage(env, tok, anchor, o.(now := now));
            && (again.Ok? <==> ChainWindow(c, o.skew).Contains(now))
            && (again.Ok? ==> again.value == c)
            && (again.Err? ==> again.reason == if now > o.now then Expired else NotYetValid)
  {
    hide VerifyMessage, AllCover, ChainWindow;
    AcceptedWithinWindows(env, tok, anchor, o, now);
    ChainWindowCovers(VerifyMessage(env, tok, anchor, o).value, now, o.skew);
  }

  /** A larger skew accepts whatever a smaller one does. */
  lemma SkewMonotone(env: Env, tok: string, anchor: Anchor, o: Options, skew: int)
    requires VerifyMessage(env, tok, anchor, o).Ok? && skew >= o.skew
    ensures VerifyMessage(env, tok, anchor, o.(skew := skew)) == VerifyMessage(env, tok, anchor, o)
  {
  }

  // ---- the keyring selects what trial would find -----------------------------------

  /** Verification against one trusted operator, with its policy enforced. */
  function Trial(env: Env, tok: string, o: Options, operatorToken: string): Result<MessageClaims> {
    var issuer :- IssuerOf(env, operatorToken);
    VerifyMessage(env, tok, Anchor(Some(issuer), None), o.(operatorToken := Some(operatorToken)))
  }

  function RingVerify(env: Env, tok: string, o: Options, ring: Ring): Result<MessageClaims> {
    VerifyMessage(env, tok, Anchor(None, Some(ring)), o)
  }

  /** What anchoring in the ring finds, anchoring in the selected operator finds. */
  lemma AnchorSelected(env: Env, accountToken: string, ring: Ring, t: string)
    requires Claimed(env, t).Ok?
    ensures var c := Claimed(env, t).value;
            var one := AnchorChain(env, Anchor(Some(c.base.subject), None), accountToken, Some(t));
            var all := AnchorChain(env, Anchor(None, Some(ring)), accountToken, None);
            && IssuerOf(env, t) == Ok(c.base.subject)
            && (one.Ok? ==> one.value.1 == Some(c) && one.value.0.base.issuer == c.base.subject)
            && (one.Ok? && Key(c) in ring && ring[Key(c)] == c && one.value.0.epoch == c.epoch ==> all == one)
            && (all.Ok? && all.value.1 == Some(c) && all.value.0.base.issuer == c.base.subject ==> one == all)
  {
  }

  /** Acceptance fixes the account's issuer and one epoch for the whole chain. */
  lemma AcceptedChain(env: Env, tok: string, anchor: Anchor, o: Options)
    requires VerifyMessage(env, tok, anchor, o).Ok?
    ensures var c := VerifyMessage(env, tok, anchor, o).value;
            && c.epoch == c.account.epoch == c.user.epoch
            && (c.operator.Some? ==> c.epoch == c.operator.value.epoch)
            && c.base.issuer == c.base.subject == c.user.base.subject
            && c.user.base.issuer == c.account.base.subject
            && (anchor.operatorKey.Some? ==> c.account.base.issuer == anchor.operatorKey.value)
            && (anchor.ring.Some? ==>
                  (c.account.base.issuer, c.epoch) in anchor.ring.value
                  && c.operator == Some(anchor.ring.value[(c.account.base.issuer, c.epoch)]))
  {
  }

  /** A ring entry's own operator accepts whatever the ring accepts under it. */
  lemma RingToTrial(env: Env, tok: string, o: Options, ring: Ring, t: string)
    requires o.operatorToken.None? && Claimed(env, t).Ok?
    requires RingVerify(env, tok, o, ring).Ok?
    requires RingVerify(env, tok, o, ring).value.operator == Some(Claimed(env, t).value)
    requires RingVerify(env, tok, o, ring).value.account.base.issuer == Claimed(env, t).value.base.subject
    ensures Trial(env, tok, o, t) == RingVerify(env, tok, o, ring)
  {
    var d := env.decode(tok).value;
    var chain := SelectChain(d.chain, o.chain).value;
    AnchorSelected(env, chain.0, ring, t);
    SameChecks(env, d, chain.1, o, t);
    hide CheckChain, CheckToken, SelectChain, AnchorChain;
  }

  lemma SameChecks(env: Env, d: Decoded, userToken: string, o: Options, t: string)
    ensures forall account, operator ::
              CheckChain(env, d, userToken, account, operator, o.(operatorToken := Some(t)))
              == CheckChain(env, d, userToken, account, operator, o)
  {
  }

  /** And the ring accepts whatever one of its operators accepts on its own. */
  lemma TrialToRing(env: Env, tok: string, o: Options, ring: Ring, t: string)
    requires o.operatorToken.None? && Claimed(env, t).Ok?
    requires Key(Claimed(env, t).value) in ring
    requires ring[Key(Claimed(env, t).value)] == Claimed(env, t).value
    requires Trial(env, tok, o, t).Ok?
    ensures RingVerify(env, tok, o, ring) == Trial(env, tok, o, t)
  {
    var c := Claimed(env, t).value;
    var o' := o.(operatorToken := Some(t));
    AcceptedChain(env, tok, Anchor(Some(c.base.subject), None), o');
    var d := env.decode(tok).value;
    var chain := SelectChain(d.chain, o.chain).value;
    AnchorSelected(env, chain.0, ring, t);
    SameChecks(env, d, chain.1, o, t);
    CheckedKeepsAccount(env, tok, Anchor(Some(c.base.subject), None), o');
    TrialOperator(env, tok, o, t);
    hide CheckChain, CheckToken, SelectChain, AnchorChain;
    var m := Trial(env, tok, o, t).value;
    assert AnchorChain(env, Anchor(None, Some(ring)), chain.0, None) == Ok((m.account, m.operator));
    assert CheckChain(env, d, chain.1, m.account, m.operator, o') == Ok(m);
    assert CheckChain(env, d, chain.1, m.account, m.operator, o) == Ok(m);
    assert env.decode(tok) == Ok(d);
    assert CheckToken(env, d).Ok?;
    assert SelectChain(d.chain, o.chain) == Ok(chain);
    assert VerifyMessage(env, tok, Anchor(None, Some(ring)), o) == Ok(m);
  }

  lemma CheckedKeepsAccount(env: Env, tok: string, anchor: Anchor, o: Options)
    requires VerifyMessage(env, tok, anchor, o).Ok?
    ensures var c := VerifyMessage(env, tok, anchor, o).value;
            var chain := SelectChain(env.decode(tok).value.chain, o.chain).value;
            AnchorChain(env, anchor, chain.0, o.operatorToken) == Ok((c.account, c.operator))
  {
    hide AnchorChain, SelectChain, CheckToken, CheckChain;
    var d := env.decode(tok).value;
    var chain := SelectChain(d.chain, o.chain).value;
    var (account, operator) := AnchorChain(env, anchor, chain.0, o.operatorToken).value;
    CheckedCarries(env, d, chain.1, account, operator, o);
  }

  lemma CheckedCarries(env: Env, d: Decoded, userToken: string, account: AccountClaims,
                       operator: Option<OperatorClaims>, o: Options)
    ensures var r := CheckChain(env, d, userToken, account, operator, o);
            r.Ok? ==> r.value.account == account && r.value.operator == operator
  {
  }

  /** Selecting the operator by issuer and epoch is trying them all: the keyring
      accepts exactly when one of its tokens accepts as the single anchor, with the
      same claims, and no two different operators can accept the same message. */
  lemma KeyringRefinesTrial(env: Env, tok: string, o: Options, tokens: seq<string>, ring: Ring)
    requires o.operatorToken.None?
    requires AllValid(env, tokens) && IsRingOf(Elements(ClaimsIn(env, tokens)), ring)
    ensures RingVerify(env, tok, o, ring).Ok?
       <==> exists t :: t in tokens && Trial(env, tok, o, t).Ok?
    ensures forall t :: t in tokens && Trial(env, tok, o, t).Ok? ==>
              Trial(env, tok, o, t) == RingVerify(env, tok, o, ring)
              && RingVerify(env, tok, o, ring).value.operator == Some(Claimed(env, t).value)
  {
    hide RingVerify, Trial, Claimed, IsRingOf;
    forall t | t in tokens && Trial(env, tok, o, t).Ok?
      ensures Trial(env, tok, o, t) == RingVerify(env, tok, o, ring)
           && RingVerify(env, tok, o, ring).value.operator == Some(Claimed(env, t).value)
    {
      TokenInRing(env, tokens, ring, t);
      TrialToRing(env, tok, o, ring, t);
      TrialOperator(env, tok, o, t);
    }
    if RingVerify(env, tok, o, ring).Ok? {
      var t := RingToken(env, tok, o, tokens, ring);
      RingToTrial(env, tok, o, ring, t);
      assert t in tokens && Trial(env, tok, o, t).Ok?;
    }
  }

  lemma TokenInRing(env: Env, tokens: seq<string>, ring: Ring, t: string)
    requires AllValid(env, tokens) && IsRingOf(Elements(ClaimsIn(env, tokens)), ring) && t in tokens
    ensures Claimed(env, t).Ok? && Key(Claimed(env, t).value) in ring
    ensures ring[Key(Claimed(env, t).value)] == Claimed(env, t).value
  {
  }

  lemma TrialOperator(env: Env, tok: string, o: Options, t: string)
    requires Claimed(env, t).Ok? && Trial(env, tok, o, t).Ok?
    ensures Trial(env, tok, o, t).value.operator == Some(Claimed(env, t).value)
  {
    var c := Claimed(env, t).value;
    var anchor, o' := Anchor(Some(c.base.subject), None), o.(operatorToken := Some(t));
    CheckedKeepsAccount(env, tok, anchor, o');
    hide CheckChain, CheckToken, SelectChain;
  }

  lemma RingToken(env: Env, tok: string, o: Options, tokens: seq<string>, ring: Ring) returns (t: string)
    requires o.operatorToken.None?
    requires AllValid(env, tokens) && IsRingOf(Elements(ClaimsIn(env, tokens)), ring)
    requires RingVerify(env, tok, o, ring).Ok?
    ensures t in tokens && Claimed(env, t).Ok?
    ensures var c := RingVerify(env, tok, o, ring).value;
            c.operator == Some(Claimed(env, t).value)
            && c.account.base.issuer == Claimed(env, t).value.base.subject
  {
    var c := RingVerify(env, tok, o, ring).value;
    AcceptedChain(env, tok, Anchor(None, Some(ring)), o);
    hide VerifyMessage, Claimed;
    var entry := ring[(c.account.base.issuer, c.epoch)];
    assert entry in Elements(ClaimsIn(env, tokens));
    var i :| 0 <= i < |tokens| && ClaimsIn(env, tokens)[i] == entry;
    t := tokens[i];
  }

  /** Adding operators to a keyring never loses an acceptance. */
  lemma RingMonotone(env: Env, tok: string, o: Options, ring: Ring, more: Ring)
    requires forall k :: k in ring ==> k in more && more[k] == ring[k]
    requires RingVerify(env, tok, o, ring).Ok?
    ensures RingVerify(env, tok, o, more) == RingVerify(env, tok, o, ring)
  {
  }
}
