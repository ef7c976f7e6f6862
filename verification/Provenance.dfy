/** What an accepted message proves of its origin: the signatures behind it
    (src/valiss/message.py, src/valiss/token.py). */
module Provenance {
  import opened Errors
  import opened Token
  import opened Wire
  import opened Message

  /** The token ends in a signature over the rest of it that verifies under the key. */
  ghost predicate Signed(p: Platform, tok: string, key: string) {
    exists input, signature :: SignedBy(p, tok, key, input, signature)
  }

  lemma VerifiedSigned(p: Platform, tok: string, key: string)
    ensures VerifyAccount(EnvOf(p), tok, key).Ok? ==> Signed(p, tok, key)
    ensures VerifyUser(EnvOf(p), tok, key).Ok? ==> Signed(p, tok, key)
    ensures VerifyOperator(EnvOf(p), tok, key).Ok? ==> Signed(p, tok, key)
  {
    hide DecodeToken, SignedBy;
    if DecodeToken(p, tok).Ok? { DecodedIsSigned(p, tok); }
  }

  /** The three signatures of a message: the trust anchor's over the account token, the
      account's over the user token, the user's over the message. */
  ghost predicate ThreeSigned(p: Platform, tok: string, anchor: Anchor, chain: Chain, c: MessageClaims) {
    && (anchor.operatorKey.Some? ==> c.account.base.issuer == anchor.operatorKey.value)
    && (anchor.ring.Some? ==> (c.account.base.issuer, c.epoch) in anchor.ring.value)
    && Signed(p, chain.0, c.account.base.issuer)
    && Signed(p, chain.1, c.account.base.subject)
    && Signed(p, tok, c.user.base.subject)
  }

  /** Over the real token format, a message is accepted only on a chain of three valid
      signatures from the trust anchor down, along its one embedded or supplied chain. */
  lemma AcceptedIsSigned(p: Platform, tok: string, anchor: Anchor, o: Options)
    requires VerifyMessage(EnvOf(p), tok, anchor, o).Ok?
    ensures var c := VerifyMessage(EnvOf(p), tok, anchor, o).value;
            exists chain :: IsChainFor(EnvOf(p).decode(tok).value, o.chain, chain)
                            && ThreeSigned(p, tok, anchor, chain, c)
  {
    var env := EnvOf(p);
    var c := VerifyMessage(env, tok, anchor, o).value;
    AcceptedIff(env, tok, anchor, o, c);
    AcceptedChain(env, tok, anchor, o);
    hide VerifyMessage, EnvOf, SignedBy, Signed, VerifyAccount, VerifyUser, IsChainFor;
    var chain :| IsChainFor(env.decode(tok).value, o.chain, chain) && Vouched(env, anchor, o.operatorToken, chain, c);
    VerifiedSigned(p, chain.0, c.account.base.issuer);
    VerifiedSigned(p, chain.1, c.account.base.subject);
    MessageSigned(p, tok, c);
    assert ThreeSigned(p, tok, anchor, chain, c);
  }

  lemma MessageSigned(p: Platform, tok: string, c: MessageClaims)
    requires EnvOf(p).decode(tok).Ok? && Says(EnvOf(p), EnvOf(p).decode(tok).value, c)
    ensures Signed(p, tok, c.user.base.subject)
  {
    hide DecodeToken, SignedBy;
    DecodedIsSigned(p, tok);
  }
}
