# A Dafny model of valiss

valiss authenticates messages and requests with a chain of Ed25519 credentials:
an operator vouches for an account, the account for a user, and the user signs
messages or requests. A receiver pins one operator key, or a keyring of operators,
and verifies offline. Around that sit the stateful parts: a cache of verified
chains that lets emitters leave the chain out of their tokens, a cache of nonces
that stops replays, and a transport that negotiates when a chain is needed.

The project models those parts and states what they promise as theorems about
every input, every run and every interleaving.

| file | what it models |
|---|---|
| `Bits`, `Gf2`, `Crc16`, `Radix`, `Nkeys` | the nkey text format: CRC-16 as polynomial division, base32, prefix packing |
| `Utf8`, `Text`, `Json`, `JsonGrammar` | the text layers: UTF-8, line splitting and stripping, the JSON serializer, the parser and its grammar |
| `Token`, `Wire`, `Issue`, `Minting` | claims and their windows, the token wire format, minting |
| `Keyring`, `Message` | the set of trusted operators, and the chain walk of a message token |
| `ChainCache`, `Transport`, `Negotiation` | the LRU chain cache, the receiver, the two-party exchange |
| `Replay`, `RequestVerifier`, `ReplayBound`, `RequestContext` | the nonce cache, the request verifier, the replay bound |
| `Creds`, `Emitter` | the credentials file, and the way from credentials to an accepted message or request |
| `Provenance`, `Lifetime` | what acceptance proves of a token's origin, when a minted token is honoured, and what its id is worth |

Conventions. Exceptions are a `Result` with the source's reason codes; an error
raised without a code is `Unclassified`. Instants and durations are integer
microseconds, token times integer seconds. The primitives are parameters: `Env`
holds what the token checks call, `Wire.EnvOf` builds an `Env` from a `Platform`
of library calls (SHA-256, Ed25519, timestamp and base64 parsing). Nothing is
assumed about them except where a theorem says so: `Correct` (signatures made with
a seed verify under its key), `NoForgery` (the captured signature does not verify for
two payloads, one hash does not stand for two contexts), `IdsHonest` (equal token ids
mean equal claims, which `Lifetime.MintedIdsHonest` proves of minted tokens whose contents
the hash tells apart), and that decoding never reports a missing chain, nor any reason but its own,
which `Wire.DecodeNeverNoChain` proves of the wire format.

The code that changes state is imperative: `MemoryChainCache`, `MemoryReplayCache`,
`Verifier` and `AuthFlow` are classes, and the source's loops are loops. Each is proved
equal to a function (`AuthFlow` by `Drive`, which runs one through its responses), and
the theorems are about that function.

## Model

| member | source | states |
|---|---|---|
| `Transport.Authenticate` | src/valiss/_msgtransport.py:112-162 | the receiver's steps on the cache object give the verdict and exactly the cache reads and writes of `Decide` on the one entry looked up |
| `Transport.LookupExactly` | src/valiss/_msgtransport.py:112-124 | the cache is asked for the chain of the token's issuer, for every token that decodes, exactly when no whole pair came with the request |
| `Transport.OneKey` | src/valiss/_msgtransport.py:115-124 | the key a call looks up and the key of any entry it stores or deletes are the same: the token's issuer |
| `Transport.HalfPair` | src/valiss/_msgtransport.py:112 | half a pair of chain headers counts for nothing: lookup, verdict and cache write are those of the bare request |
| `Transport.DetachedDecides` | src/valiss/_msgtransport.py:112-162 | a whole pair is tried instead of the cache and decides alone: a failure is refused with its own reason, never asks for a chain and leaves the cache, a success is stored under the message's issuer |
| `Transport.StoredIsProven` | src/valiss/_msgtransport.py:160-162 | unless another chain is pinned, a pair that is stored just verified, by itself, a message of its key's holder |
| `Transport.PinnedStoresAnything` | src/valiss/_msgtransport.py:126-133 | when the static options name a chain, even as absent, any nonempty detached pair is stored under the issuer of any token that verifies with those options |
| `Transport.StoresOnlyChainsExactly` | src/valiss/_msgtransport.py:126-162 | over the real token format a receiver stores nothing but chains to its trust anchor, for every request at every instant, exactly when its static options name no chain or no token ever verifies with them |
| `Transport.ProvenIsChain` | src/valiss/message.py:217-247 | a proven pair is a chain: its user token is for the key and issued by its account, which the trust anchor issued |
| `Transport.CacheTransparent` | src/valiss/_msgtransport.py:135-158 | for a token that embeds its chain the verdict is that of verifying the token alone, for every cache entry |
| `Transport.EmbeddedNeverAsks` | src/valiss/_msgtransport.py:145-158 | a token that embeds its chain is never answered with the request for a chain |
| `Transport.NoChainMeansNoChain` | src/valiss/message.py:189-195 | the no-chain reason arises only when the token embeds no chain and none was supplied |
| `Transport.AcceptanceWitness` | src/valiss/_msgtransport.py:126-143 | whatever the static options hold, every acceptance has a chain (embedded, cached, detached or pinned) with which the token is authentic under the static clock, skew and operator token, for the request's body and nonempty audience, with the claims returned |
| `Wire.DecodeNeverNoChain` | src/valiss/token.py:493-558 | decoding never reports a missing chain, nor any reason but its own five, so the signal cannot come from a malformed token |
| `Negotiation.CacheSound` | src/valiss/_msgtransport.py:112-162 | over all runs of interleaved calls with options that name no chain, every cached entry is a detached pair some call verified in full for the key's holder, and is a chain to the trust anchor |
| `Negotiation.AuthFlow.constructor` | src/valiss/httpsig/_client.py:61-75 | the first yield carries the token and the body and no chain |
| `Negotiation.AuthFlow.Resume` | src/valiss/httpsig/_client.py:75-86 | the flow sends again exactly once, when it negotiates and the answer is a 401 whose chain header says required, with the chain added and token and body unchanged |
| `Negotiation.Drive` | src/valiss/httpsig/_client.py:61-86 | a flow driven through any sequence of responses sends exactly what `FlowSends` says |
| `Negotiation.AtMostTwoSends` | src/valiss/httpsig/_client.py:61-86 | against every sequence of responses the client sends once or twice, twice exactly when it negotiates and the first answer is a 401 whose chain header says required, then with its chain, and the response hook of the other transport sends the same |
| `Negotiation.FirstSend` | src/valiss/_msgtransport.py:141-158 | a chainless token sent bare is accepted or answered with the request for its chain, whatever the cache holds |
| `Negotiation.AsksExactly` | src/valiss/_msgtransport.py:141-158 | a refusal asks for the chain exactly when no whole pair came with the request, the token is a message that embeds none, and the cached chain, if any, failed; every other refusal is a plain 401 |
| `Negotiation.PlainRefusalEnds` | src/valiss/httpsig/_client.py:76-86 | a refusal of any other token ends the exchange with one send |
| `Negotiation.SecondSend` | src/valiss/_msgtransport.py:133-162 | a detached chain under which the token verifies is accepted and stored under the token's issuer |
| `Negotiation.EvictedExactly` | src/valiss/_msgtransport.py:141-158 | a cached chain is evicted exactly when verifying with it fails and the token either embeds no chain, and then the chain is asked for, or verifies on its own; any other failure is a plain rejection that leaves the entry |
| `Negotiation.NegotiationCompletes` | src/valiss/_msgtransport.py:112-162 | for every cache content at each send, an emitter whose chainless token verifies under its chain is accepted within two sends, and a second send stores the chain |
| `Negotiation.HeldChainOneSend` | src/valiss/_msgtransport.py:121-124 | while the cache holds the chain, a valid message needs one send and leaves the entry |
| `Negotiation.SteadyState` | src/valiss/_msgtransport.py:160-162 | after a chain is stored, through any cache traffic that neither deletes nor rebinds its key and uses fewer than cap other keys, the next valid message needs one send |
| `ChainCache.MemoryChainCache.constructor` | src/valiss/chain.py:44-48 | a new cache is empty |
| `ChainCache.MemoryChainCache.Get` | src/valiss/chain.py:50-55 | a lookup returns the bound pair, moves a hit to the fresh end and changes no binding |
| `ChainCache.MemoryChainCache.Put` | src/valiss/chain.py:57-63 | a store binds the pair at the fresh end and drops at most the oldest other key, only for a new key in a full cache |
| `ChainCache.MemoryChainCache.Delete` | src/valiss/chain.py:65-67 | a deletion unbinds the key and nothing else |
| `ChainCache.StoreSpec` | src/valiss/chain.py:57-63 | what a store does to every key's binding, within the cap and without repeated keys |
| `ChainCache.RunIncluded` | src/valiss/chain.py:50-67 | on one trace, a smaller cache stays embedded, with values and recency order, in a larger one |
| `ChainCache.LargerCapKeepsHits` | src/valiss/chain.py:50-67 | raising the cap never loses a hit |
| `ChainCache.StoredSurvives` | src/valiss/chain.py:57-63 | a stored pair outlives any traffic on fewer than cap other keys that does not delete or rebind it |
| `ChainCache.StoresEvict` | src/valiss/chain.py:57-63 | the bound is tight: storing cap distinct other keys leaves exactly those, in order |
| `ChainCache.HitSurvives` | src/valiss/chain.py:50-55 | a hit counts as a use: the entry outlives the same traffic as one just stored |
| `Replay.MemoryReplayCache.SeenBefore` | src/valiss/replay.py:49-59 | answers whether the nonce is held with an expiry ahead, records it otherwise, and leaves every retained entry but the one just recorded unexpired |
| `Replay.PruningInvisible` | src/valiss/replay.py:51-59 | with a clock that does not go back, the pruning cache answers as a log that forgets nothing |
| `Replay.PruningInvisibleFromEmpty` | src/valiss/replay.py:44-59 | so does every run of a new cache whose clock readings are in order from the second on |
| `Replay.NeverShowsExactly` | src/valiss/replay.py:49-59 | for given clock readings, a new pruning cache answers as the log does for all nonces and expiries exactly when the readings from the second on do not go back |
| `Replay.BackwardClockVisible` | src/valiss/replay.py:51-54 | whenever a reading after the first is larger than a later one, some nonces and expiries tell the cache and the log apart |
| `RequestVerifier.Verifier.constructor` | src/valiss/verifier.py:143-165 | a configured operator token that does not verify leaves the verifier misconfigured, a good one becomes its policy |
| `RequestVerifier.Verifier.WithKeyring` | src/valiss/verifier.py:168-193 | a keyring verifier trusts exactly the ring |
| `RequestVerifier.Verifier.AddValidator` | src/valiss/verifier.py:213-218 | validators are kept in registration order |
| `RequestVerifier.Verifier.RequireExtension` | src/valiss/verifier.py:244-249 | extension types are kept in registration order |
| `RequestVerifier.Verifier.Authenticate` | src/valiss/verifier.py:255-328 | the ordered checks before the replay gate compute `Authenticated` |
| `RequestVerifier.Verifier.Verify` | src/valiss/verifier.py:251-351 | the verifier's steps give the result, and the effect on the replay cache, of `Judge`, or of `JudgeOpen` without a cache |
| `RequestVerifier.AuthenticatedIff` | src/valiss/verifier.py:255-328 | a request authenticates as an identity exactly when its account token is its own or the resolver's, issued under the anchor, allowed, the user token issued by the account, all of the policy's epoch, possession shown by signature or bearer flag, and every window open |
| `RequestVerifier.AcceptedIff` | src/valiss/verifier.py:251-351 | a request is accepted exactly when it is so authenticated, every extension type and validator passes, and, with a replay cache, a signed one has a nonce not held with an expiry ahead |
| `RequestVerifier.WrongLevelRefused` | src/valiss/message.py:9-12 | a message token, or any token of another level, in the account's or the user's place never authenticates |
| `RequestVerifier.RefusalMeans` | src/valiss/verifier.py:255-351 | with a replay cache or without, the reason of every refusal holds of the request: of its credentials, time, epoch, allowlisting or proof of possession, of its nonce, or in the words of the resolver or of the first validator that does not pass |
| `RequestVerifier.PolicyEnforced` | src/valiss/verifier.py:151-165 | a configured operator token that does not verify under the pinned key makes every request fail as misconfigured; a good one is the policy of every identity accepted |
| `RequestVerifier.AcceptingInstants` | src/valiss/verifier.py:277-326 | without a replay cache, the instants at which a request is accepted are none, or exactly those inside every window and the timestamp drift, always with one identity; later it is refused as expired or for skew, earlier as not yet valid or for skew |
| `RequestVerifier.SkewMonotone` | src/valiss/verifier.py:277-326 | a larger skew accepts whatever a smaller one does, with the same identity |
| `RequestVerifier.TrialAgreesOrRefuses` | src/valiss/verifier.py:355-374 | with a replay cache or without, a verifier pinned to one operator of the ring treats a request as the keyring verifier does, or refuses it leaving the replay cache alone |
| `RequestVerifier.KeyringRefinesTrial` | src/valiss/verifier.py:355-374 | with a replay cache or without, the keyring verifier accepts exactly when one of its operator tokens, handed to the constructor of a single-anchor verifier, makes that one accept, then with the same identity and cache effect, and that token's operator |
| `RequestVerifier.EntriesRefineTrial` | src/valiss/verifier.py:355-374 | the same, with a replay cache or without, over the entries of any ring whose entries stand in their own slots |
| `RequestVerifier.RingMonotone` | src/valiss/verifier.py:362-372 | with a replay cache or without, adding operators to the ring never loses an acceptance |
| `ReplayBound.OnlyAuthenticatedConsumes` | src/valiss/verifier.py:313-333 | only a request whose chain and signature verified, with a nonce, ever changes the replay cache: one that passes records its own nonce, every other entry keeps its expiry or is dropped after it |
| `ReplayBound.GateReopens` | src/valiss/verifier.py:329-333 | in every run, two requests with one nonce pass the gate only if the cache reads the second at least twice the skew after the verifier read the first |
| `ReplayBound.PassesExactly` | src/valiss/verifier.py:313-333 | from an empty cache, in clock order, a request passes the gate exactly when it is authenticated, signed, has a nonce, and every earlier pass of that nonce was read at least twice the skew before |
| `ReplayBound.SameRequestTwice` | src/valiss/token.py:797-801 | one timestamp and nonce pass twice only from the first to the last instant of the signature window; with no lag between the clocks, at exactly one instant |
| `ReplayBound.BoundIsTight` | src/valiss/replay.py:51-59 | and at that instant they do pass twice |
| `ReplayBound.CapturedSignature` | src/valiss/token.py:747-822 | a captured signature, in whatever base64 spelling it is sent, authorizes the method, host, path and nonce it was made for and nothing else, also for a path with line breaks, and can pass again only at that instant |
| `RequestContext.ContextInjective` | src/valiss/httpauth/extension.py:80-85 | the signed bytes determine method, host, path and nonce when method, host and nonce are single lines, as headers are, whatever the percent-decoded path holds |
| `RequestContext.NamesOneExactly` | src/valiss/httpauth/extension.py:80-85 | no other method, host, path and nonce have the same bytes exactly when all four are single lines |
| `RequestContext.LineBreaksCollide` | src/valiss/httpauth/extension.py:80-85 | a line break in any of the four yields the bytes of another request, which is given |
| `RequestContext.TransportSeparated` | src/valiss/httpauth/extension.py:80-85 | the bytes carry the transport's tag as their first line, so they are never those of another transport's request |
| `Token.WindowIsInterval` | src/valiss/token.py:244-254 | not expired and not too early means inside the closed window widened by the skew |
| `Token.SignedPayloadInjective` | src/valiss/token.py:747-755 | the signed bytes determine the timestamp, whatever it contains, and the hash of the context |
| `Token.VersionSeparated` | src/valiss/token.py:747-755 | the signed bytes are the version tag, the timestamp and the context's hash, a line each, and never fit a text under any other version tag |
| `Token.OperatorExactly` | src/valiss/token.py:659-678 | a token verifies as an operator's under a key exactly when it decodes, is of that kind, and is signed by that key over itself, an operator key; the claims are its own, a missing name being the subject and a zero time none |
| `Token.AccountExactly` | src/valiss/token.py:681-699 | as an account's exactly when it decodes, is of that kind, was issued by the key asked for, over an account key |
| `Token.UserExactly` | src/valiss/token.py:702-723 | as a user's exactly when it decodes, is of that kind, was issued by the key asked for, over a user key, and the bearer flag is its own |
| `Token.OneLevel` | src/valiss/token.py:659-723 | no token is accepted at two levels, whatever keys are asked for |
| `Message.AcceptedIff` | src/valiss/message.py:139-311 | a message is accepted with given claims exactly when it is authentic: one chain, embedded or supplied or both alike, each credential issued by the one above and the top one by the anchor, one epoch, every window open, the audience and bytes asked for met |
| `Message.RefusalMeans` | src/valiss/message.py:181-309 | the reason of every refusal that decoding did not give holds of the token, of its chain, or of what it is checked against |
| `Message.BindingsLast` | src/valiss/message.py:296-309 | audience and checksum are checked last: they never change another refusal, and refuse only a message that is otherwise accepted, with the reason given |
| `Message.AcceptingInterval` | src/valiss/message.py:249-294 | the instants at which a message is accepted are none, or exactly the intersection of its operator, account, user and message windows widened by the skew, with one set of claims; after it the message is expired, before it not yet valid |
| `Message.SkewMonotone` | src/valiss/message.py:249-294 | a larger skew accepts whatever a smaller one does |
| `Message.AcceptedChain` | src/valiss/message.py:181-270 | an accepted message is self-signed by the chain's user, issued by its account, issued by the anchor, with one epoch throughout, and under a ring carries the entry its issuer and epoch select |
| `Message.KeyringRefinesTrial` | src/valiss/message.py:217-247 | a keyring accepts exactly when one of its operator tokens accepts as the single anchor with its policy, with the same claims, and all accepting tokens hold the claims of the operator returned |
| `Message.RingMonotone` | src/valiss/keyring.py:70-72 | adding operators to a keyring never loses an acceptance |
| `Keyring.Construct` | src/valiss/keyring.py:32-68 | the loop with its inner scan computes `Build` |
| `Keyring.BuildCharacterised` | src/valiss/keyring.py:32-68 | construction succeeds exactly when the list is nonempty, every token is a valid self-signed operator token, and any two different ones among the first of each id differ in key or epoch and share a name exactly when they share a key; the ring then holds exactly those claims |
| `Keyring.AllKept` | src/valiss/keyring.py:43-44 | when equal ids mean equal claims, no token goes unread |
| `Keyring.OrderIrrelevant` | src/valiss/keyring.py:32-68 | when equal ids mean equal claims, neither the order of the tokens nor repeating them changes the outcome or the ring |
| `Keyring.OrderBlindExactly` | src/valiss/keyring.py:43-44 | a token list comes out alike in every order and with every repetition exactly when equal ids among its tokens mean equal claims, or no order of them builds |
| `Keyring.SomeOrderBuildsExactly` | src/valiss/keyring.py:32-68 | some order of the tokens builds exactly when there are any, all are valid, and some choice of one claim per id is consistent |
| `Keyring.AdmitStep` | src/valiss/keyring.py:43-65 | one more token is admitted exactly when its id is known, and then changes nothing, or it is consistent with all admitted before, not only with those the checks compare |
| `Crc16.Compute` | src/valiss/nkeys.py:32-39 | the nested bit loop computes `Checksum`, though it adds eight message bits at a time |
| `Crc16.ChecksumIsRemainder` | src/valiss/nkeys.py:32-39 | the checksum is the remainder of data times x^16 modulo x^16 + x^12 + x^5 + 1 over GF(2), and nothing else is |
| `Crc16.BurstChangesChecksum` | src/valiss/nkeys.py:32-39 | every change confined to sixteen consecutive bits changes the checksum |
| `Gf2.CrcIsRemainder` | src/valiss/nkeys.py:35-38 | the shift register computes the unique remainder, for every generator |
| `Gf2.CrcLinear` | src/valiss/nkeys.py:35-38 | the register is linear over GF(2) |
| `Gf2.BurstDetected` | src/valiss/nkeys.py:35-38 | a difference no longer than the generator's degree is detected |
| `Radix.Base32RoundTrip` | src/valiss/nkeys.py:42-51 | decoding inverts encoding through stripped and restored padding, for every byte string |
| `Radix.EncodedBits` | src/valiss/nkeys.py:42-43 | the digits of an encoding are the bytes' bits, highest first, filled up with zeros |
| `Radix.TableRuns` | src/valiss/nkeys.py:42-43 | the runs of the two alphabets begin and end where RFC 4648 has them |
| `Radix.TableSteps` | src/valiss/nkeys.py:42-43 | and inside a run the symbols follow one another |
| `Radix.Base32Canonical` | src/valiss/nkeys.py:46-51 | a string that decodes to whole groups of five bytes is the encoding of what it decodes to |
| `Radix.Base32Exactly` | src/valiss/nkeys.py:46-51 | a string decodes exactly when it is characters of the base32 alphabet, a number of them that whole bytes can fill, and then no more padding than completes the last group |
| `Radix.ExplicitPadding` | src/valiss/nkeys.py:46-51 | padding already present in part decodes alike |
| `Radix.Base64UrlRoundTrip` | src/valiss/token.py:101-121 | decoding inverts encoding without padding, for every byte string |
| `Radix.Base64UrlExactly` | src/valiss/token.py:108-121 | a string decodes exactly when it is made of the base64url alphabet alone, without padding, and its length leaves no single character over; anything else is malformed |
| `Radix.Base64UrlCanonical` | src/valiss/token.py:111-121 | a string that decodes is the encoding of what it decodes to exactly when the bits beyond its last whole byte are zero |
| `Radix.Base64UrlNoDot` | src/valiss/token.py:101-102 | an encoded segment contains no dot |
| `Nkeys.PublicRoundTrip` | src/valiss/nkeys.py:69-92 | public keys survive encoding and decoding |
| `Nkeys.PublicExactly` | src/valiss/nkeys.py:59-92 | a string decodes to a public key exactly when it is a base32 spelling of the prefix, a nonempty key and their checksum, low byte first |
| `Nkeys.KeyLetters` | src/valiss/nkeys.py:23-27 | an encoded 32-byte public key starts with the letter of its role, O, A or U, and a seed with S and that letter |
| `Wire.NamesKey` | src/valiss/nkeys.py:173-178 | a text names a verifying key pair exactly when it is the encoding of its 32-byte public key |
| `Nkeys.SeedRoundTrip` | src/valiss/nkeys.py:76-111 | 32-byte seeds survive the split of the prefix over two bytes |
| `Nkeys.PublicOrSeed` | src/valiss/nkeys.py:86-111 | no string decodes both as a public key and as a seed |
| `Nkeys.PublicCanonical` | src/valiss/nkeys.py:86-92 | a string that decodes to a 32-byte public key is its encoding |
| `Nkeys.PublicInjective` | src/valiss/nkeys.py:86-92 | two strings that decode to one 32-byte public key are equal |
| `Nkeys.SeedSpellings` | src/valiss/nkeys.py:46-51 | a string decodes to a seed exactly when it is one of its spellings: any value of the three ignored bits of the second byte and of the last two bits, and up to six padding characters |
| `Nkeys.SeedCanonical` | src/valiss/nkeys.py:95-111 | a string that decodes to a seed is its encoding exactly when it has 58 characters and both groups of ignored bits are zero |
| `Nkeys.SecondByteMatters` | src/valiss/nkeys.py:102 | 58 characters and zero pad bits alone do not make a seed's text its encoding: seven other values of the second byte's ignored bits decode alike |
| `Nkeys.SeedTextDecodes` | src/valiss/nkeys.py:102 | decoding ignores the low three bits of the second byte, whatever they are |
| `Radix.SameBytes` | src/valiss/nkeys.py:46-51 | two strings of 58 base32 digits hold the same bytes exactly when they agree but for the last two bits |
| `Nkeys.CodewordDistance` | src/valiss/nkeys.py:54-66 | two valid codewords that differ within one five-bit group are equal, also for the group that straddles data and the little-endian checksum |
| `Nkeys.PairDistance` | src/valiss/nkeys.py:54-66 | so are two that differ within any two neighbouring groups, the checksum's own included |
| `Crc16.NineBits` | src/valiss/nkeys.py:32-39 | no nonzero message of nine bits has a checksum with no bit set but the ninth, the bit that shares two neighbouring characters with the last nine data bits |
| `Nkeys.NeighboursRejected` | src/valiss/nkeys.py:59-66 | replacing any two neighbouring characters of a valid key fails the checksum or the alphabet, unless the last becomes padding |
| `Nkeys.SwapRejected` | src/valiss/nkeys.py:59-66 | swapping two different neighbouring characters of a valid key is always rejected |
| `Nkeys.SubstitutionRejected` | src/valiss/nkeys.py:59-66 | replacing one character of a valid key by any other fails the checksum or the alphabet, except that the last may become padding |
| `Nkeys.PaddedLastAccepted` | src/valiss/nkeys.py:46-66 | and then it is accepted exactly when the 33rd and 34th byte are, low byte first, the checksum of the 32 before them |
| `Radix.LastDigitDropped` | src/valiss/nkeys.py:46-51 | a text of 56 digits whose last becomes padding decodes to its bytes without the last |
| `Nkeys.SubstitutionInvalid` | src/valiss/nkeys.py:114-119 | no single-character substitution of a valid key is a valid key of any role |
| `Utf8.RoundTrip` | src/valiss/token.py:133 | decoding inverts encoding on every string of scalar values |
| `Utf8.DecodesExactly` | src/valiss/token.py:541 | bytes decode to a text exactly when they are its encoding: no longer form, no surrogate |
| `Utf8.OrderExactly` | src/valiss/token.py:308-310 | texts are in code-point order exactly when their encodings are in byte order |
| `Json.OnePassEscaping` | src/valiss/token.py:124-133 | the five replacements after serialization equal one escaping pass inside strings, also after backslashes, and leave none of the five characters raw |
| `Json.GoJsonRoundTrip` | src/valiss/token.py:124-133 | parsing the serialized bytes gives every JSON value back, floating-point numbers by their text |
| `Json.ShortestEscape` | src/valiss/token.py:130 | no way of writing a character in a JSON string is shorter than the escape chosen, but for the five characters that are always escaped |
| `Json.NoSpaceAdded` | src/valiss/token.py:130 | a value without spaces in its strings is written without any white space |
| `JsonGrammar.LoadsExactly` | src/valiss/token.py:541-547 | a text parses as a value exactly when the grammar of sections 2 to 7 of RFC 8259 derives it with that meaning, white space, escapes, surrogate pairs and numbers included |
| `JsonGrammar.LastWins` | src/valiss/token.py:541-547 | of a repeated key the last value counts, and an assignment changes no other key |
| `Wire.DecodedIsSigned` | src/valiss/token.py:522-558 | a token that decodes has three segments and a version-1 header, is input, dot and a signature over that input by the key it names as issuer, and holds only values in range |
| `Wire.DecodesExactly` | src/valiss/token.py:493-558 | a token decodes to given claims exactly when it has three segments and a version-1 header, its claims segment reads as them, and its last segment is a signature over the others by the key they name as issuer |
| `Wire.RefusedExactly` | src/valiss/token.py:493-558 | when decoding reports an unsupported type or version, a bad issuer key or a bad signature, each exactly; everything else that does not decode is malformed |
| `Wire.HexSpells` | src/valiss/message.py:61-64 | a checksum is two lowercase hexadecimal digits for each byte, the high half first |
| `Provenance.AcceptedIsSigned` | src/valiss/message.py:181-247 | over the real token format an accepted message stands on three valid signatures, the anchor's over the account token, the account's over the user token and the user's over the message, along its one embedded or supplied chain |
| `Wire.TypedExactly` | src/valiss/token.py:573-634 | the claims decode exactly when every field valiss reads is absent, null or of its own type and range, and are malformed otherwise |
| `Issue.HeaderText` | src/valiss/token.py:79 | the frozen header is what the serializer writes for its fields |
| `Issue.CollectExtensions` | src/valiss/token.py:299-310 | the loop computes the sorted claim, or refuses |
| `Issue.PayloadDecodes` | src/valiss/token.py:617-634 | typed decoding inverts the sparse claims: omitted zero fields come back as zero |
| `Issue.WireKeys` | src/valiss/token.py:344-357 | the claims stand in the wire order, and those that are empty or zero are left out |
| `Issue.BodyWireKeys` | src/valiss/token.py:382-386 | so do the fields of the body |
| `Issue.ThreeSegments` | src/valiss/token.py:502-504 | three encoded segments joined by dots split into exactly those |
| `Issue.EncodedDecodes` | src/valiss/token.py:329-360 | an encoded token decodes, under the signer's key, to the claims it was made from, and has three segments |
| `Minting.ClaimCharacterised` | src/valiss/token.py:299-310 | the extensions claim exists exactly when names are nonempty and distinct, and is the sorted list of them |
| `Minting.SortedByBytes` | src/valiss/token.py:308-310 | the claim lists extension names in the order of their UTF-8 bytes, as Go sorts map keys |
| `Minting.ExtensionOrderIrrelevant` | src/valiss/token.py:308-310 | the order extensions are passed in never shows in a token |
| `Minting.IssuesExactly` | src/valiss/token.py:363-467 | a credential is minted exactly when signer and subject hold the roles of its level, lifetime and expiry are not both given, a lifetime is positive and extension names are distinct |
| `Minting.IssuesMessageExactly` | src/valiss/message.py:83-136 | a message is minted exactly by a user key, with a well-shaped checksum if any, distinct extension names, a consistent validity that yields an expiry, and an embedded chain only if it is self-consistent and ends at the minting key |
| `Minting.HexSha256Exactly` | src/valiss/message.py:67-68 | the checksums a message can be minted with are the printed forms of 32-byte digests |
| `Minting.OperatorRoundTrip` | src/valiss/token.py:659-678 | a minted operator token verifies to the minted name or key, epoch and extensions; its mint time, expiry and activation are those given, cut to whole seconds, and absent when not given or in second zero; its id is the base32 of the hash of the other claims it carries |
| `Minting.AccountRoundTrip` | src/valiss/token.py:681-699 | so does an account token under the operator's key |
| `Minting.UserRoundTrip` | src/valiss/token.py:702-723 | so does a user token under the account's key, bearer flag included |
| `Minting.MessageDecodes` | src/valiss/message.py:83-136 | so does a minted message, with its audience, checksum and chain |
| `Lifetime.RequestWithin` | src/valiss/verifier.py:277-308 | a request is honoured only inside the validity its tokens were minted with: not before the activation, not after the expiry, widened by the skew |
| `Lifetime.MessageWithin` | src/valiss/message.py:249-294 | a message is accepted only inside the validity it, its chain and the operator token enforced were minted with |
| `Lifetime.CredentialHonoured` | src/valiss/token.py:313-326 | so no verifier honours a minted account or user token outside the validity given to the minter, an activation in whole seconds exactly |
| `Lifetime.MessageHonoured` | src/valiss/message.py:83-136 | nor any receiver a minted message |
| `Lifetime.SameIdSameClaims` | src/valiss/token.py:356 | two tokens with content-derived ids that are equal say the same, unless the hash confuses their contents |
| `Lifetime.MintedIdsHonest` | src/valiss/keyring.py:43-44 | so equal ids mean equal claims among minted operator tokens whose contents the hash tells apart |
| `Creds.Between` | src/valiss/creds.py:136-167 | the line loop computes the section scanner |
| `Creds.CheckVersion` | src/valiss/creds.py:110-133 | the loop judges the first version line and no other |
| `Creds.VersionDecides` | src/valiss/creds.py:110-133 | the first version line decides: supported passes, another integer is unsupported, anything else malformed |
| `Creds.VersionExactly` | src/valiss/creds.py:37-38 | an integer is digits with at most one sign, and the supported one is 1, with or without a plus and leading zeros |
| `Creds.VersionedFile` | src/valiss/creds.py:110-133 | for every n, a file whose first version line says n is refused as unsupported when n is not 1, whatever else it holds; with 1, outside the sections, it parses as without that line when no other follows |
| `Creds.VersionedFirst` | src/valiss/creds.py:110-133 | so it is when that line is the first of the file |
| `Creds.SectionExactly` | src/valiss/creds.py:136-167 | the scanner returns a payload exactly when it is the one line, but for blank lines and the begin marker again, between the first begin marker and the next end marker; nothing exactly when there is no begin marker; and calls everything else malformed |
| `Creds.Parse` | src/valiss/creds.py:87-97 | the steps compute `ParseText`, first error first |
| `Creds.ParsedExactly` | src/valiss/creds.py:87-97 | a file parses to given credentials exactly when its version passes, each section holds the field, and one of the two tokens is there |
| `Creds.RefusedExactly` | src/valiss/creds.py:87-97 | a file of another version is refused as such whatever it holds, one that passes and has neither token marker as missing its tokens, and every other refusal is malformed |
| `Creds.Format` | src/valiss/creds.py:69-84 | the accumulated text is the file's lines |
| `Creds.FormatStrips` | src/valiss/creds.py:69-84 | spaces around a field never reach the file |
| `Creds.BundleFile` | src/valiss/creds.py:69-84 | the printed file of a bundle, line by line |
| `Creds.UserFile` | src/valiss/creds.py:69-84 | the printed file of a user without the account token, with a seed or without |
| `Creds.BeginText` | src/valiss/creds.py:40-45 | the lines that open the sections |
| `Creds.EndText` | src/valiss/creds.py:40-45 | the lines that close them |
| `Creds.RoundTrip` | src/valiss/creds.py:69-97 | parsing the printed file gives the credentials back exactly when a token is present, every field is one trimmed line that is not its own marker, and none opens another section too early |
| `Text.StripTakesSpaces` | src/valiss/creds.py:117 | stripping takes white space off both ends and nothing else |
| `Text.StripSurrounded` | src/valiss/creds.py:117 | and all of it |
| `Creds.NoiseImmunity` | src/valiss/creds.py:136-167 | a blank line, or a line outside the sections that is neither a begin marker nor a version line, changes nothing between any two lines of any file |
| `Creds.NoiseFirst` | src/valiss/creds.py:136-167 | nor before the first line |
| `Creds.NoiseLast` | src/valiss/creds.py:136-167 | nor after the last line, ended by a newline or not |
| `Creds.PrefixSafety` | src/valiss/creds.py:69-97 | every prefix of a printed file is refused or parses to fields that are each whole or empty |
| `Emitter.Mints` | src/valiss/_msgtransport.py:26-52 | credentials that pass the minter, with the seed of their own user, mint a message with their epoch, audience and body hash, and with their chain unless negotiating |
| `Emitter.MinterExactly` | src/valiss/_msgtransport.py:26-52 | credentials pass the minter exactly when all three parts are there, the seed reads, the account token verifies under its own issuer, the user token under the account, and both are of one epoch |
| `Emitter.SeedSurroundings` | src/valiss/nkeys.py:164-170 | white space around a seed does not matter |
| `Emitter.WindowsDecide` | src/valiss/message.py:217-311 | with the chain embedded or supplied, the epochs equal and the bindings met, acceptance is decided by the three windows alone |
| `Emitter.AcceptedExactly` | src/valiss/message.py:217-311 | such a message is accepted under the account's issuer at exactly the instants inside the account and user windows up to its floored expiry, widened by the skew |
| `Emitter.AcceptedThroughout` | src/valiss/token.py:313-326 | with a skew of at least a second it is accepted through its whole lifetime despite the flooring |
| `Emitter.SignatureVerifies` | src/valiss/token.py:758-822 | a request signature made with a key's seed verifies under that key at exactly the instants within the skew of its timestamp |
| `Emitter.RequestAuthenticates` | src/valiss/verifier.py:251-328 | a request signed with credentials that pass the minter authenticates, under their operator and as their account and user, at exactly the instants inside both windows and within the skew of its timestamp, as long as the account is allowed |
| `Emitter.DeliveredByNegotiation` | src/valiss/httpsig/_client.py:61-86 | a negotiating emitter's message is accepted within two sends, whatever the receiver's cache holds at each, when the second is read inside the account and user windows and before the floored expiry, widened by the skew |
| `Emitter.BundleReady` | src/valiss/token.py:394-467 | end to end: an operator, an account and a user key always mint credentials that pass the minter, belong to that operator, account and user, share the epoch, and so can sign messages accepted under that operator |
| `Emitter.BundleSurvivesFile` | src/valiss/creds.py:69-97 | the credentials file of any such bundle parses back to it |

Where the code and its own documentation differ, the model follows the code:

- `authenticate_message` documents a genuine failure as a plain rejection. On the
  cached path any failure of a chainless token evicts the entry and asks for the
  chain (src/valiss/_msgtransport.py:145-155); `EvictedExactly` says when.
- `chain.py` promises that only chains that survived full verification are stored.
  When the static options name a chain, the detached pair is stored unverified
  (`PinnedStoresAnything`). Naming it as absent is enough: that still overrides the
  detached pair, and a token with an embedded chain then verifies by itself.
  `StoresOnlyChainsExactly` says exactly when the promise is kept, and `CacheSound`
  is about options that name no chain.
- The comment at src/valiss/chain.py:45 has the recency order backwards: an eviction
  takes the entry whose last use is the oldest, and that is the first one.
- Two signed requests with one nonce are not suppressed for the closed window: at
  the single instant where signature window and retention meet, both pass
  (`SameRequestTwice`, `BoundIsTight`).

## Left out

- Ed25519 and SHA-256 themselves, key generation, and the parsing of RFC 3339 timestamps and of standard base64: parameters of the model.
- Json.GoJsonRoundTrip: holds a floating-point number by its text; which text the interpreter prints for a number, and that reading it gives the number back, is the interpreter's.
- JSON beyond RFC 8259 that the library parser accepts: NaN, lone surrogates, byte-order and UTF-16 detection, and the interpreter's limits on digits and nesting.
- Wire.TypedExactly: calls a wrongly typed value inside an embedded chain object malformed, where the source decodes it and fails later.
- Overflow of the datetime type while minting: the round trips ask for times it can hold.
- The text of error messages.
- The Django, ASGI and gRPC adapters, header handling, the allowlist's own structure and URL splitting: framework plumbing; an allowlist is an arbitrary predicate.
- The extension grants (`authorizes`, `covered`, `authorize_ext`) and the typed handler decorator: short conjunctions over what is modelled.
- Locks: each cache operation is one atomic step, and the replay cache's clock readings are taken to be in lock order.
- Consumer hooks with state of their own: validators and extension types are functions here.
- File reading and the static resolver of account tokens.
- ReplayBound.SameRequestTwice: speaks of the replay gate, not of the hooks after it, since a request that a hook refuses has consumed its nonce too.
- Message.RefusalMeans: the reason given is true, but which of several true ones comes first is said only of the bindings (`BindingsLast`), of expiry before activation, and of refusals over time (`AcceptingInterval`).
- RequestVerifier.RefusalMeans: likewise says that the reason is true, not that it is the first of several.
