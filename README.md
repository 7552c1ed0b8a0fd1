# DIGEST-MD5 authenticator of the jackal XMPP server, in Dafny

This project models jackal's server-side DIGEST-MD5 SASL authenticator
(`server/auth_digest_md5.go`) and proves properties of that model. Each
client-to-server stream has one authenticator. The authenticator walks
through three states:

- `Start`: it answers the client's `auth` element with a challenge naming
  the domain as realm and carrying a fresh nonce.
- `Challenged`: it decodes the client's `response`, parses its
  comma-separated `key=value` parameters, checks them in a fixed order,
  looks the user up in the store and compares the client's digest with
  its own (RFC 2831, section 2.1.2.1). On success it answers with
  `rspauth=` and the server digest.
- `Authenticated`: the next `response` element marks the session as
  authenticated, and the authenticator sends `success`.

Once the session is authenticated, every element is ignored. `Reset`
returns the authenticator to `Start`.

The model is organised by module:

- `Wrappers` (`wrappers.dfy`): `Option` and `Result`.
- `Text` (`text.dfy`): strings and their helpers.
  - The code calls `strings.Split`, `HasPrefix`, `TrimPrefix`,
    `TrimSuffix`, `util.SplitKeyAndValue` and `hex.EncodeToString`.
  - `IndexOf`, `Join` and `HasSuffix` serve the specification and the
    proofs; the code does not call them itself.
  - A Go string is a sequence of bytes, and each `char` of a Dafny
    `string` stands for one byte.
- `DigestParams` (`params.dfy`), the parameter set and its parser, on two
  levels:
  - Functional: `Entry` reads one piece, `ApplyAll` folds the pieces and
    `Parse` parses a whole payload.
  - Imperative: the class `Parameters` holds the eleven string fields of
    `digestMD5Parameters` and is updated in place by `SetParameter`. The
    method `ParseParameters` splits the payload and runs the loop.
    `ParseParameters` is proved to give exactly `Parse`.
- `Digest` (`digest.dfy`): `computeResponse`. MD5 is a parameter mapping
  any byte string to 16 bytes. The model pins down how every hash input
  is assembled and how the raw digests are hex-encoded.
- `DigestAuth` (`auth.dfy`), the state machine, on two levels:
  - Specification: functions on a `Session` value (`Step`, `StartStep`,
    `ChallengedStep`, `RespondStep`, `AuthenticatedStep`, `Verify`).
  - Implementation: the class `Authenticator`, whose methods update its
    `state`, `username` and `authenticated` fields and send elements
    through a `Stream` object that logs them. Each method is proved to
    match its specification function.

  The lemmas about the specification functions state what the protocol
  promises:
  - how illegal element/state pairs are handled;
  - the exact challenge;
  - which responses are accepted;
  - that failures change nothing;
  - a property of every run: a session reports authenticated only after
    the run held a response that passed every check, digest included, as
    that username, with no reset since.

The parser splits on every comma, quoted or not. So a value that holds a
comma cannot be sent intact, and the round-trip lemmas (`ParseRender`,
`HonestClientAccepted`, `ChallengeReadsBack`) require comma-free values.
The base64 nonce and the domain never hold commas.

An authenticated session's username is whatever the store returned for
the looked-up name. The code does not check that it is non-empty, and
neither does the model.

## Model

| member | source | states |
|---|---|---|
| Text.Split | server/auth_digest_md5.go:213 | `strings.Split` always returns at least one piece |
| Text.JoinSplit | server/auth_digest_md5.go:213 | splitting loses nothing: joining the pieces with the separator gives back the payload |
| Text.SplitPiecesFree | server/auth_digest_md5.go:213 | no piece of a split holds the separator |
| Text.SplitJoin | server/auth_digest_md5.go:213 | splitting a join of separator-free pieces gives back exactly those pieces |
| Text.SplitKeyAndValue | server/auth_digest_md5.go:46 | a piece with `=` is key, `=`, value, with no `=` in the key; a piece without `=` gives an empty key and an empty value |
| Text.HeadUnambiguous | server/auth_digest_md5.go:221 | a head without the separator is recovered from head, separator, tail, and so is the tail |
| Text.JoinUnambiguous | server/auth_digest_md5.go:242-247 | two equal-length lists whose parts, the last aside, hold no separator join to the same string only if they are equal |
| Text.Hex | server/auth_digest_md5.go:239-240 | hex encoding gives two lower-case hex digits per byte |
| Text.HexInjective | server/auth_digest_md5.go:248 | equal hex strings come from equal bytes, so comparing hex responses compares digests |
| DigestParams.FieldOf | server/auth_digest_md5.go:52-75 | the switch on the key: the field whose case label is the key, or none |
| DigestParams.Unquote | server/auth_digest_md5.go:48-50 | strips at most one leading and then at most one trailing double quote |
| DigestParams.Entry | server/auth_digest_md5.go:45-76 | what one piece does: split at the first `=`, unquote the value, name the field by the key, or nothing for an unknown key |
| DigestParams.Parse | server/auth_digest_md5.go:211-218 | the parameters a payload yields: its comma-split pieces applied in order to the empty set |
| DigestParams.KeyNameInjective | server/auth_digest_md5.go:52-75 | the eleven switch keys are pairwise distinct |
| DigestParams.FieldOfKeyName | server/auth_digest_md5.go:52-75 | a key selects field `f` if and only if it is `f`'s key name |
| DigestParams.UnquoteQuoted | server/auth_digest_md5.go:48-50 | a value in double quotes loses exactly those quotes |
| DigestParams.UnquoteBare | server/auth_digest_md5.go:48-50 | a value that neither starts nor ends with a quote is kept as it is |
| DigestParams.EntryNamesField | server/auth_digest_md5.go:45-76 | a piece sets field `f` if and only if its key is `f`'s name, and it sets it to the unquoted value |
| DigestParams.UnknownKeyIgnored | server/auth_digest_md5.go:52-75 | a piece whose key names no field sets nothing |
| DigestParams.ApplyGet | server/auth_digest_md5.go:52-75 | one piece changes the field it names and leaves every other field as it was |
| DigestParams.LastEntryWins | server/auth_digest_md5.go:211-218 | a field's parsed value comes from the last piece that sets it |
| DigestParams.UnaskedFieldStaysEmpty | server/auth_digest_md5.go:211-218 | a field no piece sets stays empty |
| DigestParams.LastOccurrenceWins | server/auth_digest_md5.go:211-218 | for raw pieces: the last piece whose key names the field decides its value, unquoted |
| DigestParams.AbsentKeyStaysEmpty | server/auth_digest_md5.go:211-218 | for raw pieces: a field whose key appears in no piece stays empty |
| DigestParams.KeyValueSplits | server/auth_digest_md5.go:46 | a piece `key=value` whose key holds no `=` splits back into that key and that value |
| DigestParams.KeyOfRendered | server/auth_digest_md5.go:46-50 | a rendered `key="value"` piece splits into the field's key and the quoted value |
| DigestParams.RenderPieceEntry | server/auth_digest_md5.go:45-76 | parsing a rendered `key="value"` piece sets exactly that field to exactly that value |
| DigestParams.RenderedPiecesCommaFree | server/auth_digest_md5.go:213 | a rendering of comma-free values has comma-free pieces |
| DigestParams.ParseRenderedField | server/auth_digest_md5.go:214-216 | folding the entries of a rendering of all eleven fields gives back each field |
| DigestParams.ParseRender | server/auth_digest_md5.go:211-218 | parsing a rendering of comma-free values gives back every field |
| DigestParams.Parameters.Values | server/auth_digest_md5.go:31-43 | the object's fields read as a parameter value, field by field |
| DigestParams.Parameters.constructor | server/auth_digest_md5.go:212 | a new parameter set has every field empty |
| DigestParams.Parameters.Store | server/auth_digest_md5.go:52-75 | an assignment sets one field and leaves the other ten unchanged |
| DigestParams.Parameters.SetParameter | server/auth_digest_md5.go:45-76 | a piece sets the field it names to its unquoted value, and every other field keeps its old value |
| DigestParams.SetAll | server/auth_digest_md5.go:213-216 | the loop leaves the fields equal to the fold of the pieces' entries, starting from empty |
| DigestParams.ParseParameters | server/auth_digest_md5.go:211-218 | returns a new parameter set whose every field is `Parse` of the payload |
| Digest.Credentials | server/auth_digest_md5.go:221 | the first hash input: username, realm and password, colon-separated |
| Digest.A1 | server/auth_digest_md5.go:222-228 | the raw 16-byte hash of the credentials, nonce and cnonce, plus the authzid only when non-empty, colon-separated |
| Digest.A2 | server/auth_digest_md5.go:230-237 | `AUTHENTICATE` for the client or nothing for the server, a colon, the digest URI |
| Digest.KD | server/auth_digest_md5.go:242-247 | the final hash input: HA1, nonce, nc, cnonce, qop and HA2, colon-separated |
| Digest.HA1 | server/auth_digest_md5.go:239 | the hex encoding of the hash of A1 |
| Digest.HA2 | server/auth_digest_md5.go:240 | the hex encoding of the hash of A2 |
| Digest.ComputeResponse | server/auth_digest_md5.go:220-249 | the response is 32 lower-case hex digits |
| Digest.ResponseReadsFields | server/auth_digest_md5.go:220-249 | the response depends on the parameters only through their field values |
| Digest.CredentialsUnambiguous | server/auth_digest_md5.go:221 | when username and realm hold no colon, the first hash input fixes username, realm and password |
| Digest.A2Unambiguous | server/auth_digest_md5.go:230-237 | A2 fixes whether the client or the server signs, and the digest URI |
| Digest.KDUnambiguous | server/auth_digest_md5.go:242-247 | when HA1, nonce, nc, cnonce and qop hold no colon, the final hash input fixes all six of its parts |
| Digest.FinalInputFixesHashes | server/auth_digest_md5.go:239-248 | with colon-free parameters, two equal final hash inputs have equal raw hashes of A1 and of A2 |
| Digest.ClientA2ExtendsServerA2 | server/auth_digest_md5.go:230-237 | the client's A2 is the server's with `AUTHENTICATE` in front, so they always differ |
| Digest.ResponseDependsOnA2Only | server/auth_digest_md5.go:220-249 | client and server values coincide whenever their A2 hashes do: they differ only through A2 |
| Digest.ClientServerFinalInputsDiffer | server/auth_digest_md5.go:239-248 | when MD5 separates the two A2 texts, the client's and the server's final hash inputs differ |
| DigestAuth.Step | server/auth_digest_md5.go:108-127 | the dispatch of `ProcessElement`: a failing element changes nothing and sends nothing, and no element sends more than one |
| DigestAuth.StartStep | server/auth_digest_md5.go:135-146 | `handleStart`: one challenge sent, the state moved to `Challenged`, the rest kept |
| DigestAuth.ChallengeText | server/auth_digest_md5.go:138 | the challenge text: realm, nonce, qop, charset and algorithm pieces, comma-separated |
| DigestAuth.ChallengeTextIsLiteral | server/auth_digest_md5.go:138 | the challenge is exactly `realm="<domain>",nonce="<nonce>",qop="auth",charset=utf-8,algorithm=md5-sess` |
| DigestAuth.ChallengedStep | server/auth_digest_md5.go:148-156 | `handleChallenged`: success leaves the session in `Authenticated`, and the authenticated flag is never touched |
| DigestAuth.FormatChecks | server/auth_digest_md5.go:158-177 | the five checks on realm, nc, qop, serv-type and digest URI, in the source's order |
| DigestAuth.Verify | server/auth_digest_md5.go:158-191 | the format checks, then the user lookup, then the comparison of the client's digest |
| DigestAuth.RespondStep | server/auth_digest_md5.go:156-203 | after parsing: a failure changes nothing and sends nothing; a success sends one element and moves to `Authenticated`; the flag is never touched |
| DigestAuth.AuthenticatedStep | server/auth_digest_md5.go:205-209 | `handleAuthenticated`: the flag set, `success` sent, state and username kept |
| DigestAuth.AuthenticatedIgnoresEverything | server/auth_digest_md5.go:108-111 | once authenticated, every element succeeds, changes nothing and sends nothing |
| DigestAuth.IllegalPairRejected | server/auth_digest_md5.go:112-126 | an element/state pair that reaches no handler gives `NotAuthorized` with nothing changed or sent; legal pairs outside `Challenged` succeed |
| DigestAuth.StartSendsChallenge | server/auth_digest_md5.go:135-146 | `auth` in `Start` sends one `challenge` holding the encoded challenge text and moves to `Challenged` |
| DigestAuth.ChallengeReadsBack | server/auth_digest_md5.go:138 | the challenge text, read with the response parser, gives realm = domain, the nonce, qop `auth`, charset `utf-8`, and no username or response |
| DigestAuth.ChallengeEntries | server/auth_digest_md5.go:138 | the five challenge pieces read as realm, nonce, qop, charset, and an `algorithm` key the parser ignores |
| DigestAuth.ChallengedFailureChangesNothing | server/auth_digest_md5.go:148-191 | a failed response leaves state, username and flag as they were and sends nothing |
| DigestAuth.ChallengedEncodingErrors | server/auth_digest_md5.go:149-155 | empty text is `MalformedRequest`; text that does not decode is `IncorrectEncoding` |
| DigestAuth.DigestURIIsXmppDomain | server/auth_digest_md5.go:175 | the digest URI passes exactly when it is `xmpp/` followed by the domain |
| DigestAuth.FormatChecksAccept | server/auth_digest_md5.go:158-177 | the chain of five checks passes exactly when realm, nc, qop, serv-type and digest URI have their required values |
| DigestAuth.VerifyAccepts | server/auth_digest_md5.go:158-191 | verification succeeds exactly for well-formed parameters of a found user with the right client digest, and returns that user; a storage error surfaces only after the format checks pass; every other failure is `NotAuthorized` |
| DigestAuth.VerifyReadsFields | server/auth_digest_md5.go:156-191 | verification depends on the parameters only through their field values |
| DigestAuth.RespondReadsFields | server/auth_digest_md5.go:158-202 | the whole validation and answer depend on the parameters only through their field values |
| DigestAuth.ChallengedSucceedsIff | server/auth_digest_md5.go:148-203 | a response succeeds if and only if it is non-empty, decodes, and its parameters pass every check; then it sends `rspauth=` with the server digest, takes the stored user's name and moves to `Authenticated`, not yet authenticated |
| DigestAuth.StepNeverGoesBack | server/auth_digest_md5.go:108-209 | the state stays or takes one of the edges `Start` to `Challenged` to `Authenticated`; the flag is never cleared and is only set in `Authenticated` |
| DigestAuth.InitialInv | server/auth_digest_md5.go:85-90 | a new authenticator satisfies the invariant |
| DigestAuth.StepPreservesInv | server/auth_digest_md5.go:108-209 | every element keeps the invariant: authenticated implies the last state, and in the last state the username is a name the store returned |
| DigestAuth.RunPreservesInv | server/auth_digest_md5.go:108-133 | every sequence of elements and resets keeps the invariant |
| DigestAuth.AuthenticatedOnlyAfterVerification | server/auth_digest_md5.go:100-133 | from a new authenticator, whatever is sent: reporting authenticated implies the last state and a response in the run whose payload passed every check, digest included, as the reported username, with no reset after it |
| DigestAuth.NextIntoAuthenticated | server/auth_digest_md5.go:108-133 | an input ends in `Authenticated` only by staying there under the same name or by being a response that verifies as the new name |
| DigestAuth.RunHistoryBy | server/auth_digest_md5.go:108-133 | by induction over a run: ending in `Authenticated` means staying there from the start with no reset, or an input that led there with no reset after it |
| DigestAuth.RunHistory | server/auth_digest_md5.go:148-203 | a run ending in `Authenticated` holds a verifying response for the final username with no reset after it, unless it started there and never reset |
| DigestAuth.HonestClientAccepted | server/auth_digest_md5.go:148-203 | a payload rendering comma-free parameters that pass every check is accepted as the stored user |
| DigestAuth.Stream.constructor | server/auth_digest_md5.go:79 | a stream starts with its domain and nothing sent |
| DigestAuth.Stream.SendElement | server/auth_digest_md5.go:142 | sending appends exactly that element to the log |
| DigestAuth.Authenticator.constructor | server/auth_digest_md5.go:85-90 | a new authenticator is in `Start` with an empty username, not authenticated, and satisfies the invariant |
| DigestAuth.Authenticator.Username | server/auth_digest_md5.go:96-98 | the `username` field |
| DigestAuth.Authenticator.Authenticated | server/auth_digest_md5.go:100-102 | the `authenticated` field |
| DigestAuth.Authenticator.ProcessElement | server/auth_digest_md5.go:108-127 | the new fields, the outcome and the elements sent are those of `Step`, and the invariant is kept |
| DigestAuth.Authenticator.Reset | server/auth_digest_md5.go:129-133 | the fields return to `Start`, empty username, not authenticated |
| DigestAuth.Authenticator.HandleStart | server/auth_digest_md5.go:135-146 | the new fields, the outcome and the elements sent are those of `StartStep` |
| DigestAuth.Authenticator.HandleChallenged | server/auth_digest_md5.go:148-203 | the new fields, the outcome and the elements sent are those of `ChallengedStep` on the element's text |
| DigestAuth.Authenticator.Respond | server/auth_digest_md5.go:158-202 | on parsed parameters: the new fields, the outcome and the elements sent are those of `RespondStep` |
| DigestAuth.Authenticator.CheckFormat | server/auth_digest_md5.go:158-177 | returns whether the parameters pass the five format checks, in the source's order |
| DigestAuth.Authenticator.HandleAuthenticated | server/auth_digest_md5.go:205-209 | sets the authenticated flag, sends `success` and changes nothing else |

## Left out

- MD5 (`md5Hash`, `server/auth_digest_md5.go:251-255`) is a parameter mapping any byte string to 16 bytes. Its internals are not modelled, and no property of MD5 beyond that shape is assumed.
- Base64 encoding and decoding are the parameters `encode` and `decode`. Failure to decode is `decode` returning `None`.
- `util.RandomBytes` is not part of this model. The nonce a challenge carries is an input of `ProcessElement` and `HandleStart`.
- `util.SplitKeyAndValue` is not part of this model. It is specified as a split at the first separator, and a string without one gives two empty strings.
- The storage layer (`storage.Instance().FetchUser`, `storage/storage.go:27`) is the parameter `fetchUser`. It returns an error, no user, or a user, and its internals and the singleton are left out.
- The XML element type is reduced to a name and a text. The SASL namespace and element construction are left out, and an element's name and text are what the code reads.
- The stream is reduced to its domain and a log of the elements sent.
- `Mechanism` and `UsesChannelBinding` return constants and are not modelled.
- The error values are constructors of `Error`. Their texts are left out, and a storage error keeps its cause as a string.
- Concurrency is not modelled: one authenticator serves one stream, and the code takes no locks.
- DigestParams.ParseRender: states the round trip field by field, and only for values without commas, because the parser splits quoted values at commas too.
- DigestAuth.HonestClientAccepted: covers only payloads whose values hold no comma, for the same reason.
- DigestAuth.ChallengeReadsBack: covers only a domain and a nonce without commas. The exact text is stated separately by `ChallengeTextIsLiteral`.
- DigestAuth.Authenticator.Respond and DigestAuth.Authenticator.CheckFormat are parts of `handleChallenged`, and DigestParams.SetAll is the loop of `parseParameters`, each split out as its own method.
