/**
 * The DIGEST-MD5 SASL authenticator of a client-to-server stream
 * (`digestMD5Authenticator`): a three-state machine that sends a challenge,
 * checks the client's digest response against the stored password, answers
 * with `rspauth`, and finally reports success.
 *
 * The pure functions below (`Step` and the handlers' `...Step` functions)
 * are the specification; the `Authenticator` class updates its fields and
 * the stream's log as the source does, and each of its methods is proved to
 * do what the matching function says.
 */
module DigestAuth {
  import opened Wrappers
  import opened Text
  import opened DigestParams
  import opened Digest

  /** `digestMD5State`. */
  datatype State = Start | Challenged | Authenticated

  /** An XML element as far as the authenticator looks at it: its name and its text. */
  datatype Element = Element(name: string, text: string)

  /** What `FetchUser` can answer: an error, no such user, or the stored user. */
  datatype Lookup = LookupFailed(cause: string) | NoSuchUser | Found(user: User)

  /** The errors the authenticator returns; a storage error is passed on as it came. */
  datatype Error = NotAuthorized | MalformedRequest | IncorrectEncoding | StorageFailure(cause: string)

  /** A handler's result: `nil` or an error. */
  datatype Outcome = Ok | Fail(error: Error)

  /**
   * What the authenticator depends on but does not define: the stream's
   * domain, MD5, base64 encoding and decoding (decoding can fail), and the
   * user store.
   */
  datatype Env = Env(
    domain: string,
    md5: Hash,
    encode: string -> string,
    decode: string -> Option<string>,
    fetchUser: string -> Lookup)

  /** The authenticator's own fields. */
  datatype Session = Session(state: State, username: string, authenticated: bool)

  /** A new or reset authenticator: at the start, nobody, not authenticated. */
  const Initial := Session(Start, "", false)

  /** What a handler leaves behind: the new fields, its result and the elements it sent. */
  datatype StepResult = StepResult(session: Session, outcome: Outcome, sent: seq<Element>)

  /**
   * The comma-separated parts of the challenge: `realm="<domain>"`,
   * `nonce="<nonce>"`, `qop="auth"`, `charset=utf-8` and `algorithm=md5-sess`.
   */
  function ChallengePieces(domain: string, nonce: string): seq<string>
  {
    [RenderPiece(Realm, domain), RenderPiece(Nonce, nonce), RenderPiece(Qop, "auth"),
     KeyName(Charset) + ['='] + "utf-8", "algorithm" + ['='] + "md5-sess"]
  }

  /**
   * The challenge the server sends first (before base64 encoding):
   * `realm="<domain>",nonce="<nonce>",qop="auth",charset=utf-8,algorithm=md5-sess`.
   */
  function ChallengeText(domain: string, nonce: string): string
  {
    Join(ChallengePieces(domain, nonce), ',')
  }

  /**
   * The challenge, written out as the text the server sends (the literal is
   * broken at its commas only to keep the proof small).
   */
  lemma ChallengeTextIsLiteral(domain: string, nonce: string)
    ensures ChallengeText(domain, nonce) ==
      "realm=\"" + domain + "\",nonce=\"" + nonce + "\",qop=\"auth\"" + ",charset=utf-8" + ",algorithm=md5-sess"
  {
    var ps := ChallengePieces(domain, nonce);
    var a, b, c, d, e := ps[0], ps[1], ps[2], ps[3], ps[4];
    JoinSnoc([a], b, ',');
    JoinSnoc([a, b], c, ',');
    JoinSnoc([a, b, c], d, ',');
    JoinSnoc([a, b, c, d], e, ',');
    assert [a] + [b] == [a, b] && [a, b] + [c] == [a, b, c];
    assert [a, b, c] + [d] == [a, b, c, d] && [a, b, c, d] + [e] == ps;
    Regroup(KeyName(Realm) + ['='], "\"", domain, [','], KeyName(Nonce) + ['='], nonce, c, d, e);
    ChallengeLiterals();
  }

  /** The string algebra behind ChallengeTextIsLiteral, on arbitrary parts. */
  lemma Regroup(k1: string, q: string, x: string, cm: string, k2: string, y: string, c: string, d: string, e: string)
    ensures k1 + (q + x + q) + cm + (k2 + (q + y + q)) + cm + c + cm + d + cm + e
         == (k1 + q) + x + (q + cm + k2 + q) + y + (q + cm + c) + (cm + d) + (cm + e)
  {
  }

  /** The fixed parts of the challenge, each as one literal. */
  lemma ChallengeLiterals()
    ensures KeyName(Realm) + ['='] + "\"" == "realm=\""
    ensures "\"" + [','] + (KeyName(Nonce) + ['=']) + "\"" == "\",nonce=\""
    ensures "\"" + [','] + RenderPiece(Qop, "auth") == "\",qop=\"auth\""
    ensures [','] + (KeyName(Charset) + ['='] + "utf-8") == ",charset=utf-8"
    ensures [','] + ("algorithm" + ['='] + "md5-sess") == ",algorithm=md5-sess"
  {
  }

  /** `handleStart`: send the challenge and move on to `Challenged`. */
  function StartStep(env: Env, s: Session, nonce: string): StepResult
  {
    StepResult(
      Session(Challenged, s.username, s.authenticated),
      Ok,
      [Element("challenge", env.encode(ChallengeText(env.domain, nonce)))])
  }

  /**
   * The checks of `handleChallenged` before the user is looked up, in the
   * source's order: realm, nonce count, qop, service type, digest URI. Each
   * failure is `NotAuthorized`.
   */
  predicate FormatChecks(domain: string, p: ParamValues)
  {
    if p.Get(Realm) != domain then false
    else if p.Get(NC) != "00000001" then false
    else if p.Get(Qop) != "auth" then false
    else if |p.Get(ServType)| > 0 && p.Get(ServType) != "xmpp" then false
    else if !HasPrefix(p.Get(DigestURI), "xmpp/") || p.Get(DigestURI)[5..] != domain then false
    else true
  }

  /** The validation part of `handleChallenged`: the format checks, the user, the response. */
  function Verify(env: Env, p: ParamValues): Result<User, Error>
  {
    if !FormatChecks(env.domain, p) then Failure(NotAuthorized)
    else match env.fetchUser(p.Get(Username))
      case LookupFailed(cause) => Failure(StorageFailure(cause))
      case NoSuchUser => Failure(NotAuthorized)
      case Found(user) =>
        if ComputeResponse(env.md5, p, user, true) != p.Get(Response) then Failure(NotAuthorized)
        else Success(user)
  }

  /** The end of `handleChallenged` once the parameters are parsed. */
  function RespondStep(env: Env, s: Session, p: ParamValues): (r: StepResult)
    ensures r.outcome.Fail? ==> r.session == s && r.sent == []
    ensures r.outcome == Ok ==> r.session.state == Authenticated && |r.sent| == 1
    ensures r.session.authenticated == s.authenticated
  {
    match Verify(env, p)
    case Failure(e) => StepResult(s, Fail(e), [])
    case Success(user) =>
      var rspauth := "rspauth=" + ComputeResponse(env.md5, p, user, false);
      StepResult(
        Session(Authenticated, user.username, s.authenticated),
        Ok,
        [Element("challenge", env.encode(rspauth))])
  }

  /** `handleChallenged`: decode and parse the client's response, then verify it. */
  function ChallengedStep(env: Env, s: Session, text: string): (r: StepResult)
    ensures r.outcome == Ok ==> r.session.state == Authenticated
    ensures r.session.authenticated == s.authenticated
  {
    if |text| == 0 then StepResult(s, Fail(MalformedRequest), [])
    else match env.decode(text)
      case None => StepResult(s, Fail(IncorrectEncoding), [])
      case Some(payload) => RespondStep(env, s, Parse(payload))
  }

  /** `handleAuthenticated`: mark the session authenticated and send `success`. */
  function AuthenticatedStep(s: Session): StepResult
  {
    StepResult(Session(s.state, s.username, true), Ok, [Element("success", "")])
  }

  /** `ProcessElement`: dispatch on the element's name and the state. */
  function Step(env: Env, s: Session, elem: Element, nonce: string): (r: StepResult)
    ensures r.outcome.Fail? ==> r.session == s && r.sent == []
    ensures |r.sent| <= 1
  {
    if s.authenticated then StepResult(s, Ok, [])
    else if elem.name == "auth" && s.state == Start then StartStep(env, s, nonce)
    else if elem.name == "response" && s.state == Challenged then ChallengedStep(env, s, elem.text)
    else if elem.name == "response" && s.state == Authenticated then AuthenticatedStep(s)
    else StepResult(s, Fail(NotAuthorized), [])
  }

  // ---------------------------------------------------------------------
  // Properties of the specification
  // ---------------------------------------------------------------------

  /** The element and state pairs that reach a handler. */
  predicate LegalPair(name: string, state: State)
  {
    (name == "auth" && state == Start)
    || (name == "response" && state == Challenged)
    || (name == "response" && state == Authenticated)
  }

  /** Once authenticated, every element is accepted and nothing happens. */
  lemma AuthenticatedIgnoresEverything(env: Env, s: Session, elem: Element, nonce: string)
    requires s.authenticated
    ensures Step(env, s, elem, nonce) == StepResult(s, Ok, [])
  {
  }

  /**
   * Any other pair is refused as not authorized, and nothing changes; of the
   * legal pairs, only a response to the challenge can fail.
   */
  lemma IllegalPairRejected(env: Env, s: Session, elem: Element, nonce: string)
    requires !s.authenticated
    ensures !LegalPair(elem.name, s.state) ==> Step(env, s, elem, nonce) == StepResult(s, Fail(NotAuthorized), [])
    ensures LegalPair(elem.name, s.state) && s.state != Challenged ==> Step(env, s, elem, nonce).outcome == Ok
  {
  }

  /** The first `auth` element gets exactly one challenge naming the domain and the nonce. */
  lemma StartSendsChallenge(env: Env, s: Session, elem: Element, nonce: string)
    requires !s.authenticated && s.state == Start && elem.name == "auth"
    ensures var r := Step(env, s, elem, nonce);
      && r.outcome == Ok
      && r.session == s.(state := Challenged)
      && r.sent == [Element("challenge", env.encode(ChallengeText(env.domain, nonce)))]
  {
  }

  /**
   * Read with the response parser, the challenge names the domain as realm,
   * carries the nonce, offers qop `auth` and charset `utf-8`, and nothing else
   * the parser knows (`algorithm` is not one of its keys). This needs a
   * domain and a nonce without commas, which a base64 nonce never holds.
   */
  lemma ChallengeReadsBack(domain: string, nonce: string)
    requires ',' !in domain && ',' !in nonce
    ensures var p := Parse(ChallengeText(domain, nonce));
      && p.Get(Realm) == domain && p.Get(Nonce) == nonce
      && p.Get(Qop) == "auth" && p.Get(Charset) == "utf-8"
      && p.Get(Username) == "" && p.Get(Response) == ""
  {
    ChallengeParses(domain, nonce);
    ChallengeSettingsRead(domain, nonce);
  }

  lemma ChallengeSettingsRead(domain: string, nonce: string)
    ensures var p := ApplyAll(ChallengeSettings(domain, nonce));
      && p.Get(Realm) == domain && p.Get(Nonce) == nonce
      && p.Get(Qop) == "auth" && p.Get(Charset) == "utf-8"
      && p.Get(Username) == "" && p.Get(Response) == ""
  {
    var es := ChallengeSettings(domain, nonce);
    LastEntryWins(es, Realm, 0);
    LastEntryWins(es, Nonce, 1);
    LastEntryWins(es, Qop, 2);
    LastEntryWins(es, Charset, 3);
    UnaskedFieldStaysEmpty(es, Username);
    UnaskedFieldStaysEmpty(es, Response);
  }

  /** What the parser reads from the pieces of the challenge, in order. */
  function ChallengeSettings(domain: string, nonce: string): seq<Option<Setting>>
  {
    [Some(Setting(Realm, domain)), Some(Setting(Nonce, nonce)), Some(Setting(Qop, "auth")),
     Some(Setting(Charset, "utf-8")), None]
  }

  lemma ChallengeParses(domain: string, nonce: string)
    requires ',' !in domain && ',' !in nonce
    ensures Parse(ChallengeText(domain, nonce)) == ApplyAll(ChallengeSettings(domain, nonce))
  {
    var ps := ChallengePieces(domain, nonce);
    ChallengePiecesCommaFree(domain, nonce);
    SplitJoin(ps, ',');
    ChallengeEntries(domain, nonce);
  }

  lemma ChallengePiecesCommaFree(domain: string, nonce: string)
    requires ',' !in domain && ',' !in nonce
    ensures var ps := ChallengePieces(domain, nonce);
      |ps| >= 1 && forall k :: 0 <= k < |ps| ==> ',' !in ps[k]
  {
    KeyNameIsPlain(Realm);
    KeyNameIsPlain(Nonce);
    KeyNameIsPlain(Qop);
    KeyNameIsPlain(Charset);
  }

  /** What the parser reads from each piece of the challenge. */
  lemma ChallengeEntries(domain: string, nonce: string)
    ensures Entries(ChallengePieces(domain, nonce)) == ChallengeSettings(domain, nonce)
  {
    var ps := ChallengePieces(domain, nonce);
    MapSeqFive(Entry, ps[0], ps[1], ps[2], ps[3], ps[4]);
    assert ps == [ps[0], ps[1], ps[2], ps[3], ps[4]];
    RenderPieceEntry(Realm, domain);
    RenderPieceEntry(Nonce, nonce);
    RenderPieceEntry(Qop, "auth");
    CharsetEntry();
    AlgorithmEntry();
  }

  lemma CharsetEntry()
    ensures Entry(KeyName(Charset) + ['='] + "utf-8") == Some(Setting(Charset, "utf-8"))
  {
    KeyNameIsPlain(Charset);
    KeyValueSplits(KeyName(Charset), "utf-8");
    FieldOfKeyName(KeyName(Charset), Charset);
    UnquoteBare("utf-8");
  }

  /** `algorithm` is not a key the parser knows. */
  lemma AlgorithmEntry()
    ensures Entry("algorithm" + ['='] + "md5-sess") == None
  {
    KeyValueSplits("algorithm", "md5-sess");
    UnknownKeyIgnored("algorithm" + ['='] + "md5-sess");
  }

  /** A failed response changes no field and sends nothing. */
  lemma ChallengedFailureChangesNothing(env: Env, s: Session, text: string)
    ensures ChallengedStep(env, s, text).outcome.Fail? ==>
      ChallengedStep(env, s, text).session == s && ChallengedStep(env, s, text).sent == []
  {
  }

  /** Which error a response draws before its contents are looked at. */
  lemma ChallengedEncodingErrors(env: Env, s: Session, text: string)
    ensures |text| == 0 ==> ChallengedStep(env, s, text).outcome == Fail(MalformedRequest)
    ensures |text| > 0 && env.decode(text).None? ==> ChallengedStep(env, s, text).outcome == Fail(IncorrectEncoding)
  {
  }

  /** The digest URI check of the source accepts exactly `xmpp/` followed by the domain. */
  lemma DigestURIIsXmppDomain(uri: string, domain: string)
    ensures (HasPrefix(uri, "xmpp/") && uri[5..] == domain) <==> uri == "xmpp/" + domain
  {
    if HasPrefix(uri, "xmpp/") && uri[5..] == domain {
      assert uri == uri[..5] + uri[5..];
    }
    if uri == "xmpp/" + domain {
      assert uri[..5] == "xmpp/";
      assert uri[5..] == domain;
    }
  }

  /** The checks before the user is looked up. */
  predicate FormatAccepted(env: Env, p: ParamValues)
  {
    && p.Get(Realm) == env.domain
    && p.Get(NC) == "00000001"
    && p.Get(Qop) == "auth"
    && (p.Get(ServType) == "" || p.Get(ServType) == "xmpp")
    && p.Get(DigestURI) == "xmpp/" + env.domain
  }

  /** A response a server accepts: well-formed, for a known user, with the right digest. */
  predicate Accepts(env: Env, p: ParamValues)
  {
    && FormatAccepted(env, p)
    && env.fetchUser(p.Get(Username)).Found?
    && ComputeResponse(env.md5, p, env.fetchUser(p.Get(Username)).user, true) == p.Get(Response)
  }

  /** The source's chain of format checks accepts exactly what FormatAccepted describes. */
  lemma FormatChecksAccept(env: Env, p: ParamValues)
    ensures FormatChecks(env.domain, p) <==> FormatAccepted(env, p)
  {
    DigestURIIsXmppDomain(p.Get(DigestURI), env.domain);
  }

  /**
   * Verification succeeds exactly on the responses Accepts describes, with
   * the user the store returned. A storage error is reported only for a
   * well-formed response, and every other failure is `NotAuthorized`.
   */
  lemma VerifyAccepts(env: Env, p: ParamValues)
    ensures Verify(env, p).Success? <==> Accepts(env, p)
    ensures Verify(env, p).Success? ==> Verify(env, p).value == env.fetchUser(p.Get(Username)).user
    ensures Verify(env, p).Failure? && Verify(env, p).error.StorageFailure? <==>
      FormatAccepted(env, p) && env.fetchUser(p.Get(Username)).LookupFailed?
    ensures Verify(env, p).Failure? && !Verify(env, p).error.StorageFailure? ==> Verify(env, p).error == NotAuthorized
  {
    FormatChecksAccept(env, p);
  }

  /** Verification reads the parameters only through their fields. */
  lemma VerifyReadsFields(env: Env, p: ParamValues, q: ParamValues)
    requires forall f :: p.Get(f) == q.Get(f)
    ensures Verify(env, p) == Verify(env, q)
  {
    var u := p.Get(Username);
    if env.fetchUser(u).Found? {
      ResponseReadsFields(env.md5, p, q, env.fetchUser(u).user, true);
    }
  }

  /** The end of `handleChallenged` reads the parameters only through their fields. */
  lemma RespondReadsFields(env: Env, s: Session, p: ParamValues, q: ParamValues)
    requires forall f :: p.Get(f) == q.Get(f)
    ensures RespondStep(env, s, p) == RespondStep(env, s, q)
  {
    VerifyReadsFields(env, p, q);
    if Verify(env, p).Success? {
      ResponseReadsFields(env.md5, p, q, Verify(env, p).value, false);
    }
  }

  /**
   * A response is accepted exactly when it is non-empty, decodes, and its
   * parameters pass every check; the server then answers with `rspauth`,
   * takes the stored user's name and moves to `Authenticated`, still not
   * authenticated.
   */
  lemma ChallengedSucceedsIff(env: Env, s: Session, text: string)
    ensures ChallengedStep(env, s, text).outcome == Ok <==>
      |text| > 0 && env.decode(text).Some? && Accepts(env, Parse(env.decode(text).value))
    ensures ChallengedStep(env, s, text).outcome == Ok ==>
      var p := Parse(env.decode(text).value);
      var user := env.fetchUser(p.Get(Username)).user;
      && ChallengedStep(env, s, text).session == Session(Authenticated, user.username, s.authenticated)
      && ChallengedStep(env, s, text).sent ==
           [Element("challenge", env.encode("rspauth=" + ComputeResponse(env.md5, p, user, false)))]
  {
    if |text| > 0 && env.decode(text).Some? {
      VerifyAccepts(env, Parse(env.decode(text).value));
    }
  }

  /**
   * No element moves the session back. The state either stays or takes one
   * of the two forward edges `Start -> Challenged -> Authenticated`. The flag
   * is never cleared, and it is only set in the `Authenticated` state. Only
   * Reset goes back to the start.
   */
  lemma StepNeverGoesBack(env: Env, s: Session, elem: Element, nonce: string)
    ensures var t := Step(env, s, elem, nonce).session;
      || t.state == s.state
      || (s.state == Start && t.state == Challenged)
      || (s.state == Challenged && t.state == Authenticated)
    ensures s.authenticated ==> Step(env, s, elem, nonce).session.authenticated
    ensures Step(env, s, elem, nonce).session.authenticated && !s.authenticated ==>
      s.state == Authenticated && Step(env, s, elem, nonce).session.state == Authenticated
  {
  }

  /** A name the store holds: some lookup returns a user of that name. */
  ghost predicate StoredName(env: Env, name: string)
  {
    exists key :: env.fetchUser(key).Found? && env.fetchUser(key).user.username == name
  }

  /**
   * What holds of the authenticator's fields at every point: only the last
   * state can be authenticated, and in the last state the username is a
   * name the store returned.
   */
  ghost predicate Inv(env: Env, s: Session)
  {
    && (s.authenticated ==> s.state == Authenticated)
    && (s.state == Authenticated ==> StoredName(env, s.username))
  }

  lemma InitialInv(env: Env)
    ensures Inv(env, Initial)
  {
  }

  /** Every element keeps the invariant. */
  lemma StepPreservesInv(env: Env, s: Session, elem: Element, nonce: string)
    requires Inv(env, s)
    ensures Inv(env, Step(env, s, elem, nonce).session)
  {
    if !s.authenticated && elem.name == "response" && s.state == Challenged && |elem.text| > 0 {
      match env.decode(elem.text)
      case None =>
      case Some(payload) =>
        var p := Parse(payload);
        if Verify(env, p).Success? {
          VerifyAccepts(env, p);
          var key := p.Get(Username);
          assert env.fetchUser(key).Found? && env.fetchUser(key).user.username == Step(env, s, elem, nonce).session.username;
        }
    }
  }

  /** What reaches the authenticator: an element (with the nonce a challenge would use) or a reset. */
  datatype Input = Receive(elem: Element, nonce: string) | ResetSession

  /** The fields after one input. */
  function Next(env: Env, s: Session, input: Input): Session
  {
    match input
    case Receive(elem, nonce) => Step(env, s, elem, nonce).session
    case ResetSession => Initial
  }

  /** The fields after a run of inputs. */
  function Run(env: Env, s: Session, inputs: seq<Input>): Session
    decreases |inputs|
  {
    if inputs == [] then s else Run(env, Next(env, s, inputs[0]), inputs[1..])
  }

  /** Every run keeps the invariant. */
  lemma {:induction false} RunPreservesInv(env: Env, s: Session, inputs: seq<Input>)
    requires Inv(env, s)
    ensures Inv(env, Run(env, s, inputs))
    decreases |inputs|
  {
    if inputs != [] {
      match inputs[0] {
        case Receive(elem, nonce) => StepPreservesInv(env, s, elem, nonce);
        case ResetSession => InitialInv(env);
      }
      RunPreservesInv(env, Next(env, s, inputs[0]), inputs[1..]);
    }
  }

  /**
   * A `response` element whose payload decodes and passes verification,
   * digest included, as the user called `name`.
   */
  predicate VerifiesAs(env: Env, input: Input, name: string)
  {
    && input.Receive?
    && input.elem.name == "response"
    && |input.elem.text| > 0
    && env.decode(input.elem.text).Some?
    && var r := Verify(env, Parse(env.decode(input.elem.text).value));
       r.Success? && r.value.username == name
  }

  /** The inputs after position `k` hold no reset. */
  predicate NoResetAfter(inputs: seq<Input>, k: int)
  {
    forall j :: 0 <= j < |inputs| && k < j ==> inputs[j].Receive?
  }

  /**
   * An input ends in `Authenticated` either by staying there under the same
   * name (an element, not a reset) or by verifying as that name.
   */
  lemma NextIntoAuthenticated(env: Env, s: Session, input: Input)
    ensures var t := Next(env, s, input);
      t.state == Authenticated ==>
        || (input.Receive? && s.state == Authenticated && t.username == s.username)
        || VerifiesAs(env, input, t.username)
  {
  }

  /**
   * A run that ends in `Authenticated` either stayed there from its start,
   * under the same name and with no reset, or holds an input that is `good`
   * for the final username with no reset after it, provided every input
   * that ends in `Authenticated` without staying there is `good` for the
   * name it ends with.
   */
  lemma {:induction false} RunHistoryBy(env: Env, s: Session, inputs: seq<Input>, good: (Input, string) -> bool)
    requires forall s', i :: Next(env, s', i).state == Authenticated ==>
        || (i.Receive? && s'.state == Authenticated && Next(env, s', i).username == s'.username)
        || good(i, Next(env, s', i).username)
    ensures var t := Run(env, s, inputs);
      t.state == Authenticated ==>
        || (s.state == Authenticated && t.username == s.username && NoResetAfter(inputs, -1))
        || exists k :: 0 <= k < |inputs| && good(inputs[k], t.username) && NoResetAfter(inputs, k)
    decreases |inputs|
  {
    if inputs != [] {
      var rest := inputs[1..];
      var next := Next(env, s, inputs[0]);
      var t := Run(env, next, rest);
      RunHistoryBy(env, next, rest, good);
      if t.state == Authenticated {
        if exists k :: 0 <= k < |rest| && good(rest[k], t.username) && NoResetAfter(rest, k) {
          var k :| 0 <= k < |rest| && good(rest[k], t.username) && NoResetAfter(rest, k);
          assert inputs[k + 1] == rest[k];
          assert forall j :: k + 1 < j < |inputs| ==> inputs[j] == rest[j - 1];
          assert NoResetAfter(inputs, k + 1);
        } else {
          assert forall j :: 0 < j < |inputs| ==> inputs[j] == rest[j - 1];
          assert NoResetAfter(inputs, 0);
        }
      }
    }
  }

  /**
   * A run that ends in `Authenticated` either stayed there from its start,
   * under the same name and with no reset, or holds a response that verified
   * as the final username with no reset after it.
   */
  lemma RunHistory(env: Env, s: Session, inputs: seq<Input>)
    ensures var t := Run(env, s, inputs);
      t.state == Authenticated ==>
        || (s.state == Authenticated && t.username == s.username && NoResetAfter(inputs, -1))
        || exists k :: 0 <= k < |inputs| && VerifiesAs(env, inputs[k], t.username) && NoResetAfter(inputs, k)
  {
    var good := (i: Input, n: string) => VerifiesAs(env, i, n);
    forall s': Session, i: Input
      ensures Next(env, s', i).state == Authenticated ==>
        || (i.Receive? && s'.state == Authenticated && Next(env, s', i).username == s'.username)
        || good(i, Next(env, s', i).username)
    {
      NextIntoAuthenticated(env, s', i);
    }
    RunHistoryBy(env, s, inputs, good);
  }

  /**
   * Whatever a client sends, from a new authenticator: once it reports
   * authenticated, it is in the last state, and the run holds a response
   * whose payload passed every check, digest included, as the reported
   * username, with no reset after it.
   */
  lemma AuthenticatedOnlyAfterVerification(env: Env, inputs: seq<Input>)
    ensures var t := Run(env, Initial, inputs);
      t.authenticated ==>
        && t.state == Authenticated
        && exists k :: 0 <= k < |inputs| && VerifiesAs(env, inputs[k], t.username) && NoResetAfter(inputs, k)
  {
    InitialInv(env);
    RunPreservesInv(env, Initial, inputs);
    RunHistory(env, Initial, inputs);
  }

  /**
   * An honest client is let in: a payload that renders parameters passing
   * every check (and holding no comma) is accepted as the stored user.
   */
  lemma HonestClientAccepted(env: Env, s: Session, text: string, p: ParamValues)
    requires |text| > 0 && env.decode(text) == Some(Render(p))
    requires forall f :: ',' !in p.Get(f)
    requires Accepts(env, p)
    ensures ChallengedStep(env, s, text).outcome == Ok
    ensures ChallengedStep(env, s, text).session.username == env.fetchUser(p.Get(Username)).user.username
  {
    ParseRender(p);
    RespondReadsFields(env, s, Parse(Render(p)), p);
    VerifyAccepts(env, p);
  }

  // ---------------------------------------------------------------------
  // The stream and the authenticator
  // ---------------------------------------------------------------------

  /** The part of the client-to-server stream the authenticator uses: its domain and `SendElement`. */
  class Stream {
    const domain: string
    /** Every element sent so far, oldest first. */
    var sent: seq<Element>

    constructor (domain: string)
      ensures this.domain == domain && sent == []
    {
      this.domain := domain;
      sent := [];
    }

    /** `SendElement`: the element joins the log. */
    method SendElement(e: Element)
      modifies this
      ensures sent == old(sent) + [e]
    {
      sent := sent + [e];
    }
  }

  /** `digestMD5Authenticator`. */
  class Authenticator {
    const strm: Stream
    const md5: Hash
    const encode: string -> string
    const decode: string -> Option<string>
    const fetchUser: string -> Lookup
    var state: State
    var username: string
    var authenticated: bool

    /** The dependencies as one value. */
    function Environment(): Env
    {
      Env(strm.domain, md5, encode, decode, fetchUser)
    }

    /** The fields as one value. */
    function Snapshot(): Session
      reads this
    {
      Session(state, username, authenticated)
    }

    ghost predicate Valid()
      reads this
    {
      Inv(Environment(), Snapshot())
    }

    /** `newDigestMD5`: a new authenticator on `strm`, at the start. */
    constructor (strm: Stream, md5: Hash, encode: string -> string,
                 decode: string -> Option<string>, fetchUser: string -> Lookup)
      ensures this.strm == strm && this.md5 == md5 && this.encode == encode
      ensures this.decode == decode && this.fetchUser == fetchUser
      ensures Snapshot() == Initial
      ensures Valid()
    {
      this.strm, this.md5, this.encode := strm, md5, encode;
      this.decode, this.fetchUser := decode, fetchUser;
      state, username, authenticated := Start, "", false;
      new;
      InitialInv(Environment());
    }

    /** `Username`. */
    function Username(): string
      reads this
    {
      username
    }

    /** `Authenticated`. */
    function Authenticated(): bool
      reads this
    {
      authenticated
    }

    /** `ProcessElement`, with the nonce a challenge would carry given as an input. */
    method ProcessElement(elem: Element, nonce: string) returns (outcome: Outcome)
      modifies this, strm
      ensures var r := Step(Environment(), old(Snapshot()), elem, nonce);
        && Snapshot() == r.session
        && outcome == r.outcome
        && strm.sent == old(strm.sent) + r.sent
      ensures old(Valid()) ==> Valid()
    {
      ghost var before := Snapshot();
      if Authenticated() {
        outcome := Ok;
      } else if elem.name == "auth" && state == Start {
        outcome := HandleStart(nonce);
      } else if elem.name == "response" && state == Challenged {
        outcome := HandleChallenged(elem);
      } else if elem.name == "response" && state == State.Authenticated {
        outcome := HandleAuthenticated();
      } else {
        outcome := Fail(NotAuthorized);
      }
      if Inv(Environment(), before) {
        StepPreservesInv(Environment(), before, elem, nonce);
      }
    }

    /** `Reset`. */
    method Reset()
      modifies this
      ensures Snapshot() == Initial
      ensures Valid()
    {
      state := Start;
      username := "";
      authenticated := false;
      InitialInv(Environment());
    }

    /** `handleStart`. */
    method HandleStart(nonce: string) returns (outcome: Outcome)
      modifies this, strm
      ensures var r := StartStep(Environment(), old(Snapshot()), nonce);
        && Snapshot() == r.session
        && outcome == r.outcome
        && strm.sent == old(strm.sent) + r.sent
    {
      var chnge := ChallengeText(strm.domain, nonce);
      strm.SendElement(Element("challenge", encode(chnge)));
      state := Challenged;
      outcome := Ok;
    }

    /** `handleChallenged`. */
    method HandleChallenged(elem: Element) returns (outcome: Outcome)
      modifies this, strm
      ensures var r := ChallengedStep(Environment(), old(Snapshot()), elem.text);
        && Snapshot() == r.session
        && outcome == r.outcome
        && strm.sent == old(strm.sent) + r.sent
    {
      if |elem.text| == 0 {
        return Fail(MalformedRequest);
      }
      var b := decode(elem.text);
      if b.None? {
        return Fail(IncorrectEncoding);
      }
      var params := ParseParameters(b.value);
      ghost var p := params.Values();
      RespondReadsFields(Environment(), Snapshot(), p, Parse(b.value));
      outcome := Respond(params);
    }

    /** The validation and the answer of `handleChallenged`, on parsed parameters. */
    method Respond(params: Parameters) returns (outcome: Outcome)
      modifies this, strm
      ensures var r := RespondStep(Environment(), old(Snapshot()), old(params.Values()));
        && Snapshot() == r.session
        && outcome == r.outcome
        && strm.sent == old(strm.sent) + r.sent
    {
      var values := params.Values();
      ghost var env := Environment();
      assert params.username == values.Get(Field.Username) && params.response == values.Get(Response);
      var ok := CheckFormat(params);
      if !ok {
        return Fail(NotAuthorized);
      }
      var lookup := fetchUser(params.username);
      match lookup
      case LookupFailed(cause) =>
        return Fail(StorageFailure(cause));
      case NoSuchUser =>
        return Fail(NotAuthorized);
      case Found(user) =>
        var clientResp := ComputeResponse(md5, values, user, true);
        if clientResp != params.response {
          return Fail(NotAuthorized);
        }
        var serverResp := ComputeResponse(md5, values, user, false);
        var respAuth := "rspauth=" + serverResp;
        strm.SendElement(Element("challenge", encode(respAuth)));
        username := user.username;
        state := State.Authenticated;
        outcome := Ok;
    }

    /** The format checks of `handleChallenged`, on parsed parameters. */
    method CheckFormat(params: Parameters) returns (ok: bool)
      ensures ok == FormatChecks(strm.domain, params.Values())
    {
      if params.realm != strm.domain {
        return false;
      }
      if params.nc != "00000001" {
        return false;
      }
      if params.qop != "auth" {
        return false;
      }
      if |params.servType| > 0 && params.servType != "xmpp" {
        return false;
      }
      if !HasPrefix(params.digestURI, "xmpp/") || params.digestURI[5..] != strm.domain {
        return false;
      }
      return true;
    }

    /** `handleAuthenticated`. */
    method HandleAuthenticated() returns (outcome: Outcome)
      modifies this, strm
      ensures var r := AuthenticatedStep(old(Snapshot()));
        && Snapshot() == r.session
        && outcome == r.outcome
        && strm.sent == old(strm.sent) + r.sent
    {
      authenticated := true;
      strm.SendElement(Element("success", ""));
      outcome := Ok;
    }
  }
}
