/**
 * Requests and responses of the HTTP handlers, the environment an invocation runs in,
 * and the header check that most handlers begin with: the `rs-uid`, `rs-email` and
 * `Authorization` headers must be present and non-empty, and `Authorization` must match
 * `^Bearer\s+(\S+)$`.
 */
module Http {
  import opened Wrappers
  import opened JsStrings
  import opened Store

  /** The parts of an API gateway event the handlers read. An absent query string is an
      empty map. */
  datatype Event = Event(headers: map<string, string>, body: Option<string>,
                         isBase64Encoded: bool, query: map<string, string>)

  /** The library calls the handlers delegate to, uninterpreted: base64 decoding,
      `querystring.parse`, `JSON.parse` (None when it throws) and SHA-256 in hex. */
  datatype Library = Library(fromBase64: string -> string,
                             parseQueryString: string -> map<string, string>,
                             parseJson: string -> Option<map<string, string>>,
                             sha256Hex: string -> string)

  /** What an invocation takes from outside the request: the clock (milliseconds since the
      epoch, as a decimal string), the one random id or token it draws, the store calls
      that fail, and the library. */
  datatype Env = Env(now: string, randomId: string, faults: set<Call>, lib: Library)

  predicate Fails(env: Env, c: Call) {
    c in env.faults
  }

  /** The `type` field of an error response body. */
  datatype ErrorKind =
    | InvalidUserDataException
    | InvalidTokenException
    | InvalidFormDataException
    | InvalidPostData
    | DuplicationNotAllowedException
    | PrimaryDuplicationException
    | InvalidIDException
    | RoomReadyException
    | NotFoundException

  /** Response bodies, up to the human-readable messages. `Untyped` is an error body with
      a message and no `type`. `Messages` is a scan result: its items are the messages
      by key and `Count` is their number. */
  datatype Body =
    | NoBody
    | Untyped
    | Error(kind: ErrorKind)
    | ServerError(cause: StoreError)
    | ConversationCreated(conversationID: string)
    | GroupCreated(groupID: string)
    | SessionIssued(token: string, uid: string)
    | Messages(items: map<MessageKey, string>, scannedCount: nat)
    | Profile(item: ProfileItem)
    | ConversationList(companions: map<string, string>, scannedCount: nat)

  /** An exception that escapes the handler. */
  datatype Fault = TypeError | SyntaxError | Thrown(cause: StoreError)

  datatype Outcome = Respond(status: int, body: Body) | Crash(fault: Fault)

  /** An invocation's outcome together with the store it leaves behind. */
  datatype Effect = Effect(out: Outcome, s: State)

  function Lookup(m: map<string, string>, k: string): Option<string> {
    if k in m then Some(m[k]) else None
  }

  /** `m[first] ?? m[second]`: the second name is consulted only when the first is absent. */
  function Coalesce(m: map<string, string>, first: string, second: string): Option<string> {
    if first in m then Some(m[first]) else Lookup(m, second)
  }

  /** A JavaScript value read from a string-valued record is truthy when it is present and
      not the empty string. */
  predicate Truthy(v: Option<string>) {
    v.Some? && v.value != ""
  }

  function Authorization(ev: Event): Option<string> {
    Coalesce(ev.headers, "Authorization", "authorization")
  }

  function ContentType(ev: Event): Option<string> {
    Coalesce(ev.headers, "content-type", "Content-Type")
  }

  /** The capture of `^Bearer\s+(\S+)$`. */
  function BearerToken(raw: string): (tok: Option<string>)
    ensures tok.Some? ==> tok.value != "" && NoSpace(tok.value)
  {
    if !StartsWith(raw, "Bearer") then None
    else
      var rest := raw[6..];
      var k := LeadingSpaces(rest);
      if 0 < k < |rest| && NoSpace(rest[k..]) then Some(rest[k..]) else None
  }

  /** The strings the expression matches: the word, a run of white space, and a token
      without white space. */
  predicate BearerShaped(raw: string, space: string, tok: string) {
    raw == "Bearer" + space + tok && space != "" && AllSpace(space) && tok != "" && NoSpace(tok)
  }

  /** Every capture comes from a string of the matched shape. */
  lemma BearerTokenSound(raw: string)
    requires BearerToken(raw).Some?
    ensures exists space :: BearerShaped(raw, space, BearerToken(raw).value)
  {
    var rest := raw[6..];
    var k := LeadingSpaces(rest);
    assert BearerShaped(raw, rest[..k], rest[k..]);
  }

  /** Every string of the matched shape yields its token. */
  lemma BearerTokenComplete(space: string, tok: string)
    requires space != "" && AllSpace(space) && tok != "" && NoSpace(tok)
    ensures BearerToken("Bearer" + space + tok) == Some(tok)
  {
    var raw := "Bearer" + space + tok;
    var rest := raw[6..];
    assert rest == space + tok;
    assert forall i :: 0 <= i < |space| ==> rest[i] == space[i];
    assert rest[|space|] == tok[0];
    var k := LeadingSpaces(rest);
    assert k == |space|;
    assert rest[k..] == tok;
  }

  /** The caller as the headers describe them. */
  datatype Credentials = Credentials(uid: string, email: string, token: string)

  datatype HeaderCheck = Authorized(creds: Credentials) | MissingHeaders | MalformedBearer

  /** The header check shared by every authenticated handler. */
  function CheckHeaders(ev: Event): (r: HeaderCheck)
    ensures r.Authorized? ==> r.creds.uid != "" && r.creds.email != "" && r.creds.token != ""
  {
    var uid := Lookup(ev.headers, "rs-uid");
    var email := Lookup(ev.headers, "rs-email");
    var raw := Authorization(ev);
    if !(Truthy(uid) && Truthy(email) && Truthy(raw)) then MissingHeaders
    else match BearerToken(raw.value)
      case None => MalformedBearer
      case Some(tok) => Authorized(Credentials(uid.value, email.value, tok))
  }

  /** The check passes exactly when both identity headers are non-empty and the
      authorization header has the bearer shape; the credentials are taken verbatim. */
  lemma CheckHeadersAuthorized(ev: Event, c: Credentials)
    ensures CheckHeaders(ev) == Authorized(c) <==>
      && Lookup(ev.headers, "rs-uid") == Some(c.uid) && c.uid != ""
      && Lookup(ev.headers, "rs-email") == Some(c.email) && c.email != ""
      && Authorization(ev).Some?
      && exists space :: BearerShaped(Authorization(ev).value, space, c.token)
  {
    var raw := Authorization(ev);
    if CheckHeaders(ev) == Authorized(c) {
      BearerTokenSound(raw.value);
    }
    if && Lookup(ev.headers, "rs-uid") == Some(c.uid) && c.uid != ""
       && Lookup(ev.headers, "rs-email") == Some(c.email) && c.email != ""
       && raw.Some?
       && exists space :: BearerShaped(raw.value, space, c.token)
    {
      var space :| BearerShaped(raw.value, space, c.token);
      BearerTokenComplete(space, c.token);
    }
  }

  /** The check fails on missing headers exactly when one of the three is absent or empty. */
  lemma CheckHeadersMissing(ev: Event)
    ensures CheckHeaders(ev) == MissingHeaders <==>
      !Truthy(Lookup(ev.headers, "rs-uid")) || !Truthy(Lookup(ev.headers, "rs-email")) ||
      !Truthy(Authorization(ev))
  {
  }

  /** The response to a failed header check, in handlers whose error bodies are typed. */
  function HeaderFailure(r: HeaderCheck): (out: Outcome)
    requires !r.Authorized?
    ensures out.Respond? && out.status == 400 && out.body.Error?
    ensures r.MissingHeaders? ==> out.body.kind == InvalidUserDataException
    ensures r.MalformedBearer? ==> out.body.kind == InvalidTokenException
  {
    match r
    case MissingHeaders => Respond(400, Error(InvalidUserDataException))
    case MalformedBearer => Respond(400, Error(InvalidTokenException))
  }
}
