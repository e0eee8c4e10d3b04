/**
 * Logging in: the body must be non-empty; it is decoded (here a multipart content type
 * without a boundary is answered with 400 rather than thrown); `email` and `password`
 * are required. The user row is read by email, and the stored password must equal the
 * SHA-256 hex digest of the given one. A fresh token then replaces the stored one, with
 * no condition, and is returned with the uid. No identity headers are read.
 */
module Login {
  import opened Wrappers
  import opened Store
  import opened Http
  import opened Forms
  import opened Db

  /** The stored row accepts the password: it exists, has a uid, and holds the digest. */
  predicate Accepts(s: State, email: string, password: string, lib: Library) {
    email in s.users && s.users[email].uid != "" && s.users[email].password == lib.sha256Hex(password)
  }

  /** The part of the handler after the request has been validated. */
  function Authenticate(s: State, email: string, password: string, env: Env): Effect {
    match GetUser(s, email, Fails(env, UsersGet))
    case Err(e) => Effect(Crash(Thrown(e)), s)
    case Ok(None) => Effect(Respond(400, Error(NotFoundException)), s)
    case Ok(Some(u)) =>
      if u.uid == "" || env.lib.sha256Hex(password) != u.password
      then Effect(Respond(400, Error(NotFoundException)), s)
      else
        var w := SetToken(s, email, env.randomId, Fails(env, UsersUpdate));
        if w.err.Some? then Effect(Crash(Thrown(w.err.value)), w.s)
        else Effect(Respond(200, SessionIssued(env.randomId, u.uid)), w.s)
  }

  function Transition(s: State, ev: Event, env: Env): Effect {
    if !Truthy(ev.body) then Effect(Respond(400, Error(InvalidFormDataException)), s)
    else match DecodeBody(ContentType(ev), ev.body, ev.isBase64Encoded, env.lib)
      case Unsupported => Effect(Respond(400, Error(InvalidFormDataException)), s)
      case NoBoundary => Effect(Respond(400, Error(InvalidFormDataException)), s)
      case Failed(f) => Effect(Crash(f), s)
      case Fields(data) =>
        var email := Field(data, "email");
        var password := Field(data, "password");
        if !(Truthy(email) && Truthy(password)) then Effect(Respond(400, Error(InvalidFormDataException)), s)
        else Authenticate(s, email.value, password.value, env)
  }

  method Handle(db: Database, ev: Event, env: Env) returns (out: Outcome)
    modifies db
    ensures Effect(out, db.Snapshot()) == Transition(old(db.Snapshot()), ev, env)
  {
    if !Truthy(ev.body) {
      return Respond(400, Error(InvalidFormDataException));
    }
    var decoded := Decode(ContentType(ev), ev.body, ev.isBase64Encoded, env.lib);
    match decoded {
      case Unsupported => return Respond(400, Error(InvalidFormDataException));
      case NoBoundary => return Respond(400, Error(InvalidFormDataException));
      case Failed(f) => return Crash(f);
      case Fields(data) =>
        var email := Field(data, "email");
        var password := Field(data, "password");
        if !(Truthy(email) && Truthy(password)) {
          return Respond(400, Error(InvalidFormDataException));
        }
        var result := db.GetUser(email.value, Fails(env, UsersGet));
        if result.Err? {
          return Crash(Thrown(result.error));
        }
        if result.value.None? {
          return Respond(400, Error(NotFoundException));
        }
        var u := result.value.value;
        if u.uid == "" || env.lib.sha256Hex(password.value) != u.password {
          return Respond(400, Error(NotFoundException));
        }
        var err := db.SetToken(email.value, env.randomId, Fails(env, UsersUpdate));
        if err.Some? {
          return Crash(Thrown(err.value));
        }
        return Respond(200, SessionIssued(env.randomId, u.uid));
    }
  }

  // ---------------------------------------------------------------------------
  // Properties

  /** A request that passes validation, with the email and password it carries. */
  predicate LogsIn(ev: Event, env: Env, email: string, password: string) {
    && Truthy(ev.body)
    && var d := DecodeBody(ContentType(ev), ev.body, ev.isBase64Encoded, env.lib);
       && d.Fields?
       && Field(d.data, "email") == Some(email) && email != ""
       && Field(d.data, "password") == Some(password) && password != ""
  }

  /** The store after a login: only the user's token changes. */
  function WithToken(s: State, email: string, token: string): State
    requires email in s.users
  {
    s.(users := s.users[email := s.users[email].(token := token)])
  }

  /** An absent or empty body is refused before anything else. */
  lemma EmptyBodyRejected(s: State, ev: Event, env: Env)
    requires !Truthy(ev.body)
    ensures Transition(s, ev, env) == Effect(Respond(400, Error(InvalidFormDataException)), s)
  {
  }

  /** Unlike the other decoders, a multipart content type without a boundary is refused
      with 400 instead of making the handler throw. */
  lemma MissingBoundaryRejected(s: State, ev: Event, env: Env)
    requires Truthy(ev.body)
    requires IsMultipart(ContentType(ev))
    requires BoundaryOf(ContentType(ev).value).None?
    ensures Transition(s, ev, env) == Effect(Respond(400, Error(InvalidFormDataException)), s)
  {
    // A multipart content type is never the URL-encoded one: they differ at the first character.
    assert UrlEncoded[0] != Multipart[0];
  }

  /** A request without both fields is refused and changes nothing. */
  lemma MissingFieldsRejected(s: State, ev: Event, env: Env)
    requires Truthy(ev.body)
    requires var d := DecodeBody(ContentType(ev), ev.body, ev.isBase64Encoded, env.lib);
             d.Fields? && !(Truthy(Field(d.data, "email")) && Truthy(Field(d.data, "password")))
    ensures Transition(s, ev, env) == Effect(Respond(400, Error(InvalidFormDataException)), s)
  {
  }

  /** A login succeeds exactly when the stored row accepts the password: the answer then
      carries the new token and the stored uid, and the token is the only change. An
      unknown email and a wrong password get the same answer and change nothing. */
  lemma LoginSucceeds(s: State, ev: Event, env: Env, email: string, password: string)
    requires LogsIn(ev, env, email, password)
    requires UsersGet !in env.faults && UsersUpdate !in env.faults
    ensures Accepts(s, email, password, env.lib) ==>
            Transition(s, ev, env) ==
              Effect(Respond(200, SessionIssued(env.randomId, s.users[email].uid)),
                     WithToken(s, email, env.randomId))
    ensures !Accepts(s, email, password, env.lib) ==>
            Transition(s, ev, env) == Effect(Respond(400, Error(NotFoundException)), s)
  {
  }

  /** After a login, the new token is the caller's only valid one: the credential check
      accepts the issued token and refuses every other, the previous session's included. */
  lemma LoginReplacesSession(s: State, ev: Event, env: Env, email: string, password: string,
                             token: string)
    requires LogsIn(ev, env, email, password)
    requires Transition(s, ev, env).out.Respond? && Transition(s, ev, env).out.status == 200
    ensures var t := Transition(s, ev, env).s;
            var uid := Transition(s, ev, env).out.body.uid;
            && Matches(t, email, env.randomId, uid)
            && (token != env.randomId ==> !Matches(t, email, token, uid))
  {
  }

  /** Only the users table changes. */
  lemma OnlyUsersChange(s: State, ev: Event, env: Env)
    ensures var t := Transition(s, ev, env).s;
            t == s.(users := t.users) && t.users.Keys == s.users.Keys
  {
  }
}
