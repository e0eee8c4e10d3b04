/**
 * Registering a user: the body is decoded and `email`, `password` and `name` are required.
 * The user row is written under `attribute_not_exists(email) AND attribute_not_exists(uid)`
 * with a random uid, the SHA-256 hex digest of the password, an empty token (logged out),
 * the creation time and `isVerified` false. An existing email is a duplicate. No identity
 * headers are read.
 */
module Registration {
  import opened Wrappers
  import opened Store
  import opened Http
  import opened Forms
  import opened Db

  /** The row a registration writes. */
  function NewUser(name: string, password: string, env: Env): User {
    User(env.randomId, name, env.lib.sha256Hex(password), "", env.now, false)
  }

  function Transition(s: State, ev: Event, env: Env): Effect {
    match DecodeBody(ContentType(ev), ev.body, ev.isBase64Encoded, env.lib)
    case Unsupported => Effect(Respond(400, Error(InvalidFormDataException)), s)
    case NoBoundary => Effect(Crash(TypeError), s)
    case Failed(f) => Effect(Crash(f), s)
    case Fields(data) =>
      var email := Field(data, "email");
      var password := Field(data, "password");
      var name := Field(data, "name");
      if !(Truthy(email) && Truthy(password) && Truthy(name))
      then Effect(Respond(400, Error(InvalidFormDataException)), s)
      else
        var w := PutNewUser(s, email.value, NewUser(name.value, password.value, env), Fails(env, UsersPut));
        if w.err == Some(ConditionalCheckFailed) then Effect(Respond(400, Error(PrimaryDuplicationException)), s)
        else if w.err.Some? then Effect(Crash(Thrown(w.err.value)), s)
        else Effect(Respond(201, NoBody), w.s)
  }

  method Handle(db: Database, ev: Event, env: Env) returns (out: Outcome)
    modifies db
    ensures Effect(out, db.Snapshot()) == Transition(old(db.Snapshot()), ev, env)
  {
    var decoded := Decode(ContentType(ev), ev.body, ev.isBase64Encoded, env.lib);
    match decoded {
      case Unsupported => return Respond(400, Error(InvalidFormDataException));
      case NoBoundary => return Crash(TypeError);
      case Failed(f) => return Crash(f);
      case Fields(data) =>
        var email := Field(data, "email");
        var password := Field(data, "password");
        var name := Field(data, "name");
        if !(Truthy(email) && Truthy(password) && Truthy(name)) {
          return Respond(400, Error(InvalidFormDataException));
        }
        var err := db.PutNewUser(email.value, NewUser(name.value, password.value, env), Fails(env, UsersPut));
        if err == Some(ConditionalCheckFailed) {
          return Respond(400, Error(PrimaryDuplicationException));
        }
        if err.Some? {
          return Crash(Thrown(err.value));
        }
        return Respond(201, NoBody);
    }
  }

  // ---------------------------------------------------------------------------
  // Properties

  /** A request that passes validation, with the fields it carries. */
  predicate Registers(ev: Event, env: Env, email: string, password: string, name: string) {
    var d := DecodeBody(ContentType(ev), ev.body, ev.isBase64Encoded, env.lib);
    && d.Fields?
    && Field(d.data, "email") == Some(email) && email != ""
    && Field(d.data, "password") == Some(password) && password != ""
    && Field(d.data, "name") == Some(name) && name != ""
  }

  /** A request without all three fields, or of an unsupported type, is refused. */
  lemma InvalidRequestRejected(s: State, ev: Event, env: Env)
    requires var d := DecodeBody(ContentType(ev), ev.body, ev.isBase64Encoded, env.lib);
             d.Unsupported? ||
             (d.Fields? && !(Truthy(Field(d.data, "email")) && Truthy(Field(d.data, "password")) &&
                             Truthy(Field(d.data, "name"))))
    ensures Transition(s, ev, env) == Effect(Respond(400, Error(InvalidFormDataException)), s)
  {
  }

  /** A new email is stored with the digest of the password, an empty token and
      `isVerified` false; an existing email is a duplicate and its row is left as it was. */
  lemma RegisterSucceeds(s: State, ev: Event, env: Env, email: string, password: string, name: string)
    requires Registers(ev, env, email, password, name) && UsersPut !in env.faults
    ensures email !in s.users ==>
            Transition(s, ev, env) ==
              Effect(Respond(201, NoBody),
                     s.(users := s.users[email := User(env.randomId, name, env.lib.sha256Hex(password),
                                                       "", env.now, false)]))
    ensures email in s.users ==>
            Transition(s, ev, env) == Effect(Respond(400, Error(PrimaryDuplicationException)), s)
  {
  }

  /** Any other store error escapes the handler and nothing is written. */
  lemma OtherErrorsPropagate(s: State, ev: Event, env: Env, email: string, password: string, name: string)
    requires Registers(ev, env, email, password, name) && UsersPut in env.faults
    ensures Transition(s, ev, env) == Effect(Crash(Thrown(ServiceFailure)), s)
  {
  }

  /** A new user is logged out: no bearer token passes the credential check until the
      first login. */
  lemma NewUserLoggedOut(s: State, ev: Event, env: Env, email: string, token: string, uid: string)
    requires Transition(s, ev, env).out == Respond(201, NoBody)
    requires email !in s.users && token != ""
    ensures !Matches(Transition(s, ev, env).s, email, token, uid)
  {
  }

  /** Registration never overwrites a user: every existing row is kept as it was. */
  lemma ExistingUsersKept(s: State, ev: Event, env: Env, email: string)
    requires email in s.users
    ensures var t := Transition(s, ev, env).s;
            email in t.users && t.users[email] == s.users[email]
    ensures var t := Transition(s, ev, env).s;
            t == s.(users := t.users)
  {
  }
}
