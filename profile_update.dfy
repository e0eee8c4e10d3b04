/**
 * Renaming a user: after the header check and the decoder, the `name` field is required,
 * and the stored name is replaced under the condition that the stored token and uid are
 * the ones the headers carry. A failed condition is an invalid id.
 */
module ProfileUpdate {
  import opened Wrappers
  import opened Store
  import opened Http
  import opened Forms
  import opened Db

  function Transition(s: State, ev: Event, env: Env): Effect {
    var check := CheckHeaders(ev);
    if !check.Authorized? then Effect(HeaderFailure(check), s)
    else
      var c := check.creds;
      match DecodeBody(ContentType(ev), ev.body, ev.isBase64Encoded, env.lib)
      case Unsupported => Effect(Respond(400, Error(InvalidFormDataException)), s)
      case NoBoundary => Effect(Crash(TypeError), s)
      case Failed(f) => Effect(Crash(f), s)
      case Fields(data) =>
        var name := Field(data, "name");
        if !Truthy(name) then Effect(Respond(400, Error(InvalidFormDataException)), s)
        else
          var w := SetNameIf(s, c.email, c.token, c.uid, name.value, Fails(env, UsersUpdate));
          if w.err == Some(ConditionalCheckFailed) then Effect(Respond(400, Error(InvalidIDException)), s)
          else if w.err.Some? then Effect(Crash(Thrown(w.err.value)), s)
          else Effect(Respond(201, NoBody), w.s)
  }

  method Handle(db: Database, ev: Event, env: Env) returns (out: Outcome)
    modifies db
    ensures Effect(out, db.Snapshot()) == Transition(old(db.Snapshot()), ev, env)
  {
    var check := CheckHeaders(ev);
    if !check.Authorized? {
      return HeaderFailure(check);
    }
    var c := check.creds;
    var decoded := Decode(ContentType(ev), ev.body, ev.isBase64Encoded, env.lib);
    match decoded {
      case Unsupported => return Respond(400, Error(InvalidFormDataException));
      case NoBoundary => return Crash(TypeError);
      case Failed(f) => return Crash(f);
      case Fields(data) =>
        var name := Field(data, "name");
        if !Truthy(name) {
          return Respond(400, Error(InvalidFormDataException));
        }
        var err := db.SetNameIf(c.email, c.token, c.uid, name.value, Fails(env, UsersUpdate));
        if err == Some(ConditionalCheckFailed) {
          return Respond(400, Error(InvalidIDException));
        }
        if err.Some? {
          return Crash(Thrown(err.value));
        }
        return Respond(201, NoBody);
    }
  }

  // ---------------------------------------------------------------------------
  // Properties

  /** A request that passes validation, with the caller and the new name. */
  predicate Renames(ev: Event, env: Env, c: Credentials, name: string) {
    && CheckHeaders(ev) == Authorized(c)
    && var d := DecodeBody(ContentType(ev), ev.body, ev.isBase64Encoded, env.lib);
       d.Fields? && Field(d.data, "name") == Some(name) && name != ""
  }

  /** A request without a name, or of an unsupported type, is refused. */
  lemma InvalidRequestRejected(s: State, ev: Event, env: Env)
    requires CheckHeaders(ev).Authorized?
    requires var d := DecodeBody(ContentType(ev), ev.body, ev.isBase64Encoded, env.lib);
             d.Unsupported? || (d.Fields? && !Truthy(Field(d.data, "name")))
    ensures Transition(s, ev, env) == Effect(Respond(400, Error(InvalidFormDataException)), s)
  {
  }

  /** The name changes exactly when the credentials are the stored ones, and nothing else
      about the user changes; otherwise the answer is an invalid id and nothing changes. */
  lemma UpdateSucceeds(s: State, ev: Event, env: Env, c: Credentials, name: string)
    requires Renames(ev, env, c, name) && UsersUpdate !in env.faults
    ensures Matches(s, c.email, c.token, c.uid) ==>
            Transition(s, ev, env) ==
              Effect(Respond(201, NoBody), s.(users := s.users[c.email := s.users[c.email].(name := name)]))
    ensures !Matches(s, c.email, c.token, c.uid) ==>
            Transition(s, ev, env) == Effect(Respond(400, Error(InvalidIDException)), s)
  {
  }

  /** Renaming keeps the session: the same credentials still pass afterwards. */
  lemma SessionKept(s: State, ev: Event, env: Env, c: Credentials)
    requires CheckHeaders(ev) == Authorized(c) && Matches(s, c.email, c.token, c.uid)
    ensures Matches(Transition(s, ev, env).s, c.email, c.token, c.uid)
  {
  }

  /** Sending the same rename twice leaves the store as one rename does. */
  lemma Idempotent(s: State, ev: Event, env1: Env, env2: Env, c: Credentials, name: string)
    requires Renames(ev, env1, c, name) && Renames(ev, env2, c, name)
    requires Transition(s, ev, env1).out == Respond(201, NoBody) && UsersUpdate !in env2.faults
    ensures var t := Transition(s, ev, env1).s;
            Transition(t, ev, env2) == Effect(Respond(201, NoBody), t)
  {
    var t := Transition(s, ev, env1).s;
    assert Matches(s, c.email, c.token, c.uid);
    assert t.users[c.email] == s.users[c.email].(name := name);
    assert t.users[c.email := t.users[c.email].(name := name)] == t.users;
  }
}
