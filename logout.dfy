/**
 * Logging out: after the header check, the stored token is cleared under the condition
 * that it and the uid are the ones the headers carry. A failed condition is answered 401.
 */
module Logout {
  import opened Wrappers
  import opened Store
  import opened Http
  import opened Db

  function Transition(s: State, ev: Event, env: Env): Effect {
    var check := CheckHeaders(ev);
    if !check.Authorized? then Effect(HeaderFailure(check), s)
    else
      var c := check.creds;
      var w := ClearTokenIf(s, c.email, c.token, c.uid, Fails(env, UsersUpdate));
      if w.err == Some(ConditionalCheckFailed) then Effect(Respond(401, Error(InvalidTokenException)), s)
      else if w.err.Some? then Effect(Crash(Thrown(w.err.value)), s)
      else Effect(Respond(200, NoBody), w.s)
  }

  method Handle(db: Database, ev: Event, env: Env) returns (out: Outcome)
    modifies db
    ensures Effect(out, db.Snapshot()) == Transition(old(db.Snapshot()), ev, env)
  {
    var check := CheckHeaders(ev);
    if !check.Authorized? {
      return HeaderFailure(check);
    }
    var c := check.creds;
    var err := db.ClearTokenIf(c.email, c.token, c.uid, Fails(env, UsersUpdate));
    if err == Some(ConditionalCheckFailed) {
      return Respond(401, Error(InvalidTokenException));
    }
    if err.Some? {
      return Crash(Thrown(err.value));
    }
    return Respond(200, NoBody);
  }

  // ---------------------------------------------------------------------------
  // Properties

  /** The session ends exactly when the credentials are the stored ones: the token is then
      cleared and nothing else changes; otherwise the answer is 401 and nothing changes. */
  lemma LogoutSucceeds(s: State, ev: Event, env: Env, c: Credentials)
    requires CheckHeaders(ev) == Authorized(c) && UsersUpdate !in env.faults
    ensures Matches(s, c.email, c.token, c.uid) ==>
            Transition(s, ev, env) ==
              Effect(Respond(200, NoBody), s.(users := s.users[c.email := s.users[c.email].(token := "")]))
    ensures !Matches(s, c.email, c.token, c.uid) ==>
            Transition(s, ev, env) == Effect(Respond(401, Error(InvalidTokenException)), s)
  {
  }

  /** After a logout no bearer token passes the credential check for that email. */
  lemma LogoutRevokes(s: State, ev: Event, env: Env, token: string, uid: string)
    requires CheckHeaders(ev).Authorized? && Transition(s, ev, env).out == Respond(200, NoBody)
    requires token != ""
    ensures !Matches(Transition(s, ev, env).s, CheckHeaders(ev).creds.email, token, uid)
  {
  }

  /** Logging out twice with the same headers: the second request is refused with 401. */
  lemma SecondLogoutRejected(s: State, ev: Event, env1: Env, env2: Env)
    requires CheckHeaders(ev).Authorized? && Transition(s, ev, env1).out == Respond(200, NoBody)
    requires UsersUpdate !in env2.faults
    ensures var t := Transition(s, ev, env1).s;
            Transition(t, ev, env2) == Effect(Respond(401, Error(InvalidTokenException)), t)
  {
    var t := Transition(s, ev, env1).s;
    var c := CheckHeaders(ev).creds;
    assert !Matches(t, c.email, c.token, c.uid);
  }
}
