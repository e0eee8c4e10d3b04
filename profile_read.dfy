/**
 * Reading the caller's profile: after the header check, the users table is queried by
 * email and filtered on the token and uid from the headers. Unless exactly one row
 * matches, the answer is an invalid id; otherwise it is that row's email, creation time,
 * name and uid. Nothing in the store changes.
 */
module ProfileRead {
  import opened Store
  import opened Http

  function Handle(s: State, ev: Event, env: Env): Outcome {
    var check := CheckHeaders(ev);
    if !check.Authorized? then HeaderFailure(check)
    else
      var c := check.creds;
      match QueryUser(s, c.email, c.token, c.uid, Fails(env, UsersQuery))
      case Err(e) => Crash(Thrown(e))
      case Ok(items) =>
        if |items| != 1 then Respond(400, Error(InvalidIDException))
        else Respond(200, Profile(items[0]))
  }

  /** The caller whose credentials are the stored ones gets their own row, without the
      password and the token; anyone else gets an invalid id. */
  lemma ReadsOwnProfile(s: State, ev: Event, env: Env, c: Credentials)
    requires CheckHeaders(ev) == Authorized(c) && UsersQuery !in env.faults
    ensures Matches(s, c.email, c.token, c.uid) ==>
            var u := s.users[c.email];
            Handle(s, ev, env) == Respond(200, Profile(ProfileItem(c.email, u.createdAt, u.name, c.uid)))
    ensures !Matches(s, c.email, c.token, c.uid) ==>
            Handle(s, ev, env) == Respond(400, Error(InvalidIDException))
  {
  }

  /** A failing query escapes the handler. */
  lemma QueryFailurePropagates(s: State, ev: Event, env: Env)
    requires CheckHeaders(ev).Authorized? && UsersQuery in env.faults
    ensures Handle(s, ev, env) == Crash(Thrown(ServiceFailure))
  {
  }
}
