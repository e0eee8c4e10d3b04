/** Deleting a group, by the `groupID` parameter: only its creator may delete it. */
module GroupsDelete {
  import opened Store
  import opened Http
  import opened Db
  import RoomDelete

  function Transition(s: State, ev: Event, env: Env): Effect {
    RoomDelete.Transition(s, ev, env, GroupRoom, "groupID")
  }

  method Handle(db: Database, ev: Event, env: Env) returns (out: Outcome)
    modifies db
    ensures Effect(out, db.Snapshot()) == Transition(old(db.Snapshot()), ev, env)
  {
    out := RoomDelete.Handle(db, ev, env, GroupRoom, "groupID");
  }

  /** The row goes exactly when the caller created the group; for anyone else, members
      included, the answer is an invalid id. */
  lemma OnlyCreatorDeletes(s: State, ev: Event, env: Env, c: Credentials, id: string)
    requires RoomDelete.Deletes(ev, c, "groupID", id) && RegistryDelete !in env.faults
    requires id in s.groups
    ensures var e := Transition(s, ev, env);
            (e.out == Respond(200, NoBody) && id !in e.s.groups) <==> c.uid == s.groups[id].createdBy
    ensures c.uid != s.groups[id].createdBy ==>
            Transition(s, ev, env) == Effect(Respond(400, Error(InvalidIDException)), s)
  {
    if c.uid == s.groups[id].createdBy {
      RoomDelete.DeleteSucceeds(s, ev, env, GroupRoom, "groupID", c, id);
    } else {
      RoomDelete.NotOwnerRejected(s, ev, env, GroupRoom, "groupID", c, id);
    }
  }
}
