/** Deleting a personal conversation, by the `conversationID` parameter: either
    participant may delete it. */
module DeletePersonalConversation {
  import opened Store
  import opened Http
  import opened Db
  import RoomDelete

  function Transition(s: State, ev: Event, env: Env): Effect {
    RoomDelete.Transition(s, ev, env, ConversationRoom, "conversationID")
  }

  method Handle(db: Database, ev: Event, env: Env) returns (out: Outcome)
    modifies db
    ensures Effect(out, db.Snapshot()) == Transition(old(db.Snapshot()), ev, env)
  {
    out := RoomDelete.Handle(db, ev, env, ConversationRoom, "conversationID");
  }

  /** The row goes exactly when the caller is one of the two participants; for anyone
      else the answer is an invalid id. */
  lemma EitherParticipantDeletes(s: State, ev: Event, env: Env, c: Credentials, id: string)
    requires RoomDelete.Deletes(ev, c, "conversationID", id) && RegistryDelete !in env.faults
    requires id in s.conversations
    ensures var e := Transition(s, ev, env);
            (e.out == Respond(200, NoBody) && id !in e.s.conversations) <==>
            (c.uid == s.conversations[id].user1 || c.uid == s.conversations[id].user2)
    ensures !(c.uid == s.conversations[id].user1 || c.uid == s.conversations[id].user2) ==>
            Transition(s, ev, env) == Effect(Respond(400, Error(InvalidIDException)), s)
  {
    if c.uid == s.conversations[id].user1 || c.uid == s.conversations[id].user2 {
      RoomDelete.DeleteSucceeds(s, ev, env, ConversationRoom, "conversationID", c, id);
    } else {
      RoomDelete.NotOwnerRejected(s, ev, env, ConversationRoom, "conversationID", c, id);
    }
  }
}
