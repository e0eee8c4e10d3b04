/**
 * Listing the caller's conversations: after the header check, the conversation registry
 * is scanned for rows where the caller is either participant, and each row is answered as
 * its id with the other participant. The scanned count is the size of the registry. The
 * token is checked for its shape only.
 */
module ListMyConversations {
  import opened Store
  import opened Http

  /** The participant of `c` that is not `uid`, read as the source does: when `uid` is the
      first participant the second one, otherwise the first. */
  function Companion(c: Conversation, uid: string): (other: string)
    ensures c.user1 == uid || c.user2 == uid ==> multiset{uid, other} == multiset{c.user1, c.user2}
  {
    if uid == c.user1 then c.user2 else c.user1
  }

  function Handle(s: State, ev: Event, env: Env): Outcome {
    var check := CheckHeaders(ev);
    if !check.Authorized? then HeaderFailure(check)
    else
      var uid := check.creds.uid;
      match ScanParticipant(s, uid, Fails(env, RegistryScan))
      case Err(e) => Crash(Thrown(e))
      case Ok(rows) =>
        Respond(200, ConversationList(map id | id in rows :: Companion(rows[id], uid), |s.conversations|))
  }

  /** A conversation is listed exactly when the caller takes part in it, and it is listed
      with the other participant. */
  lemma ListsOwnConversations(s: State, ev: Event, env: Env, c: Credentials, id: string)
    requires CheckHeaders(ev) == Authorized(c) && RegistryScan !in env.faults
    ensures Handle(s, ev, env).Respond? && Handle(s, ev, env).body.ConversationList?
    ensures var list := Handle(s, ev, env).body.companions;
            id in list <==>
            id in s.conversations && (s.conversations[id].user1 == c.uid || s.conversations[id].user2 == c.uid)
    ensures var list := Handle(s, ev, env).body.companions;
            id in list ==>
            multiset{c.uid, list[id]} == multiset{s.conversations[id].user1, s.conversations[id].user2}
  {
  }
}
