/** Reading the messages of a personal conversation, by the `conversationID` parameter. */
module ConversationReadMessages {
  import opened Wrappers
  import opened Store
  import opened Http
  import RoomMessages

  function Handle(s: State, ev: Event, env: Env): Outcome {
    RoomMessages.Read(s, ev, env, ConversationRoom, "conversationID")
  }

  /** Nothing checks that the caller takes part in the conversation: any user who passes
      the credential check reads the messages of any conversation whose id they know. */
  lemma NoParticipantCheck(s: State, ev: Event, env: Env, c: Credentials, id: string)
    requires RoomMessages.Reads(ev, c, "conversationID", id) && Matches(s, c.email, c.token, c.uid)
    requires id in s.conversations
    requires c.uid != s.conversations[id].user1 && c.uid != s.conversations[id].user2
    requires UsersQuery !in env.faults && TableScan !in env.faults
    requires var name := TableName(ConversationRoom, id);
             ValidTableName(name) && name in s.tables && s.tables[name].Active?
    ensures var rows := s.tables[TableName(ConversationRoom, id)].rows;
            Handle(s, ev, env).Respond? && Handle(s, ev, env).status == 200 &&
            Handle(s, ev, env).body == Messages(SinceFilter(rows, RoomMessages.Since(ev)), |rows|)
  {
    RoomMessages.ReadsActiveTable(s, ev, env, ConversationRoom, "conversationID", c, id);
  }
}
