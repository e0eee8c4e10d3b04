/** Reading the messages of a group, by the `groupID` parameter. */
module GroupsReadMessages {
  import opened Store
  import opened Http
  import RoomMessages

  function Handle(s: State, ev: Event, env: Env): Outcome {
    RoomMessages.Read(s, ev, env, GroupRoom, "groupID")
  }

  /** Groups have no members: any user who passes the credential check reads the messages
      of any group whose id they know, whoever created it. */
  lemma AnyUserReads(s: State, ev: Event, env: Env, c: Credentials, id: string)
    requires RoomMessages.Reads(ev, c, "groupID", id) && Matches(s, c.email, c.token, c.uid)
    requires id in s.groups && c.uid != s.groups[id].createdBy
    requires UsersQuery !in env.faults && TableScan !in env.faults
    requires var name := TableName(GroupRoom, id);
             ValidTableName(name) && name in s.tables && s.tables[name].Active?
    ensures var rows := s.tables[TableName(GroupRoom, id)].rows;
            Handle(s, ev, env) == Respond(200, Messages(SinceFilter(rows, RoomMessages.Since(ev)), |rows|))
  {
    RoomMessages.ReadsActiveTable(s, ev, env, GroupRoom, "groupID", c, id);
  }
}
