/**
 * Deleting a conversation or a group. The two delete handlers are the same code over a
 * different registry, ownership condition, table prefix and query parameter: after the
 * header check and the id check, the registry row is deleted under its condition (a
 * participant of the conversation, the creator of the group); a failed condition is an
 * invalid id. The room's table is then deleted, and whatever that call does the answer is
 * 200. The users table is not consulted: the token is checked for its shape only.
 */
module RoomDelete {
  import opened Wrappers
  import opened Store
  import opened Http
  import opened Db

  /** The condition the registry delete is made under. */
  predicate Owns(s: State, room: Room, id: string, uid: string) {
    match room
    case ConversationRoom =>
      id in s.conversations && (s.conversations[id].user1 == uid || s.conversations[id].user2 == uid)
    case GroupRoom => id in s.groups && s.groups[id].createdBy == uid
  }

  /** The conditional DeleteItem on the room kind's registry. */
  function DeleteRow(s: State, room: Room, id: string, uid: string, fail: bool): (w: Write)
    ensures w.err.Some? ==> w.s == s
  {
    match room
    case ConversationRoom => DeleteConversationIf(s, id, uid, fail)
    case GroupRoom => DeleteGroupIf(s, id, uid, fail)
  }

  /** The registry without the room's row. */
  function Unregistered(s: State, room: Room, id: string): State {
    match room
    case ConversationRoom => s.(conversations := s.conversations - {id})
    case GroupRoom => s.(groups := s.groups - {id})
  }

  function Transition(s: State, ev: Event, env: Env, room: Room, param: string): Effect {
    var check := CheckHeaders(ev);
    if !check.Authorized? then Effect(HeaderFailure(check), s)
    else
      var id := Lookup(ev.query, param);
      if !Truthy(id) then Effect(Respond(400, Error(InvalidFormDataException)), s)
      else
        var w := DeleteRow(s, room, id.value, check.creds.uid, Fails(env, RegistryDelete));
        if w.err == Some(ConditionalCheckFailed) then Effect(Respond(400, Error(InvalidIDException)), s)
        else if w.err.Some? then Effect(Crash(Thrown(w.err.value)), s)
        else
          var w2 := DeleteTable(w.s, TableName(room, id.value), Fails(env, TableDelete));
          Effect(Respond(200, NoBody), w2.s)
  }

  method Handle(db: Database, ev: Event, env: Env, room: Room, param: string) returns (out: Outcome)
    modifies db
    ensures Effect(out, db.Snapshot()) == Transition(old(db.Snapshot()), ev, env, room, param)
  {
    var check := CheckHeaders(ev);
    if !check.Authorized? {
      return HeaderFailure(check);
    }
    var id := Lookup(ev.query, param);
    if !Truthy(id) {
      return Respond(400, Error(InvalidFormDataException));
    }
    var err;
    match room {
      case ConversationRoom =>
        err := db.DeleteConversationIf(id.value, check.creds.uid, Fails(env, RegistryDelete));
      case GroupRoom =>
        err := db.DeleteGroupIf(id.value, check.creds.uid, Fails(env, RegistryDelete));
    }
    if err == Some(ConditionalCheckFailed) {
      return Respond(400, Error(InvalidIDException));
    }
    if err.Some? {
      return Crash(Thrown(err.value));
    }
    // The outcome of the table deletion does not change the answer.
    var _ := db.DeleteTable(TableName(room, id.value), Fails(env, TableDelete));
    return Respond(200, NoBody);
  }

  // ---------------------------------------------------------------------------
  // Properties

  /** A delete request with valid headers, for the room with this id. */
  predicate Deletes(ev: Event, c: Credentials, param: string, id: string) {
    CheckHeaders(ev) == Authorized(c) && Lookup(ev.query, param) == Some(id) && id != ""
  }

  /** Failing the header check answers 400 and deletes nothing. */
  lemma HeaderFailureFirst(s: State, ev: Event, env: Env, room: Room, param: string)
    requires !CheckHeaders(ev).Authorized?
    ensures Transition(s, ev, env, room, param) == Effect(HeaderFailure(CheckHeaders(ev)), s)
  {
  }

  /** A request without the id answers 400 and deletes nothing. */
  lemma MissingIdRejected(s: State, ev: Event, env: Env, room: Room, param: string)
    requires CheckHeaders(ev).Authorized? && !Truthy(Lookup(ev.query, param))
    ensures Transition(s, ev, env, room, param) == Effect(Respond(400, Error(InvalidFormDataException)), s)
  {
  }

  /** A caller who does not own the room, or a room that does not exist, is answered with
      an invalid id, and nothing changes. */
  lemma NotOwnerRejected(s: State, ev: Event, env: Env, room: Room, param: string,
                         c: Credentials, id: string)
    requires Deletes(ev, c, param, id) && RegistryDelete !in env.faults
    ensures Transition(s, ev, env, room, param) == Effect(Respond(400, Error(InvalidIDException)), s) <==>
            !Owns(s, room, id, c.uid)
  {
  }

  /** The owner's request removes the registry row and, when the table is active and its
      deletion does not fail, the table; the answer is 200 either way, and nothing else
      changes. */
  lemma DeleteSucceeds(s: State, ev: Event, env: Env, room: Room, param: string,
                       c: Credentials, id: string)
    requires Deletes(ev, c, param, id) && RegistryDelete !in env.faults
    requires Owns(s, room, id, c.uid)
    ensures var name := TableName(room, id);
            var t := Unregistered(s, room, id);
            var dropped := TableDelete !in env.faults && ValidTableName(name) &&
                           name in s.tables && s.tables[name].Active?;
            Transition(s, ev, env, room, param) ==
              Effect(Respond(200, NoBody), if dropped then t.(tables := s.tables - {name}) else t)
  {
  }

  /** Deleting the same room twice: the second request finds no row and is refused. */
  lemma SecondDeleteRejected(s: State, ev: Event, env1: Env, env2: Env, room: Room,
                             param: string, c: Credentials, id: string)
    requires Deletes(ev, c, param, id)
    requires Transition(s, ev, env1, room, param).out == Respond(200, NoBody)
    requires RegistryDelete !in env2.faults
    ensures var t := Transition(s, ev, env1, room, param).s;
            Transition(t, ev, env2, room, param) == Effect(Respond(400, Error(InvalidIDException)), t)
  {
    var t := Transition(s, ev, env1, room, param).s;
    assert !Owns(t, room, id, c.uid);
  }

  /** A failing registry delete throws and changes nothing: the table delete is not reached. */
  lemma RegistryFailureChangesNothing(s: State, ev: Event, env: Env, room: Room, param: string)
    requires RegistryDelete in env.faults
    ensures Transition(s, ev, env, room, param).s == s
    ensures var out := Transition(s, ev, env, room, param).out;
            CheckHeaders(ev).Authorized? && Truthy(Lookup(ev.query, param)) ==>
              out == Crash(Thrown(ServiceFailure))
  {
  }

  /** Rooms other than the one named are untouched, whatever the outcome. */
  lemma OtherRoomsUnchanged(s: State, ev: Event, env: Env, room: Room, param: string,
                            other: Room, id2: string)
    requires !(Truthy(Lookup(ev.query, param)) && Lookup(ev.query, param).value == id2 && other == room)
    ensures var t := Transition(s, ev, env, room, param).s;
            && t.users == s.users
            && Registered(t, other, id2) == Registered(s, other, id2)
            && (other == ConversationRoom && id2 in s.conversations ==>
                  id2 in t.conversations && t.conversations[id2] == s.conversations[id2])
            && (other == GroupRoom && id2 in s.groups ==>
                  id2 in t.groups && t.groups[id2] == s.groups[id2])
            && (TableName(other, id2) in s.tables ==>
                  TableName(other, id2) in t.tables &&
                  t.tables[TableName(other, id2)] == s.tables[TableName(other, id2)])
  {
    var id := Lookup(ev.query, param);
    if Truthy(id) && TableName(room, id.value) == TableName(other, id2) {
      TableNameInjective(room, id.value, other, id2);
    }
  }

  /** Deleting a room keeps the store consistent: its row goes before its table. */
  lemma TransitionKeepsValid(s: State, ev: Event, env: Env, room: Room, param: string)
    requires Valid(s)
    ensures Valid(Transition(s, ev, env, room, param).s)
  {
    var t := Transition(s, ev, env, room, param).s;
    var id := Lookup(ev.query, param);
    if CheckHeaders(ev).Authorized? && Truthy(id) && t != s {
      forall id2 | id2 in t.conversations
        ensures TableName(ConversationRoom, id2) in t.tables
      {
        if TableName(room, id.value) == TableName(ConversationRoom, id2) {
          TableNameInjective(room, id.value, ConversationRoom, id2);
        }
      }
      forall id2 | id2 in t.groups
        ensures TableName(GroupRoom, id2) in t.tables
      {
        if TableName(room, id.value) == TableName(GroupRoom, id2) {
          TableNameInjective(room, id.value, GroupRoom, id2);
        }
      }
    }
  }
}
