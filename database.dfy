/**
 * The store as the handlers see it: one mutable object whose four maps every call reads
 * or replaces. Each method is proved to do exactly what the corresponding function of
 * `Store` says, so a handler written as a sequence of calls can be compared with a
 * function that threads the state through the same calls.
 */
module Db {
  import opened Wrappers
  import opened Store

  class Database {
    var users: map<string, User>
    var conversations: map<string, Conversation>
    var groups: map<string, Group>
    var tables: map<string, Table>

    /** The current contents of the store. */
    function Snapshot(): State
      reads this
    {
      State(users, conversations, groups, tables)
    }

    constructor (s: State)
      ensures Snapshot() == s
    {
      users := s.users;
      conversations := s.conversations;
      groups := s.groups;
      tables := s.tables;
    }

    method GetUser(email: string, fail: bool) returns (r: Result<Option<User>>)
      ensures r == Store.GetUser(Snapshot(), email, fail)
    {
      if fail {
        return Err(ServiceFailure);
      }
      if email == "" {
        return Err(Validation);
      }
      if email in users {
        return Ok(Some(users[email]));
      }
      return Ok(None);
    }

    method QueryUser(email: string, token: string, uid: string, fail: bool)
      returns (r: Result<seq<ProfileItem>>)
      ensures r == Store.QueryUser(Snapshot(), email, token, uid, fail)
    {
      if fail {
        return Err(ServiceFailure);
      }
      if email == "" {
        return Err(Validation);
      }
      if email in users && users[email].token == token && users[email].uid == uid {
        var u := users[email];
        return Ok([ProfileItem(email, u.createdAt, u.name, u.uid)]);
      }
      return Ok([]);
    }

    method PutNewUser(email: string, u: User, fail: bool) returns (err: Option<StoreError>)
      modifies this
      ensures Write(err, Snapshot()) == Store.PutNewUser(old(Snapshot()), email, u, fail)
    {
      if fail {
        return Some(ServiceFailure);
      }
      if email == "" {
        return Some(Validation);
      }
      if email in users {
        return Some(ConditionalCheckFailed);
      }
      users := users[email := u];
      return None;
    }

    method SetToken(email: string, token: string, fail: bool) returns (err: Option<StoreError>)
      requires email in users
      modifies this
      ensures Write(err, Snapshot()) == Store.SetToken(old(Snapshot()), email, token, fail)
    {
      if fail {
        return Some(ServiceFailure);
      }
      users := users[email := users[email].(token := token)];
      return None;
    }

    method ClearTokenIf(email: string, token: string, uid: string, fail: bool)
      returns (err: Option<StoreError>)
      modifies this
      ensures Write(err, Snapshot()) == Store.ClearTokenIf(old(Snapshot()), email, token, uid, fail)
    {
      if fail {
        return Some(ServiceFailure);
      }
      if email == "" {
        return Some(Validation);
      }
      if !(email in users && users[email].token == token && users[email].uid == uid) {
        return Some(ConditionalCheckFailed);
      }
      users := users[email := users[email].(token := "")];
      return None;
    }

    method SetNameIf(email: string, token: string, uid: string, name: string, fail: bool)
      returns (err: Option<StoreError>)
      modifies this
      ensures Write(err, Snapshot()) == Store.SetNameIf(old(Snapshot()), email, token, uid, name, fail)
    {
      if fail {
        return Some(ServiceFailure);
      }
      if email == "" {
        return Some(Validation);
      }
      if !(email in users && users[email].token == token && users[email].uid == uid) {
        return Some(ConditionalCheckFailed);
      }
      users := users[email := users[email].(name := name)];
      return None;
    }

    method CountPair(user1: string, user2: string, fail: bool) returns (r: Result<nat>)
      ensures r == Store.CountPair(Snapshot(), user1, user2, fail)
    {
      if fail {
        return Err(ServiceFailure);
      }
      return Ok(|RowsWithPair(Snapshot(), user1, user2)|);
    }

    method ScanParticipant(uid: string, fail: bool) returns (r: Result<map<string, Conversation>>)
      ensures r == Store.ScanParticipant(Snapshot(), uid, fail)
    {
      if fail {
        return Err(ServiceFailure);
      }
      return Ok(map id | id in conversations &&
                         (conversations[id].user1 == uid || conversations[id].user2 == uid)
                       :: conversations[id]);
    }

    method RoomExists(room: Room, id: string, fail: bool) returns (r: Result<bool>)
      ensures r == Store.RoomExists(Snapshot(), room, id, fail)
    {
      if fail {
        return Err(ServiceFailure);
      }
      if id == "" {
        return Err(Validation);
      }
      match room
      case ConversationRoom => return Ok(id in conversations);
      case GroupRoom => return Ok(id in groups);
    }

    method PutConversation(id: string, c: Conversation, fail: bool) returns (err: Option<StoreError>)
      modifies this
      ensures Write(err, Snapshot()) == Store.PutConversation(old(Snapshot()), id, c, fail)
    {
      if fail {
        return Some(ServiceFailure);
      }
      if id == "" {
        return Some(Validation);
      }
      if id in conversations {
        return Some(ConditionalCheckFailed);
      }
      conversations := conversations[id := c];
      return None;
    }

    method PutGroup(id: string, g: Group, fail: bool) returns (err: Option<StoreError>)
      modifies this
      ensures Write(err, Snapshot()) == Store.PutGroup(old(Snapshot()), id, g, fail)
    {
      if fail {
        return Some(ServiceFailure);
      }
      if id == "" {
        return Some(Validation);
      }
      if id in groups {
        return Some(ConditionalCheckFailed);
      }
      groups := groups[id := g];
      return None;
    }

    method DeleteConversationIf(id: string, uid: string, fail: bool) returns (err: Option<StoreError>)
      modifies this
      ensures Write(err, Snapshot()) == Store.DeleteConversationIf(old(Snapshot()), id, uid, fail)
    {
      if fail {
        return Some(ServiceFailure);
      }
      if id == "" {
        return Some(Validation);
      }
      if !(id in conversations && (conversations[id].user1 == uid || conversations[id].user2 == uid)) {
        return Some(ConditionalCheckFailed);
      }
      conversations := conversations - {id};
      return None;
    }

    method DeleteGroupIf(id: string, uid: string, fail: bool) returns (err: Option<StoreError>)
      modifies this
      ensures Write(err, Snapshot()) == Store.DeleteGroupIf(old(Snapshot()), id, uid, fail)
    {
      if fail {
        return Some(ServiceFailure);
      }
      if id == "" {
        return Some(Validation);
      }
      if !(id in groups && groups[id].createdBy == uid) {
        return Some(ConditionalCheckFailed);
      }
      groups := groups - {id};
      return None;
    }

    method CreateTable(name: string, fail: bool) returns (err: Option<StoreError>)
      modifies this
      ensures Write(err, Snapshot()) == Store.CreateTable(old(Snapshot()), name, fail)
    {
      if fail {
        return Some(ServiceFailure);
      }
      if !ValidTableName(name) {
        return Some(Validation);
      }
      if name in tables {
        return Some(ResourceInUse);
      }
      tables := tables[name := Creating];
      return None;
    }

    method DeleteTable(name: string, fail: bool) returns (err: Option<StoreError>)
      modifies this
      ensures Write(err, Snapshot()) == Store.DeleteTable(old(Snapshot()), name, fail)
    {
      if fail {
        return Some(ServiceFailure);
      }
      if !ValidTableName(name) {
        return Some(Validation);
      }
      if name !in tables {
        return Some(ResourceNotFound);
      }
      if tables[name].Creating? {
        return Some(ResourceInUse);
      }
      tables := tables - {name};
      return None;
    }

    method PutMessage(name: string, key: MessageKey, text: string, fail: bool)
      returns (err: Option<StoreError>)
      modifies this
      ensures Write(err, Snapshot()) == Store.PutMessage(old(Snapshot()), name, key, text, fail)
    {
      if fail {
        return Some(ServiceFailure);
      }
      if !ValidTableName(name) || key.authorID == "" || key.createdAt == "" {
        return Some(Validation);
      }
      if name !in tables || tables[name].Creating? {
        return Some(ResourceNotFound);
      }
      tables := tables[name := Active(tables[name].rows[key := text])];
      return None;
    }

    method ScanMessages(name: string, since: Option<string>, fail: bool) returns (r: Result<Scan>)
      ensures r == Store.ScanMessages(Snapshot(), name, since, fail)
    {
      if fail {
        return Err(ServiceFailure);
      }
      if !ValidTableName(name) {
        return Err(Validation);
      }
      if name !in tables || tables[name].Creating? {
        return Err(ResourceNotFound);
      }
      var rows := tables[name].rows;
      return Ok(Scan(SinceFilter(rows, since), |rows|));
    }
  }
}
