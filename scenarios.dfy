/**
 * Properties of sequences of requests across handlers: a user's session from
 * registration to logout, and a conversation from its creation to its deletion.
 */
module Scenarios {
  import opened Wrappers
  import opened Store
  import opened Http
  import Registration
  import Login
  import Logout
  import ProfileRead
  import CreatePersonalConversation
  import ListMyConversations
  import ConversationAddMessage
  import ConversationReadMessages
  import RoomMessages
  import RoomDelete
  import DeletePersonalConversation

  /** A user who has just registered can log in with the same password, and receives the
      uid drawn at registration; any password with another digest is refused. */
  lemma RegisterThenLogin(s: State, ev1: Event, env1: Env, email: string, password: string, name: string,
                          ev2: Event, env2: Env, password2: string)
    requires Registration.Registers(ev1, env1, email, password, name)
    requires UsersPut !in env1.faults && email !in s.users && env1.randomId != ""
    requires Login.LogsIn(ev2, env2, email, password2) && env2.lib == env1.lib
    requires UsersGet !in env2.faults && UsersUpdate !in env2.faults
    ensures var t := Registration.Transition(s, ev1, env1).s;
            Login.Transition(t, ev2, env2).out ==
              if env1.lib.sha256Hex(password2) == env1.lib.sha256Hex(password)
              then Respond(200, SessionIssued(env2.randomId, env1.randomId))
              else Respond(400, Error(NotFoundException))
  {
    Registration.RegisterSucceeds(s, ev1, env1, email, password, name);
    var t := Registration.Transition(s, ev1, env1).s;
    Login.LoginSucceeds(t, ev2, env2, email, password2);
  }

  /** The token a login issues opens the caller's profile, which shows the stored name. */
  lemma LoginThenReadProfile(s: State, ev1: Event, env1: Env, email: string, password: string,
                             ev2: Event, env2: Env)
    requires Login.LogsIn(ev1, env1, email, password)
    requires Login.Transition(s, ev1, env1).out.Respond? && Login.Transition(s, ev1, env1).out.status == 200
    requires var uid := Login.Transition(s, ev1, env1).out.body.uid;
             CheckHeaders(ev2) == Authorized(Credentials(uid, email, env1.randomId))
    requires UsersQuery !in env2.faults
    ensures var t := Login.Transition(s, ev1, env1).s;
            var uid := Login.Transition(s, ev1, env1).out.body.uid;
            ProfileRead.Handle(t, ev2, env2) ==
              Respond(200, Profile(ProfileItem(email, s.users[email].createdAt, s.users[email].name, uid)))
  {
    var t := Login.Transition(s, ev1, env1).s;
    var uid := Login.Transition(s, ev1, env1).out.body.uid;
    Login.LoginReplacesSession(s, ev1, env1, email, password, env1.randomId);
    ProfileRead.ReadsOwnProfile(t, ev2, env2, Credentials(uid, email, env1.randomId));
  }

  /** After a logout, the session's headers no longer open the profile. */
  lemma LogoutThenReadProfile(s: State, ev1: Event, env1: Env, ev2: Event, env2: Env)
    requires CheckHeaders(ev1).Authorized? && Logout.Transition(s, ev1, env1).out == Respond(200, NoBody)
    requires CheckHeaders(ev2) == CheckHeaders(ev1) && UsersQuery !in env2.faults
    ensures var t := Logout.Transition(s, ev1, env1).s;
            ProfileRead.Handle(t, ev2, env2) == Respond(400, Error(InvalidIDException))
  {
    var c := CheckHeaders(ev1).creds;
    Logout.LogoutRevokes(s, ev1, env1, c.token, c.uid);
    ProfileRead.ReadsOwnProfile(Logout.Transition(s, ev1, env1).s, ev2, env2, c);
  }

  /** A conversation just opened is listed for both participants, each with the other. */
  lemma CreateThenList(s: State, ev1: Event, env1: Env, u: string, v: string,
                       ev2: Event, env2: Env, c: Credentials)
    requires CreatePersonalConversation.Asks(ev1, env1, u, v)
    requires CreatePersonalConversation.Transition(s, ev1, env1).out ==
             Respond(201, ConversationCreated(env1.randomId))
    requires CheckHeaders(ev2) == Authorized(c) && (c.uid == u || c.uid == v)
    requires RegistryScan !in env2.faults
    ensures var t := CreatePersonalConversation.Transition(s, ev1, env1).s;
            var list := ListMyConversations.Handle(t, ev2, env2).body.companions;
            env1.randomId in list && list[env1.randomId] == if c.uid == u then v else u
  {
    CreatePersonalConversation.CreateSucceeds(s, ev1, env1, u, v);
    var t := CreatePersonalConversation.Transition(s, ev1, env1).s;
    var id := env1.randomId;
    ListMyConversations.ListsOwnConversations(t, ev2, env2, c, id);
    var list := ListMyConversations.Handle(t, ev2, env2).body.companions;
    var p := CreatePersonalConversation.SortPair(u, v);
    assert t.conversations[id] == Conversation(p.0, p.1, env1.now);
    assert multiset{c.uid, list[id]} == multiset{u, v};
    assert list[id] in multiset{u, v};
  }

  /** A message just posted is read back, under the author's uid and the posting time,
      by anyone who passes the credential check and asks for the whole conversation. */
  lemma PostThenRead(s: State, ev1: Event, env1: Env, c1: Credentials, id: string, message: string,
                     ev2: Event, env2: Env, c2: Credentials)
    requires ConversationAddMessage.Posts(ev1, env1, c1, id, message)
    requires Matches(s, c1.email, c1.token, c1.uid)
    requires UsersQuery !in env1.faults && TablePut !in env1.faults && env1.now != ""
    requires var name := TableName(ConversationRoom, id);
             ValidTableName(name) && name in s.tables && s.tables[name].Active?
    requires RoomMessages.Reads(ev2, c2, "conversationID", id) && Matches(s, c2.email, c2.token, c2.uid)
    requires RoomMessages.Since(ev2) == None
    requires UsersQuery !in env2.faults && TableScan !in env2.faults
    ensures var t := ConversationAddMessage.Transition(s, ev1, env1).s;
            var out := ConversationReadMessages.Handle(t, ev2, env2);
            && out.Respond? && out.status == 200 && out.body.Messages?
            && MessageKey(c1.uid, env1.now) in out.body.items
            && out.body.items[MessageKey(c1.uid, env1.now)] == message
  {
    ConversationAddMessage.PostSucceeds(s, ev1, env1, c1, id, message);
    var t := ConversationAddMessage.Transition(s, ev1, env1).s;
    RoomMessages.ReadsActiveTable(t, ev2, env2, ConversationRoom, "conversationID", c2, id);
  }

  /** Once a conversation and its table are deleted, posting to it is an invalid id. */
  lemma DeleteThenPost(s: State, ev1: Event, env1: Env, c1: Credentials, id: string,
                       ev2: Event, env2: Env, c2: Credentials, message: string)
    requires RoomDelete.Deletes(ev1, c1, "conversationID", id)
    requires RoomDelete.Owns(s, ConversationRoom, id, c1.uid)
    requires RegistryDelete !in env1.faults && TableDelete !in env1.faults
    requires var name := TableName(ConversationRoom, id);
             ValidTableName(name) && name in s.tables && s.tables[name].Active?
    requires ConversationAddMessage.Posts(ev2, env2, c2, id, message)
    requires Matches(s, c2.email, c2.token, c2.uid)
    requires UsersQuery !in env2.faults && TablePut !in env2.faults && RegistryGet !in env2.faults
    requires env2.now != ""
    ensures var t := DeletePersonalConversation.Transition(s, ev1, env1).s;
            ConversationAddMessage.Transition(t, ev2, env2) == Effect(Respond(400, Error(InvalidIDException)), t)
  {
    RoomDelete.DeleteSucceeds(s, ev1, env1, ConversationRoom, "conversationID", c1, id);
    var t := DeletePersonalConversation.Transition(s, ev1, env1).s;
    ConversationAddMessage.MissingTableExplained(t, ev2, env2, c2, id, message);
  }
}
