/**
 * Posting a message to a conversation: after the header check, the decoder and the
 * required `conversationID` and `message` fields, the caller must be the one user whose
 * row has the given email, token and uid. The message is then written to the
 * conversation's table under (rs-uid, now). A missing table is explained by a look at the
 * registry; any other write error is ignored and the answer is still 201.
 */
module ConversationAddMessage {
  import opened Wrappers
  import opened Store
  import opened Http
  import opened Forms
  import opened Db

  /** The write and its aftermath, once the caller is known. */
  function Post(s: State, uid: string, id: string, message: string, env: Env): Effect {
    var w := PutMessage(s, TableName(ConversationRoom, id), MessageKey(uid, env.now), message,
                        Fails(env, TablePut));
    if w.err == Some(ResourceNotFound) then
      match RoomExists(s, ConversationRoom, id, Fails(env, RegistryGet))
      case Err(e) => Effect(Crash(Thrown(e)), s)
      case Ok(true) => Effect(Respond(400, Error(RoomReadyException)), s)
      case Ok(false) => Effect(Respond(400, Error(InvalidIDException)), s)
    else Effect(Respond(201, NoBody), w.s)
  }

  function Transition(s: State, ev: Event, env: Env): Effect {
    var check := CheckHeaders(ev);
    if !check.Authorized? then Effect(HeaderFailure(check), s)
    else
      var c := check.creds;
      match DecodeBody(ContentType(ev), ev.body, ev.isBase64Encoded, env.lib)
      case Unsupported => Effect(Respond(400, Error(InvalidFormDataException)), s)
      case NoBoundary => Effect(Crash(TypeError), s)
      case Failed(f) => Effect(Crash(f), s)
      case Fields(data) =>
        var id := Field(data, "conversationID");
        var message := Field(data, "message");
        if !(Truthy(id) && Truthy(message)) then Effect(Respond(400, Error(InvalidPostData)), s)
        else match QueryUser(s, c.email, c.token, c.uid, Fails(env, UsersQuery))
          case Err(e) => Effect(Crash(Thrown(e)), s)
          case Ok(items) =>
            if |items| != 1 then Effect(Respond(400, Error(InvalidTokenException)), s)
            else Post(s, c.uid, id.value, message.value, env)
  }

  method Handle(db: Database, ev: Event, env: Env) returns (out: Outcome)
    modifies db
    ensures Effect(out, db.Snapshot()) == Transition(old(db.Snapshot()), ev, env)
  {
    var check := CheckHeaders(ev);
    if !check.Authorized? {
      return HeaderFailure(check);
    }
    var c := check.creds;
    var decoded := Decode(ContentType(ev), ev.body, ev.isBase64Encoded, env.lib);
    match decoded {
      case Unsupported => return Respond(400, Error(InvalidFormDataException));
      case NoBoundary => return Crash(TypeError);
      case Failed(f) => return Crash(f);
      case Fields(data) =>
        var id := Field(data, "conversationID");
        var message := Field(data, "message");
        if !(Truthy(id) && Truthy(message)) {
          return Respond(400, Error(InvalidPostData));
        }
        var profile := db.QueryUser(c.email, c.token, c.uid, Fails(env, UsersQuery));
        if profile.Err? {
          return Crash(Thrown(profile.error));
        }
        if |profile.value| != 1 {
          return Respond(400, Error(InvalidTokenException));
        }
        var err := db.PutMessage(TableName(ConversationRoom, id.value), MessageKey(c.uid, env.now),
                                 message.value, Fails(env, TablePut));
        if err == Some(ResourceNotFound) {
          var verify := db.RoomExists(ConversationRoom, id.value, Fails(env, RegistryGet));
          if verify.Err? {
            return Crash(Thrown(verify.error));
          }
          if verify.value {
            return Respond(400, Error(RoomReadyException));
          }
          return Respond(400, Error(InvalidIDException));
        }
        return Respond(201, NoBody);
    }
  }

  // ---------------------------------------------------------------------------
  // Properties

  /** A request that passes validation: the caller, the conversation and the text. */
  predicate Posts(ev: Event, env: Env, c: Credentials, id: string, message: string) {
    && CheckHeaders(ev) == Authorized(c)
    && var d := DecodeBody(ContentType(ev), ev.body, ev.isBase64Encoded, env.lib);
       && d.Fields?
       && Field(d.data, "conversationID") == Some(id) && id != ""
       && Field(d.data, "message") == Some(message) && message != ""
  }

  /** The store after the message has been appended to an active table. */
  function Appended(s: State, name: string, key: MessageKey, message: string): State
    requires name in s.tables && s.tables[name].Active?
  {
    s.(tables := s.tables[name := Active(s.tables[name].rows[key := message])])
  }

  /** A request missing either field answers 400 and writes nothing. */
  lemma MissingFieldsRejected(s: State, ev: Event, env: Env)
    requires CheckHeaders(ev).Authorized?
    requires var d := DecodeBody(ContentType(ev), ev.body, ev.isBase64Encoded, env.lib);
             d.Fields? && !(Truthy(Field(d.data, "conversationID")) && Truthy(Field(d.data, "message")))
    ensures Transition(s, ev, env) == Effect(Respond(400, Error(InvalidPostData)), s)
  {
  }

  /** A caller whose email, token and uid do not single out one user row is refused, and
      nothing is written. */
  lemma CredentialsRequired(s: State, ev: Event, env: Env, c: Credentials, id: string, message: string)
    requires Posts(ev, env, c, id, message) && UsersQuery !in env.faults
    ensures Transition(s, ev, env).out != Respond(400, Error(InvalidTokenException)) <==>
            Matches(s, c.email, c.token, c.uid)
    ensures !Matches(s, c.email, c.token, c.uid) ==>
            Transition(s, ev, env) == Effect(Respond(400, Error(InvalidTokenException)), s)
  {
  }

  /** An accepted message lands in the conversation's table under the caller's uid and the
      current time, and every other row stays as it was. */
  lemma PostSucceeds(s: State, ev: Event, env: Env, c: Credentials, id: string, message: string)
    requires Posts(ev, env, c, id, message)
    requires Matches(s, c.email, c.token, c.uid)
    requires UsersQuery !in env.faults && TablePut !in env.faults && env.now != ""
    requires var name := TableName(ConversationRoom, id);
             ValidTableName(name) && name in s.tables && s.tables[name].Active?
    ensures var name := TableName(ConversationRoom, id);
            Transition(s, ev, env) ==
              Effect(Respond(201, NoBody), Appended(s, name, MessageKey(c.uid, env.now), message))
  {
    assert |QueryUser(s, c.email, c.token, c.uid, false).value| == 1;
    assert Transition(s, ev, env) == Post(s, c.uid, id, message, env);
  }

  /** The author of a stored message is always the caller named by the headers: a request
      either leaves the store alone or appends exactly one row keyed by rs-uid. */
  lemma AuthorIsCaller(s: State, ev: Event, env: Env)
    ensures var e := Transition(s, ev, env);
            e.s == s ||
            exists c: Credentials, id: string, message: string ::
              && Posts(ev, env, c, id, message)
              && var name := TableName(ConversationRoom, id);
                 name in s.tables && s.tables[name].Active?
                 && e.s == Appended(s, name, MessageKey(c.uid, env.now), message)
  {
    var e := Transition(s, ev, env);
    if e.s != s {
      var c := CheckHeaders(ev).creds;
      var d := DecodeBody(ContentType(ev), ev.body, ev.isBase64Encoded, env.lib);
      var id := Field(d.data, "conversationID").value;
      var message := Field(d.data, "message").value;
      assert Posts(ev, env, c, id, message);
    }
  }

  /** A table that does not exist yet, or is still being created, is told apart by the
      registry: a registered conversation is not ready, an unknown one is invalid. */
  lemma MissingTableExplained(s: State, ev: Event, env: Env, c: Credentials, id: string, message: string)
    requires Posts(ev, env, c, id, message)
    requires Matches(s, c.email, c.token, c.uid)
    requires UsersQuery !in env.faults && TablePut !in env.faults && RegistryGet !in env.faults && env.now != ""
    requires var name := TableName(ConversationRoom, id);
             ValidTableName(name) && (name !in s.tables || s.tables[name].Creating?)
    ensures Transition(s, ev, env) ==
      Effect(Respond(400, Error(if id in s.conversations then RoomReadyException else InvalidIDException)), s)
  {
    assert |QueryUser(s, c.email, c.token, c.uid, false).value| == 1;
    assert Transition(s, ev, env) == Post(s, c.uid, id, message, env);
  }

  /** Any other write error is swallowed: the answer is 201 although nothing was stored. */
  lemma OtherWriteErrorsSwallowed(s: State, ev: Event, env: Env, c: Credentials, id: string, message: string)
    requires Posts(ev, env, c, id, message)
    requires Matches(s, c.email, c.token, c.uid) && UsersQuery !in env.faults
    requires TablePut in env.faults || !ValidTableName(TableName(ConversationRoom, id))
    ensures Transition(s, ev, env) == Effect(Respond(201, NoBody), s)
  {
  }

  /** Appending a message keeps the store consistent. */
  lemma TransitionKeepsValid(s: State, ev: Event, env: Env)
    requires Valid(s)
    ensures Valid(Transition(s, ev, env).s)
  {
    AuthorIsCaller(s, ev, env);
  }
}
