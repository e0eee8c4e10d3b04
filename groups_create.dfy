/**
 * Creating a group: after the header check and the decoder, the `name` field is required.
 * The group's message table is created first and its registry row, holding the name, the
 * caller as creator and the time, is then written under `attribute_not_exists(id)`. A
 * failure of either store call is answered with status 500 and the error as the body.
 * Nothing here checks that the caller's token is the stored one.
 */
module GroupsCreate {
  import opened Wrappers
  import opened Store
  import opened Http
  import opened Forms
  import opened Db

  /** The part of the handler after the request has been validated. */
  function Create(s: State, uid: string, name: string, env: Env): Effect {
    var id := env.randomId;
    var w1 := CreateTable(s, TableName(GroupRoom, id), Fails(env, TableCreate));
    if w1.err.Some? then Effect(Respond(500, ServerError(w1.err.value)), w1.s)
    else
      var w2 := PutGroup(w1.s, id, Group(name, uid, env.now), Fails(env, RegistryPut));
      if w2.err.Some? then Effect(Respond(500, ServerError(w2.err.value)), w2.s)
      else Effect(Respond(201, GroupCreated(id)), w2.s)
  }

  function Transition(s: State, ev: Event, env: Env): Effect {
    var check := CheckHeaders(ev);
    if !check.Authorized? then Effect(HeaderFailure(check), s)
    else
      match DecodeBody(ContentType(ev), ev.body, ev.isBase64Encoded, env.lib)
      case Unsupported => Effect(Respond(400, Error(InvalidFormDataException)), s)
      case NoBoundary => Effect(Crash(TypeError), s)
      case Failed(f) => Effect(Crash(f), s)
      case Fields(data) =>
        var name := Field(data, "name");
        if !Truthy(name) then Effect(Respond(400, Error(InvalidFormDataException)), s)
        else Create(s, check.creds.uid, name.value, env)
  }

  method Handle(db: Database, ev: Event, env: Env) returns (out: Outcome)
    modifies db
    ensures Effect(out, db.Snapshot()) == Transition(old(db.Snapshot()), ev, env)
  {
    var check := CheckHeaders(ev);
    if !check.Authorized? {
      return HeaderFailure(check);
    }
    var decoded := Decode(ContentType(ev), ev.body, ev.isBase64Encoded, env.lib);
    match decoded {
      case Unsupported => return Respond(400, Error(InvalidFormDataException));
      case NoBoundary => return Crash(TypeError);
      case Failed(f) => return Crash(f);
      case Fields(data) =>
        var name := Field(data, "name");
        if !Truthy(name) {
          return Respond(400, Error(InvalidFormDataException));
        }
        var id := env.randomId;
        var err := db.CreateTable(TableName(GroupRoom, id), Fails(env, TableCreate));
        if err.Some? {
          return Respond(500, ServerError(err.value));
        }
        err := db.PutGroup(id, Group(name.value, check.creds.uid, env.now), Fails(env, RegistryPut));
        if err.Some? {
          return Respond(500, ServerError(err.value));
        }
        return Respond(201, GroupCreated(id));
    }
  }

  // ---------------------------------------------------------------------------
  // Properties

  /** A request that passes validation, with the caller and the group's name. */
  predicate Names(ev: Event, env: Env, c: Credentials, name: string) {
    && CheckHeaders(ev) == Authorized(c)
    && var d := DecodeBody(ContentType(ev), ev.body, ev.isBase64Encoded, env.lib);
       d.Fields? && Field(d.data, "name") == Some(name) && name != ""
  }

  /** Without a name, or with an unsupported content type, the answer is 400 and nothing
      is created. */
  lemma InvalidRequestRejected(s: State, ev: Event, env: Env)
    requires CheckHeaders(ev).Authorized?
    requires var d := DecodeBody(ContentType(ev), ev.body, ev.isBase64Encoded, env.lib);
             d.Unsupported? || (d.Fields? && !Truthy(Field(d.data, "name")))
    ensures Transition(s, ev, env) == Effect(Respond(400, Error(InvalidFormDataException)), s)
  {
  }

  /** A multipart content type without a boundary makes the handler throw: the check for
      an empty boundary that would answer 400 is never reached. */
  lemma MissingBoundaryThrows(s: State, ev: Event, env: Env)
    requires CheckHeaders(ev).Authorized?
    requires !(ev.isBase64Encoded && ev.body.None?)
    requires IsMultipart(ContentType(ev))
    requires BoundaryOf(ContentType(ev).value).None?
    ensures Transition(s, ev, env) == Effect(Crash(TypeError), s)
  {
    // A multipart content type is never the URL-encoded one: they differ at the first character.
    assert UrlEncoded[0] != Multipart[0];
  }

  /** The request succeeds exactly when the id is usable and unused and neither store call
      fails; the new table is then being created, and the row names the caller as creator. */
  lemma CreateSucceeds(s: State, ev: Event, env: Env, c: Credentials, name: string)
    requires Names(ev, env, c, name)
    ensures var id := env.randomId;
            var table := TableName(GroupRoom, id);
            var e := Transition(s, ev, env);
            && (e.out == Respond(201, GroupCreated(id)) <==>
                 && TableCreate !in env.faults && RegistryPut !in env.faults
                 && ValidTableName(table) && table !in s.tables
                 && id != "" && id !in s.groups)
            && (e.out.Respond? && e.out.status == 201 ==>
                 e.s == s.(tables := s.tables[table := Creating],
                           groups := s.groups[id := Group(name, c.uid, env.now)]))
  {
  }

  /** A failed table creation answers 500 with the store's error and changes nothing. */
  lemma TableFailureAnswers500(s: State, ev: Event, env: Env, c: Credentials, name: string)
    requires Names(ev, env, c, name)
    requires var table := TableName(GroupRoom, env.randomId);
             TableCreate in env.faults || !ValidTableName(table) || table in s.tables
    ensures var e := Transition(s, ev, env);
            e.s == s && e.out.Respond? && e.out.status == 500 && e.out.body.ServerError?
  {
  }

  /** A failed registry write answers 500 but leaves the table just created behind. */
  lemma RowFailureKeepsTable(s: State, ev: Event, env: Env, c: Credentials, name: string)
    requires Names(ev, env, c, name)
    requires var table := TableName(GroupRoom, env.randomId);
             TableCreate !in env.faults && ValidTableName(table) && table !in s.tables
    requires RegistryPut in env.faults || env.randomId in s.groups
    ensures var e := Transition(s, ev, env);
            && e.out.Respond? && e.out.status == 500 && e.out.body.ServerError?
            && e.s == s.(tables := s.tables[TableName(GroupRoom, env.randomId) := Creating])
  {
    assert Transition(s, ev, env) == Create(s, c.uid, name, env);
  }

  /** Creating a group keeps the store consistent: a new row always has its table. */
  lemma TransitionKeepsValid(s: State, ev: Event, env: Env)
    requires Valid(s)
    ensures Valid(Transition(s, ev, env).s)
  {
    var t := Transition(s, ev, env).s;
    if t != s {
      forall id | id in t.conversations
        ensures TableName(ConversationRoom, id) in t.tables
      {
        assert t.conversations == s.conversations;
      }
    }
  }
}
