/**
 * Opening a personal conversation: the caller (from the headers) and the `companion`
 * field form a pair, sorted so that either participant names the same conversation; an
 * existing row with that pair is refused; otherwise the conversation's message table is
 * created and then its registry row is written under `attribute_not_exists(id)`.
 * Error bodies of this handler carry no `type`.
 */
module CreatePersonalConversation {
  import opened Wrappers
  import opened JsStrings
  import opened Store
  import opened Http
  import opened Forms
  import opened Db

  /** `[a, b].sort()`: the two participants in ascending order. */
  function SortPair(a: string, b: string): (p: (string, string))
    ensures !Less(p.1, p.0)
    ensures multiset{p.0, p.1} == multiset{a, b}
  {
    if Less(b, a) then
      LessAsymmetric(b, a);
      (b, a)
    else (a, b)
  }

  /** Swapping the roles of caller and companion gives the same pair. */
  lemma SortPairSymmetric(a: string, b: string)
    ensures SortPair(a, b) == SortPair(b, a)
  {
    LessTotal(a, b);
    if Less(a, b) {
      LessAsymmetric(a, b);
    }
  }

  /** The part of the handler after the request has been validated. */
  function Create(s: State, uid: string, companion: string, env: Env): Effect {
    var p := SortPair(uid, companion);
    match CountPair(s, p.0, p.1, Fails(env, RegistryScan))
    case Err(e) => Effect(Crash(Thrown(e)), s)
    case Ok(n) =>
      if n > 0 then Effect(Respond(400, Error(DuplicationNotAllowedException)), s)
      else
        var id := env.randomId;
        var w1 := CreateTable(s, TableName(ConversationRoom, id), Fails(env, TableCreate));
        if w1.err.Some? then Effect(Crash(Thrown(w1.err.value)), w1.s)
        else
          var w2 := PutConversation(w1.s, id, Conversation(p.0, p.1, env.now), Fails(env, RegistryPut));
          if w2.err.Some? then Effect(Crash(Thrown(w2.err.value)), w2.s)
          else Effect(Respond(201, ConversationCreated(id)), w2.s)
  }

  /** The handler as a function of the store it starts from. */
  function Transition(s: State, ev: Event, env: Env): Effect {
    match CheckHeaders(ev)
    case MissingHeaders => Effect(Respond(400, Untyped), s)
    case MalformedBearer => Effect(Respond(400, Untyped), s)
    case Authorized(c) =>
      match DecodeBody(ContentType(ev), ev.body, ev.isBase64Encoded, env.lib)
      case Unsupported => Effect(Respond(400, Untyped), s)
      case NoBoundary => Effect(Crash(TypeError), s)
      case Failed(f) => Effect(Crash(f), s)
      case Fields(data) =>
        var companion := Field(data, "companion");
        if !Truthy(companion) then Effect(Respond(400, Untyped), s)
        else Create(s, c.uid, companion.value, env)
  }

  /** The handler, issuing its store calls one after the other. */
  method Handle(db: Database, ev: Event, env: Env) returns (out: Outcome)
    modifies db
    ensures Effect(out, db.Snapshot()) == Transition(old(db.Snapshot()), ev, env)
  {
    var check := CheckHeaders(ev);
    if !check.Authorized? {
      return Respond(400, Untyped);
    }
    var decoded := Decode(ContentType(ev), ev.body, ev.isBase64Encoded, env.lib);
    match decoded {
      case Unsupported => return Respond(400, Untyped);
      case NoBoundary => return Crash(TypeError);
      case Failed(f) => return Crash(f);
      case Fields(data) =>
        var companion := Field(data, "companion");
        if !Truthy(companion) {
          return Respond(400, Untyped);
        }
        var p := SortPair(check.creds.uid, companion.value);
        var count := db.CountPair(p.0, p.1, Fails(env, RegistryScan));
        if count.Err? {
          return Crash(Thrown(count.error));
        }
        if count.value > 0 {
          return Respond(400, Error(DuplicationNotAllowedException));
        }
        var id := env.randomId;
        var err := db.CreateTable(TableName(ConversationRoom, id), Fails(env, TableCreate));
        if err.Some? {
          return Crash(Thrown(err.value));
        }
        err := db.PutConversation(id, Conversation(p.0, p.1, env.now), Fails(env, RegistryPut));
        if err.Some? {
          return Crash(Thrown(err.value));
        }
        return Respond(201, ConversationCreated(id));
    }
  }

  // ---------------------------------------------------------------------------
  // Properties

  /** A request that passes validation, with the pair it asks for. */
  predicate Asks(ev: Event, env: Env, uid: string, companion: string) {
    && CheckHeaders(ev).Authorized? && CheckHeaders(ev).creds.uid == uid
    && DecodeBody(ContentType(ev), ev.body, ev.isBase64Encoded, env.lib).Fields?
    && Field(DecodeBody(ContentType(ev), ev.body, ev.isBase64Encoded, env.lib).data, "companion")
         == Some(companion)
    && companion != ""
  }

  /** Failing the header check answers 400 before the store is touched. */
  lemma HeaderFailureFirst(s: State, ev: Event, env: Env)
    requires !CheckHeaders(ev).Authorized?
    ensures Transition(s, ev, env) == Effect(Respond(400, Untyped), s)
  {
  }

  /** A request without a companion, or with an unsupported content type, answers 400
      and changes nothing. */
  lemma InvalidRequestRejected(s: State, ev: Event, env: Env)
    requires CheckHeaders(ev).Authorized?
    requires var d := DecodeBody(ContentType(ev), ev.body, ev.isBase64Encoded, env.lib);
             d.Unsupported? || (d.Fields? && !Truthy(Field(d.data, "companion")))
    ensures Transition(s, ev, env) == Effect(Respond(400, Untyped), s)
  {
  }

  /** A pair that is already registered is refused, and nothing is created. */
  lemma DuplicateRejected(s: State, ev: Event, env: Env, uid: string, companion: string, id: string)
    requires Asks(ev, env, uid, companion) && RegistryScan !in env.faults
    requires id in s.conversations && Pair(s.conversations[id]) == SortPair(uid, companion)
    ensures Transition(s, ev, env) == Effect(Respond(400, Error(DuplicationNotAllowedException)), s)
  {
    var p := SortPair(uid, companion);
    assert id in RowsWithPair(s, p.0, p.1);
  }

  /** The request succeeds exactly when the pair is new, the id is usable and unused, and
      no store call fails; the table then exists and is empty, and the row holds the
      sorted pair and the time. */
  lemma CreateSucceeds(s: State, ev: Event, env: Env, uid: string, companion: string)
    requires Asks(ev, env, uid, companion)
    ensures var p := SortPair(uid, companion);
            var id := env.randomId;
            var name := TableName(ConversationRoom, id);
            var e := Transition(s, ev, env);
            && (e.out == Respond(201, ConversationCreated(id)) <==>
                 && RowsWithPair(s, p.0, p.1) == {}
                 && RegistryScan !in env.faults && TableCreate !in env.faults && RegistryPut !in env.faults
                 && ValidTableName(name) && name !in s.tables
                 && id != "" && id !in s.conversations)
            && (e.out.Respond? && e.out.status == 201 ==>
                 e.s == s.(tables := s.tables[name := Creating],
                           conversations := s.conversations[id := Conversation(p.0, p.1, env.now)]))
  {
  }

  /** In a consistent store an id that is already registered already has its table, so
      the table creation throws and nothing changes. */
  lemma IdCollisionThrows(s: State, ev: Event, env: Env, uid: string, companion: string)
    requires Valid(s)
    requires Asks(ev, env, uid, companion)
    requires var p := SortPair(uid, companion); RowsWithPair(s, p.0, p.1) == {}
    requires RegistryScan !in env.faults && TableCreate !in env.faults
    requires ValidTableName(TableName(ConversationRoom, env.randomId))
    requires env.randomId in s.conversations
    ensures Transition(s, ev, env) == Effect(Crash(Thrown(ResourceInUse)), s)
  {
    var p := SortPair(uid, companion);
    assert CountPair(s, p.0, p.1, Fails(env, RegistryScan)) == Ok(0);
    assert Transition(s, ev, env) == Create(s, uid, companion, env);
  }

  /** A registered id whose table is gone (a store that is not `Valid`, such as one whose
      tables were dropped behind the registry) gets past the table creation: the guarded
      put then fails, the existing row is untouched, and the table just created stays. */
  lemma IdCollisionKeepsRow(s: State, ev: Event, env: Env, uid: string, companion: string)
    requires Asks(ev, env, uid, companion)
    requires var p := SortPair(uid, companion); RowsWithPair(s, p.0, p.1) == {}
    requires RegistryScan !in env.faults && TableCreate !in env.faults && RegistryPut !in env.faults
    requires var name := TableName(ConversationRoom, env.randomId);
             ValidTableName(name) && name !in s.tables
    requires env.randomId != "" && env.randomId in s.conversations
    ensures Transition(s, ev, env) ==
      Effect(Crash(Thrown(ConditionalCheckFailed)),
             s.(tables := s.tables[TableName(ConversationRoom, env.randomId) := Creating]))
  {
    var p := SortPair(uid, companion);
    assert CountPair(s, p.0, p.1, Fails(env, RegistryScan)) == Ok(0);
    assert Transition(s, ev, env) == Create(s, uid, companion, env);
  }

  /** Starting from a consistent store the handler leaves one: pairs stay sorted and
      unique, and every registered conversation keeps a table. */
  lemma TransitionKeepsValid(s: State, ev: Event, env: Env)
    requires Valid(s)
    ensures Valid(Transition(s, ev, env).s)
  {
    match CheckHeaders(ev)
    case MissingHeaders =>
    case MalformedBearer =>
    case Authorized(c) =>
      match DecodeBody(ContentType(ev), ev.body, ev.isBase64Encoded, env.lib)
      case Unsupported =>
      case NoBoundary =>
      case Failed(_) =>
      case Fields(data) =>
        var companion := Field(data, "companion");
        if Truthy(companion) {
          CreateKeepsValid(s, c.uid, companion.value, env);
        }
  }

  lemma CreateKeepsValid(s: State, uid: string, companion: string, env: Env)
    requires Valid(s)
    ensures Valid(Create(s, uid, companion, env).s)
  {
    var p := SortPair(uid, companion);
    var id := env.randomId;
    var w1 := CreateTable(s, TableName(ConversationRoom, id), Fails(env, TableCreate));
    var w2 := PutConversation(w1.s, id, Conversation(p.0, p.1, env.now), Fails(env, RegistryPut));
    if CountPair(s, p.0, p.1, Fails(env, RegistryScan)) == Ok(0) && w1.err.None? && w2.err.None? {
      var t := w2.s;
      assert RowsWithPair(s, p.0, p.1) == {};
      forall a | a in s.conversations
        ensures Pair(s.conversations[a]) != (p.0, p.1)
      {
        assert a !in RowsWithPair(s, p.0, p.1);
      }
      assert t.conversations == s.conversations[id := Conversation(p.0, p.1, env.now)];
      assert t.tables == s.tables[TableName(ConversationRoom, id) := Creating];
    }
  }

  /** Once a conversation between two users exists, the companion cannot open it again
      from the other side: the request with the roles swapped is a duplicate. */
  lemma SwappedRolesRejected(s: State, ev1: Event, ev2: Event, env1: Env, env2: Env,
                             u: string, v: string)
    requires Asks(ev1, env1, u, v) && Asks(ev2, env2, v, u)
    requires Transition(s, ev1, env1).out == Respond(201, ConversationCreated(env1.randomId))
    requires RegistryScan !in env2.faults
    ensures var t := Transition(s, ev1, env1).s;
            Transition(t, ev2, env2) == Effect(Respond(400, Error(DuplicationNotAllowedException)), t)
  {
    CreateSucceeds(s, ev1, env1, u, v);
    var t := Transition(s, ev1, env1).s;
    SortPairSymmetric(u, v);
    DuplicateRejected(t, ev2, env2, v, u, env1.randomId);
  }
}
