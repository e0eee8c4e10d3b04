/**
 * Reading the messages of a conversation or a group. The two read handlers are the same
 * code over a different registry, table prefix and query parameter: after the header
 * check, the id must be in the query string, the caller must pass the credential check,
 * and the room's table is scanned, filtered on `createdAt > since` when `since` is given.
 * A missing table is an empty answer for a registered room and an invalid id otherwise.
 * Nothing in the store changes.
 */
module RoomMessages {
  import opened Wrappers
  import opened JsStrings
  import opened Store
  import opened Http

  /** The `since` filter: applied only when the parameter is present and non-empty. */
  function Since(ev: Event): Option<string> {
    var since := Lookup(ev.query, "since");
    if Truthy(since) then since else None
  }

  /** The read handler for a room kind and the name of its id parameter. */
  function Read(s: State, ev: Event, env: Env, room: Room, param: string): Outcome {
    var check := CheckHeaders(ev);
    if !check.Authorized? then HeaderFailure(check)
    else
      var c := check.creds;
      var id := Lookup(ev.query, param);
      if !Truthy(id) then Respond(400, Error(InvalidFormDataException))
      else match QueryUser(s, c.email, c.token, c.uid, Fails(env, UsersQuery))
        case Err(e) => Crash(Thrown(e))
        case Ok(items) =>
          if |items| != 1 then Respond(400, Error(InvalidTokenException))
          else match ScanMessages(s, TableName(room, id.value), Since(ev), Fails(env, TableScan))
            case Ok(scan) => Respond(200, Messages(scan.items, scan.scannedCount))
            case Err(ResourceNotFound) =>
              (match RoomExists(s, room, id.value, Fails(env, RegistryGet))
               case Err(e) => Crash(Thrown(e))
               case Ok(true) => Respond(200, Messages(map[], 0))
               case Ok(false) => Respond(400, Error(InvalidIDException)))
            case Err(Validation) => Respond(400, Error(InvalidFormDataException))
            case Err(e) => Crash(Thrown(e))
  }

  // ---------------------------------------------------------------------------
  // Properties

  /** A read by a caller with valid headers, for the room with this id. */
  predicate Reads(ev: Event, c: Credentials, param: string, id: string) {
    CheckHeaders(ev) == Authorized(c) && Lookup(ev.query, param) == Some(id) && id != ""
  }

  /** A missing id answers 400 before the users table is consulted: the answer does not
      depend on the store or on which calls fail. */
  lemma IdRequiredFirst(s: State, ev: Event, env: Env, room: Room, param: string)
    requires CheckHeaders(ev).Authorized? && !Truthy(Lookup(ev.query, param))
    ensures Read(s, ev, env, room, param) == Respond(400, Error(InvalidFormDataException))
  {
  }

  /** The scan happens only for a caller that the credential check singles out. */
  lemma CredentialsRequired(s: State, ev: Event, env: Env, room: Room, param: string,
                            c: Credentials, id: string)
    requires Reads(ev, c, param, id) && UsersQuery !in env.faults
    ensures Read(s, ev, env, room, param) == Respond(400, Error(InvalidTokenException)) <==>
            !Matches(s, c.email, c.token, c.uid)
  {
  }

  /** On an active table the answer is its messages, filtered on `since` when given, with
      the number of rows read: a row is returned, with its text unchanged, exactly when
      there is no `since` or the row was created after it. */
  lemma ReadsActiveTable(s: State, ev: Event, env: Env, room: Room, param: string,
                         c: Credentials, id: string)
    requires Reads(ev, c, param, id) && Matches(s, c.email, c.token, c.uid)
    requires UsersQuery !in env.faults && TableScan !in env.faults
    requires var name := TableName(room, id);
             ValidTableName(name) && name in s.tables && s.tables[name].Active?
    ensures var rows := s.tables[TableName(room, id)].rows;
            Read(s, ev, env, room, param) == Respond(200, Messages(SinceFilter(rows, Since(ev)), |rows|))
    ensures var rows := s.tables[TableName(room, id)].rows;
            var out := Read(s, ev, env, room, param);
            && out.Respond? && out.status == 200 && out.body.Messages? && out.body.scannedCount == |rows|
            && (forall k :: k in out.body.items <==>
                  k in rows && (Since(ev).None? || Less(Since(ev).value, k.createdAt)))
            && (forall k :: k in out.body.items ==> out.body.items[k] == rows[k])
  {
    assert |QueryUser(s, c.email, c.token, c.uid, false).value| == 1;
  }

  /** A later `since` returns fewer messages: its answer is part of the earlier one's. */
  lemma SinceMonotone(rows: map<MessageKey, string>, earlier: string, later: string)
    requires Less(earlier, later)
    ensures SinceFilter(rows, Some(later)).Keys <= SinceFilter(rows, Some(earlier)).Keys
  {
    forall k | k in SinceFilter(rows, Some(later))
      ensures k in SinceFilter(rows, Some(earlier))
    {
      LessTransitive(earlier, later, k.createdAt);
    }
  }

  /** A table that is missing or still being created is told apart by the registry: an
      empty answer for a registered room, an invalid id otherwise. */
  lemma MissingTableExplained(s: State, ev: Event, env: Env, room: Room, param: string,
                              c: Credentials, id: string)
    requires Reads(ev, c, param, id) && Matches(s, c.email, c.token, c.uid)
    requires UsersQuery !in env.faults && TableScan !in env.faults && RegistryGet !in env.faults
    requires var name := TableName(room, id);
             ValidTableName(name) && (name !in s.tables || s.tables[name].Creating?)
    ensures Read(s, ev, env, room, param) ==
      if Registered(s, room, id) then Respond(200, Messages(map[], 0))
      else Respond(400, Error(InvalidIDException))
  {
    assert |QueryUser(s, c.email, c.token, c.uid, false).value| == 1;
  }

  /** An id that makes an invalid table name fails the store's validation, which is
      answered as invalid form data. */
  lemma InvalidIdIsFormData(s: State, ev: Event, env: Env, room: Room, param: string,
                            c: Credentials, id: string)
    requires Reads(ev, c, param, id) && Matches(s, c.email, c.token, c.uid)
    requires UsersQuery !in env.faults && TableScan !in env.faults
    requires !ValidTableName(TableName(room, id))
    ensures Read(s, ev, env, room, param) == Respond(400, Error(InvalidFormDataException))
  {
    assert |QueryUser(s, c.email, c.token, c.uid, false).value| == 1;
  }

  /** Any other scan error escapes the handler. */
  lemma OtherErrorsPropagate(s: State, ev: Event, env: Env, room: Room, param: string,
                             c: Credentials, id: string)
    requires Reads(ev, c, param, id) && Matches(s, c.email, c.token, c.uid)
    requires UsersQuery !in env.faults && TableScan in env.faults
    ensures Read(s, ev, env, room, param) == Crash(Thrown(ServiceFailure))
  {
    assert |QueryUser(s, c.email, c.token, c.uid, false).value| == 1;
  }
}
