/**
 * The key-value store behind the handlers, as immutable maps: the users table keyed by
 * email, the conversation and group registries keyed by id, and the message tables that
 * are created and deleted at run time, keyed by table name. Every store call is a
 * function of the state; a call that fails changes nothing.
 */
module Store {
  import opened Wrappers
  import opened JsStrings

  /** A row of the users table; the email is its key. */
  datatype User = User(uid: string, name: string, password: string, token: string,
                       createdAt: string, isVerified: bool)

  /** A row of the conversation registry; the id is its key. */
  datatype Conversation = Conversation(user1: string, user2: string, createdAt: string)

  /** A row of the group registry; the id is its key. */
  datatype Group = Group(name: string, createdBy: string, createdAt: string)

  /** The composite key of a message: author (partition part) and time (sort part). */
  datatype MessageKey = MessageKey(authorID: string, createdAt: string)

  /** A message table. While its creation is still being propagated (`Creating`),
      reads and writes to it fail with ResourceNotFound. */
  datatype Table = Creating | Active(rows: map<MessageKey, string>)

  datatype State = State(users: map<string, User>,
                         conversations: map<string, Conversation>,
                         groups: map<string, Group>,
                         tables: map<string, Table>)

  /** The error names the handlers distinguish; ServiceFailure stands for every other
      error the store may raise (throttling, internal errors, limits). */
  datatype StoreError =
    | ConditionalCheckFailed
    | ResourceNotFound
    | ResourceInUse
    | Validation
    | ServiceFailure

  /** The kinds of store call. No handler makes the same kind of call twice, so a set of
      kinds says exactly which calls of one invocation fail with ServiceFailure. */
  datatype Call =
    | UsersGet | UsersQuery | UsersPut | UsersUpdate
    | RegistryScan | RegistryGet | RegistryPut | RegistryDelete
    | TableCreate | TableDelete | TablePut | TableScan

  datatype Result<T> = Ok(value: T) | Err(error: StoreError)

  /** What a write call did: the error it raised, if any, and the state after it. */
  datatype Write = Write(err: Option<StoreError>, s: State)

  /** The attributes the strict credential check projects from a user row. */
  datatype ProfileItem = ProfileItem(email: string, createdAt: string, name: string, uid: string)

  /** What a scan of a message table returns: the items that passed the filter, and how
      many items were read before filtering. */
  datatype Scan = Scan(items: map<MessageKey, string>, scannedCount: nat)

  /** The two kinds of entity that own a message table. */
  datatype Room = ConversationRoom | GroupRoom

  /** The name of the message table of a conversation or a group. */
  function TableName(room: Room, id: string): string {
    match room
    case ConversationRoom => "conversation-" + id
    case GroupRoom => "group-" + id
  }

  /** Different entities never share a message table. */
  lemma TableNameInjective(r1: Room, id1: string, r2: Room, id2: string)
    requires TableName(r1, id1) == TableName(r2, id2)
    ensures r1 == r2 && id1 == id2
  {
    var n := TableName(r1, id1);
    assert n[0] == TableName(r2, id2)[0];
    var k := if r1 == ConversationRoom then 13 else 6;
    assert id1 == n[k..] == id2;
  }

  /** The store's rule for table names: 3 to 255 characters from `[A-Za-z0-9_.-]`.
      Any other name is refused with a validation error. */
  predicate ValidTableName(name: string) {
    && 3 <= |name| <= 255
    && forall i :: 0 <= i < |name| ==> IsNameChar(name[i])
  }

  predicate IsNameChar(c: char) {
    ('a' <= c <= 'z') || ('A' <= c <= 'Z') || ('0' <= c <= '9') || c == '_' || c == '.' || c == '-'
  }

  /** The store refuses an empty string as a key attribute with a validation error. */
  predicate ValidKey(k: string) {
    k != ""
  }

  /** The pair of participants of a conversation row. */
  function Pair(c: Conversation): (string, string) {
    (c.user1, c.user2)
  }

  /** The conversation participants are stored in order; no two rows have the same pair;
      every registered conversation and group has its message table (perhaps still being
      created). These hold in every state the handlers reach from a state where they hold. */
  ghost predicate Valid(s: State) {
    && (forall id :: id in s.conversations ==>
          !Less(s.conversations[id].user2, s.conversations[id].user1))
    && (forall a, b :: a in s.conversations && b in s.conversations && a != b ==>
          Pair(s.conversations[a]) != Pair(s.conversations[b]))
    && (forall id :: id in s.conversations ==> TableName(ConversationRoom, id) in s.tables)
    && (forall id :: id in s.groups ==> TableName(GroupRoom, id) in s.tables)
  }

  /** The credential check's filter: the row under `email` has this token and this uid. */
  predicate Matches(s: State, email: string, token: string, uid: string) {
    email in s.users && s.users[email].token == token && s.users[email].uid == uid
  }

  // ---------------------------------------------------------------------------
  // The users table

  /** GetItem by email. */
  function GetUser(s: State, email: string, fail: bool): Result<Option<User>> {
    if fail then Err(ServiceFailure)
    else if !ValidKey(email) then Err(Validation)
    else Ok(if email in s.users then Some(s.users[email]) else None)
  }

  /** Query by email with the filter `token = :token AND uid = :uid`, projected to email,
      createdAt, name and uid. Email is the key, so at most one row can match. */
  function QueryUser(s: State, email: string, token: string, uid: string, fail: bool)
    : (r: Result<seq<ProfileItem>>)
    ensures r.Ok? ==> |r.value| <= 1
    ensures r.Ok? ==> (|r.value| == 1 <==> Matches(s, email, token, uid))
  {
    if fail then Err(ServiceFailure)
    else if !ValidKey(email) then Err(Validation)
    else if Matches(s, email, token, uid) then
      var u := s.users[email];
      Ok([ProfileItem(email, u.createdAt, u.name, u.uid)])
    else Ok([])
  }

  /** PutItem guarded by `attribute_not_exists(email) AND attribute_not_exists(uid)`.
      Both conditions are evaluated on the row with the same email. */
  function PutNewUser(s: State, email: string, u: User, fail: bool): (w: Write)
    ensures w.err.Some? ==> w.s == s
  {
    if fail then Write(Some(ServiceFailure), s)
    else if !ValidKey(email) then Write(Some(Validation), s)
    else if email in s.users then Write(Some(ConditionalCheckFailed), s)
    else Write(None, s.(users := s.users[email := u]))
  }

  /** UpdateItem `SET token = :t` without a condition, on a row known to exist. */
  function SetToken(s: State, email: string, token: string, fail: bool): (w: Write)
    requires email in s.users
    ensures w.err.Some? ==> w.s == s
  {
    if fail then Write(Some(ServiceFailure), s)
    else Write(None, s.(users := s.users[email := s.users[email].(token := token)]))
  }

  /** UpdateItem `SET token = :t` under the condition `token = :c AND uid = :u`. */
  function ClearTokenIf(s: State, email: string, token: string, uid: string, fail: bool): (w: Write)
    ensures w.err.Some? ==> w.s == s
  {
    if fail then Write(Some(ServiceFailure), s)
    else if !ValidKey(email) then Write(Some(Validation), s)
    else if !Matches(s, email, token, uid) then Write(Some(ConditionalCheckFailed), s)
    else Write(None, s.(users := s.users[email := s.users[email].(token := "")]))
  }

  /** UpdateItem `SET name = :name` under the condition `token = :t AND uid = :u`. */
  function SetNameIf(s: State, email: string, token: string, uid: string, name: string, fail: bool)
    : (w: Write)
    ensures w.err.Some? ==> w.s == s
  {
    if fail then Write(Some(ServiceFailure), s)
    else if !ValidKey(email) then Write(Some(Validation), s)
    else if !Matches(s, email, token, uid) then Write(Some(ConditionalCheckFailed), s)
    else Write(None, s.(users := s.users[email := s.users[email].(name := name)]))
  }

  // ---------------------------------------------------------------------------
  // The registries

  /** The conversation rows with exactly this (user1, user2) pair. */
  function RowsWithPair(s: State, user1: string, user2: string): set<string> {
    set id | id in s.conversations && Pair(s.conversations[id]) == (user1, user2)
  }

  /** Scan of the conversation registry with `user1 = :u1 AND user2 = :u2`, `Select: COUNT`. */
  function CountPair(s: State, user1: string, user2: string, fail: bool): Result<nat> {
    if fail then Err(ServiceFailure) else Ok(|RowsWithPair(s, user1, user2)|)
  }

  /** Scan of the conversation registry with `user1 = :uid OR user2 = :uid`. */
  function ScanParticipant(s: State, uid: string, fail: bool): Result<map<string, Conversation>> {
    if fail then Err(ServiceFailure)
    else Ok(map id | id in s.conversations &&
                     (s.conversations[id].user1 == uid || s.conversations[id].user2 == uid)
                   :: s.conversations[id])
  }

  /** The registry row of a conversation or group exists. */
  predicate Registered(s: State, room: Room, id: string) {
    match room
    case ConversationRoom => id in s.conversations
    case GroupRoom => id in s.groups
  }

  /** GetItem on a registry; true when the response carries an Item. */
  function RoomExists(s: State, room: Room, id: string, fail: bool): Result<bool> {
    if fail then Err(ServiceFailure)
    else if !ValidKey(id) then Err(Validation)
    else Ok(Registered(s, room, id))
  }

  /** PutItem on the conversation registry guarded by `attribute_not_exists(id)`. */
  function PutConversation(s: State, id: string, c: Conversation, fail: bool): (w: Write)
    ensures w.err.Some? ==> w.s == s
  {
    if fail then Write(Some(ServiceFailure), s)
    else if !ValidKey(id) then Write(Some(Validation), s)
    else if id in s.conversations then Write(Some(ConditionalCheckFailed), s)
    else Write(None, s.(conversations := s.conversations[id := c]))
  }

  /** PutItem on the group registry guarded by `attribute_not_exists(id)`. */
  function PutGroup(s: State, id: string, g: Group, fail: bool): (w: Write)
    ensures w.err.Some? ==> w.s == s
  {
    if fail then Write(Some(ServiceFailure), s)
    else if !ValidKey(id) then Write(Some(Validation), s)
    else if id in s.groups then Write(Some(ConditionalCheckFailed), s)
    else Write(None, s.(groups := s.groups[id := g]))
  }

  /** DeleteItem on the conversation registry under `user1 = :uid OR user2 = :uid`;
      on a missing row the condition is false. */
  function DeleteConversationIf(s: State, id: string, uid: string, fail: bool): (w: Write)
    ensures w.err.Some? ==> w.s == s
  {
    if fail then Write(Some(ServiceFailure), s)
    else if !ValidKey(id) then Write(Some(Validation), s)
    else if !(id in s.conversations &&
              (s.conversations[id].user1 == uid || s.conversations[id].user2 == uid))
    then Write(Some(ConditionalCheckFailed), s)
    else Write(None, s.(conversations := s.conversations - {id}))
  }

  /** DeleteItem on the group registry under `createdBy = :uid`. */
  function DeleteGroupIf(s: State, id: string, uid: string, fail: bool): (w: Write)
    ensures w.err.Some? ==> w.s == s
  {
    if fail then Write(Some(ServiceFailure), s)
    else if !ValidKey(id) then Write(Some(Validation), s)
    else if !(id in s.groups && s.groups[id].createdBy == uid)
    then Write(Some(ConditionalCheckFailed), s)
    else Write(None, s.(groups := s.groups - {id}))
  }

  // ---------------------------------------------------------------------------
  // The message tables

  /** CreateTable: the new table starts out `Creating`, with no rows. */
  function CreateTable(s: State, name: string, fail: bool): (w: Write)
    ensures w.err.Some? ==> w.s == s
  {
    if fail then Write(Some(ServiceFailure), s)
    else if !ValidTableName(name) then Write(Some(Validation), s)
    else if name in s.tables then Write(Some(ResourceInUse), s)
    else Write(None, s.(tables := s.tables[name := Creating]))
  }

  /** DeleteTable: refused for a missing table and for one still being created. */
  function DeleteTable(s: State, name: string, fail: bool): (w: Write)
    ensures w.err.Some? ==> w.s == s
  {
    if fail then Write(Some(ServiceFailure), s)
    else if !ValidTableName(name) then Write(Some(Validation), s)
    else if name !in s.tables then Write(Some(ResourceNotFound), s)
    else if s.tables[name].Creating? then Write(Some(ResourceInUse), s)
    else Write(None, s.(tables := s.tables - {name}))
  }

  /** PutItem on a message table: an existing row with the same key is overwritten. */
  function PutMessage(s: State, name: string, key: MessageKey, text: string, fail: bool): (w: Write)
    ensures w.err.Some? ==> w.s == s
  {
    if fail then Write(Some(ServiceFailure), s)
    else if !ValidTableName(name) || !ValidKey(key.authorID) || !ValidKey(key.createdAt)
    then Write(Some(Validation), s)
    else if name !in s.tables || s.tables[name].Creating? then Write(Some(ResourceNotFound), s)
    else Write(None, s.(tables := s.tables[name := Active(s.tables[name].rows[key := text])]))
  }

  /** The rows of a message table that the filter `createdAt > :since` lets through,
      or all rows when there is no filter. */
  function SinceFilter(rows: map<MessageKey, string>, since: Option<string>): map<MessageKey, string> {
    match since
    case None => rows
    case Some(t) => map k | k in rows && Less(t, k.createdAt) :: rows[k]
  }

  /** Scan of a message table, with the optional filter on createdAt. */
  function ScanMessages(s: State, name: string, since: Option<string>, fail: bool): Result<Scan> {
    if fail then Err(ServiceFailure)
    else if !ValidTableName(name) then Err(Validation)
    else if name !in s.tables || s.tables[name].Creating? then Err(ResourceNotFound)
    else
      var rows := s.tables[name].rows;
      Ok(Scan(SinceFilter(rows, since), |rows|))
  }

  /** The store finishing the creation of a table; this happens between invocations. */
  function Activate(s: State, name: string): State {
    if name in s.tables && s.tables[name].Creating?
    then s.(tables := s.tables[name := Active(map[])])
    else s
  }

  /** Finishing a table's creation keeps the invariant. */
  lemma ActivatePreservesValid(s: State, name: string)
    requires Valid(s)
    ensures Valid(Activate(s, name))
  {
  }
}
