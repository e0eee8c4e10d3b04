# rsschool-tasks-backend in Dafny

A model of the request handlers of a small serverless chat backend. Users register and
log in. Every other request carries `rs-uid`, `rs-email` and `Authorization: Bearer
<token>` headers. With those, a user can:

- read and rename their profile;
- log out;
- open a personal conversation with one other user, list their conversations, post and
  read messages, and delete a conversation;
- create, read and delete groups.

The store is a key-value store. It has three fixed tables: users by email, conversations
by id, and groups by id. Each conversation and each group also gets a message table of
its own, named `conversation-<id>` or `group-<id>`. That table is created when the
conversation or group is created, and deleted with it.

How the model is built:

- `Store` holds the entities and the store state as values. Each store call is a pure
  function, with its condition expression and its error cases (validation, condition
  failure, missing resource, resource in use, service failure).
- `Db.Database` is the store as a mutable object. Each of its methods is proved to do
  exactly what the matching `Store` function does.
- `Http` models the request event, the response, and the header check most handlers
  begin with.
- `Forms` handles the request body: content-type branching, the boundary regular
  expression, and the multipart loop (a `while` loop proved against a specification
  function). `JsStrings` models the JavaScript string builtins that parsing uses.
- Each handler becomes a module. A handler that writes is a pure `Transition` over the
  store state plus a `Handle` method. The method issues the same store calls one after
  another on a `Database`, and is proved to end in the state and response the
  `Transition` gives. A handler that only reads is a pure function.
- Each handler's module holds the lemmas about it. `Scenarios` relates sequences of
  requests.

The environment of an invocation is a parameter (`Http.Env`). It holds:

- the clock;
- the one random id or token the handler draws;
- the set of store calls that fail;
- the library functions: base64 decoding, `querystring.parse`, `JSON.parse` and SHA-256.

The two read handlers share `RoomMessages`: their source files differ only in the
registry, the table prefix and the query parameter name. The two delete handlers share
`RoomDelete`. Their files differ in those three, and also in the ownership condition
of the registry delete. A conversation may be deleted by either participant
(`#U1 = :uid OR #U2 = :uid`); a group may be deleted only by its creator (`#CB = :uid`).
The group delete also reads a content type that it never uses. The wrapper modules
instantiate the shared code, and each adds a lemma specific to its file.

Some functions in the model have no row of their own in the table below. These are each
handler's `Transition`, the decoder's pieces (`Forms.BoundaryOf`, `NameOf`, `PartField`,
`DecodeBody`, `Field`, and the scanners `Find`, `LineEnd` and `LastQuote`) and the store's
reads and predicates (`Store.GetUser`, `CountPair`, `ScanParticipant`, `RoomExists`,
`ScanMessages`, `SinceFilter`, `Matches` and `Valid`). The rows that cover them are the
handler's `Handle` and property lemmas, the `Forms` rows, and the `Db.Database` and property
lemma rows.

## Model

| member | source | states |
|---|---|---|
| JsStrings.IndexFrom | src/functions/create-personal-conversation.ts:55 | `indexOf`: the result is an occurrence at or after the start, no earlier one exists, and None means there is none |
| JsStrings.IndexFromIs | src/functions/create-personal-conversation.ts:55 | an occurrence with none before it is the one found |
| JsStrings.BeforeFirstOccurrence | src/functions/create-personal-conversation.ts:67 | the text before the first occurrence does not contain the pattern |
| JsStrings.ReplaceFirst | src/functions/create-personal-conversation.ts:76-77 | `replace` with a string pattern replaces only the first occurrence; text without it is unchanged, and a leading occurrence becomes the replacement |
| JsStrings.Split | src/functions/create-personal-conversation.ts:67 | `split` with a non-empty separator gives at least one piece, and no piece contains the separator |
| JsStrings.JoinSplit | src/functions/create-personal-conversation.ts:67 | splitting loses nothing: joining the pieces with the separator gives back the input |
| JsStrings.SplitWithout | src/functions/create-personal-conversation.ts:67 | a string without the separator splits into itself alone |
| JsStrings.SplitAfterFirst | src/functions/create-personal-conversation.ts:67 | the first piece is what precedes the first separator, and the rest is the split of what follows it |
| JsStrings.Trim | src/functions/create-personal-conversation.ts:72 | `trim` leaves no white space at either end, and white space alone trims to "" |
| JsStrings.TrimPadded | src/functions/create-personal-conversation.ts:72 | trimming removes exactly the white space padding a string that has none at its own ends |
| JsStrings.SplitBreaks | src/functions/create-personal-conversation.ts:78 | `split(/[\r\n]+/)` gives at least one line, and no line contains CR or LF |
| JsStrings.SplitBreaksSingle | src/functions/create-personal-conversation.ts:78-79 | a text without CR and LF is a single line |
| JsStrings.SplitBreaksTwo | src/functions/create-personal-conversation.ts:78-79 | two lines separated by any run of CR/LF split into exactly those two |
| JsStrings.LessIrreflexive | src/functions/create-personal-conversation.ts:107-108 | the string order used for sorting and for `createdAt > :since` is irreflexive |
| JsStrings.LessTransitive | src/functions/conversation-read-messages.ts:111-121 | the string order is transitive |
| JsStrings.LessTotal | src/functions/create-personal-conversation.ts:107-108 | any two different strings are ordered one way or the other |
| JsStrings.LessAsymmetric | src/functions/create-personal-conversation.ts:107-108 | the string order is asymmetric |
| Store.TableNameInjective | src/functions/create-personal-conversation.ts:145 | different conversations and groups never share a message table (`conversation-<id>` vs `group-<id>`) |
| Store.QueryUser | src/functions/conversation-add-message.ts:111-137 | the query by email filtered on token and uid returns at most one item, and exactly one when the stored row has that token and uid |
| Store.PutNewUser | src/functions/registration.ts:90-123 | insert under `attribute_not_exists`: a failed write leaves the store unchanged |
| Store.SetToken | src/functions/login.ts:127-144 | unconditional token update; a failed write changes nothing |
| Store.ClearTokenIf | src/functions/logout.ts:38-65 | token cleared under `token = :c AND uid = :u`; a failed write changes nothing |
| Store.SetNameIf | src/functions/profile-update.ts:109-137 | name set under `token = :t AND uid = :u`; a failed write changes nothing |
| Store.PutConversation | src/functions/create-personal-conversation.ts:169-190 | insert under `attribute_not_exists(id)`; a failed write changes nothing |
| Store.PutGroup | src/functions/groups-create.ts:145-167 | insert under `attribute_not_exists(id)`; a failed write changes nothing |
| Store.DeleteConversationIf | src/functions/delete-personal-conversation.ts:54-75 | delete under `user1 = :uid OR user2 = :uid`; a failed delete changes nothing |
| Store.DeleteGroupIf | src/functions/groups-delete.ts:55-75 | delete under `createdBy = :uid`; a failed delete changes nothing |
| Store.CreateTable | src/functions/create-personal-conversation.ts:144-166 | a new table starts out being created; a failed creation changes nothing |
| Store.DeleteTable | src/functions/delete-personal-conversation.ts:92-97 | deletion refused for a missing table and for one being created; a failure changes nothing |
| Store.PutMessage | src/functions/conversation-add-message.ts:153-170 | a put into a missing or not-yet-active table fails and changes nothing |
| Store.ActivatePreservesValid | src/functions/create-personal-conversation.ts:164-166 | a table finishing its creation keeps the store invariant (sorted unique pairs; every registered room has a table) |
| Db.Database.constructor | src/functions/create-personal-conversation.ts:13 | the client starts on the given store contents |
| Db.Database.GetUser | src/functions/login.ts:101-111 | GetItem by email does what `Store.GetUser` says and changes nothing |
| Db.Database.QueryUser | src/functions/profile-read.ts:38-64 | the credential query does what `Store.QueryUser` says and changes nothing |
| Db.Database.PutNewUser | src/functions/registration.ts:90-123 | the new store and the error are those of `Store.PutNewUser` |
| Db.Database.SetToken | src/functions/login.ts:127-144 | the new store and the error are those of `Store.SetToken` |
| Db.Database.ClearTokenIf | src/functions/logout.ts:38-65 | the new store and the error are those of `Store.ClearTokenIf` |
| Db.Database.SetNameIf | src/functions/profile-update.ts:109-137 | the new store and the error are those of `Store.SetNameIf` |
| Db.Database.CountPair | src/functions/create-personal-conversation.ts:112-127 | the COUNT scan for a pair returns the number of rows with it, changing nothing |
| Db.Database.ScanParticipant | src/functions/list-my-conversations.ts:36-51 | the scan returns the rows where the uid is either participant, changing nothing |
| Db.Database.RoomExists | src/functions/conversation-read-messages.ts:137-151 | the registry GetItem tells whether the row exists, changing nothing |
| Db.Database.PutConversation | src/functions/create-personal-conversation.ts:169-190 | the new store and the error are those of `Store.PutConversation` |
| Db.Database.PutGroup | src/functions/groups-create.ts:145-167 | the new store and the error are those of `Store.PutGroup` |
| Db.Database.DeleteConversationIf | src/functions/delete-personal-conversation.ts:54-75 | the new store and the error are those of `Store.DeleteConversationIf` |
| Db.Database.DeleteGroupIf | src/functions/groups-delete.ts:55-75 | the new store and the error are those of `Store.DeleteGroupIf` |
| Db.Database.CreateTable | src/functions/groups-create.ts:116-142 | the new store and the error are those of `Store.CreateTable` |
| Db.Database.DeleteTable | src/functions/groups-delete.ts:92-97 | the new store and the error are those of `Store.DeleteTable` |
| Db.Database.PutMessage | src/functions/conversation-add-message.ts:153-170 | the new store and the error are those of `Store.PutMessage` |
| Db.Database.ScanMessages | src/functions/conversation-read-messages.ts:100-126 | the scan with the optional `since` filter does what `Store.ScanMessages` says, changing nothing |
| Http.BearerToken | src/functions/conversation-add-message.ts:27 | the capture of `^Bearer\s+(\S+)$` is non-empty and has no white space |
| Http.BearerTokenSound | src/functions/conversation-add-message.ts:27 | every capture comes from "Bearer", a non-empty run of white space, and that token |
| Http.BearerTokenComplete | src/functions/conversation-add-message.ts:27 | every string of that shape yields its token |
| Http.CheckHeaders | src/functions/conversation-add-message.ts:9-38 | an accepted request has non-empty uid, email and token |
| Http.CheckHeadersAuthorized | src/functions/conversation-add-message.ts:9-38 | the check passes with given credentials iff both identity headers hold them and `Authorization ?? authorization` has the bearer shape with that token |
| Http.CheckHeadersMissing | src/functions/conversation-add-message.ts:16-25 | the missing-header answer comes exactly when one of the three headers is absent or empty |
| Http.HeaderFailure | src/functions/conversation-add-message.ts:16-37 | a failed check answers 400 with an error type: InvalidUserDataException for missing headers, InvalidTokenException for a malformed bearer |
| Forms.BoundaryFrom | src/functions/create-personal-conversation.ts:55-58 | a captured boundary is never empty, so the `!boundary` answer cannot happen |
| Forms.BoundaryPrefixFirst | src/functions/create-personal-conversation.ts:55 | in `multipart/form-data; boundary=...` the first `boundary=` is the one after the media type |
| Forms.BoundaryOfUnquoted | src/functions/create-personal-conversation.ts:55-56 | an unquoted boundary without `;` is read back as sent |
| Forms.BoundaryOfQuoted | src/functions/create-personal-conversation.ts:55-56 | a quoted boundary is read back without its quotes |
| Forms.NameFrom | src/functions/create-personal-conversation.ts:80 | the capture of `name="(.+)"` is non-empty and stays on one line |
| Forms.NameOfRoundTrip | src/functions/create-personal-conversation.ts:80 | a `name="..."` line is read back as the name written |
| Forms.ChunkFields | src/functions/create-personal-conversation.ts:71-88 | every chunk is mapped to the field it contributes, one for one |
| Forms.GatherDefinedIff | src/functions/create-personal-conversation.ts:83-85 | a name is in the record iff some field has it |
| Forms.GatherLastWins | src/functions/create-personal-conversation.ts:83-85 | the value recorded for a name is the one from its last field |
| Forms.CollectDefinedIff | src/functions/create-personal-conversation.ts:71-88 | a name is collected iff some chunk defines it |
| Forms.CollectLastWins | src/functions/create-personal-conversation.ts:71-88 | a later chunk with the same name overwrites an earlier one |
| Forms.CollectSnoc | src/functions/create-personal-conversation.ts:71-88 | one more chunk adds its field on top of the record so far, and adds nothing when it has none |
| Forms.ParseMultipart | src/functions/create-personal-conversation.ts:67-88 | the loop over all pieces but the last builds exactly the record the specification function gives |
| Forms.PartFieldRoundTrip | src/functions/create-personal-conversation.ts:72-86 | a well-formed chunk (disposition, name line, blank line, value) yields its name and value |
| Forms.MultipartSingleField | src/functions/create-personal-conversation.ts:67-88 | a body holding one well-formed field between two delimiters decodes to exactly that field |
| Forms.MultipartWithoutDelimiter | src/functions/create-personal-conversation.ts:67-72 | a body without the delimiter yields no fields, since its only piece is the last one |
| Forms.Decode | src/functions/create-personal-conversation.ts:48-97 | the decoder as run returns what `DecodeBody` specifies, covering base64, url-encoded, multipart, JSON, and the unsupported case |
| CreatePersonalConversation.SortPair | src/functions/create-personal-conversation.ts:107-110 | the two participants are put in ascending order and neither is lost |
| CreatePersonalConversation.SortPairSymmetric | src/functions/create-personal-conversation.ts:107-110 | swapping caller and companion gives the same pair |
| CreatePersonalConversation.Handle | src/functions/create-personal-conversation.ts:15-196 | the handler's store calls end in the state and response `Transition` gives |
| CreatePersonalConversation.HeaderFailureFirst | src/functions/create-personal-conversation.ts:23-44 | failed headers answer 400 with an untyped body, and nothing changes |
| CreatePersonalConversation.InvalidRequestRejected | src/functions/create-personal-conversation.ts:90-105 | an unsupported type or a missing companion answers 400 untyped, and nothing changes |
| CreatePersonalConversation.DuplicateRejected | src/functions/create-personal-conversation.ts:112-138 | a registered pair answers 400 DuplicationNotAllowedException, and nothing changes |
| CreatePersonalConversation.CreateSucceeds | src/functions/create-personal-conversation.ts:112-195 | 201 with the id iff the pair is new, the id is usable and unused, and no call fails; then the table is being created and the row holds the sorted pair and the time |
| CreatePersonalConversation.IdCollisionThrows | src/functions/create-personal-conversation.ts:164-166 | in a consistent store a registered id already has its table, so the table creation throws ResourceInUse and nothing changes |
| CreatePersonalConversation.IdCollisionKeepsRow | src/functions/create-personal-conversation.ts:164-190 | only in an inconsistent store, where a registered id has lost its table: the guarded put throws, the existing row is kept and the new table stays |
| CreatePersonalConversation.TransitionKeepsValid | src/functions/create-personal-conversation.ts:15-196 | the handler keeps the store invariant |
| CreatePersonalConversation.CreateKeepsValid | src/functions/create-personal-conversation.ts:107-190 | creating keeps pairs sorted and unique, and every row with its table |
| CreatePersonalConversation.SwappedRolesRejected | src/functions/create-personal-conversation.ts:107-138 | once u opened a conversation with v, v's request to open one with u is a duplicate |
| ConversationAddMessage.Handle | src/functions/conversation-add-message.ts:7-207 | the handler's store calls end in the state and response `Transition` gives |
| ConversationAddMessage.MissingFieldsRejected | src/functions/conversation-add-message.ts:99-107 | a missing conversationID or message answers 400 InvalidPostData, and nothing changes |
| ConversationAddMessage.CredentialsRequired | src/functions/conversation-add-message.ts:111-150 | the answer is InvalidTokenException iff the credentials are not the stored ones, and then nothing changes |
| ConversationAddMessage.PostSucceeds | src/functions/conversation-add-message.ts:153-206 | an accepted message is stored under (caller uid, now) in the conversation's table, and nothing else changes |
| ConversationAddMessage.AuthorIsCaller | src/functions/conversation-add-message.ts:153-170 | a request either changes nothing or appends one row keyed by the header uid to an active table |
| ConversationAddMessage.MissingTableExplained | src/functions/conversation-add-message.ts:173-201 | a missing or not-yet-active table answers RoomReadyException for a registered conversation and InvalidIDException otherwise |
| ConversationAddMessage.OtherWriteErrorsSwallowed | src/functions/conversation-add-message.ts:173-206 | any other put error is not reported: the answer is 201 and nothing is stored |
| ConversationAddMessage.TransitionKeepsValid | src/functions/conversation-add-message.ts:7-207 | posting keeps the store invariant |
| RoomMessages.IdRequiredFirst | src/functions/conversation-read-messages.ts:42-52 | a missing id answers 400 InvalidFormDataException, whatever the store and the faults (same in groups-read-messages.ts:42-53) |
| RoomMessages.CredentialsRequired | src/functions/conversation-read-messages.ts:59-98 | the answer is InvalidTokenException iff the credentials are not the stored ones |
| RoomMessages.ReadsActiveTable | src/functions/conversation-read-messages.ts:100-133 | an active table answers 200; a row is in the answer, with its text unchanged, exactly when there is no `since` or it was created after `since`; the scanned count is the table size |
| RoomMessages.SinceMonotone | src/functions/conversation-read-messages.ts:111-121 | a later `since` answers a subset of an earlier one's messages |
| RoomMessages.MissingTableExplained | src/functions/conversation-read-messages.ts:134-161 | a missing or not-yet-active table answers 200 with no items for a registered room and 400 InvalidIDException otherwise |
| RoomMessages.InvalidIdIsFormData | src/functions/conversation-read-messages.ts:162-164 | an id that makes an invalid table name answers 400 InvalidFormDataException |
| RoomMessages.OtherErrorsPropagate | src/functions/conversation-read-messages.ts:166 | any other scan error escapes the handler |
| ConversationReadMessages.NoParticipantCheck | src/functions/conversation-read-messages.ts:59-133 | a user outside the conversation who passes the credential check reads its messages |
| GroupsReadMessages.AnyUserReads | src/functions/groups-read-messages.ts:60-134 | any user who passes the credential check reads any group's messages, not only its creator |
| RoomDelete.DeleteRow | src/functions/delete-personal-conversation.ts:54-75 | the conditional delete of the room kind's registry; a failure changes nothing (groups-delete.ts:55-75 for groups) |
| RoomDelete.Handle | src/functions/delete-personal-conversation.ts:10-108 | the handler's store calls end in the state and response `Transition` gives, for either room kind |
| RoomDelete.HeaderFailureFirst | src/functions/delete-personal-conversation.ts:17-39 | failed headers answer 400 with the typed error, and nothing changes |
| RoomDelete.MissingIdRejected | src/functions/delete-personal-conversation.ts:41-51 | a missing id answers 400 InvalidFormDataException, and nothing changes |
| RoomDelete.NotOwnerRejected | src/functions/delete-personal-conversation.ts:74-90 | the answer is 400 InvalidIDException with nothing changed iff the caller does not own the room |
| RoomDelete.DeleteSucceeds | src/functions/delete-personal-conversation.ts:74-107 | the owner's request answers 200 and removes the row, and removes the table when it is active and its deletion does not fail |
| RoomDelete.SecondDeleteRejected | src/functions/delete-personal-conversation.ts:79-87 | repeating a successful delete answers InvalidIDException |
| RoomDelete.OtherRoomsUnchanged | src/functions/delete-personal-conversation.ts:54-103 | no other room's registry row (its contents included) or table, and no user, is changed |
| RoomDelete.RegistryFailureChangesNothing | src/functions/delete-personal-conversation.ts:75-89 | a failing registry delete is rethrown and changes nothing; the table delete is not reached |
| RoomDelete.TransitionKeepsValid | src/functions/delete-personal-conversation.ts:54-103 | deleting the row before the table keeps the store invariant |
| DeletePersonalConversation.Handle | src/functions/delete-personal-conversation.ts:10-108 | the handler ends in the state and response its `Transition` gives |
| DeletePersonalConversation.EitherParticipantDeletes | src/functions/delete-personal-conversation.ts:54-90 | the row goes with a 200 iff the caller is one of the two participants; anyone else gets InvalidIDException with nothing changed |
| GroupsDelete.Handle | src/functions/groups-delete.ts:9-108 | the handler ends in the state and response its `Transition` gives |
| GroupsDelete.OnlyCreatorDeletes | src/functions/groups-delete.ts:55-90 | the row goes with a 200 iff the caller created the group; anyone else gets InvalidIDException with nothing changed |
| GroupsCreate.Handle | src/functions/groups-create.ts:13-176 | the handler's store calls end in the state and response `Transition` gives |
| GroupsCreate.InvalidRequestRejected | src/functions/groups-create.ts:92-110 | an unsupported type or a missing name answers 400 InvalidFormDataException, and nothing changes |
| GroupsCreate.MissingBoundaryThrows | src/functions/groups-create.ts:54-66 | a multipart type without a boundary throws, and nothing changes |
| GroupsCreate.CreateSucceeds | src/functions/groups-create.ts:112-175 | 201 with the id iff the id is usable and unused and no call fails; then the table is being created and the row holds the name, the caller as creator and the time |
| GroupsCreate.TableFailureAnswers500 | src/functions/groups-create.ts:138-142 | a failed table creation answers 500 with the error, and nothing changes |
| GroupsCreate.RowFailureKeepsTable | src/functions/groups-create.ts:164-170 | a failed registry put answers 500 but leaves the new table behind |
| GroupsCreate.TransitionKeepsValid | src/functions/groups-create.ts:112-175 | creating a group keeps the store invariant |
| Login.Handle | src/functions/login.ts:13-150 | the handler's store calls end in the state and response `Transition` gives |
| Login.EmptyBodyRejected | src/functions/login.ts:22-30 | an absent or empty body answers 400 InvalidFormDataException |
| Login.MissingBoundaryRejected | src/functions/login.ts:38-50 | here a multipart type without a boundary answers 400 instead of throwing |
| Login.MissingFieldsRejected | src/functions/login.ts:86-94 | a missing email or password answers 400 InvalidFormDataException |
| Login.LoginSucceeds | src/functions/login.ts:96-149 | success iff the row exists, has a uid, and stores the SHA-256 hex of the password; then 200 with the new token and the uid, and the token is the only change; otherwise NotFoundException with nothing changed |
| Login.LoginReplacesSession | src/functions/login.ts:125-144 | after a login the issued token passes the credential check and every other token fails |
| Login.OnlyUsersChange | src/functions/login.ts:127-144 | a login touches only existing user rows |
| Registration.Handle | src/functions/registration.ts:8-144 | the handler's store calls end in the state and response `Transition` gives |
| Registration.InvalidRequestRejected | src/functions/registration.ts:59-79 | an unsupported type, or a missing email, password or name, answers 400 InvalidFormDataException |
| Registration.RegisterSucceeds | src/functions/registration.ts:82-138 | a new email is stored with the given name, the digest of the password, empty token, the time and isVerified false, and answers 201; an existing email answers PrimaryDuplicationException and its row is unchanged |
| Registration.OtherErrorsPropagate | src/functions/registration.ts:139-142 | any other store error escapes, and nothing is written |
| Registration.NewUserLoggedOut | src/functions/registration.ts:102-104 | a new user has no token that passes the credential check |
| Registration.ExistingUsersKept | src/functions/registration.ts:115-116 | registration never changes an existing row or any other table |
| Logout.Handle | src/functions/logout.ts:6-85 | the handler's store calls end in the state and response `Transition` gives |
| Logout.LogoutSucceeds | src/functions/logout.ts:38-84 | 200 with the token cleared iff the credentials are the stored ones; otherwise 401 InvalidTokenException with nothing changed |
| Logout.LogoutRevokes | src/functions/logout.ts:46-61 | after a logout no bearer token passes the credential check for that email |
| Logout.SecondLogoutRejected | src/functions/logout.ts:73-81 | repeating a successful logout answers 401 |
| ProfileUpdate.Handle | src/functions/profile-update.ts:12-155 | the handler's store calls end in the state and response `Transition` gives |
| ProfileUpdate.InvalidRequestRejected | src/functions/profile-update.ts:87-107 | an unsupported type or a missing name answers 400 InvalidFormDataException |
| ProfileUpdate.UpdateSucceeds | src/functions/profile-update.ts:109-154 | the name changes, with 201, iff the credentials are the stored ones, and nothing else changes; otherwise 400 InvalidIDException with nothing changed |
| ProfileUpdate.SessionKept | src/functions/profile-update.ts:116-118 | a rename keeps the caller's credentials valid |
| ProfileUpdate.Idempotent | src/functions/profile-update.ts:109-154 | sending the same rename twice leaves the store as one rename does |
| ProfileRead.ReadsOwnProfile | src/functions/profile-read.ts:38-83 | the caller with the stored credentials gets their email, creation time, name and uid, without password or token; anyone else gets 400 InvalidIDException |
| ProfileRead.QueryFailurePropagates | src/functions/profile-read.ts:64 | a failing query escapes the handler |
| ListMyConversations.Companion | src/functions/list-my-conversations.ts:55 | for a participant, the companion is the other participant |
| ListMyConversations.ListsOwnConversations | src/functions/list-my-conversations.ts:36-61 | a conversation is listed iff the caller takes part in it, and it is listed with the other participant |
| Scenarios.RegisterThenLogin | src/functions/login.ts:96-149 | after registering, a login answers 200 with the drawn uid iff the password has the same digest, and NotFoundException otherwise |
| Scenarios.LoginThenReadProfile | src/functions/profile-read.ts:38-83 | the token a login issues opens the caller's profile |
| Scenarios.LogoutThenReadProfile | src/functions/logout.ts:38-69 | after a logout the same headers no longer open the profile |
| Scenarios.CreateThenList | src/functions/list-my-conversations.ts:36-61 | a new conversation is listed for both participants, each with the other |
| Scenarios.PostThenRead | src/functions/conversation-read-messages.ts:100-133 | a posted message is read back under the author's uid and its time |
| Scenarios.DeleteThenPost | src/functions/conversation-add-message.ts:173-201 | once a conversation and its table are deleted, posting to it answers InvalidIDException |

## Left out

- The handlers `conversations-clear`, `conversations-count`, `groups-clear`, `groups-list`,
  `users` and `users-clear` are not part of this model. Neither are the message-posting
  handler for groups nor the infrastructure declarations.
- Logging, the human-readable `message` strings of error bodies, and the `Content-Type`
  of responses are not modelled. Bodies are kept up to their structure and error type.
- Store calls are atomic and invocations run one at a time. Concurrent requests, and
  races between a read and a later conditional write, are not modelled.
- A table finishing its creation is a step between invocations (`Store.Activate`). Its
  timing is not modelled.
- Scans return every matching row at once. Pagination and the 1 MB page limit are left
  out, as is the order of `Items`: a scan result is a map.
- Random ids and tokens, the clock, base64, `querystring.parse`, `JSON.parse` and SHA-256
  are parameters. Their formats (base-36 ids, decimal milliseconds) are not modelled. A
  decoded body is a string-to-string record, so JSON values that are not objects or
  not strings, `querystring` arrays, and keys like `__proto__` are not modelled.
- JsStrings.Less: code-point order. The store orders strings by their UTF-8 bytes,
  which agrees with that. JavaScript's `sort` compares UTF-16 code units, which agrees
  with code-point order only outside surrogate pairs.
- JsStrings.Split: covers only a non-empty separator, which is all the handlers use.
- Store.SetToken: requires the row to exist, because login calls it only after reading
  that row. The store would insert a row for a missing key, but that case cannot arise
  without a concurrent delete.
- Forms.BoundaryFrom: the `!boundary` answer is unreachable, because the regular
  expression always captures at least one character. A multipart content type without
  `boundary=` instead makes every decoder except login's throw a TypeError.
- Store.PutNewUser: the condition `attribute_not_exists(uid)` is evaluated on the row
  with the same email only. It is modelled as it behaves, not as a uid uniqueness check.
