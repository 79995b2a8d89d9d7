# Convex data layer and HTTP guards of an AI chatbot, in Dafny

The chatbot keeps its state in a Convex database with six tables: `users`,
`chats`, `messages`, `votes`, `documents` and `suggestions`. Each row carries a
system `_id`, a system `_creationTime` and its own fields. `convex/queries.ts`
defines the queries and mutations over those tables. The HTTP actions in
`convex/https.ts` and `convex/api/vote.ts` check the request, delegate to
those queries and mutations, and answer with a status code.

The model has seven modules:

- `Tables`: a table is a sequence of rows in insertion order. Every insert takes
  the next id from one counter, starting at 1, and a creation time one tick
  after the previous insert. So a well-formed table has distinct ids and
  strictly increasing creation times (`WellFormed`, `Chronological`).
  - `.filter(...)` is `Filter`; `ctx.db.get` is `Get`; `.order("desc")` is `Reverse`.
  - A batch of inserts is `Stamped`.
  - The loop deleting collected rows one by one is the method `DeleteEach`.
- `Schema`: the field records of the six tables, plus the row selectors the
  queries and mutations filter with.
- `Queries`: the read-only queries as functions of a table.
- `MutationRules`: what each mutation does to a table, as functions of the table
  before it: `VoteUpsert`, `Reject` with a selector, and appending `Stamped` rows.
  Also the properties of those effects:
  - the vote upsert keeps at most one vote per (chat, message) pair;
  - the chat cascade touches no other chat;
  - the document rewind's cut-off is strict.
- `Database`: the store as a class `Db` whose mutation methods change its
  tables in place. Each method is proved to keep the store invariant
  (`Consistent`) and to leave the store exactly as the `MutationRules` functions
  say, and nothing else.
- `Actions`, `Https`, `VoteApi`: each route handler is a pure decision from
  already-parsed request fields to a reply and the mutation it delegates, if
  any. `Actions.Effect` says what a delegated mutation does to the store, and
  `Actions.Run` performs it on a `Db`.

Two behaviours are modelled as the code does them, not as their names suggest:

- `saveDocument` never reads its `id` argument. Every save inserts a new
  document row with a fresh `_id`.
- `deleteDocumentsByIdAfterTimestamp` matches documents by `_id`, so it removes
  at most one document row. Rewinding a saved row's id to that row's creation
  time, or later, removes no document at all. Successive saves are therefore
  not versions of one document that a rewind could trim.

POST /api/document and GET /api/history send the empty string as `userId`,
because no user identity is wired in. The model represents it by
`Schema.NoUser`, the id 0. The callee's `v.id("users")` argument validator
refuses that string, so past their first check both routes always fail:
nothing is saved, and no history is returned. The handlers with a real user
id filled in (`Https.PostDocumentRouteAs`, `Https.GetHistoryRouteAs`) show
what the routes would do once a user id is passed; the routes as written are
those handlers applied to `NoUser`.

## Model

| member | source | states |
|---|---|---|
| Tables.Filter | convex/queries.ts:86-93 | a query's `.filter` keeps exactly the rows the predicate selects, never adds rows, and keeps creation order |
| Tables.Get | convex/queries.ts:97-102 | `ctx.db.get(id)` finds a row of the table carrying that id, and finds nothing exactly when no row carries it |
| Tables.Stamped | convex/queries.ts:114-121 | a batch insert stamps item k with the k-th next id and the k-th next creation time, keeping the item's fields |
| Tables.DeleteEach | convex/queries.ts:69-80 | deleting each collected row by id, one at a time, leaves the table without exactly the collected ids |
| Tables.DeleteSelected | convex/queries.ts:64-80 | in a table with distinct ids, deleting the ids of the rows a filter collected removes exactly the rows the filter selects |
| Tables.AppendWellFormed | convex/queries.ts:42-45 | an insert with the next id and the next tick keeps ids distinct and creation times strictly increasing |
| Tables.AppendBatchWellFormed | convex/queries.ts:114-121 | a batch of inserts keeps ids distinct and creation times strictly increasing |
| Tables.SubTableWellFormed | convex/queries.ts:225-241 | rows left after deletions still form a well-formed table |
| Tables.FirstWithIdIsGet | convex/queries.ts:17-20 | `.filter(_id == id).first()` finds the same row as `ctx.db.get(id)` |
| Tables.ChronologicalUnique | convex/queries.ts:191-199 | two tables in creation order holding the same rows are equal, so a query's result is determined by which rows it selects |
| Tables.GetAt | convex/queries.ts:97-102 | in a table with distinct ids, `get` by a row's id returns that row |
| Queries.GetUser | convex/queries.ts:4-12 | exactly the users with that email, in creation order |
| Queries.GetUserByToken | convex/queries.ts:14-22 | the user with that id if there is one, nothing exactly when none has it |
| Queries.GetChatsByUserId | convex/queries.ts:86-95 | exactly the user's chats, newest first |
| Queries.ReversedNewestFirst | convex/queries.ts:92-93 | `.order("desc")` of a table in creation order keeps its rows and puts the newest first |
| Queries.GetMessagesByChatId | convex/queries.ts:124-133 | exactly the chat's messages, in ascending creation order |
| Queries.GetVotesByChatId | convex/queries.ts:165-173 | exactly the chat's votes, in creation order |
| Queries.GetDocumentsById | convex/queries.ts:191-200 | the documents with that `_id`: the one row `get` finds, or none |
| Queries.FilterByIdIsGet | convex/queries.ts:191-207 | filtering documents by `_id` yields `[get(id)]`, or `[]` when there is none |
| Queries.GetSuggestionsByDocumentId | convex/queries.ts:269-277 | exactly the document's suggestions, in creation order |
| MutationRules.VotesOn | convex/queries.ts:142-150 | the votes on one (chat, message) pair, in creation order |
| MutationRules.OneVotePerPairMeaning | convex/queries.ts:142-152 | "no two votes share a pair" holds exactly when selecting any pair finds at most one vote |
| MutationRules.AtMostOneVoteOnPair | convex/queries.ts:142-152 | with one vote per pair, `existingVotes` has at most one row |
| MutationRules.TwoVotesOnPair | convex/queries.ts:142-150 | two votes on one pair are both collected by `existingVotes` |
| MutationRules.DistinctVotesDistinctPairs | convex/queries.ts:142-150 | with one vote per pair, two different votes are on different pairs |
| MutationRules.PatchVote | convex/queries.ts:153-155 | `ctx.db.patch` changes only the row with that id, and only its `isUpvoted` flag |
| MutationRules.PatchThenSelect | convex/queries.ts:142-155 | patching a vote and then selecting a pair is the same as selecting and then patching |
| MutationRules.PatchAbsent | convex/queries.ts:153-155 | the model's `PatchVote` leaves a table that lacks the patched id unchanged, so a patch of one pair's vote leaves the votes of every other pair as they were |
| MutationRules.PatchKeepsWellFormed | convex/queries.ts:153-155 | a patch keeps every id and creation time |
| MutationRules.UpsertPatchesFirst | convex/queries.ts:152-156 | with a vote on the pair already present, the first one gets `isUpvoted == (type == "up")`, no row is inserted, and ids and creation times stay the same |
| MutationRules.UpsertInsertsOne | convex/queries.ts:157-161 | with no vote on the pair, exactly one vote row is appended carrying the flag |
| MutationRules.UpsertLeavesOneVote | convex/queries.ts:141-161 | with one vote per pair, after voting the pair has exactly one vote and it carries the new flag |
| MutationRules.UpsertLeavesOtherPairs | convex/queries.ts:142-161 | voting never changes the votes of any other (chat, message) pair |
| MutationRules.VoteTwice | convex/queries.ts:141-161 | voting twice on a fresh pair leaves one more row than before, and that pair's only vote carries the second flag |
| MutationRules.UpsertKeepsOneVotePerPair | convex/queries.ts:141-161 | voting keeps at most one vote per (chat, message) pair |
| MutationRules.CascadeScope | convex/queries.ts:61-83 | after the cascade no vote and no message of the chat remains, and every other chat's votes and messages are exactly as before |
| MutationRules.CascadeKeepsOneVotePerPair | convex/queries.ts:64-71 | deleting a chat's votes keeps at most one vote per pair |
| MutationRules.RewindRemovesAtMostOneDocument | convex/queries.ts:229-241 | the rewind matches documents by `_id`, so it removes at most one document row |
| MutationRules.RewindKeepsEveryDocument | convex/queries.ts:229-241 | rewinding a saved row's id to its own creation time or later removes no document: the cut-off is strict and ids are unique |
| MutationRules.InsertedReadsBack | convex/queries.ts:182-187 | a row inserted with the next id is what `get` finds by that id |
| MutationRules.BatchReadsBack | convex/queries.ts:114-121 | each id a batch insert returns finds the row holding its own item's fields |
| Database.InsertUserKeepsConsistent | convex/queries.ts:29-33 | inserting a user keeps the store invariant |
| Database.InsertChatKeepsConsistent | convex/queries.ts:41-58 | inserting a chat keeps the store invariant |
| Database.InsertMessageKeepsConsistent | convex/queries.ts:116-117 | inserting a message keeps the store invariant |
| Database.InsertDocumentKeepsConsistent | convex/queries.ts:182-187 | inserting a document keeps the store invariant |
| Database.InsertSuggestionKeepsConsistent | convex/queries.ts:261-263 | inserting a suggestion keeps the store invariant |
| Database.InsertVoteKeepsConsistent | convex/queries.ts:157-161 | inserting the first vote on a pair keeps the store invariant, including one vote per pair |
| Database.PatchVoteKeepsConsistent | convex/queries.ts:152-156 | patching the existing vote on a pair keeps the store invariant |
| Database.DeleteChatKeepsConsistent | convex/queries.ts:61-83 | the chat cascade keeps the store invariant |
| Database.RewindKeepsConsistent | convex/queries.ts:214-242 | the document rewind keeps the store invariant |
| Database.Db.CreateUser | convex/queries.ts:25-34 | appends one user with the next id and tick and returns that id; nothing else changes |
| Database.Db.SaveChat | convex/queries.ts:36-47 | appends one chat with the given user and title, returns its id; nothing else changes |
| Database.Db.CreateChat | convex/queries.ts:49-59 | appends one chat with the given user and an empty title, returns its id; nothing else changes |
| Database.Db.DeleteChatById | convex/queries.ts:61-84 | an existing chat is removed together with exactly its votes and its messages, and nothing else changes; for a missing chat the final delete throws, the mutation rolls back and the store is unchanged |
| Database.Db.InsertMessage | convex/queries.ts:116-117 | `ctx.db.insert("messages", …)` appends one row with the next id and tick and returns the id |
| Database.Db.SaveMessages | convex/queries.ts:104-122 | returns one fresh id per item, in input order, and appends the items as rows stamped with those ids and consecutive ticks; nothing else changes |
| Database.Db.VoteMessage | convex/queries.ts:135-163 | the votes table becomes `VoteUpsert` of the old one, a row is inserted exactly when the pair had no vote, and nothing else changes |
| Database.Db.SaveDocument | convex/queries.ts:175-189 | appends one document with the given title, content and user, whatever `id` says, and returns its new id; nothing else changes |
| Database.Db.DeleteDocumentsByIdAfterTimestamp | convex/queries.ts:209-243 | removes exactly the suggestions on document `id` with `documentCreatedTime > timestamp`, and the documents with `_id == id` created after `timestamp`; rows at exactly `timestamp` stay and nothing else changes |
| Database.Db.InsertSuggestion | convex/queries.ts:261-263 | `ctx.db.insert("suggestions", …)` appends one row with the next id and tick and returns the id |
| Database.Db.SaveSuggestions | convex/queries.ts:245-267 | returns one fresh id per item, in input order, and appends the items as rows stamped with those ids and consecutive ticks; nothing else changes |
| Actions.ParseVoteKind | convex/queries.ts:139 | the `type` validator accepts exactly "up" and "down" |
| Actions.EffectKeepsConsistent | convex/queries.ts:61-189 | every mutation an HTTP action delegates keeps the store invariant |
| Actions.Run | convex/https.ts:80-87 | `ctx.runMutation` changes the store exactly as the delegated mutation says, and returns the new document's id for `saveDocument` |
| Actions.Perform | convex/api/vote.ts:39-45 | the store changes only if the handler delegated a mutation, and then exactly as that mutation says |
| Https.PostChatRoute | convex/https.ts:13-19 | POST /api/chat answers 501 and touches no table |
| Https.DeleteChatRoute | convex/https.ts:25-40 | a missing `id` or an unknown chat gives 404 and no deletion; otherwise `deleteChatById` runs and the status is 200 |
| Https.DeleteChatRouteEffect | convex/https.ts:33-39 | after a successful DELETE the chat, its messages and its votes are gone, and every other chat reads back as before |
| Https.GetDocumentRoute | convex/https.ts:47-64 | a missing `id` gives 400; a document not found gives 404; otherwise 200 with a one-element array holding the document with that id |
| Https.GetDocumentRouteIsQuery | convex/https.ts:55-63 | the one-element array is exactly what `getDocumentsById` collects |
| Https.PostDocumentRoute | convex/https.ts:70-88 | a missing `id` gives 400; past that check the `userId: ''` the handler passes is refused by `saveDocument`'s validator, so every request fails and nothing is saved |
| Https.PostDocumentRouteAs | convex/https.ts:70-88 | with a user id passed: a missing `id` gives 400 and no save; a body without title or content, or the placeholder user id, fails the mutation's validator; otherwise `saveDocument` runs with the body's title, content and that user, and the status is 200 |
| Https.PostDocumentIgnoresId | convex/queries.ts:182-187 | with a user id passed, two posts differing only in `id` change the store identically |
| Https.PostDocumentAddsNewRow | convex/https.ts:80-87 | with a user id passed, a post appends a row whose id no earlier document has, and that row reads back by its id |
| Https.GetHistoryRoute | convex/https.ts:95-103 | the `userId: ''` the handler passes is refused by `getChatsByUserId`'s validator, so every request fails |
| Https.GetHistoryRouteAs | convex/https.ts:95-103 | with a user id passed: 200 with exactly that user's chats, newest first; only the placeholder id is refused |
| Https.GetSuggestionsRoute | convex/https.ts:110-124 | a missing `documentId` gives 404; otherwise 200 with exactly that document's suggestions |
| Https.GetVoteRoute | convex/https.ts:131-144 | a missing `chatId` gives 400; otherwise 200 with exactly that chat's votes |
| Https.PatchVoteRoute | convex/https.ts:150-164 | a falsy `chatId`, `messageId` or `type` gives 400 and no mutation; a `type` other than "up"/"down" fails the validator; otherwise `voteMessage` runs and the status is 200 |
| Https.PatchVoteRouteEffect | convex/https.ts:157-163 | after a successful PATCH the pair carries exactly one vote, upvoted exactly when `type` was "up" |
| Https.FileIssues | convex/https.ts:168-181 | a file passes exactly when `size <= 5*1024*1024` and its type is image/jpeg, image/png or application/pdf; the result holds exactly the messages of the failing checks, at most one each, size first |
| Https.JoinAppend | convex/https.ts:201-203 | `join` works left to right: joining one more message appends the separator and that message |
| Https.UploadRoute | convex/https.ts:186-211 | no body gives 400; no file gives 400; a non-empty text field fails the `instanceof File` check alone, with 400 "Input not instance of File"; a file failing a refinement gives 400 with its messages joined by ", "; only a valid file reaches the 501 stub |
| Https.UploadRejectionText | convex/https.ts:198-205 | a file that is both too large and of the wrong type gets both messages, size first, joined by ", " |
| VoteApi.GetVotes | convex/api/vote.ts:5-24 | a missing `chatId` gives 400 before any auth check; a caller without email gets 401 and no votes; otherwise 200 with exactly the chat's votes |
| VoteApi.VoteMessage | convex/api/vote.ts:26-46 | a falsy argument gives 400 before auth; a caller without email gets 401 and no mutation; a `type` other than "up"/"down" fails the mutation's validator and nothing runs; otherwise exactly one `voteMessage` mutation runs and the status is 200 |
| VoteApi.ArgumentsCheckedFirst | convex/api/vote.ts:26-37 | with a missing argument the answer is the same whoever calls |
| VoteApi.AuthenticatedLikeRoutes | convex/api/vote.ts:33-45 | for a caller with an email both actions answer exactly as the unauthenticated routes of convex/https.ts |

## Left out

- Convex argument validation of ids (`v.id`): ids are naturals, and the only malformed id modelled is the `''` placeholder (`NoUser`). The routes that pass it are rejected as Convex's validator rejects them. An id that is well-formed but names a row of another table is not rejected.
- Database.Db.SaveChat, Database.Db.CreateChat, Database.Db.SaveDocument, Database.Db.SaveMessages and Database.Db.SaveSuggestions: the methods take their id arguments as already validated, and do not model `v.id` refusing `NoUser` when a caller passes it directly. No modelled route passes it to them.
- Argument validators on body fields other than presence: JSON fields are parsed into optional strings beforehand. A missing `title`/`content` or a `type` other than "up"/"down" is modelled as `ArgumentRejected`. Non-string JSON values are not modelled.
- The HTTP status and text Convex produces for an action that throws (`ArgumentRejected`, or `deleteChatById` on a missing chat): the model records only that the action failed and the store is unchanged.
- URL, JSON and multipart parsing: handlers take the parsed fields. `formData.get("file")` is a `FormValue`: a file reduced to its size and MIME type, or a text field.
- Authentication: `ctx.auth.getUserIdentity()` is an optional email. How Convex auth establishes it is not modelled.
- Timestamps: `_creationTime` and the rewind's `timestamp` are integers from a tick counter. Convex uses floating-point milliseconds, so equal or decreasing times are not modelled.
- Message `content` (`v.any()`) is a string.
- Convex runtime internals: indexes, id encoding, transactions and concurrency. Each mutation is one atomic step on the store.
- Database.Db.SaveChat, Database.Db.CreateChat, Database.Db.SaveMessages, Database.Db.SaveDocument, Database.Db.SaveSuggestions: these inserts succeed in the model, although as shipped Convex, which checks every insert against `convex/schema.ts` by default, would refuse them. The chat, message and document inserts omit the required `createdAt`. The suggestion insert writes `documentCreatedTime` and omits the required `documentCreatedAt` and `createdAt`. The model follows the handlers as if schema validation were off; only `createUser` and the insert in `voteMessage` match the schema. The same holds for the 200 that `Https.PostDocumentRouteAs` promises once a real user id is passed.
- Response encoding: JSON bodies carry the rows themselves. POST /api/document answers with the id `saveDocument` returns (`ReturnedIdJson`).
- Actions.Run: returns no id for `voteMessage`, although `ctx.db.insert` returns one there. The route discards that result.
- Database.Db.SaveChat, Database.Db.SaveDocument, Database.Db.SaveMessages and Database.Db.SaveSuggestions: the read-back of inserted rows by their ids is stated by `MutationRules.InsertedReadsBack` and `MutationRules.BatchReadsBack` on the resulting table, not in the methods' own contracts.
- POST /api/chat streaming and tool orchestration: the route is a 501 stub in the code.
- middleware.ts, the React components and the Next.js routes are not part of this model.
