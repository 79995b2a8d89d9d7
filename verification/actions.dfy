/**
 * What an HTTP action hands back and which store mutation it delegates to
 * through `ctx.runMutation`. The route handlers of convex/https.ts and
 * convex/api/vote.ts are pure decisions producing an `Outcome`; `Run` performs
 * the delegated mutation on the store.
 */
module Actions {
  import opened Tables
  import opened Schema
  import opened MutationRules
  import opened Database

  /** The body of an HTTP response. */
  datatype Body =
    | Text(text: string)
    | ChatsJson(chats: Table<ChatFields>)
    | DocumentsJson(documents: Table<DocumentFields>)
    | SuggestionsJson(suggestions: Table<SuggestionFields>)
    | VotesJson(votes: Table<VoteFields>)
      /** The JSON of the id the delegated mutation returned. */
    | ReturnedIdJson

  /** A response, or the error a Convex argument validator throws out of the action. */
  datatype Reply =
    | Response(status: int, body: Body)
    | ArgumentRejected

  /** A mutation of convex/queries.ts, with the arguments the handler passes. */
  datatype StoreCall =
    | DeleteChatCall(id: Id)
    | SaveDocumentCall(documentId: string, title: string, content: string, userId: Id)
    | VoteMessageCall(chatId: Id, messageId: Id, kind: VoteKind)

  /** The reply and the mutation the handler ran, if any. */
  datatype Outcome = Outcome(reply: Reply, call: Option<StoreCall>)

  /** A string request field that JavaScript treats as falsy: absent or empty. */
  predicate Blank(s: Option<string>) {
    s.None? || s.value == ""
  }

  /** The `v.union(v.literal("up"), v.literal("down"))` validator on `type`. */
  function ParseVoteKind(t: string): (r: Option<VoteKind>)
    ensures r == Some(Up) <==> t == "up"
    ensures r == Some(Down) <==> t == "down"
    ensures r.None? <==> t != "up" && t != "down"
  {
    if t == "up" then Some(Up) else if t == "down" then Some(Down) else None
  }

  /** The store after a mutation, as the `Database.Db` methods change it. */
  ghost function Effect(s: Snapshot, call: StoreCall): Snapshot {
    match call
    case DeleteChatCall(id) =>
      if Get(s.chats, id).None? then s
      else s.(votes := Reject(s.votes, VoteInChat(id)),
              messages := Reject(s.messages, MessageInChat(id)),
              chats := Without(s.chats, {id}))
    case SaveDocumentCall(_, title, content, userId) =>
      Tick(s).(documents := s.documents + [Row(s.nextId, s.clock + 1, DocumentFields(title, content, userId))])
    case VoteMessageCall(chatId, messageId, kind) =>
      var votes := VoteUpsert(s.votes, chatId, messageId, kind == Up, s.nextId, s.clock + 1);
      if VotesOn(s.votes, chatId, messageId) == [] then Tick(s).(votes := votes) else s.(votes := votes)
  }

  /** Every delegated mutation keeps the store consistent. */
  lemma EffectKeepsConsistent(s: Snapshot, call: StoreCall)
    requires Consistent(s)
    ensures Consistent(Effect(s, call))
  {
    match call
    case DeleteChatCall(id) =>
      DeleteChatKeepsConsistent(s, id);
    case SaveDocumentCall(_, title, content, userId) =>
      InsertDocumentKeepsConsistent(s, DocumentFields(title, content, userId));
    case VoteMessageCall(chatId, messageId, kind) =>
      if VotesOn(s.votes, chatId, messageId) == [] {
        InsertVoteKeepsConsistent(s, chatId, messageId, kind == Up);
      } else {
        PatchVoteKeepsConsistent(s, chatId, messageId, kind == Up);
      }
  }

  /** `ctx.runMutation`: runs the delegated mutation on the store and returns the
      id it answers with, for `saveDocument` the new document's id. */
  method Run(db: Db, call: StoreCall) returns (returned: Option<Id>)
    requires db.Valid()
    modifies db
    ensures db.Valid()
    ensures db.State() == Effect(old(db.State()), call)
    ensures call.SaveDocumentCall? <==> returned.Some?
    ensures call.SaveDocumentCall? ==> returned == Some(old(db.nextId))
  {
    match call
    case DeleteChatCall(id) =>
      var _ := db.DeleteChatById(id);
      returned := None;
    case SaveDocumentCall(documentId, title, content, userId) =>
      var saved := db.SaveDocument(documentId, title, content, userId);
      returned := Some(saved);
    case VoteMessageCall(chatId, messageId, kind) =>
      var _ := db.VoteMessage(chatId, messageId, kind);
      returned := None;
  }

  /** Runs the handler's mutation, if it delegated one. */
  method Perform(db: Db, outcome: Outcome) returns (returned: Option<Id>)
    requires db.Valid()
    modifies db
    ensures db.Valid()
    ensures outcome.call.None? ==> db.State() == old(db.State()) && returned.None?
    ensures outcome.call.Some? ==> db.State() == Effect(old(db.State()), outcome.call.value)
  {
    returned := None;
    if outcome.call.Some? {
      returned := Run(db, outcome.call.value);
    }
  }
}
