/**
 * The Convex database behind convex/queries.ts: six tables that the mutations
 * change in place. Each mutation is one atomic step on the store. Every insert
 * takes the next id and a creation time one tick after the previous insert.
 */
module Database {
  import opened Tables
  import opened Schema
  import opened MutationRules

  /** The whole store as a value, for stating what a mutation leaves unchanged. */
  datatype Snapshot = Snapshot(
    users: Table<UserFields>,
    chats: Table<ChatFields>,
    messages: Table<MessageFields>,
    votes: Table<VoteFields>,
    documents: Table<DocumentFields>,
    suggestions: Table<SuggestionFields>,
    nextId: Id,
    clock: int)

  /** The invariant of the store: ids are never 0 and never reused, every table
      is in creation order, and each (chat, message) pair carries at most one vote. */
  ghost predicate Consistent(s: Snapshot) {
    && 0 < s.nextId
    && WellFormed(s.users, s.nextId, s.clock)
    && WellFormed(s.chats, s.nextId, s.clock)
    && WellFormed(s.messages, s.nextId, s.clock)
    && WellFormed(s.votes, s.nextId, s.clock)
    && WellFormed(s.documents, s.nextId, s.clock)
    && WellFormed(s.suggestions, s.nextId, s.clock)
    && OneVotePerPair(s.votes)
  }

  /** The same store after one more id and one more tick have been issued. */
  function Tick(s: Snapshot): (r: Snapshot)
    ensures r.nextId == s.nextId + 1 && r.clock == s.clock + 1
  {
    s.(nextId := s.nextId + 1, clock := s.clock + 1)
  }

  /** Issuing an id and a tick keeps every table well formed. */
  lemma TickKeepsTables(s: Snapshot)
    requires Consistent(s)
    ensures var t := Tick(s);
            && WellFormed(s.users, t.nextId, t.clock)
            && WellFormed(s.chats, t.nextId, t.clock)
            && WellFormed(s.messages, t.nextId, t.clock)
            && WellFormed(s.votes, t.nextId, t.clock)
            && WellFormed(s.documents, t.nextId, t.clock)
            && WellFormed(s.suggestions, t.nextId, t.clock)
  {
    WellFormedLater(s.users, s.nextId, s.clock, s.nextId + 1, s.clock + 1);
    WellFormedLater(s.chats, s.nextId, s.clock, s.nextId + 1, s.clock + 1);
    WellFormedLater(s.messages, s.nextId, s.clock, s.nextId + 1, s.clock + 1);
    WellFormedLater(s.votes, s.nextId, s.clock, s.nextId + 1, s.clock + 1);
    WellFormedLater(s.documents, s.nextId, s.clock, s.nextId + 1, s.clock + 1);
    WellFormedLater(s.suggestions, s.nextId, s.clock, s.nextId + 1, s.clock + 1);
  }

  /** Inserting a user keeps the store consistent. */
  lemma InsertUserKeepsConsistent(s: Snapshot, f: UserFields)
    requires Consistent(s)
    ensures Consistent(Tick(s).(users := s.users + [Row(s.nextId, s.clock + 1, f)]))
  {
    TickKeepsTables(s);
    AppendWellFormed(s.users, s.nextId, s.clock, f);
  }

  /** Inserting a chat keeps the store consistent. */
  lemma InsertChatKeepsConsistent(s: Snapshot, f: ChatFields)
    requires Consistent(s)
    ensures Consistent(Tick(s).(chats := s.chats + [Row(s.nextId, s.clock + 1, f)]))
  {
    TickKeepsTables(s);
    AppendWellFormed(s.chats, s.nextId, s.clock, f);
  }

  /** Inserting a message keeps the store consistent. */
  lemma InsertMessageKeepsConsistent(s: Snapshot, f: MessageFields)
    requires Consistent(s)
    ensures Consistent(Tick(s).(messages := s.messages + [Row(s.nextId, s.clock + 1, f)]))
  {
    TickKeepsTables(s);
    AppendWellFormed(s.messages, s.nextId, s.clock, f);
  }

  /** Inserting a document keeps the store consistent. */
  lemma InsertDocumentKeepsConsistent(s: Snapshot, f: DocumentFields)
    requires Consistent(s)
    ensures Consistent(Tick(s).(documents := s.documents + [Row(s.nextId, s.clock + 1, f)]))
  {
    TickKeepsTables(s);
    AppendWellFormed(s.documents, s.nextId, s.clock, f);
  }

  /** Inserting a suggestion keeps the store consistent. */
  lemma InsertSuggestionKeepsConsistent(s: Snapshot, f: SuggestionFields)
    requires Consistent(s)
    ensures Consistent(Tick(s).(suggestions := s.suggestions + [Row(s.nextId, s.clock + 1, f)]))
  {
    TickKeepsTables(s);
    AppendWellFormed(s.suggestions, s.nextId, s.clock, f);
  }

  /** A vote on a pair that has none yet inserts one row and keeps the store consistent. */
  lemma InsertVoteKeepsConsistent(s: Snapshot, chatId: Id, messageId: Id, up: bool)
    requires Consistent(s) && VotesOn(s.votes, chatId, messageId) == []
    ensures Consistent(Tick(s).(votes := VoteUpsert(s.votes, chatId, messageId, up, s.nextId, s.clock + 1)))
  {
    TickKeepsTables(s);
    UpsertInsertsOne(s.votes, chatId, messageId, up, s.nextId, s.clock + 1);
    AppendWellFormed(s.votes, s.nextId, s.clock, VoteFields(chatId, messageId, up));
    UpsertKeepsOneVotePerPair(s.votes, chatId, messageId, up, s.nextId, s.clock + 1);
  }

  /** A vote on a pair that has one patches it in place and keeps the store consistent. */
  lemma PatchVoteKeepsConsistent(s: Snapshot, chatId: Id, messageId: Id, up: bool)
    requires Consistent(s) && VotesOn(s.votes, chatId, messageId) != []
    ensures Consistent(s.(votes := VoteUpsert(s.votes, chatId, messageId, up, s.nextId, s.clock + 1)))
  {
    var existing := VotesOn(s.votes, chatId, messageId);
    PatchKeepsWellFormed(s.votes, existing[0].id, up, s.nextId, s.clock);
    UpsertKeepsOneVotePerPair(s.votes, chatId, messageId, up, s.nextId, s.clock + 1);
  }

  /** Deleting a chat with its votes and messages keeps the store consistent. */
  lemma DeleteChatKeepsConsistent(s: Snapshot, id: Id)
    requires Consistent(s)
    ensures Consistent(s.(votes := Reject(s.votes, VoteInChat(id)),
                          messages := Reject(s.messages, MessageInChat(id)),
                          chats := Without(s.chats, {id})))
  {
    CascadeKeepsOneVotePerPair(s.votes, id);
    SubTableWellFormed(s.votes, Reject(s.votes, VoteInChat(id)), s.nextId, s.clock);
    SubTableWellFormed(s.messages, Reject(s.messages, MessageInChat(id)), s.nextId, s.clock);
    SubTableWellFormed(s.chats, Without(s.chats, {id}), s.nextId, s.clock);
  }

  /** Rewinding a document keeps the store consistent. */
  lemma RewindKeepsConsistent(s: Snapshot, id: Id, timestamp: int)
    requires Consistent(s)
    ensures Consistent(s.(suggestions := Reject(s.suggestions, SuggestionAfter(id, timestamp)),
                          documents := Reject(s.documents, DocumentAfter(id, timestamp))))
  {
    SubTableWellFormed(s.suggestions, Reject(s.suggestions, SuggestionAfter(id, timestamp)), s.nextId, s.clock);
    SubTableWellFormed(s.documents, Reject(s.documents, DocumentAfter(id, timestamp)), s.nextId, s.clock);
  }

  class Db {
    var users: Table<UserFields>
    var chats: Table<ChatFields>
    var messages: Table<MessageFields>
    var votes: Table<VoteFields>
    var documents: Table<DocumentFields>
    var suggestions: Table<SuggestionFields>
    /** The id the next insert takes. */
    var nextId: Id
    /** The creation time of the latest insert. */
    var clock: int

    ghost function State(): Snapshot
      reads this
    {
      Snapshot(users, chats, messages, votes, documents, suggestions, nextId, clock)
    }

    ghost predicate Valid()
      reads this
    {
      Consistent(State())
    }

    constructor ()
      ensures Valid()
      ensures State() == Snapshot([], [], [], [], [], [], 1, 0)
    {
      users, chats, messages, votes, documents, suggestions := [], [], [], [], [], [];
      nextId, clock := 1, 0;
    }

    /** `createUser` */
    method CreateUser(email: string) returns (id: Id)
      requires Valid()
      modifies this
      ensures Valid()
      ensures id == old(nextId)
      ensures State() == old(State()).(users := old(users) + [Row(id, old(clock) + 1, UserFields(email))],
                                       nextId := id + 1, clock := old(clock) + 1)
    {
      InsertUserKeepsConsistent(State(), UserFields(email));
      id := nextId;
      users := users + [Row(id, clock + 1, UserFields(email))];
      nextId, clock := nextId + 1, clock + 1;
    }

    /** `saveChat`: a chat with the given title. */
    method SaveChat(userId: Id, title: string) returns (id: Id)
      requires Valid()
      modifies this
      ensures Valid()
      ensures id == old(nextId)
      ensures State() == old(State()).(chats := old(chats) + [Row(id, old(clock) + 1, ChatFields(userId, title))],
                                       nextId := id + 1, clock := old(clock) + 1)
    {
      InsertChatKeepsConsistent(State(), ChatFields(userId, title));
      id := nextId;
      chats := chats + [Row(id, clock + 1, ChatFields(userId, title))];
      nextId, clock := nextId + 1, clock + 1;
    }

    /** `createChat`: a chat with an empty title. */
    method CreateChat(userId: Id) returns (id: Id)
      requires Valid()
      modifies this
      ensures Valid()
      ensures id == old(nextId)
      ensures State() == old(State()).(chats := old(chats) + [Row(id, old(clock) + 1, ChatFields(userId, ""))],
                                       nextId := id + 1, clock := old(clock) + 1)
    {
      InsertChatKeepsConsistent(State(), ChatFields(userId, ""));
      id := nextId;
      chats := chats + [Row(id, clock + 1, ChatFields(userId, ""))];
      nextId, clock := nextId + 1, clock + 1;
    }

    /** `deleteChatById`: the chat's votes, then its messages, then the chat itself.
        Deleting a chat that does not exist throws, which rolls the whole mutation
        back, so then nothing changes. */
    method DeleteChatById(id: Id) returns (deleted: bool)
      requires Valid()
      modifies this
      ensures Valid()
      ensures deleted <==> Get(old(chats), id).Some?
      ensures deleted ==> State() == old(State()).(votes := Reject(old(votes), VoteInChat(id)),
                                                   messages := Reject(old(messages), MessageInChat(id)),
                                                   chats := Without(old(chats), {id}))
      ensures !deleted ==> State() == old(State())
    {
      if Get(chats, id).None? {
        return false;
      }
      ghost var s := State();
      DeleteChatKeepsConsistent(s, id);
      var doomedVotes := Filter(votes, VoteInChat(id));
      DeleteSelected(votes, VoteInChat(id));
      votes := DeleteEach(votes, doomedVotes);

      var doomedMessages := Filter(messages, MessageInChat(id));
      DeleteSelected(messages, MessageInChat(id));
      messages := DeleteEach(messages, doomedMessages);

      chats := Without(chats, {id});
      deleted := true;
      assert State() == s.(votes := Reject(s.votes, VoteInChat(id)),
                           messages := Reject(s.messages, MessageInChat(id)),
                           chats := Without(s.chats, {id}));
    }

    /** `ctx.db.insert("messages", f)`: one row with the next id and the next tick. */
    method InsertMessage(f: MessageFields) returns (id: Id)
      requires Valid()
      modifies this
      ensures Valid()
      ensures id == old(nextId)
      ensures State() == Tick(old(State())).(messages := old(messages) + [Row(id, old(clock) + 1, f)])
    {
      InsertMessageKeepsConsistent(State(), f);
      id := nextId;
      messages := messages + [Row(id, clock + 1, f)];
      nextId, clock := nextId + 1, clock + 1;
    }

    /** `saveMessages`: one insert per item, in order; the ids in insertion order. */
    method SaveMessages(batch: seq<MessageFields>) returns (ids: seq<Id>)
      requires Valid()
      modifies this
      ensures Valid()
      ensures |ids| == |batch| && forall k :: 0 <= k < |batch| ==> ids[k] == old(nextId) + k
      ensures State() == old(State()).(messages := old(messages) + Stamped(batch, old(nextId), old(clock) + 1),
                                       nextId := old(nextId) + |batch|, clock := old(clock) + |batch|)
    {
      ghost var s0 := State();
      ghost var added: Table<MessageFields> := [];
      ids := [];
      var i := 0;
      while i < |batch|
        invariant 0 <= i <= |batch|
        invariant Valid()
        invariant |ids| == i && forall k :: 0 <= k < i ==> ids[k] == s0.nextId + k
        invariant |added| == i && forall k :: 0 <= k < i ==> added[k] == Row(s0.nextId + k, s0.clock + 1 + k, batch[k])
        invariant State() == s0.(messages := s0.messages + added, nextId := s0.nextId + i, clock := s0.clock + i)
      {
        var id := InsertMessage(batch[i]);
        added := added + [Row(id, s0.clock + 1 + i, batch[i])];
        ids := ids + [id];
        i := i + 1;
      }
      assert added == Stamped(batch, s0.nextId, s0.clock + 1);
    }

    /** `voteMessage`: patch the first vote on the pair, or insert one. Returns the
        new row's id when it inserts. */
    method VoteMessage(chatId: Id, messageId: Id, kind: VoteKind) returns (inserted: Option<Id>)
      requires Valid()
      modifies this
      ensures Valid()
      ensures inserted.Some? <==> VotesOn(old(votes), chatId, messageId) == []
      ensures inserted.Some? ==> inserted.value == old(nextId)
      ensures State() == old(State()).(votes := VoteUpsert(old(votes), chatId, messageId, kind == Up, old(nextId), old(clock) + 1),
                                       nextId := if inserted.Some? then old(nextId) + 1 else old(nextId),
                                       clock := if inserted.Some? then old(clock) + 1 else old(clock))
    {
      ghost var s := State();
      var existing := VotesOn(votes, chatId, messageId);
      if |existing| > 0 {
        PatchVoteKeepsConsistent(s, chatId, messageId, kind == Up);
        votes := PatchVote(votes, existing[0].id, kind == Up);
        inserted := None;
        assert State() == s.(votes := VoteUpsert(s.votes, chatId, messageId, kind == Up, s.nextId, s.clock + 1));
      } else {
        InsertVoteKeepsConsistent(s, chatId, messageId, kind == Up);
        votes := votes + [Row(nextId, clock + 1, VoteFields(chatId, messageId, kind == Up))];
        inserted := Some(nextId);
        nextId, clock := nextId + 1, clock + 1;
        assert State() == Tick(s).(votes := VoteUpsert(s.votes, chatId, messageId, kind == Up, s.nextId, s.clock + 1));
      }
    }

    /** `saveDocument`: always inserts a new row with the given title, content and
        user; its `id` argument is never read. */
    method SaveDocument(id: string, title: string, content: string, userId: Id) returns (docId: Id)
      requires Valid()
      modifies this
      ensures Valid()
      ensures docId == old(nextId)
      ensures State() == old(State()).(documents := old(documents) + [Row(docId, old(clock) + 1, DocumentFields(title, content, userId))],
                                       nextId := docId + 1, clock := old(clock) + 1)
    {
      InsertDocumentKeepsConsistent(State(), DocumentFields(title, content, userId));
      docId := nextId;
      documents := documents + [Row(docId, clock + 1, DocumentFields(title, content, userId))];
      nextId, clock := nextId + 1, clock + 1;
    }

    /** `deleteDocumentsByIdAfterTimestamp`: the suggestions on document `id` made
        strictly after `timestamp`, then the documents with `_id == id` created
        strictly after it. */
    method DeleteDocumentsByIdAfterTimestamp(id: Id, timestamp: int)
      requires Valid()
      modifies this
      ensures Valid()
      ensures State() == old(State()).(suggestions := Reject(old(suggestions), SuggestionAfter(id, timestamp)),
                                       documents := Reject(old(documents), DocumentAfter(id, timestamp)))
    {
      RewindKeepsConsistent(State(), id, timestamp);
      var doomedSuggestions := Filter(suggestions, SuggestionAfter(id, timestamp));
      DeleteSelected(suggestions, SuggestionAfter(id, timestamp));
      suggestions := DeleteEach(suggestions, doomedSuggestions);

      var doomedDocuments := Filter(documents, DocumentAfter(id, timestamp));
      DeleteSelected(documents, DocumentAfter(id, timestamp));
      documents := DeleteEach(documents, doomedDocuments);
    }

    /** `ctx.db.insert("suggestions", f)`: one row with the next id and the next tick. */
    method InsertSuggestion(f: SuggestionFields) returns (id: Id)
      requires Valid()
      modifies this
      ensures Valid()
      ensures id == old(nextId)
      ensures State() == Tick(old(State())).(suggestions := old(suggestions) + [Row(id, old(clock) + 1, f)])
    {
      InsertSuggestionKeepsConsistent(State(), f);
      id := nextId;
      suggestions := suggestions + [Row(id, clock + 1, f)];
      nextId, clock := nextId + 1, clock + 1;
    }

    /** `saveSuggestions`: one insert per item, in order; the ids in insertion order. */
    method SaveSuggestions(batch: seq<SuggestionFields>) returns (ids: seq<Id>)
      requires Valid()
      modifies this
      ensures Valid()
      ensures |ids| == |batch| && forall k :: 0 <= k < |batch| ==> ids[k] == old(nextId) + k
      ensures State() == old(State()).(suggestions := old(suggestions) + Stamped(batch, old(nextId), old(clock) + 1),
                                       nextId := old(nextId) + |batch|, clock := old(clock) + |batch|)
    {
      ghost var s0 := State();
      ghost var added: Table<SuggestionFields> := [];
      ids := [];
      var i := 0;
      while i < |batch|
        invariant 0 <= i <= |batch|
        invariant Valid()
        invariant |ids| == i && forall k :: 0 <= k < i ==> ids[k] == s0.nextId + k
        invariant |added| == i && forall k :: 0 <= k < i ==> added[k] == Row(s0.nextId + k, s0.clock + 1 + k, batch[k])
        invariant State() == s0.(suggestions := s0.suggestions + added, nextId := s0.nextId + i, clock := s0.clock + i)
      {
        var id := InsertSuggestion(batch[i]);
        added := added + [Row(id, s0.clock + 1 + i, batch[i])];
        ids := ids + [id];
        i := i + 1;
      }
      assert added == Stamped(batch, s0.nextId, s0.clock + 1);
    }
  }
}
