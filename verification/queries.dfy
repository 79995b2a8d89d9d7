/**
 * The read-only queries of convex/queries.ts as filters and orderings over a
 * table. `getChatById` and `getDocumentById` are `ctx.db.get` itself, which is
 * `Tables.Get`.
 */
module Queries {
  import opened Tables
  import opened Schema

  /** `getUser`: every user row with that email. */
  function GetUser(users: Table<UserFields>, email: string): (r: Table<UserFields>)
    ensures forall u :: u in r <==> u in users && u.fields.email == email
    ensures Chronological(users) ==> Chronological(r)
  {
    Filter(users, UserWithEmail(email))
  }

  /** `getUserByToken`: the first user row whose `_id` is `id`. */
  function GetUserByToken(users: Table<UserFields>, id: Id): (r: Option<Row<UserFields>>)
    ensures r.Some? ==> r.value in users && r.value.id == id
    ensures r.None? <==> forall u :: u in users ==> u.id != id
  {
    FirstWithIdIsGet(users, id);
    First(Filter(users, HasId(id)))
  }

  /** `getChatsByUserId`: the user's chats, newest first. */
  function GetChatsByUserId(chats: Table<ChatFields>, userId: Id): (r: Table<ChatFields>)
    ensures forall c :: c in r <==> c in chats && c.fields.userId == userId
    ensures Chronological(chats) ==> NewestFirst(r)
  {
    ReversedNewestFirst(Filter(chats, ChatOfUser(userId)));
    Reverse(Filter(chats, ChatOfUser(userId)))
  }

  lemma ReversedNewestFirst(t: Table<ChatFields>)
    ensures forall c :: c in Reverse(t) <==> c in t
    ensures Chronological(t) ==> NewestFirst(Reverse(t))
  {
    var r := Reverse(t);
    assert forall c :: c in r <==> c in multiset(t);
    if Chronological(t) {
      forall i, j | 0 <= i < j < |r| ensures r[i].creationTime > r[j].creationTime {
        assert r[i] == t[|t| - 1 - i] && r[j] == t[|t| - 1 - j];
      }
    }
  }

  /** `getMessagesByChatId`: the chat's messages, oldest first. */
  function GetMessagesByChatId(messages: Table<MessageFields>, chatId: Id): (r: Table<MessageFields>)
    ensures forall m :: m in r <==> m in messages && m.fields.chatId == chatId
    ensures Chronological(messages) ==> Chronological(r)
  {
    Filter(messages, MessageInChat(chatId))
  }

  /** `getVotesByChatId`: the chat's votes in table order. */
  function GetVotesByChatId(votes: Table<VoteFields>, chatId: Id): (r: Table<VoteFields>)
    ensures forall v :: v in r <==> v in votes && v.fields.chatId == chatId
    ensures Chronological(votes) ==> Chronological(r)
  {
    Filter(votes, VoteInChat(chatId))
  }

  /** `getDocumentsById`: the rows whose `_id` is `id`, which is at most the one `get` finds. */
  function GetDocumentsById(documents: Table<DocumentFields>, id: Id): (r: Table<DocumentFields>)
    ensures forall d :: d in r <==> d in documents && d.id == id
    ensures Chronological(documents) ==> r == (match Get(documents, id) case None => [] case Some(d) => [d])
  {
    FilterByIdIsGet(documents, id);
    Filter(documents, HasId(id))
  }

  lemma FilterByIdIsGet(documents: Table<DocumentFields>, id: Id)
    ensures Chronological(documents) ==>
      Filter(documents, HasId(id)) == (match Get(documents, id) case None => [] case Some(d) => [d])
  {
    var r := Filter(documents, HasId(id));
    if Chronological(documents) {
      var g := Get(documents, id);
      if g.None? {
        ChronologicalUnique(r, []);
      } else {
        forall x ensures x in r <==> x in [g.value] {
          if x in r {
            SameIdSameRow(documents, x, g.value);
          }
        }
        ChronologicalUnique(r, [g.value]);
      }
    }
  }

  /** `getSuggestionsByDocumentId`: the suggestions made on the document, in table order. */
  function GetSuggestionsByDocumentId(suggestions: Table<SuggestionFields>, documentId: Id): (r: Table<SuggestionFields>)
    ensures forall s :: s in r <==> s in suggestions && s.fields.documentId == documentId
    ensures Chronological(suggestions) ==> Chronological(r)
  {
    Filter(suggestions, SuggestionOfDocument(documentId))
  }
}
