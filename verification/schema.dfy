/**
 * The fields of the six tables as the mutations in convex/queries.ts write
 * them, and the row selectors the queries filter with.
 */
module Schema {
  import opened Tables

  datatype UserFields = UserFields(email: string)

  datatype ChatFields = ChatFields(userId: Id, title: string)

  /** `content` is free-form JSON; the model keeps it as its text. */
  datatype MessageFields = MessageFields(chatId: Id, role: string, content: string)

  datatype VoteFields = VoteFields(chatId: Id, messageId: Id, isUpvoted: bool)

  datatype DocumentFields = DocumentFields(title: string, content: string, userId: Id)

  /** `documentCreatedTime` is the creation time of the document row the suggestion was made on. */
  datatype SuggestionFields = SuggestionFields(
    documentId: Id,
    documentCreatedTime: int,
    originalText: string,
    suggestedText: string,
    description: Option<string>,
    isResolved: bool,
    userId: Id)

  /** The `type` argument of `voteMessage`: the literal "up" or "down". */
  datatype VoteKind = Up | Down

  /** The user id the HTTP handlers pass where an authenticated user's id belongs:
      the empty string, which is not a well-formed id, so the `v.id("users")`
      argument validator of the mutation or query it is passed to refuses it. */
  const NoUser: Id := 0

  // Row selectors, one per `.filter(...)` in the queries

  function UserWithEmail(email: string): Row<UserFields> -> bool {
    (u: Row<UserFields>) => u.fields.email == email
  }

  function ChatOfUser(userId: Id): Row<ChatFields> -> bool {
    (c: Row<ChatFields>) => c.fields.userId == userId
  }

  function MessageInChat(chatId: Id): Row<MessageFields> -> bool {
    (m: Row<MessageFields>) => m.fields.chatId == chatId
  }

  function VoteInChat(chatId: Id): Row<VoteFields> -> bool {
    (v: Row<VoteFields>) => v.fields.chatId == chatId
  }

  function VoteOnMessage(chatId: Id, messageId: Id): Row<VoteFields> -> bool {
    (v: Row<VoteFields>) => v.fields.chatId == chatId && v.fields.messageId == messageId
  }

  function SuggestionOfDocument(documentId: Id): Row<SuggestionFields> -> bool {
    (s: Row<SuggestionFields>) => s.fields.documentId == documentId
  }

  /** `documentId == id && documentCreatedTime > timestamp` */
  function SuggestionAfter(documentId: Id, timestamp: int): Row<SuggestionFields> -> bool {
    (s: Row<SuggestionFields>) => s.fields.documentId == documentId && s.fields.documentCreatedTime > timestamp
  }

  /** `_id == id && _creationTime > timestamp` */
  function DocumentAfter(id: Id, timestamp: int): Row<DocumentFields> -> bool {
    (d: Row<DocumentFields>) => d.id == id && d.creationTime > timestamp
  }
}
