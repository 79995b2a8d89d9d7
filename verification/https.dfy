/**
 * The route handlers of convex/https.ts as decisions over request fields that
 * have already been parsed from the URL, the JSON body or the form data. A
 * query parameter or body field that is absent or empty is `None`. Handlers
 * that run a query read the table they query; a handler that runs a mutation
 * names it in its `Outcome`, and `Actions.Run` performs it.
 */
module Https {
  import opened Tables
  import opened Schema
  import opened Queries
  import opened MutationRules
  import opened Database
  import opened Actions

  const NotFound: Reply := Response(404, Text("Not Found"))

  // ---------------------------------------------------------------------------
  // /api/chat

  /** POST /api/chat: the streaming chat endpoint is a stub. */
  function PostChatRoute(): (o: Outcome)
    ensures o.call.None? && o.reply.Response? && o.reply.status == 501
  {
    Outcome(Response(501, Text("Not implemented")), None)
  }

  /** DELETE /api/chat?id=: deletes an existing chat, answers 404 otherwise. */
  function DeleteChatRoute(id: Option<Id>, chats: Table<ChatFields>): (o: Outcome)
    ensures o.call.Some? <==> id.Some? && Get(chats, id.value).Some?
    ensures o.call.Some? ==> o.call.value == DeleteChatCall(id.value) && o.reply == Response(200, Text("Chat deleted"))
    ensures o.call.None? ==> o.reply == NotFound
  {
    if id.None? then Outcome(NotFound, None)
    else if Get(chats, id.value).None? then Outcome(NotFound, None)
    else Outcome(Response(200, Text("Chat deleted")), Some(DeleteChatCall(id.value)))
  }

  /** After DELETE /api/chat succeeds the chat, its messages and its votes are
      gone, and every other chat's messages and votes are as before. */
  lemma DeleteChatRouteEffect(s: Snapshot, id: Id, other: Id)
    requires Consistent(s) && other != id
    requires Get(s.chats, id).Some?
    ensures var o := DeleteChatRoute(Some(id), s.chats);
            var after := Effect(s, o.call.value);
            && Get(after.chats, id).None?
            && GetMessagesByChatId(after.messages, id) == []
            && GetVotesByChatId(after.votes, id) == []
            && GetMessagesByChatId(after.messages, other) == GetMessagesByChatId(s.messages, other)
            && GetVotesByChatId(after.votes, other) == GetVotesByChatId(s.votes, other)
            && Get(after.chats, other) == Get(s.chats, other)
  {
    CascadeScope(s.votes, s.messages, id, other);
    var chats := Without(s.chats, {id});
    var g := Get(s.chats, other);
    if g.Some? {
      assert g.value in chats;
      var i :| 0 <= i < |chats| && chats[i] == g.value;
      GetAt(chats, i);
    }
  }

  // ---------------------------------------------------------------------------
  // /api/document

  /** GET /api/document?id=: the document as a one-element array. */
  function GetDocumentRoute(id: Option<Id>, documents: Table<DocumentFields>): (o: Outcome)
    ensures o.call.None?
    ensures id.None? ==> o.reply == Response(400, Text("Missing id"))
    ensures id.Some? ==> (o.reply == NotFound <==> Get(documents, id.value).None?)
    ensures id.Some? && Get(documents, id.value).Some? ==>
              o.reply.Response? && o.reply.status == 200 && o.reply.body.DocumentsJson?
              && |o.reply.body.documents| == 1
              && o.reply.body.documents[0] in documents && o.reply.body.documents[0].id == id.value
  {
    if id.None? then Outcome(Response(400, Text("Missing id")), None)
    else match Get(documents, id.value)
      case None => Outcome(NotFound, None)
      case Some(d) => Outcome(Response(200, DocumentsJson([d])), None)
  }

  /** The one-element array GET /api/document answers with is exactly what
      `getDocumentsById` collects. */
  lemma GetDocumentRouteIsQuery(id: Id, documents: Table<DocumentFields>)
    requires Chronological(documents) && Get(documents, id).Some?
    ensures GetDocumentRoute(Some(id), documents).reply.body.documents == GetDocumentsById(documents, id)
  {
  }

  /** POST /api/document?id= for a handler that passes `userId`: saves the
      body's title and content, unless an argument validator of `saveDocument`
      refuses them. */
  function PostDocumentRouteAs(userId: Id, id: Option<string>, title: Option<string>, content: Option<string>): (o: Outcome)
    ensures Blank(id) ==> o == Outcome(Response(400, Text("Missing id")), None)
    ensures !Blank(id) && (title.None? || content.None? || userId == NoUser) ==> o == Outcome(ArgumentRejected, None)
    ensures o.call.Some? <==> !Blank(id) && title.Some? && content.Some? && userId != NoUser
    ensures o.call.Some? ==> o.call.value == SaveDocumentCall(id.value, title.value, content.value, userId)
                             && o.reply == Response(200, ReturnedIdJson)
  {
    if Blank(id) then Outcome(Response(400, Text("Missing id")), None)
    else if title.None? || content.None? || userId == NoUser then Outcome(ArgumentRejected, None)
    else Outcome(Response(200, ReturnedIdJson), Some(SaveDocumentCall(id.value, title.value, content.value, userId)))
  }

  /** POST /api/document?id= as written: the handler passes `userId: ''`, which
      `saveDocument`'s validator refuses, so past the `id` check every request
      fails and nothing is saved. */
  function PostDocumentRoute(id: Option<string>, title: Option<string>, content: Option<string>): (o: Outcome)
    ensures o.call.None?
    ensures Blank(id) ==> o.reply == Response(400, Text("Missing id"))
    ensures !Blank(id) ==> o.reply == ArgumentRejected
  {
    PostDocumentRouteAs(NoUser, id, title, content)
  }

  /** POST /api/document always appends a new document row, whatever `id` it was
      given: two posts that differ only in `id` change the store identically. */
  lemma PostDocumentIgnoresId(s: Snapshot, userId: Id, id1: string, id2: string, title: string, content: string)
    requires userId != NoUser && id1 != "" && id2 != ""
    ensures Effect(s, PostDocumentRouteAs(userId, Some(id1), Some(title), Some(content)).call.value)
         == Effect(s, PostDocumentRouteAs(userId, Some(id2), Some(title), Some(content)).call.value)
  {
  }

  /** The row POST /api/document adds is new: it carries the next id, which no
      earlier document has, reads back by that id, and keeps every older row. */
  lemma PostDocumentAddsNewRow(s: Snapshot, userId: Id, id: string, title: string, content: string)
    requires Consistent(s) && userId != NoUser && id != ""
    ensures var after := Effect(s, PostDocumentRouteAs(userId, Some(id), Some(title), Some(content)).call.value);
            && after.documents == s.documents + [Row(s.nextId, s.clock + 1, DocumentFields(title, content, userId))]
            && Get(after.documents, s.nextId) == Some(Row(s.nextId, s.clock + 1, DocumentFields(title, content, userId)))
            && Get(s.documents, s.nextId).None?
  {
    InsertedReadsBack(s.documents, s.nextId, s.clock, DocumentFields(title, content, userId));
    forall d | d in s.documents ensures d.id != s.nextId {
      var i :| 0 <= i < |s.documents| && s.documents[i] == d;
    }
  }

  // ---------------------------------------------------------------------------
  // /api/history and /api/suggestions

  /** GET /api/history for a handler that passes `userId`: the user's chats,
      newest first, unless `getChatsByUserId`'s validator refuses the id. */
  function GetHistoryRouteAs(userId: Id, chats: Table<ChatFields>): (o: Outcome)
    ensures o.call.None?
    ensures userId == NoUser <==> o.reply == ArgumentRejected
    ensures userId != NoUser ==>
              o.reply.Response? && o.reply.status == 200 && o.reply.body.ChatsJson?
              && (forall c :: c in o.reply.body.chats <==> c in chats && c.fields.userId == userId)
              && (Chronological(chats) ==> NewestFirst(o.reply.body.chats))
  {
    if userId == NoUser then Outcome(ArgumentRejected, None)
    else Outcome(Response(200, ChatsJson(GetChatsByUserId(chats, userId))), None)
  }

  /** GET /api/history as written: the handler passes `userId: ''`, which
      `getChatsByUserId`'s validator refuses, so every request fails. */
  function GetHistoryRoute(chats: Table<ChatFields>): (o: Outcome)
    ensures o == Outcome(ArgumentRejected, None)
  {
    GetHistoryRouteAs(NoUser, chats)
  }

  /** GET /api/suggestions?documentId=: the document's suggestions. */
  function GetSuggestionsRoute(documentId: Option<Id>, suggestions: Table<SuggestionFields>): (o: Outcome)
    ensures o.call.None?
    ensures documentId.None? ==> o.reply == NotFound
    ensures documentId.Some? ==>
              o.reply.Response? && o.reply.status == 200 && o.reply.body.SuggestionsJson?
              && (forall x :: x in o.reply.body.suggestions <==> x in suggestions && x.fields.documentId == documentId.value)
              && (Chronological(suggestions) ==> Chronological(o.reply.body.suggestions))
  {
    if documentId.None? then Outcome(NotFound, None)
    else Outcome(Response(200, SuggestionsJson(GetSuggestionsByDocumentId(suggestions, documentId.value))), None)
  }

  // ---------------------------------------------------------------------------
  // /api/vote

  /** GET /api/vote?chatId=: the chat's votes. */
  function GetVoteRoute(chatId: Option<Id>, votes: Table<VoteFields>): (o: Outcome)
    ensures o.call.None?
    ensures chatId.None? ==> o.reply == Response(400, Text("chatId is required"))
    ensures chatId.Some? ==>
              o.reply.Response? && o.reply.status == 200 && o.reply.body.VotesJson?
              && (forall v :: v in o.reply.body.votes <==> v in votes && v.fields.chatId == chatId.value)
              && (Chronological(votes) ==> Chronological(o.reply.body.votes))
  {
    if chatId.None? then Outcome(Response(400, Text("chatId is required")), None)
    else Outcome(Response(200, VotesJson(GetVotesByChatId(votes, chatId.value))), None)
  }

  const MissingVoteFields: Reply := Response(400, Text("messageId and type are required"))

  /** PATCH /api/vote with a JSON body `{ chatId, messageId, type }`. */
  function PatchVoteRoute(chatId: Option<Id>, messageId: Option<Id>, kind: Option<string>): (o: Outcome)
    ensures chatId.None? || messageId.None? || Blank(kind) ==> o == Outcome(MissingVoteFields, None)
    ensures o.call.Some? <==> chatId.Some? && messageId.Some? && !Blank(kind) && ParseVoteKind(kind.value).Some?
    ensures o.call.Some? ==> o.call.value == VoteMessageCall(chatId.value, messageId.value, ParseVoteKind(kind.value).value)
                             && o.reply == Response(200, Text("Message voted"))
    ensures chatId.Some? && messageId.Some? && !Blank(kind) && ParseVoteKind(kind.value).None? ==> o.reply == ArgumentRejected
  {
    if chatId.None? || messageId.None? || Blank(kind) then Outcome(MissingVoteFields, None)
    else match ParseVoteKind(kind.value)
      case None => Outcome(ArgumentRejected, None)
      case Some(k) => Outcome(Response(200, Text("Message voted")), Some(VoteMessageCall(chatId.value, messageId.value, k)))
  }

  /** After a successful PATCH /api/vote the pair carries exactly one vote, and
      it is upvoted exactly when `type` was "up". */
  lemma PatchVoteRouteEffect(s: Snapshot, chatId: Id, messageId: Id, kind: string)
    requires Consistent(s)
    requires kind == "up" || kind == "down"
    ensures var o := PatchVoteRoute(Some(chatId), Some(messageId), Some(kind));
            var after := Effect(s, o.call.value);
            var pair := VotesOn(after.votes, chatId, messageId);
            && |pair| == 1
            && pair[0].fields == VoteFields(chatId, messageId, kind == "up")
  {
    UpsertLeavesOneVote(s.votes, chatId, messageId, kind == "up", s.nextId, s.clock + 1);
  }

  // ---------------------------------------------------------------------------
  // /api/files/upload

  /** The size limit of `FileSchema`, inclusive: 5 MiB. */
  const MaxFileBytes: nat := 5 * 1024 * 1024
  const SizeMessage: string := "File size should be less than 5MB"
  const TypeMessage: string := "File type should be JPEG, PNG, or PDF"
  /** The message `z.instanceof(File)` fails with. */
  const NotAFileMessage: string := "Input not instance of File"
  const AllowedTypes: seq<string> := ["image/jpeg", "image/png", "application/pdf"]

  /** The value `formData.get("file")` yields: an uploaded file or a text field. */
  datatype FormValue = FileValue(size: nat, mimeType: string) | TextValue(text: string)

  /** The messages of the two `FileSchema` refinements a file fails, in schema order. */
  function FileIssues(size: nat, mimeType: string): (r: seq<string>)
    ensures r == [] <==> size <= MaxFileBytes && mimeType in AllowedTypes
    ensures |r| <= 2 && forall m :: m in r ==> m == SizeMessage || m == TypeMessage
    ensures SizeMessage in r <==> size > MaxFileBytes
    ensures TypeMessage in r <==> mimeType !in AllowedTypes
    ensures |r| == 2 ==> r == [SizeMessage, TypeMessage]
  {
    (if size <= MaxFileBytes then [] else [SizeMessage]) + (if mimeType in AllowedTypes then [] else [TypeMessage])
  }

  /** The messages of `FileSchema.safeParse({ file })`: a value that is not a file
      fails the fatal `instanceof` check and no refinement runs. */
  function ValidationIssues(v: FormValue): seq<string> {
    match v
    case TextValue(_) => [NotAFileMessage]
    case FileValue(size, mimeType) => FileIssues(size, mimeType)
  }

  /** `parts.join(sep)`. */
  function Join(parts: seq<string>, sep: string): string
    decreases |parts|
  {
    if |parts| == 0 then ""
    else if |parts| == 1 then parts[0]
    else parts[0] + sep + Join(parts[1..], sep)
  }

  /** `join` works left to right: joining one more part appends the separator
      and that part to the join of the others. */
  lemma {:induction false} JoinAppend(parts: seq<string>, p: string, sep: string)
    requires |parts| > 0
    ensures Join(parts + [p], sep) == Join(parts, sep) + sep + p
    decreases |parts|
  {
    if |parts| > 1 {
      assert (parts + [p])[1..] == parts[1..] + [p];
      JoinAppend(parts[1..], p, sep);
    }
  }

  /** No file: `formData.get("file")` is null or the empty string. */
  predicate NoFile(file: Option<FormValue>) {
    file.None? || file.value == TextValue("")
  }

  /** POST /api/files/upload: checks the body, the form field and `FileSchema`;
      storing the file is a stub. */
  function UploadRoute(hasBody: bool, file: Option<FormValue>): (o: Outcome)
    ensures o.call.None? && o.reply.Response?
    ensures !hasBody ==> o.reply == Response(400, Text("Request body is empty"))
    ensures hasBody && NoFile(file) ==> o.reply == Response(400, Text("No file uploaded"))
    ensures hasBody && file.Some? && file.value.TextValue? && file.value.text != "" ==>
              o.reply == Response(400, Text(NotAFileMessage))
    ensures hasBody && file.Some? && file.value.FileValue? && FileIssues(file.value.size, file.value.mimeType) != [] ==>
              o.reply == Response(400, Text(Join(FileIssues(file.value.size, file.value.mimeType), ", ")))
    ensures o.reply.status == 501 <==> hasBody && file.Some? && file.value.FileValue?
                                       && file.value.size <= MaxFileBytes && file.value.mimeType in AllowedTypes
    ensures o.reply.status == 400 || o.reply.status == 501
  {
    if !hasBody then Outcome(Response(400, Text("Request body is empty")), None)
    else if NoFile(file) then Outcome(Response(400, Text("No file uploaded")), None)
    else
      var issues := ValidationIssues(file.value);
      if issues != [] then Outcome(Response(400, Text(Join(issues, ", "))), None)
      else Outcome(Response(501, Text("Not implemented")), None)
  }

  /** A file failing both checks gets both messages, size first, joined by ", ". */
  lemma UploadRejectionText(size: nat, mimeType: string)
    requires size > MaxFileBytes && mimeType !in AllowedTypes
    ensures UploadRoute(true, Some(FileValue(size, mimeType))).reply
         == Response(400, Text(SizeMessage + ", " + TypeMessage))
  {
    assert FileIssues(size, mimeType) == [SizeMessage, TypeMessage];
    assert Join([SizeMessage, TypeMessage], ", ") == SizeMessage + ", " + Join([TypeMessage], ", ");
  }
}
