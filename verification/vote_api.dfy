/**
 * The HTTP actions of convex/api/vote.ts: the same vote endpoints as
 * convex/https.ts, with an authentication check between the argument check and
 * the store call. The caller's identity is the email of `ctx.auth.getUserIdentity()`,
 * `None` when there is no identity or it has no email.
 */
module VoteApi {
  import opened Tables
  import opened Schema
  import opened Queries
  import opened Actions
  import Https

  const Unauthorized: Reply := Response(401, Text("Unauthorized"))

  /** `getVotes`: the chat's votes, for a caller with an email. */
  function GetVotes(chatId: Option<Id>, email: Option<string>, votes: Table<VoteFields>): (o: Outcome)
    ensures o.call.None?
    ensures chatId.None? ==> o.reply == Response(400, Text("chatId is required"))
    ensures chatId.Some? && Blank(email) ==> o.reply == Unauthorized
    ensures chatId.Some? && !Blank(email) ==>
              o.reply.Response? && o.reply.status == 200 && o.reply.body.VotesJson?
              && (forall v :: v in o.reply.body.votes <==> v in votes && v.fields.chatId == chatId.value)
              && (Chronological(votes) ==> Chronological(o.reply.body.votes))
  {
    if chatId.None? then Outcome(Response(400, Text("chatId is required")), None)
    else if Blank(email) then Outcome(Unauthorized, None)
    else Outcome(Response(200, VotesJson(GetVotesByChatId(votes, chatId.value))), None)
  }

  /** `voteMessage`: votes on a message, for a caller with an email. */
  function VoteMessage(chatId: Option<Id>, messageId: Option<Id>, kind: Option<string>, email: Option<string>): (o: Outcome)
    ensures chatId.None? || messageId.None? || Blank(kind) ==> o == Outcome(Https.MissingVoteFields, None)
    ensures chatId.Some? && messageId.Some? && !Blank(kind) && Blank(email) ==> o == Outcome(Unauthorized, None)
    ensures o.call.Some? <==> (chatId.Some? && messageId.Some? && !Blank(kind) && !Blank(email)
                               && ParseVoteKind(kind.value).Some?)
    ensures o.call.Some? ==> o.call.value == VoteMessageCall(chatId.value, messageId.value, ParseVoteKind(kind.value).value)
                             && o.reply == Response(200, Text("Message voted"))
    ensures chatId.Some? && messageId.Some? && !Blank(kind) && !Blank(email) && ParseVoteKind(kind.value).None? ==>
              o == Outcome(ArgumentRejected, None)
  {
    if chatId.None? || messageId.None? || Blank(kind) then Outcome(Https.MissingVoteFields, None)
    else if Blank(email) then Outcome(Unauthorized, None)
    else match ParseVoteKind(kind.value)
      case None => Outcome(ArgumentRejected, None)
      case Some(k) => Outcome(Response(200, Text("Message voted")), Some(VoteMessageCall(chatId.value, messageId.value, k)))
  }

  /** The arguments are checked before the caller: with a missing argument the
      answer is the same whoever calls. */
  lemma ArgumentsCheckedFirst(chatId: Option<Id>, messageId: Option<Id>, kind: Option<string>,
                              email1: Option<string>, email2: Option<string>, votes: Table<VoteFields>)
    ensures chatId.None? ==> GetVotes(chatId, email1, votes) == GetVotes(chatId, email2, votes)
    ensures chatId.None? || messageId.None? || Blank(kind) ==>
              VoteMessage(chatId, messageId, kind, email1) == VoteMessage(chatId, messageId, kind, email2)
  {
  }

  /** For a caller with an email the actions answer exactly as the routes of
      convex/https.ts, which check no caller. */
  lemma AuthenticatedLikeRoutes(chatId: Option<Id>, messageId: Option<Id>, kind: Option<string>,
                                email: Option<string>, votes: Table<VoteFields>)
    requires !Blank(email)
    ensures GetVotes(chatId, email, votes) == Https.GetVoteRoute(chatId, votes)
    ensures VoteMessage(chatId, messageId, kind, email) == Https.PatchVoteRoute(chatId, messageId, kind)
  {
  }
}
