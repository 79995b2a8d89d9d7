/**
 * What the mutations of convex/queries.ts do to a table, stated as functions
 * of the table before the mutation, and the properties those effects have.
 * The `Database.Db` methods are proved to change their tables exactly so.
 */
module MutationRules {
  import opened Tables
  import opened Schema
  import opened Queries

  // ---------------------------------------------------------------------------
  // voteMessage

  /** The votes cast on one message of one chat, in table order. */
  function VotesOn(votes: Table<VoteFields>, chatId: Id, messageId: Id): (r: Table<VoteFields>)
    ensures forall v :: v in r <==> v in votes && v.fields.chatId == chatId && v.fields.messageId == messageId
    ensures Chronological(votes) ==> Chronological(r)
  {
    Filter(votes, VoteOnMessage(chatId, messageId))
  }

  /** The (chat, message) pair a vote is cast on. */
  function Pair(v: Row<VoteFields>): (Id, Id) {
    (v.fields.chatId, v.fields.messageId)
  }

  /** No two votes are cast on the same (chat, message) pair. */
  ghost predicate OneVotePerPair(votes: Table<VoteFields>) {
    forall i, j :: 0 <= i < j < |votes| ==> Pair(votes[i]) != Pair(votes[j])
  }

  /** Two different votes of a table with one vote per pair are on different pairs. */
  lemma DistinctVotesDistinctPairs(votes: Table<VoteFields>, a: Row<VoteFields>, b: Row<VoteFields>)
    requires OneVotePerPair(votes) && a in votes && b in votes && a != b
    ensures Pair(a) != Pair(b)
  {
    var p :| 0 <= p < |votes| && votes[p] == a;
    var q :| 0 <= q < |votes| && votes[q] == b;
  }

  /** In a table with one vote per pair, selecting a pair finds at most one vote. */
  lemma AtMostOneVoteOnPair(votes: Table<VoteFields>, c: Id, m: Id)
    requires Chronological(votes) && OneVotePerPair(votes)
    ensures |VotesOn(votes, c, m)| <= 1
  {
    var r := VotesOn(votes, c, m);
    if |r| >= 2 {
      LeadingRows(r);
      DistinctVotesDistinctPairs(votes, r[0], r[1]);
    }
  }

  /** Two votes on one pair are both found when selecting that pair. */
  lemma TwoVotesOnPair(votes: Table<VoteFields>, i: nat, j: nat)
    requires Chronological(votes) && i < j < |votes| && Pair(votes[i]) == Pair(votes[j])
    ensures |VotesOn(votes, votes[i].fields.chatId, votes[i].fields.messageId)| >= 2
  {
    var r := VotesOn(votes, votes[i].fields.chatId, votes[i].fields.messageId);
    assert votes[i] in r && votes[j] in r;
    var p :| 0 <= p < |r| && r[p] == votes[i];
    var q :| 0 <= q < |r| && r[q] == votes[j];
    assert p != q;
  }

  /** One vote per pair means exactly that selecting any pair finds at most one vote. */
  lemma OneVotePerPairMeaning(votes: Table<VoteFields>)
    requires Chronological(votes)
    ensures OneVotePerPair(votes) <==> forall c, m :: |VotesOn(votes, c, m)| <= 1
  {
    if OneVotePerPair(votes) {
      forall c, m ensures |VotesOn(votes, c, m)| <= 1 {
        AtMostOneVoteOnPair(votes, c, m);
      }
    } else {
      var i, j :| 0 <= i < j < |votes| && Pair(votes[i]) == Pair(votes[j]);
      TwoVotesOnPair(votes, i, j);
    }
  }

  /** The vote row after `ctx.db.patch(id, { isUpvoted: up })`. */
  function Upvoted(v: Row<VoteFields>, up: bool): Row<VoteFields> {
    v.(fields := v.fields.(isUpvoted := up))
  }

  /** The votes table after `ctx.db.patch(id, { isUpvoted: up })`: only the row with
      that id changes, and only in its flag. */
  function PatchVote(votes: Table<VoteFields>, id: Id, up: bool): (r: Table<VoteFields>)
    ensures |r| == |votes|
    ensures forall i :: 0 <= i < |votes| ==> r[i] == if votes[i].id == id then Upvoted(votes[i], up) else votes[i]
    decreases |votes|
  {
    if |votes| == 0 then []
    else [if votes[0].id == id then Upvoted(votes[0], up) else votes[0]] + PatchVote(votes[1..], id, up)
  }

  /** The votes table after `voteMessage`: the first vote on the pair is patched if
      there is one; otherwise a vote row stamped `freshId`, `now` is inserted. */
  function VoteUpsert(votes: Table<VoteFields>, chatId: Id, messageId: Id, up: bool, freshId: Id, now: int): Table<VoteFields> {
    var existing := VotesOn(votes, chatId, messageId);
    if |existing| > 0 then PatchVote(votes, existing[0].id, up)
    else votes + [Row(freshId, now, VoteFields(chatId, messageId, up))]
  }

  /** Patching a vote and then selecting a pair is selecting and then patching. */
  lemma {:induction false} PatchThenSelect(votes: Table<VoteFields>, id: Id, up: bool, chatId: Id, messageId: Id)
    ensures VotesOn(PatchVote(votes, id, up), chatId, messageId) == PatchVote(VotesOn(votes, chatId, messageId), id, up)
    decreases |votes|
  {
    if |votes| > 0 {
      PatchThenSelect(votes[1..], id, up, chatId, messageId);
      assert PatchVote(votes, id, up)[1..] == PatchVote(votes[1..], id, up);
    }
  }

  /** Patching an id no row carries changes nothing. */
  lemma {:induction false} PatchAbsent(votes: Table<VoteFields>, id: Id, up: bool)
    requires forall v :: v in votes ==> v.id != id
    ensures PatchVote(votes, id, up) == votes
    decreases |votes|
  {
    if |votes| > 0 {
      assert votes[0] in votes;
      PatchAbsent(votes[1..], id, up);
    }
  }

  /** A patch changes no id and no creation time, so the table stays well formed. */
  lemma PatchKeepsWellFormed(votes: Table<VoteFields>, id: Id, up: bool, nextId: Id, clock: int)
    requires WellFormed(votes, nextId, clock)
    ensures WellFormed(PatchVote(votes, id, up), nextId, clock)
  {
    SameStampsWellFormed(votes, PatchVote(votes, id, up), nextId, clock);
  }

  /** An existing vote on the pair: the first one is patched to the new flag, the
      rest of the table keeps its ids, times and fields, and no row is inserted. */
  lemma UpsertPatchesFirst(votes: Table<VoteFields>, chatId: Id, messageId: Id, up: bool, freshId: Id, now: int)
    requires Chronological(votes)
    requires VotesOn(votes, chatId, messageId) != []
    ensures var before := VotesOn(votes, chatId, messageId);
            var after := VoteUpsert(votes, chatId, messageId, up, freshId, now);
            && |after| == |votes|
            && (forall i :: 0 <= i < |votes| ==> after[i].id == votes[i].id && after[i].creationTime == votes[i].creationTime)
            && VotesOn(after, chatId, messageId) == [Upvoted(before[0], up)] + before[1..]
  {
    var before := VotesOn(votes, chatId, messageId);
    var first := before[0];
    PatchThenSelect(votes, first.id, up, chatId, messageId);
    var patched := PatchVote(before, first.id, up);
    assert patched == [Upvoted(first, up)] + before[1..] by {
      forall i | 1 <= i < |before| ensures patched[i] == before[i] {
        assert before[0].id != before[i].id;
      }
    }
  }

  /** No vote on the pair yet: exactly one row is appended, carrying the flag. */
  lemma UpsertInsertsOne(votes: Table<VoteFields>, chatId: Id, messageId: Id, up: bool, freshId: Id, now: int)
    requires VotesOn(votes, chatId, messageId) == []
    ensures var after := VoteUpsert(votes, chatId, messageId, up, freshId, now);
            && after == votes + [Row(freshId, now, VoteFields(chatId, messageId, up))]
            && VotesOn(after, chatId, messageId) == [Row(freshId, now, VoteFields(chatId, messageId, up))]
  {
    var row := Row(freshId, now, VoteFields(chatId, messageId, up));
    FilterAppend(votes, [row], VoteOnMessage(chatId, messageId));
  }

  /** In a table with one vote per pair, after voting the pair carries exactly one
      vote, holding the new flag. */
  lemma UpsertLeavesOneVote(votes: Table<VoteFields>, chatId: Id, messageId: Id, up: bool, freshId: Id, now: int)
    requires Chronological(votes) && OneVotePerPair(votes)
    ensures var pair := VotesOn(VoteUpsert(votes, chatId, messageId, up, freshId, now), chatId, messageId);
            |pair| == 1 && pair[0].fields == VoteFields(chatId, messageId, up)
  {
    var before := VotesOn(votes, chatId, messageId);
    if before == [] {
      UpsertInsertsOne(votes, chatId, messageId, up, freshId, now);
    } else {
      AtMostOneVoteOnPair(votes, chatId, messageId);
      UpsertPatchesFirst(votes, chatId, messageId, up, freshId, now);
      assert before[0] in before;
    }
  }

  /** A vote never changes the votes on any other (chat, message) pair. */
  lemma UpsertLeavesOtherPairs(votes: Table<VoteFields>, chatId: Id, messageId: Id, up: bool, freshId: Id, now: int,
                               otherChat: Id, otherMessage: Id)
    requires Chronological(votes)
    requires otherChat != chatId || otherMessage != messageId
    ensures VotesOn(VoteUpsert(votes, chatId, messageId, up, freshId, now), otherChat, otherMessage)
         == VotesOn(votes, otherChat, otherMessage)
  {
    var existing := VotesOn(votes, chatId, messageId);
    var others := VotesOn(votes, otherChat, otherMessage);
    if |existing| > 0 {
      var first := existing[0];
      assert first in existing;
      forall v | v in others ensures v.id != first.id {
        if v.id == first.id {
          SameIdSameRow(votes, v, first);
        }
      }
      PatchThenSelect(votes, first.id, up, otherChat, otherMessage);
      PatchAbsent(others, first.id, up);
    } else {
      FilterAppend(votes, [Row(freshId, now, VoteFields(chatId, messageId, up))], VoteOnMessage(otherChat, otherMessage));
    }
  }

  /** Voting twice on a fresh pair leaves exactly one row for it, carrying the second flag. */
  lemma VoteTwice(votes: Table<VoteFields>, chatId: Id, messageId: Id, first: bool, second: bool, freshId: Id, now: int)
    requires forall v :: v in votes ==> v.id != freshId
    requires VotesOn(votes, chatId, messageId) == []
    ensures var once := VoteUpsert(votes, chatId, messageId, first, freshId, now);
            var twice := VoteUpsert(once, chatId, messageId, second, freshId + 1, now + 1);
            && |twice| == |votes| + 1
            && VotesOn(twice, chatId, messageId) == [Row(freshId, now, VoteFields(chatId, messageId, second))]
  {
    var row := Row(freshId, now, VoteFields(chatId, messageId, first));
    UpsertInsertsOne(votes, chatId, messageId, first, freshId, now);
    var once := votes + [row];
    PatchThenSelect(once, freshId, second, chatId, messageId);
  }

  /** Voting keeps at most one vote per (chat, message) pair: upsert is what makes votes unique. */
  lemma UpsertKeepsOneVotePerPair(votes: Table<VoteFields>, chatId: Id, messageId: Id, up: bool, freshId: Id, now: int)
    requires OneVotePerPair(votes)
    ensures OneVotePerPair(VoteUpsert(votes, chatId, messageId, up, freshId, now))
  {
    var existing := VotesOn(votes, chatId, messageId);
    var after := VoteUpsert(votes, chatId, messageId, up, freshId, now);
    if |existing| > 0 {
      forall i, j | 0 <= i < j < |after| ensures Pair(after[i]) != Pair(after[j]) {
        assert Pair(after[i]) == Pair(votes[i]) && Pair(after[j]) == Pair(votes[j]);
      }
    } else {
      forall i, j | 0 <= i < j < |after| ensures Pair(after[i]) != Pair(after[j]) {
        if j == |votes| {
          assert votes[i] in votes;
        }
      }
    }
  }

  // ---------------------------------------------------------------------------
  // deleteChatById

  /** After the cascade no vote and no message of the chat is left, and every
      other chat's votes and messages read back exactly as before. */
  lemma CascadeScope(votes: Table<VoteFields>, messages: Table<MessageFields>, id: Id, other: Id)
    requires other != id
    ensures GetVotesByChatId(Reject(votes, VoteInChat(id)), id) == []
    ensures GetMessagesByChatId(Reject(messages, MessageInChat(id)), id) == []
    ensures GetVotesByChatId(Reject(votes, VoteInChat(id)), other) == GetVotesByChatId(votes, other)
    ensures GetMessagesByChatId(Reject(messages, MessageInChat(id)), other) == GetMessagesByChatId(messages, other)
  {
    LeadingRows(GetVotesByChatId(Reject(votes, VoteInChat(id)), id));
    LeadingRows(GetMessagesByChatId(Reject(messages, MessageInChat(id)), id));
    FilterAfterReject(votes, VoteInChat(id), VoteInChat(other));
    FilterAfterReject(messages, MessageInChat(id), MessageInChat(other));
  }

  /** The cascade keeps at most one vote per (chat, message) pair. */
  lemma CascadeKeepsOneVotePerPair(votes: Table<VoteFields>, id: Id)
    requires Chronological(votes) && OneVotePerPair(votes)
    ensures OneVotePerPair(Reject(votes, VoteInChat(id)))
  {
    var after := Reject(votes, VoteInChat(id));
    forall i, j | 0 <= i < j < |after| ensures Pair(after[i]) != Pair(after[j]) {
      assert after[i] in after && after[j] in after;
      DistinctVotesDistinctPairs(votes, after[i], after[j]);
    }
  }

  // ---------------------------------------------------------------------------
  // deleteDocumentsByIdAfterTimestamp

  /** The rewind matches documents by `_id`, so it removes at most one document row. */
  lemma RewindRemovesAtMostOneDocument(documents: Table<DocumentFields>, id: Id, timestamp: int)
    requires Chronological(documents)
    ensures |Reject(documents, DocumentAfter(id, timestamp))| >= |documents| - 1
  {
    var doomed := Filter(documents, DocumentAfter(id, timestamp));
    FilterRejectSplit(documents, DocumentAfter(id, timestamp));
    LeadingRows(doomed);
  }

  /** Every `saveDocument` row has its own `_id`, so rewinding a saved row's id to
      its own creation time, or to any later time, removes no document at all. */
  lemma RewindKeepsEveryDocument(documents: Table<DocumentFields>, saved: Row<DocumentFields>, timestamp: int)
    requires Chronological(documents)
    requires saved in documents && saved.creationTime <= timestamp
    ensures Reject(documents, DocumentAfter(saved.id, timestamp)) == documents
  {
    forall d | d in documents ensures !DocumentAfter(saved.id, timestamp)(d) {
      if d.id == saved.id {
        SameIdSameRow(documents, d, saved);
      }
    }
    RejectNothing(documents, DocumentAfter(saved.id, timestamp));
  }

  // ---------------------------------------------------------------------------
  // Inserts

  /** A row inserted with the next id reads back by that id. */
  lemma InsertedReadsBack<T(!new)>(t: Table<T>, nextId: Id, clock: int, fields: T)
    requires WellFormed(t, nextId, clock) && 0 < nextId
    ensures Get(t + [Row(nextId, clock + 1, fields)], nextId) == Some(Row(nextId, clock + 1, fields))
  {
    AppendWellFormed(t, nextId, clock, fields);
    GetAt(t + [Row(nextId, clock + 1, fields)], |t|);
  }

  /** Each id a batch insert returns reads back the row of its own item. */
  lemma BatchReadsBack<T(!new)>(t: Table<T>, nextId: Id, clock: int, items: seq<T>, k: nat)
    requires WellFormed(t, nextId, clock) && 0 < nextId && k < |items|
    ensures Get(t + Stamped(items, nextId, clock + 1), nextId + k) == Some(Row(nextId + k, clock + 1 + k, items[k]))
  {
    AppendBatchWellFormed(t, nextId, clock, items);
    var u := t + Stamped(items, nextId, clock + 1);
    assert u[|t| + k] == Row(nextId + k, clock + 1 + k, items[k]);
    GetAt(u, |t| + k);
  }
}
