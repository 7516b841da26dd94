/**
 * How the write side and the read side fit together. `submitVote` never
 * checks that the option belongs to the poll named in the form, so a vote
 * keyed on one poll can name an option of another: it is then counted in
 * the other poll's tally, while the voted poll shows a vote of the viewer
 * but highlights none of its own options.
 */
module Consistency {
  import opened Wrappers
  import opened FormData
  import opened PollStore
  import opened DataAccess
  import opened PollCard
  import opened Actions

  /** The form a vote button posts: the card's hidden `pollId`, then the pressed button's `optionId`. */
  function VoteForm(pollId: string, optionId: string): (r: seq<Entry>)
    ensures Get(r, "pollId") == Some(Text(pollId))
    ensures Get(r, "optionId") == Some(Text(optionId))
  {
    assert "optionId" != "pollId";
    [Entry("pollId", Text(pollId)), Entry("optionId", Text(optionId))]
  }

  /** Any non-empty option identifier is recorded against the poll, whatever poll it belongs to. */
  lemma AnyOptionIsRecorded(t: Tables, user: string, pollId: string, optionId: string)
    requires ValidTables(t)
    requires user != "" && pollId != "" && optionId != ""
    ensures SubmitVoteStep(t, Some(user), VoteForm(pollId, optionId), false)
            == (Voted, WithVote(t, VoteKey(user, pollId), optionId))
  {
    var form := VoteForm(pollId, optionId);
  }

  /**
   * A vote on poll `p` naming option `j` of poll `q`, none of whose identifiers `p`'s options
   * share: `q`'s card counts it, `p`'s card carries the viewer's vote and highlights nothing.
   */
  lemma ForeignOptionVote(t: Tables, user: string, p: PollRow, q: PollRow, j: nat)
    requires ValidTables(t)
    requires user != "" && p.id != "" && j < |q.options| && q.options[j].id != ""
    requires forall i :: 0 <= i < |p.options| ==> p.options[i].id != q.options[j].id
    ensures var after := SubmitVoteStep(t, Some(user), VoteForm(p.id, q.options[j].id), false).1;
            var key := VoteKey(user, p.id);
            var voted := ProjectPoll(p, after.votes, after.users, user);
            && key in VotersOf(after.votes, q.options[j].id)
            && ProjectPoll(q, after.votes, after.users, user).options[j].voteCount
               == VoteCount(t.votes, q.options[j].id) + (if key in t.votes && t.votes[key] == q.options[j].id then 0 else 1)
            && UserVote(voted) == Some(VoteView(user, p.id, q.options[j].id))
            && forall i :: 0 <= i < |voted.options| ==> !IsSelected(voted.options[i], UserVote(voted))
  {
    var o := q.options[j].id;
    var key := VoteKey(user, p.id);
    AnyOptionIsRecorded(t, user, p.id, o);
    var after := WithVote(t, key, o);
    UpsertVotersGain(t.votes, key, o);
    UpsertMovesOneVote(t.votes, key, o, "");
    ViewerVoteIsStoredVote(after.votes, user, p.id);
    var voted := ProjectPoll(p, after.votes, after.users, user);
    forall i | 0 <= i < |voted.options| ensures !IsSelected(voted.options[i], UserVote(voted)) {
      HighlightAfterVote(p, t.votes, t.users, user, o, i);
    }
  }
}
