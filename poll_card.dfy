/**
 * The values a poll card derives from one projected poll: the viewer's
 * vote, the total, each option's percentage (guarded against a zero total),
 * the vote-count label, the author line and which option is highlighted.
 * Percentages are stated over the reals.
 */
module PollCard {
  import opened Wrappers
  import opened PollStore
  import opened DataAccess
  import JsString

  /** `poll.votes[0]`: the viewer's vote, or undefined when the list is empty. */
  function UserVote(poll: PollView): (r: Option<VoteView>)
    ensures r.None? <==> poll.votes == []
    ensures r.Some? ==> r.value == poll.votes[0]
  {
    if poll.votes == [] then None else Some(poll.votes[0])
  }

  /** `options.reduce((sum, option) => sum + option._count.votes, 0)`. */
  function TotalVotes(options: seq<OptionView>): (t: nat)
    ensures forall j :: 0 <= j < |options| ==> options[j].voteCount <= t
    ensures t == 0 <==> forall j :: 0 <= j < |options| ==> options[j].voteCount == 0
  {
    if options == [] then 0
    else TotalVotes(options[..|options| - 1]) + options[|options| - 1].voteCount
  }

  /** The total of two runs of options is the sum of their totals. */
  lemma {:induction false} TotalVotesConcat(a: seq<OptionView>, b: seq<OptionView>)
    ensures TotalVotes(a + b) == TotalVotes(a) + TotalVotes(b)
  {
    if b == [] {
      assert a + b == a;
    } else {
      assert (a + b)[..|a + b| - 1] == a + b[..|b| - 1];
      TotalVotesConcat(a, b[..|b| - 1]);
    }
  }

  /** `totalVotes === 0 ? 0 : (voteCount / totalVotes) * 100`. */
  function Percentage(voteCount: nat, total: nat): (r: real)
    ensures total == 0 ==> r == 0.0
    ensures voteCount <= total ==> 0.0 <= r <= 100.0
  {
    if total == 0 then 0.0 else (voteCount as real / total as real) * 100.0
  }

  /** Against a positive total, a percentage is the count scaled to 100. */
  lemma PercentageScales(voteCount: nat, total: nat)
    requires total > 0
    ensures Percentage(voteCount, total) * (total as real) == (voteCount as real) * 100.0
  {
  }

  /** The percentage of each option of a card, in option order. */
  function Percentages(options: seq<OptionView>, total: nat): (r: seq<real>)
    ensures |r| == |options|
    ensures forall j :: 0 <= j < |options| ==> r[j] == Percentage(options[j].voteCount, total)
  {
    seq(|options|, j requires 0 <= j < |options| => Percentage(options[j].voteCount, total))
  }

  function Sum(xs: seq<real>): real {
    if xs == [] then 0.0 else Sum(xs[..|xs| - 1]) + xs[|xs| - 1]
  }

  /** Percentages against one total add like the counts they stand for. */
  lemma PercentageAdds(a: nat, c: nat, total: nat)
    ensures Percentage(a, total) + Percentage(c, total) == Percentage(a + c, total)
  {
    if total > 0 {
      var t := total as real;
      assert (a as real / t) + (c as real / t) == (a + c) as real / t;
    }
  }

  /** The whole is 100%. */
  lemma PercentageOfTotal(total: nat)
    requires total > 0
    ensures Percentage(total, total) == 100.0
  {
  }

  /** Against a fixed total, the percentages of a run of options add up to the run's share. */
  lemma {:induction false} PercentagesShare(options: seq<OptionView>, total: nat)
    ensures Sum(Percentages(options, total)) == Percentage(TotalVotes(options), total)
  {
    if options != [] {
      var init := options[..|options| - 1];
      var pct := Percentages(options, total);
      assert pct[..|options| - 1] == Percentages(init, total);
      PercentagesShare(init, total);
      PercentageAdds(TotalVotes(init), options[|options| - 1].voteCount, total);
    }
  }

  /** On a card with at least one vote, the percentages add up to 100. */
  lemma PercentagesSumTo100(options: seq<OptionView>)
    requires TotalVotes(options) > 0
    ensures Sum(Percentages(options, TotalVotes(options))) == 100.0
  {
    PercentagesShare(options, TotalVotes(options));
    PercentageOfTotal(TotalVotes(options));
  }

  /** Three votes against one show as 75% and 25% of 4; no votes at all show as 0% each. */
  lemma TallyScenario()
    ensures var opts := [OptionView("A", "A", 3), OptionView("B", "B", 1)];
            TotalVotes(opts) == 4 && Percentages(opts, 4) == [75.0, 25.0]
    ensures var none := [OptionView("A", "A", 0), OptionView("B", "B", 0)];
            TotalVotes(none) == 0 && Percentages(none, 0) == [0.0, 0.0]
  {
    var opts := [OptionView("A", "A", 3), OptionView("B", "B", 1)];
    assert opts[..1] == [opts[0]];
    var none := [OptionView("A", "A", 0), OptionView("B", "B", 0)];
    assert none[..1] == [none[0]];
  }

  /** `` `${voteCount} vote${voteCount !== 1 ? "s" : ""}` ``. */
  function VoteLabel(voteCount: nat): (r: string)
    ensures |r| == |JsString.DecimalString(voteCount)| + if voteCount == 1 then 5 else 6
    ensures r[..|JsString.DecimalString(voteCount)|] == JsString.DecimalString(voteCount)
  {
    JsString.DecimalString(voteCount) + " vote" + (if voteCount != 1 then "s" else "")
  }

  /** The label reads back as the count, and its noun is singular exactly for a count of 1. */
  lemma VoteLabelParts(voteCount: nat)
    ensures var shown := VoteLabel(voteCount);
            var k := |JsString.DecimalString(voteCount)|;
            k <= |shown| && JsString.ParseDecimal(shown[..k]) == voteCount
            && shown[k..] == if voteCount == 1 then " vote" else " votes"
  {
    var shown, digits := VoteLabel(voteCount), JsString.DecimalString(voteCount);
    assert shown[..|digits|] == digits;
    JsString.ParseDecimalString(voteCount);
  }

  /** The smallest counts spelt out: zero takes the plural. */
  lemma VoteLabelExamples()
    ensures VoteLabel(0) == "0 votes" && VoteLabel(1) == "1 vote" && VoteLabel(2) == "2 votes"
  {
  }

  /** `poll.author?.name || "Anonymous"`: a missing author, or a missing or empty name, falls back. */
  function AuthorName(author: Option<AuthorView>): (r: string)
    ensures r != []
    ensures author.Some? && author.value.name.Some? && author.value.name.value != [] ==>
              r == author.value.name.value
    ensures !(author.Some? && author.value.name.Some? && author.value.name.value != []) ==>
              r == "Anonymous"
  {
    match author
    case Some(AuthorView(Some(name))) => if name != [] then name else "Anonymous"
    case _ => "Anonymous"
  }

  /** `option.id === userVoteId` with `userVoteId = userVote?.optionId`. */
  function IsSelected(option: OptionView, userVote: Option<VoteView>): (b: bool)
    ensures userVote.None? ==> !b
    ensures b <==> userVote.Some? && userVote.value.optionId == option.id
  {
    match userVote
    case None => false
    case Some(v) => option.id == v.optionId
  }

  /** On the viewer's card, an option is highlighted exactly when the viewer's stored vote names it. */
  lemma HighlightIsStoredVote(p: PollRow, votes: map<VoteKey, string>, users: map<string, UserRow>,
                              viewer: string, j: nat)
    requires j < |p.options|
    ensures var card := ProjectPoll(p, votes, users, viewer);
            var key := VoteKey(viewer, p.id);
            IsSelected(card.options[j], UserVote(card)) <==> key in votes && votes[key] == p.options[j].id
  {
    ViewerVoteIsStoredVote(votes, viewer, p.id);
  }

  /** With distinct option identifiers, no card highlights two options. */
  lemma AtMostOneHighlighted(p: PollRow, votes: map<VoteKey, string>, users: map<string, UserRow>,
                             viewer: string, i: nat, j: nat)
    requires Distinct(RowIds(p))
    requires i < |p.options| && j < |p.options|
    ensures var card := ProjectPoll(p, votes, users, viewer);
            IsSelected(card.options[i], UserVote(card)) && IsSelected(card.options[j], UserVote(card)) ==> i == j
  {
    HighlightIsStoredVote(p, votes, users, viewer, i);
    HighlightIsStoredVote(p, votes, users, viewer, j);
    assert RowIds(p)[i + 1] == p.options[i].id && RowIds(p)[j + 1] == p.options[j].id;
  }

  /** After the viewer votes for `optionId` on `p`, that option, and no other, is highlighted on p's card. */
  lemma HighlightAfterVote(p: PollRow, votes: map<VoteKey, string>, users: map<string, UserRow>,
                           viewer: string, optionId: string, j: nat)
    requires j < |p.options|
    ensures var card := ProjectPoll(p, Upsert(votes, VoteKey(viewer, p.id), optionId), users, viewer);
            IsSelected(card.options[j], UserVote(card)) <==> p.options[j].id == optionId
  {
    HighlightIsStoredVote(p, Upsert(votes, VoteKey(viewer, p.id), optionId), users, viewer, j);
  }
}
