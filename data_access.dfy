/**
 * `getPolls(viewer)`: the read projection of the store. Polls come out
 * newest first; each option carries the number of vote rows that name it;
 * each poll carries the viewer's own vote rows only. A failed query yields
 * the empty list. The projection only reads the store.
 */
module DataAccess {
  import opened Wrappers
  import opened PollStore

  datatype OptionView = OptionView(id: string, text: string, voteCount: nat)

  datatype AuthorView = AuthorView(name: Option<string>)

  datatype VoteView = VoteView(userId: string, pollId: string, optionId: string)

  datatype PollView = PollView(id: string, question: string, authorId: string, createdAt: int,
                               author: Option<AuthorView>, options: seq<OptionView>, votes: seq<VoteView>)

  predicate NewestFirst(polls: seq<PollRow>) {
    forall i, j :: 0 <= i < j < |polls| ==> polls[i].createdAt >= polls[j].createdAt
  }

  /** Puts `p` ahead of the first poll no newer than it. */
  function InsertByDate(p: PollRow, sorted: seq<PollRow>): (r: seq<PollRow>)
    ensures |r| == |sorted| + 1
    ensures r[0] == p || (sorted != [] && r[0] == sorted[0])
  {
    if sorted == [] || sorted[0].createdAt <= p.createdAt then [p] + sorted
    else [sorted[0]] + InsertByDate(p, sorted[1..])
  }

  /** Inserting into a newest-first list keeps it newest first. */
  lemma {:induction false} InsertByDateSorted(p: PollRow, sorted: seq<PollRow>)
    requires NewestFirst(sorted)
    ensures NewestFirst(InsertByDate(p, sorted))
  {
    var r := InsertByDate(p, sorted);
    if sorted == [] || sorted[0].createdAt <= p.createdAt {
      forall i, j | 0 <= i < j < |r| ensures r[i].createdAt >= r[j].createdAt {
        assert r[j] == sorted[j - 1];
        if i > 0 { assert r[i] == sorted[i - 1]; }
        else if j > 1 { assert sorted[0].createdAt >= sorted[j - 1].createdAt; }
      }
    } else {
      var tail := sorted[1..];
      forall i, j | 0 <= i < j < |tail| ensures tail[i].createdAt >= tail[j].createdAt {
        assert tail[i] == sorted[i + 1] && tail[j] == sorted[j + 1];
      }
      InsertByDateSorted(p, tail);
      var rest := InsertByDate(p, tail);
      assert r == [sorted[0]] + rest;
      assert rest[0].createdAt <= sorted[0].createdAt by {
        if rest[0] != p { assert rest[0] == sorted[1]; }
      }
      forall i, j | 0 <= i < j < |r| ensures r[i].createdAt >= r[j].createdAt {
        assert r[j] == rest[j - 1];
        if i > 0 { assert r[i] == rest[i - 1]; }
        else if j > 1 { assert rest[0].createdAt >= rest[j - 1].createdAt; }
      }
    }
  }

  /** Inserting adds exactly `p`. */
  lemma {:induction false} InsertByDatePermutes(p: PollRow, sorted: seq<PollRow>)
    ensures multiset(InsertByDate(p, sorted)) == multiset(sorted) + multiset{p}
  {
    if sorted != [] && sorted[0].createdAt > p.createdAt {
      InsertByDatePermutes(p, sorted[1..]);
      assert sorted == [sorted[0]] + sorted[1..];
    }
  }

  /** `orderBy: { createdAt: 'desc' }`; polls with equal dates keep their store order. */
  function SortByNewest(polls: seq<PollRow>): (r: seq<PollRow>)
    ensures NewestFirst(r)
    ensures multiset(r) == multiset(polls)
  {
    if polls == [] then []
    else
      var rest := SortByNewest(polls[1..]);
      InsertByDateSorted(polls[0], rest);
      InsertByDatePermutes(polls[0], rest);
      assert polls == [polls[0]] + polls[1..];
      InsertByDate(polls[0], rest)
  }

  /** The stored votes of (viewer, pollId), as rows: what the `where userId` filter keeps. */
  function MatchingRows(votes: map<VoteKey, string>, viewer: string, pollId: string): set<VoteView> {
    set k | k in votes && k.userId == viewer && k.pollId == pollId :: VoteView(k.userId, k.pollId, votes[k])
  }

  /** The poll's `votes` list restricted to the viewer; the table's key leaves at most one row. */
  function ViewerVotes(votes: map<VoteKey, string>, viewer: string, pollId: string): (r: seq<VoteView>)
    ensures |r| <= 1
    ensures forall v :: v in r <==> v in MatchingRows(votes, viewer, pollId)
  {
    var key := VoteKey(viewer, pollId);
    if key in votes then
      assert MatchingRows(votes, viewer, pollId) == {VoteView(viewer, pollId, votes[key])};
      [VoteView(viewer, pollId, votes[key])]
    else
      assert MatchingRows(votes, viewer, pollId) == {};
      []
  }

  /** One poll as the query includes it: author name, option counts and the viewer's vote. */
  function ProjectPoll(p: PollRow, votes: map<VoteKey, string>, users: map<string, UserRow>, viewer: string)
    : (v: PollView)
    ensures v.id == p.id && v.question == p.question && v.authorId == p.authorId && v.createdAt == p.createdAt
    ensures |v.options| == |p.options|
    ensures forall j :: 0 <= j < |v.options| ==>
              && v.options[j].id == p.options[j].id
              && v.options[j].text == p.options[j].text
              && v.options[j].voteCount == VoteCount(votes, p.options[j].id)
    ensures v.author.Some? <==> p.authorId in users
    ensures v.author.Some? ==> v.author.value.name == users[p.authorId].name
    ensures v.votes == ViewerVotes(votes, viewer, p.id)
  {
    PollView(p.id, p.question, p.authorId, p.createdAt,
             if p.authorId in users then Some(AuthorView(users[p.authorId].name)) else None,
             seq(|p.options|, j requires 0 <= j < |p.options| =>
               OptionView(p.options[j].id, p.options[j].text, VoteCount(votes, p.options[j].id))),
             ViewerVotes(votes, viewer, p.id))
  }

  function ProjectAll(polls: seq<PollRow>, votes: map<VoteKey, string>, users: map<string, UserRow>,
                      viewer: string): (r: seq<PollView>)
    ensures |r| == |polls|
    ensures forall i :: 0 <= i < |polls| ==> r[i] == ProjectPoll(polls[i], votes, users, viewer)
  {
    seq(|polls|, i requires 0 <= i < |polls| => ProjectPoll(polls[i], votes, users, viewer))
  }

  /** `f` applied to each element, in order. */
  function MapSeq<A, B>(f: A -> B, s: seq<A>): (r: seq<B>)
    ensures |r| == |s|
    ensures forall i :: 0 <= i < |s| ==> r[i] == f(s[i])
  {
    seq(|s|, i requires 0 <= i < |s| => f(s[i]))
  }

  /** Taking one element out of a list takes its image out of the mapped list. */
  lemma MapRemoveAt<A, B>(f: A -> B, s: seq<A>, k: nat)
    requires k < |s|
    ensures multiset(s[..k] + s[k + 1..]) == multiset(s) - multiset{s[k]}
    ensures multiset(MapSeq(f, s)) == multiset(MapSeq(f, s[..k] + s[k + 1..])) + multiset{f(s[k])}
  {
    var front, back := s[..k], s[k + 1..];
    assert s == front + [s[k]] + back;
    var m, n := MapSeq(f, s), MapSeq(f, front + back);
    assert m == n[..k] + [f(s[k])] + n[k..];
    assert n == n[..k] + n[k..];
  }

  /** Lists with the same elements, in any order, map to lists with the same elements. */
  lemma {:induction false} MapPermutes<A, B>(f: A -> B, a: seq<A>, b: seq<A>)
    requires multiset(a) == multiset(b)
    ensures multiset(MapSeq(f, a)) == multiset(MapSeq(f, b))
    decreases |a|
  {
    if a != [] {
      assert a[0] in multiset(b);
      var k :| 0 <= k < |b| && b[k] == a[0];
      MapRemoveAt(f, b, k);
      assert a == [a[0]] + a[1..];
      MapPermutes(f, a[1..], b[..k] + b[k + 1..]);
      MapPermutesStep(f, a, b, k);
    }
  }

  /** The inductive step: matching the head of `a` with an equal element of `b`. */
  lemma MapPermutesStep<A, B>(f: A -> B, a: seq<A>, b: seq<A>, k: nat)
    requires a != [] && k < |b| && b[k] == a[0]
    requires multiset(MapSeq(f, a[1..])) == multiset(MapSeq(f, b[..k] + b[k + 1..]))
    ensures multiset(MapSeq(f, a)) == multiset(MapSeq(f, b))
  {
    MapRemoveAt(f, b, k);
    assert MapSeq(f, a) == [f(a[0])] + MapSeq(f, a[1..]);
  }

  /** `getPolls(viewer)`; `fail` stands for a query that throws. */
  function GetPolls(polls: seq<PollRow>, votes: map<VoteKey, string>, users: map<string, UserRow>,
                    viewer: string, fail: bool): (r: seq<PollView>)
    ensures fail ==> r == []
    ensures !fail ==> |r| == |polls|
    ensures !fail ==> multiset(r) == multiset(ProjectAll(polls, votes, users, viewer))
    ensures !fail ==> forall i, j :: 0 <= i < j < |r| ==> r[i].createdAt >= r[j].createdAt
  {
    if fail then []
    else
      var sorted := SortByNewest(polls);
      assert |sorted| == |multiset(sorted)| == |polls|;
      var project := (p: PollRow) => ProjectPoll(p, votes, users, viewer);
      MapPermutes(project, sorted, polls);
      assert MapSeq(project, sorted) == ProjectAll(sorted, votes, users, viewer);
      assert MapSeq(project, polls) == ProjectAll(polls, votes, users, viewer);
      ProjectAll(sorted, votes, users, viewer)
  }

  /** Every stored poll is listed, and every listed poll is the projection of a stored one. */
  lemma GetPollsListsStoredPolls(polls: seq<PollRow>, votes: map<VoteKey, string>, users: map<string, UserRow>,
                                 viewer: string)
    ensures forall p :: p in polls ==> ProjectPoll(p, votes, users, viewer) in GetPolls(polls, votes, users, viewer, false)
    ensures var r := GetPolls(polls, votes, users, viewer, false);
            forall i :: 0 <= i < |r| ==> exists p :: p in polls && r[i] == ProjectPoll(p, votes, users, viewer)
  {
    var r := GetPolls(polls, votes, users, viewer, false);
    var all := ProjectAll(polls, votes, users, viewer);
    forall p | p in polls ensures ProjectPoll(p, votes, users, viewer) in r {
      var i :| 0 <= i < |polls| && polls[i] == p;
      assert all[i] in multiset(r);
    }
    forall i | 0 <= i < |r| ensures exists p :: p in polls && r[i] == ProjectPoll(p, votes, users, viewer) {
      assert r[i] in multiset(all);
      var j :| 0 <= j < |all| && all[j] == r[i];
      assert polls[j] in polls;
    }
  }

  /** A poll strictly newer than every other stored poll is listed first. */
  lemma NewestPollListedFirst(polls: seq<PollRow>, votes: map<VoteKey, string>, users: map<string, UserRow>,
                              viewer: string, p: PollRow)
    requires forall q :: q in polls ==> q.createdAt < p.createdAt
    ensures GetPolls(polls + [p], votes, users, viewer, false)[0] == ProjectPoll(p, votes, users, viewer)
  {
    var all := polls + [p];
    var sorted := SortByNewest(all);
    assert GetPolls(all, votes, users, viewer, false) == ProjectAll(sorted, votes, users, viewer);
    assert p in multiset(sorted) by { assert p in all; }
    var j :| 0 <= j < |sorted| && sorted[j] == p;
    assert sorted[0].createdAt >= p.createdAt;
    assert sorted[0] in multiset(all);
    assert sorted[0] !in polls;
    assert sorted[0] == p;
  }

  /** The viewer's vote list is exactly the stored row for (viewer, poll), when there is one. */
  lemma ViewerVoteIsStoredVote(votes: map<VoteKey, string>, viewer: string, pollId: string)
    ensures |ViewerVotes(votes, viewer, pollId)| == 1 <==> VoteKey(viewer, pollId) in votes
    ensures VoteKey(viewer, pollId) in votes ==>
              ViewerVotes(votes, viewer, pollId)[0] == VoteView(viewer, pollId, votes[VoteKey(viewer, pollId)])
  {
    var key := VoteKey(viewer, pollId);
    var r := ViewerVotes(votes, viewer, pollId);
    if key in votes {
      assert VoteView(viewer, pollId, votes[key]) in MatchingRows(votes, viewer, pollId);
    }
  }
}
