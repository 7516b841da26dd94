/**
 * The relational store behind the application, abstracted: a table of
 * polls (each with its options) and the vote table, which holds at most one
 * row per (user, poll) and is therefore a map from that pair to an option
 * identifier. Every store operation is one atomic step that either commits
 * completely or fails and leaves the store as it was.
 */
module PollStore {
  import opened Wrappers
  import JsString

  datatype OptionRow = OptionRow(id: string, text: string)

  datatype PollRow = PollRow(id: string, question: string, authorId: string, createdAt: int,
                             options: seq<OptionRow>)

  datatype UserRow = UserRow(name: Option<string>)

  /** The unique key of the vote table. */
  datatype VoteKey = VoteKey(userId: string, pollId: string)

  /** The identifier the store issues as its n-th. */
  function IdOf(n: nat): string {
    JsString.DecimalString(n)
  }

  /** The row a nested create of one poll and its options produces, numbering from `base`. */
  function NewPoll(base: nat, question: string, authorId: string, createdAt: int, texts: seq<string>)
    : (r: PollRow)
    ensures r.question == question && r.authorId == authorId && r.createdAt == createdAt
    ensures |r.options| == |texts| && forall j :: 0 <= j < |texts| ==> r.options[j].text == texts[j]
  {
    PollRow(IdOf(base), question, authorId, createdAt,
            seq(|texts|, j requires 0 <= j < |texts| => OptionRow(IdOf(base + 1 + j), texts[j])))
  }

  /** The identifiers one poll row occupies: its own and its options'. */
  function RowIds(p: PollRow): (r: seq<string>)
    ensures |r| == 1 + |p.options|
  {
    [p.id] + seq(|p.options|, j requires 0 <= j < |p.options| => p.options[j].id)
  }

  function AllIds(polls: seq<PollRow>): seq<string> {
    if polls == [] then [] else AllIds(polls[..|polls| - 1]) + RowIds(polls[|polls| - 1])
  }

  predicate Distinct(s: seq<string>) {
    forall i, j :: 0 <= i < j < |s| ==> s[i] != s[j]
  }

  /** The identifiers below `bound` are the ones issued so far; none is issued twice. */
  predicate IdsIssued(polls: seq<PollRow>, bound: nat) {
    var ids := AllIds(polls);
    Distinct(ids) && forall i :: 0 <= i < |ids| ==> JsString.ParseDecimal(ids[i]) < bound
  }

  /** A poll created with fresh identifiers keeps every identifier in the store unique. */
  lemma NewPollKeepsIdsIssued(polls: seq<PollRow>, base: nat, question: string, authorId: string,
                              createdAt: int, texts: seq<string>)
    requires IdsIssued(polls, base)
    ensures IdsIssued(polls + [NewPoll(base, question, authorId, createdAt, texts)], base + 1 + |texts|)
  {
    var p := NewPoll(base, question, authorId, createdAt, texts);
    assert (polls + [p])[..|polls|] == polls;
    var olds, news := AllIds(polls), RowIds(p);
    assert AllIds(polls + [p]) == olds + news;
    forall i | 0 <= i < |news| ensures JsString.ParseDecimal(news[i]) == base + i {
      assert news[i] == IdOf(base + i);
      JsString.ParseDecimalString(base + i);
    }
    var ids := olds + news;
    forall i, j | 0 <= i < j < |ids| ensures ids[i] != ids[j] {
      if i >= |olds| {
        assert JsString.ParseDecimal(ids[i]) == base + i - |olds|;
        assert JsString.ParseDecimal(ids[j]) == base + j - |olds|;
      } else if j >= |olds| {
        assert JsString.ParseDecimal(ids[j]) == base + j - |olds|;
      }
    }
  }

  /** The vote table after an upsert keyed on `key`: that row now names `optionId`. */
  function Upsert(votes: map<VoteKey, string>, key: VoteKey, optionId: string): (r: map<VoteKey, string>)
    ensures key in r && r[key] == optionId
    ensures forall k :: k != key ==> (k in r <==> k in votes)
    ensures forall k :: k != key && k in votes ==> r[k] == votes[k]
    ensures |r| == if key in votes then |votes| else |votes| + 1
  {
    votes[key := optionId]
  }

  /** Repeating an upsert changes nothing. */
  lemma UpsertIdempotent(votes: map<VoteKey, string>, key: VoteKey, optionId: string)
    ensures Upsert(Upsert(votes, key, optionId), key, optionId) == Upsert(votes, key, optionId)
  {
  }

  /** The voters of an option: the keys of the rows that name it. */
  function VotersOf(votes: map<VoteKey, string>, optionId: string): set<VoteKey> {
    set k | k in votes && votes[k] == optionId
  }

  /** The number of vote rows that name `optionId`: `_count.votes`. */
  function VoteCount(votes: map<VoteKey, string>, optionId: string): (n: nat)
    ensures n <= |votes|
    ensures n == 0 <==> forall k :: k in votes ==> votes[k] != optionId
  {
    VotersOfBounds(votes, optionId);
    |VotersOf(votes, optionId)|
  }

  lemma VotersOfBounds(votes: map<VoteKey, string>, optionId: string)
    ensures |VotersOf(votes, optionId)| <= |votes|
    ensures VotersOf(votes, optionId) == {} <==> forall k :: k in votes ==> votes[k] != optionId
  {
    var voters := VotersOf(votes, optionId);
    SubsetNoLarger(voters, votes.Keys);
    if !forall k :: k in votes ==> votes[k] != optionId {
      var k :| k in votes && votes[k] == optionId;
      assert k in voters;
    }
  }

  lemma {:induction false} SubsetNoLarger<T>(a: set<T>, b: set<T>)
    requires a <= b
    ensures |a| <= |b|
    decreases a
  {
    if a != {} {
      var x :| x in a;
      SubsetNoLarger(a - {x}, b - {x});
    }
  }

  /** The chosen option gains the upserted row. */
  lemma UpsertVotersGain(votes: map<VoteKey, string>, key: VoteKey, optionId: string)
    ensures VotersOf(Upsert(votes, key, optionId), optionId) == VotersOf(votes, optionId) + {key}
  {
  }

  /** Every other option loses the upserted row, if it had it. */
  lemma UpsertVotersLose(votes: map<VoteKey, string>, key: VoteKey, optionId: string, other: string)
    requires other != optionId
    ensures VotersOf(Upsert(votes, key, optionId), other) == VotersOf(votes, other) - {key}
  {
  }

  /** An upsert moves one vote: the chosen option gains it unless it had it, the previous choice loses it. */
  lemma UpsertMovesOneVote(votes: map<VoteKey, string>, key: VoteKey, optionId: string, other: string)
    requires other != optionId
    ensures VoteCount(Upsert(votes, key, optionId), optionId)
            == VoteCount(votes, optionId) + (if key in votes && votes[key] == optionId then 0 else 1)
    ensures VoteCount(Upsert(votes, key, optionId), other)
            == VoteCount(votes, other) - (if key in votes && votes[key] == other then 1 else 0)
  {
    UpsertVotersGain(votes, key, optionId);
    UpsertVotersLose(votes, key, optionId, other);
    var gain, lose := VotersOf(votes, optionId), VotersOf(votes, other);
    assert key in gain <==> key in votes && votes[key] == optionId;
    assert key in lose <==> key in votes && votes[key] == other;
    if key in gain { assert gain + {key} == gain; }
    if key !in lose { assert lose - {key} == lose; }
  }

  /** One committed vote submission. */
  datatype Ballot = Ballot(key: VoteKey, optionId: string)

  /** The vote table after committing `ballots` in order. */
  function ApplyAll(votes: map<VoteKey, string>, ballots: seq<Ballot>): map<VoteKey, string> {
    if ballots == [] then votes
    else Upsert(ApplyAll(votes, ballots[..|ballots| - 1]), ballots[|ballots| - 1].key, ballots[|ballots| - 1].optionId)
  }

  /** The option of the last ballot for `key`, if there is one. */
  function LastChoice(ballots: seq<Ballot>, key: VoteKey): Option<string> {
    if ballots == [] then None
    else if ballots[|ballots| - 1].key == key then Some(ballots[|ballots| - 1].optionId)
    else LastChoice(ballots[..|ballots| - 1], key)
  }

  /** Last write wins: after any run of submissions, a (user, poll) pair holds the option it was last given. */
  lemma {:induction false} ApplyAllLastWins(votes: map<VoteKey, string>, ballots: seq<Ballot>, key: VoteKey)
    ensures key in ApplyAll(votes, ballots) <==> key in votes || LastChoice(ballots, key).Some?
    ensures LastChoice(ballots, key).Some? ==> ApplyAll(votes, ballots)[key] == LastChoice(ballots, key).value
    ensures LastChoice(ballots, key).None? && key in votes ==> ApplyAll(votes, ballots)[key] == votes[key]
  {
    if ballots != [] {
      ApplyAllLastWins(votes, ballots[..|ballots| - 1], key);
    }
  }

  /** The contents of the store. `nextId` numbers the identifiers it issues. */
  datatype Tables = Tables(polls: seq<PollRow>, votes: map<VoteKey, string>, users: map<string, UserRow>,
                           nextId: nat)

  /** The store's standing invariant: every identifier was issued once; none is issued twice. */
  predicate ValidTables(t: Tables) {
    IdsIssued(t.polls, t.nextId)
  }

  /** The tables after a committed nested create of one poll with one option per text. */
  function WithPoll(t: Tables, question: string, authorId: string, texts: seq<string>, createdAt: int)
    : (r: Tables)
    requires ValidTables(t)
    ensures ValidTables(r)
    ensures r.polls == t.polls + [NewPoll(t.nextId, question, authorId, createdAt, texts)]
    ensures r.votes == t.votes && r.users == t.users
  {
    NewPollKeepsIdsIssued(t.polls, t.nextId, question, authorId, createdAt, texts);
    t.(polls := t.polls + [NewPoll(t.nextId, question, authorId, createdAt, texts)],
       nextId := t.nextId + 1 + |texts|)
  }

  /** The tables after a committed upsert of the vote row `key`. */
  function WithVote(t: Tables, key: VoteKey, optionId: string): (r: Tables)
    ensures r.votes == Upsert(t.votes, key, optionId)
    ensures r.polls == t.polls && r.users == t.users && r.nextId == t.nextId
  {
    t.(votes := Upsert(t.votes, key, optionId))
  }

  /** The store. The clock and store failures come from outside. */
  class Db {
    var polls: seq<PollRow>
    var votes: map<VoteKey, string>
    var users: map<string, UserRow>
    var nextId: nat

    function Contents(): Tables
      reads this
    {
      Tables(polls, votes, users, nextId)
    }

    predicate Valid()
      reads this
    {
      ValidTables(Contents())
    }

    constructor (users: map<string, UserRow>)
      ensures Valid()
      ensures Contents() == Tables([], map[], users, 0)
    {
      this.polls := [];
      this.votes := map[];
      this.users := users;
      this.nextId := 0;
    }

    /** `db.poll.create` with nested options: one poll and all its options, or nothing. */
    method CreatePoll(question: string, authorId: string, texts: seq<string>, createdAt: int, fail: bool)
      returns (ok: bool)
      requires Valid()
      modifies this
      ensures Valid()
      ensures ok == !fail
      ensures Contents() == if ok then WithPoll(old(Contents()), question, authorId, texts, createdAt)
                            else old(Contents())
    {
      ok := !fail;
      if ok {
        var t := WithPoll(Contents(), question, authorId, texts, createdAt);
        polls, nextId := t.polls, t.nextId;
      }
    }

    /** `db.vote.upsert` keyed on (userId, pollId): create the row, or overwrite its option. */
    method UpsertVote(key: VoteKey, optionId: string, fail: bool) returns (ok: bool)
      requires Valid()
      modifies this
      ensures Valid()
      ensures ok == !fail
      ensures Contents() == if ok then WithVote(old(Contents()), key, optionId) else old(Contents())
    {
      ok := !fail;
      if ok {
        votes := Upsert(votes, key, optionId);
      }
    }
  }
}
