/**
 * The two server actions. `createPoll` checks the session, drops blank
 * option fields, validates, then creates the poll and its options in one
 * atomic store call. `submitVote` checks the session and the two
 * identifiers, then upserts the vote row keyed on (user, poll). Each stage
 * has its own outcome, and every failure leaves the store as it was.
 * `revalidatePath` is recorded as an entry in a log of refreshed paths.
 */
module Actions {
  import opened Wrappers
  import opened FormData
  import JsString
  import opened Definitions
  import opened PollStore

  const LoginToCreate := "You must be logged in to create a poll."
  const CreateFailed := "Database Error: Failed to create poll."
  const LoginToVote := "You must be logged in to vote."
  const InvalidVoteForm := "Invalid form data. Poll ID and Option ID are required."
  const VoteFailed := "Database Error: Failed to submit vote."
  const Home := "/"

  /** `session?.user?.id` as `auth()` resolves it; an empty identifier is falsy and counts as none. */
  function SessionUser(session: Option<string>): (r: Option<string>)
    ensures r.Some? <==> session.Some? && session.value != ""
    ensures r.Some? ==> r == session
  {
    if session.Some? && session.value != "" then session else None
  }

  /** `.map(String)` over form values. */
  function AsText(values: seq<FormValue>): (r: seq<string>)
    ensures |r| == |values|
    ensures forall i :: 0 <= i < |values| ==> r[i] == Stringify(values[i])
  {
    seq(|values|, i requires 0 <= i < |values| => Stringify(values[i]))
  }

  /** `option.trim().length > 0`: the option has a character that `trim` keeps. */
  function HasText(s: string): (b: bool)
    ensures b <==> !JsString.IsBlank(s)
  {
    JsString.TrimEmptyIffBlank(s);
    |JsString.Trim(s)| > 0
  }

  /** `.filter(option => option.trim().length > 0)`: keeps the other strings untouched, in order. */
  function DropBlank(texts: seq<string>): (r: seq<string>)
    ensures |r| <= |texts|
    ensures forall s :: s in r <==> s in texts && HasText(s)
    ensures (forall i :: 0 <= i < |texts| ==> HasText(texts[i])) ==> r == texts
  {
    if texts == [] then []
    else
      var rest := DropBlank(texts[1..]);
      assert texts == [texts[0]] + texts[1..];
      if HasText(texts[0]) then [texts[0]] + rest else rest
  }

  /** A string survives the filter exactly when some character of it is not white space. */
  lemma DropBlankKeepsNonBlank(texts: seq<string>)
    ensures forall s :: s in DropBlank(texts) <==> s in texts && !JsString.IsBlank(s)
  {
    forall s | s in texts {
      JsString.TrimEmptyIffBlank(s);
    }
  }

  /** Dropping blanks from a concatenation drops them from each part: the kept order is the submitted order. */
  lemma {:induction false} DropBlankConcat(a: seq<string>, b: seq<string>)
    ensures DropBlank(a + b) == DropBlank(a) + DropBlank(b)
  {
    if a == [] {
      assert a + b == b;
    } else {
      assert (a + b)[0] == a[0] && (a + b)[1..] == a[1..] + b;
      DropBlankConcat(a[1..], b);
    }
  }

  /** Dropping blanks twice is dropping them once. */
  lemma DropBlankIdempotent(texts: seq<string>)
    ensures DropBlank(DropBlank(texts)) == DropBlank(texts)
  {
    var r := DropBlank(texts);
    assert forall i :: 0 <= i < |r| ==> HasText(r[i]) by {
      forall i | 0 <= i < |r| ensures HasText(r[i]) {
        assert r[i] in r;
      }
    }
  }

  /** The option texts handed to validation: the submitted `option` fields that are not blank. */
  function SubmittedOptions(form: seq<Entry>): (r: seq<string>)
    ensures |r| <= |GetAll(form, "option")|
    ensures forall s :: s in r <==> s in AsText(GetAll(form, "option")) && HasText(s)
  {
    DropBlank(AsText(GetAll(form, "option")))
  }

  /**
   * Option texts reach validation as submitted, untrimmed: a non-blank field is kept verbatim,
   * a blank one is dropped, an uploaded file becomes "[object File]", and other fields are ignored.
   */
  lemma SubmittedOptionsKeepText(kept: string, blank: string, question: string)
    requires HasText(kept) && !HasText(blank)
    ensures SubmittedOptions([Entry("option", Text(kept)), Entry("option", Text(blank)),
                              Entry("question", Text(question)), Entry("option", Upload)])
            == [kept, FileText]
  {
    OptionFieldsOf(kept, blank, question);
    KeptText(FileText, 0);
    DropBlankOfThree(kept, blank, FileText);
  }

  lemma OptionFieldsOf(kept: string, blank: string, question: string)
    ensures AsText(GetAll([Entry("option", Text(kept)), Entry("option", Text(blank)),
                           Entry("question", Text(question)), Entry("option", Upload)], "option"))
            == [kept, blank, FileText]
  {
    var form := [Entry("option", Text(kept)), Entry("option", Text(blank)),
                 Entry("question", Text(question)), Entry("option", Upload)];
    assert "question" != "option";
    assert GetAll(form[3..], "option") == [Upload];
    assert GetAll(form[2..], "option") == [Upload];
    assert GetAll(form, "option") == [Text(kept), Text(blank), Upload];
  }

  lemma DropBlankOfThree(a: string, b: string, c: string)
    requires HasText(a) && !HasText(b) && HasText(c)
    ensures DropBlank([a, b, c]) == [a, c]
  {
    DropBlankConcat([a], [b, c]);
    DropBlankConcat([b], [c]);
    assert [a, b, c] == [a] + [b, c] && [b, c] == [b] + [c];
    assert DropBlank([a]) == [a];
    assert DropBlank([b]) == [];
    assert DropBlank([c]) == [c];
  }

  lemma KeptText(s: string, i: nat)
    requires i < |s| && !JsString.IsTrimmable(s[i])
    ensures HasText(s)
  {
    JsString.TrimEmptyIffBlank(s);
  }

  /** After the blank filter the per-option rule can never fire: only the count rule remains. */
  lemma SubmittedOptionsNeverEmpty(form: seq<Entry>)
    ensures Broken(OptionMinLength) !in OptionIssues(SubmittedOptions(form))
    ensures OptionIssues(SubmittedOptions(form)) == [] <==> |SubmittedOptions(form)| >= MinOptionCount
  {
    var opts := SubmittedOptions(form);
    forall i | 0 <= i < |opts| ensures opts[i] != [] {
      assert opts[i] in opts;
      assert HasText(opts[i]);
    }
  }

  /** What `createPoll` returns: a form-level error, the field errors, or the redirect home. */
  datatype CreatePollResult = FormError(message: string) | Invalid(errors: FieldErrors) | Redirect(path: string)

  /** How `submitVote` ends: normally, or by throwing. */
  datatype VoteOutcome = Voted | Thrown(message: string)

  /** Where `revalidatePath` calls are recorded. */
  class RouteCache {
    var revalidated: seq<string>

    constructor ()
      ensures revalidated == []
    {
      revalidated := [];
    }

    method RevalidatePath(path: string)
      modifies this
      ensures revalidated == old(revalidated) + [path]
    {
      revalidated := revalidated + [path];
    }
  }

  /** The question text `createPoll` validates, and the option texts it hands to validation. */
  function ParseForm(form: seq<Entry>): (r: Parsed)
    ensures r.Success? <==> QuestionIssues(Get(form, "question")) == [] && |SubmittedOptions(form)| >= MinOptionCount
    ensures r.Success? ==> Get(form, "question") == Some(Text(r.question)) && r.options == SubmittedOptions(form)
    ensures r.Failure? ==> r.errors.question == QuestionIssues(Get(form, "question"))
                           && r.errors.options == (if |SubmittedOptions(form)| < MinOptionCount then [Broken(OptionsMinCount)] else [])
  {
    SubmittedOptionsNeverEmpty(form);
    SafeParse(Get(form, "question"), SubmittedOptions(form))
  }

  /**
   * `createPoll` on store contents `t`: what it returns and what the store holds afterwards.
   * The session is checked before anything else, validation before any store call, and only
   * a committed create changes the store.
   */
  function CreatePollStep(t: Tables, session: Option<string>, form: seq<Entry>, now: int, fail: bool)
    : (r: (CreatePollResult, Tables))
    requires ValidTables(t)
    ensures ValidTables(r.1)
    ensures SessionUser(session).None? ==> r == (FormError(LoginToCreate), t)
    ensures !r.0.Redirect? ==> r.1 == t
    ensures r.0.Invalid? <==> SessionUser(session).Some? && ParseForm(form).Failure?
    ensures r.0.Invalid? ==> r.0.errors == ParseForm(form).errors
    ensures r.0 == FormError(CreateFailed) <==> SessionUser(session).Some? && ParseForm(form).Success? && fail
    ensures r.0.Redirect? <==> SessionUser(session).Some? && ParseForm(form).Success? && !fail
    ensures r.0.Redirect? ==> r.0.path == Home
                              && r.1 == WithPoll(t, ParseForm(form).question, SessionUser(session).value,
                                                 SubmittedOptions(form), now)
  {
    var user := SessionUser(session);
    if user.None? then (FormError(LoginToCreate), t)
    else
      var parsed := ParseForm(form);
      if parsed.Failure? then (Invalid(parsed.errors), t)
      else if fail then (FormError(CreateFailed), t)
      else (Redirect(Home), WithPoll(t, parsed.question, user.value, parsed.options, now))
  }

  /**
   * A successful `createPoll` appends exactly one poll, authored by the session's user, with
   * the validated question and one option per submitted non-blank option text, in order;
   * votes and users are untouched.
   */
  lemma CreatePollAddsOnePoll(t: Tables, session: Option<string>, form: seq<Entry>, now: int)
    requires ValidTables(t)
    requires CreatePollStep(t, session, form, now, false).0.Redirect?
    ensures var after := CreatePollStep(t, session, form, now, false).1;
            var texts := SubmittedOptions(form);
            && |after.polls| == |t.polls| + 1
            && after.polls[..|t.polls|] == t.polls
            && after.polls[|t.polls|].authorId == SessionUser(session).value
            && after.polls[|t.polls|].createdAt == now
            && Get(form, "question") == Some(Text(after.polls[|t.polls|].question))
            && |after.polls[|t.polls|].options| == |texts|
            && (forall j :: 0 <= j < |texts| ==> after.polls[|t.polls|].options[j].text == texts[j])
            && after.votes == t.votes && after.users == t.users
  {
    var after := CreatePollStep(t, session, form, now, false).1;
    var texts := SubmittedOptions(form);
    var parsed := ParseForm(form);
    assert after == WithPoll(t, parsed.question, SessionUser(session).value, texts, now);
    var p := NewPoll(t.nextId, parsed.question, SessionUser(session).value, now, texts);
    assert after.polls == t.polls + [p];
    assert after.polls[|t.polls|] == p;
    assert after.polls[..|t.polls|] == t.polls;
  }

  /** The identifiers of a created poll and of its options were not in use before. */
  lemma CreatedIdsAreFresh(t: Tables, session: Option<string>, form: seq<Entry>, now: int)
    requires ValidTables(t)
    requires CreatePollStep(t, session, form, now, false).0.Redirect?
    ensures var after := CreatePollStep(t, session, form, now, false).1;
            forall id :: id in RowIds(after.polls[|t.polls|]) ==> id !in AllIds(t.polls)
  {
    var after := CreatePollStep(t, session, form, now, false).1;
    FreshRowIds(t.polls, after.polls, after.polls[|t.polls|]);
  }

  lemma FreshRowIds(before: seq<PollRow>, after: seq<PollRow>, p: PollRow)
    requires after == before + [p]
    requires Distinct(AllIds(after))
    ensures forall id :: id in RowIds(p) ==> id !in AllIds(before)
  {
    assert AllIds(after) == AllIds(before) + RowIds(p) by {
      assert after[..|after| - 1] == before;
    }
    var olds := AllIds(before);
    forall id | id in RowIds(p) ensures id !in olds {
      var k :| 0 <= k < |RowIds(p)| && RowIds(p)[k] == id;
      assert AllIds(after)[|olds| + k] == id;
      forall i | 0 <= i < |olds| ensures olds[i] != id {
        assert AllIds(after)[i] == olds[i];
      }
    }
  }

  /** Validation failures reach the caller as field errors, and the blank filter leaves only the count rule. */
  lemma CreatePollTooFewOptions(t: Tables, session: Option<string>, form: seq<Entry>, now: int, fail: bool)
    requires ValidTables(t) && SessionUser(session).Some?
    requires |SubmittedOptions(form)| < MinOptionCount
    ensures CreatePollStep(t, session, form, now, fail).1 == t
    ensures CreatePollStep(t, session, form, now, fail).0
            == Invalid(FieldErrors(QuestionIssues(Get(form, "question")), [Broken(OptionsMinCount)]))
  {
    SubmittedOptionsNeverEmpty(form);
    var o := OptionIssues(SubmittedOptions(form));
    assert o == [Broken(OptionsMinCount)] + ShortOptionIssues(SubmittedOptions(form));
  }

  /** `createPoll(prevState, formData)`; `now` is the store's clock, `fail` a store call that throws. */
  method CreatePoll(db: Db, cache: RouteCache, session: Option<string>, form: seq<Entry>, now: int, fail: bool)
    returns (r: CreatePollResult)
    requires db.Valid()
    modifies db, cache
    ensures db.Valid()
    ensures (r, db.Contents()) == CreatePollStep(old(db.Contents()), session, form, now, fail)
    ensures cache.revalidated == old(cache.revalidated) + if r.Redirect? then [Home] else []
  {
    ghost var before := db.Contents();
    ghost var step := CreatePollStep(before, session, form, now, fail);
    var user := SessionUser(session);
    if user.None? {
      return FormError(LoginToCreate);
    }
    var parsed := ParseForm(form);
    if parsed.Failure? {
      assert step == (Invalid(parsed.errors), before);
      return Invalid(parsed.errors);
    }
    var ok := db.CreatePoll(parsed.question, user.value, parsed.options, now, fail);
    if !ok {
      assert step == (FormError(CreateFailed), before);
      return FormError(CreateFailed);
    }
    assert step == (Redirect(Home), db.Contents());
    cache.RevalidatePath(Home);
    r := Redirect(Home);
  }

  /** The identifier checks of `submitVote`: present, a string, and not empty. */
  function FormId(v: Option<FormValue>): (r: Option<string>)
    ensures r.Some? <==> v.Some? && v.value.Text? && v.value.text != ""
    ensures r.Some? ==> v == Some(Text(r.value))
  {
    match v
    case Some(Text(s)) => if s != "" then Some(s) else None
    case _ => None
  }

  /**
   * `submitVote` on store contents `t`. The session is checked first, then both identifiers,
   * and only then is the vote row for (user, poll) upserted. Whether the option belongs to the
   * poll is not checked. Every thrown error leaves the store as it was.
   */
  function SubmitVoteStep(t: Tables, session: Option<string>, form: seq<Entry>, fail: bool)
    : (r: (VoteOutcome, Tables))
    requires ValidTables(t)
    ensures ValidTables(r.1)
    ensures SessionUser(session).None? ==> r == (Thrown(LoginToVote), t)
    ensures r.0.Thrown? ==> r.1 == t
    ensures r.0 == Thrown(InvalidVoteForm) <==>
              SessionUser(session).Some? && (FormId(Get(form, "pollId")).None? || FormId(Get(form, "optionId")).None?)
    ensures r.0 == Thrown(VoteFailed) <==>
              SessionUser(session).Some? && FormId(Get(form, "pollId")).Some? && FormId(Get(form, "optionId")).Some? && fail
    ensures r.0 == Voted <==>
              SessionUser(session).Some? && FormId(Get(form, "pollId")).Some? && FormId(Get(form, "optionId")).Some? && !fail
    ensures r.0 == Voted ==>
              r.1 == WithVote(t, VoteKey(SessionUser(session).value, FormId(Get(form, "pollId")).value),
                              FormId(Get(form, "optionId")).value)
  {
    var user := SessionUser(session);
    if user.None? then (Thrown(LoginToVote), t)
    else
      var pollId, optionId := FormId(Get(form, "pollId")), FormId(Get(form, "optionId"));
      if pollId.None? || optionId.None? then (Thrown(InvalidVoteForm), t)
      else if fail then (Thrown(VoteFailed), t)
      else (Voted, WithVote(t, VoteKey(user.value, pollId.value), optionId.value))
  }

  /**
   * After a successful vote the (user, poll) pair holds exactly the submitted option, every
   * other pair is as before, and submitting the same form again changes nothing.
   */
  lemma SubmitVoteReplacesOnlyItsRow(t: Tables, session: Option<string>, form: seq<Entry>)
    requires ValidTables(t)
    requires SubmitVoteStep(t, session, form, false).0 == Voted
    ensures var after := SubmitVoteStep(t, session, form, false).1;
            var key := VoteKey(SessionUser(session).value, Get(form, "pollId").value.text);
            && key in after.votes && after.votes[key] == Get(form, "optionId").value.text
            && (forall k :: k != key ==> (k in after.votes <==> k in t.votes))
            && (forall k :: k != key && k in t.votes ==> after.votes[k] == t.votes[k])
            && SubmitVoteStep(after, session, form, false) == (Voted, after)
  {
    var after := SubmitVoteStep(t, session, form, false).1;
    var key := VoteKey(SessionUser(session).value, FormId(Get(form, "pollId")).value);
    UpsertIdempotent(t.votes, key, FormId(Get(form, "optionId")).value);
  }

  /** `submitVote(formData)`; `fail` stands for an upsert that throws. */
  method SubmitVote(db: Db, cache: RouteCache, session: Option<string>, form: seq<Entry>, fail: bool)
    returns (r: VoteOutcome)
    requires db.Valid()
    modifies db, cache
    ensures db.Valid()
    ensures (r, db.Contents()) == SubmitVoteStep(old(db.Contents()), session, form, fail)
    ensures cache.revalidated == old(cache.revalidated) + if r == Voted then [Home] else []
  {
    var user := SessionUser(session);
    if user.None? {
      return Thrown(LoginToVote);
    }
    var pollId := FormId(Get(form, "pollId"));
    var optionId := FormId(Get(form, "optionId"));
    if pollId.None? || optionId.None? {
      return Thrown(InvalidVoteForm);
    }
    var ok := db.UpsertVote(VoteKey(user.value, pollId.value), optionId.value, fail);
    if !ok {
      return Thrown(VoteFailed);
    }
    cache.RevalidatePath(Home);
    r := Voted;
  }
}
