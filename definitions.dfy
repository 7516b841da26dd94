/**
 * The poll-creation schema: a question of at least 3 characters and at
 * least 2 options, each of at least 1 character. Lengths are JavaScript
 * lengths (UTF-16 code units). Every violated rule is reported under the
 * field it concerns, so question and option errors can appear together.
 */
module Definitions {
  import opened Wrappers
  import opened FormData
  import JsString

  const MinQuestionLength: nat := 3
  const MinOptionLength: nat := 1
  const MinOptionCount: nat := 2

  /** The three rules of the schema, each with its own message. */
  datatype Rule = QuestionMinLength | OptionMinLength | OptionsMinCount

  function Message(rule: Rule): (r: string)
    ensures rule == QuestionMinLength ==> r == "Question must be at least 3 characters long."
    ensures rule == OptionMinLength ==> r == "Option cannot be empty."
    ensures rule == OptionsMinCount ==> r == "Must have at least 2 options."
  {
    match rule
    case QuestionMinLength => "Question must be at least 3 characters long."
    case OptionMinLength => "Option cannot be empty."
    case OptionsMinCount => "Must have at least 2 options."
  }

  /**
   * One reported problem: a broken rule, or a question that is not a string
   * at all (a missing field or an uploaded file), which the validation
   * library reports with its own default message.
   */
  datatype Issue = Broken(rule: Rule) | NotAString

  /** The `fieldErrors` of a failed parse: an empty list means the key is absent. */
  datatype FieldErrors = FieldErrors(question: seq<Issue>, options: seq<Issue>)

  datatype Parsed = Success(question: string, options: seq<string>) | Failure(errors: FieldErrors)

  /** The problems with the `question` field. */
  function QuestionIssues(question: Option<FormValue>): (r: seq<Issue>)
    ensures r == [] <==> question.Some? && question.value.Text?
                         && JsString.Length(question.value.text) >= MinQuestionLength
    ensures r == [] || r == [NotAString] || r == [Broken(QuestionMinLength)]
    ensures r == [NotAString] <==> question.None? || question.value.Upload?
  {
    match question
    case Some(Text(q)) => if JsString.Length(q) < MinQuestionLength then [Broken(QuestionMinLength)] else []
    case _ => [NotAString]
  }

  /** One `OptionMinLength` issue for each option shorter than one character, in order. */
  function ShortOptionIssues(options: seq<string>): (r: seq<Issue>)
    ensures |r| <= |options|
    ensures |r| == multiset(options)[""]
    ensures r == [] <==> forall i :: 0 <= i < |options| ==> JsString.Length(options[i]) >= MinOptionLength
    ensures forall k :: 0 <= k < |r| ==> r[k] == Broken(OptionMinLength)
  {
    if options == [] then []
    else
      var rest := ShortOptionIssues(options[1..]);
      assert forall i :: 1 <= i < |options| ==> options[i] == options[1..][i - 1];
      assert options == [options[0]] + options[1..];
      assert multiset(options) == multiset{options[0]} + multiset(options[1..]);
      assert JsString.Length(options[0]) < MinOptionLength <==> options[0] == "";
      if JsString.Length(options[0]) < MinOptionLength then [Broken(OptionMinLength)] + rest else rest
  }

  /** The problems with the `options` field: the count rule, then each short option. */
  function OptionIssues(options: seq<string>): (r: seq<Issue>)
    ensures r == [] <==> |options| >= MinOptionCount
                         && forall i :: 0 <= i < |options| ==> options[i] != []
    ensures Broken(OptionsMinCount) in r <==> |options| < MinOptionCount
    ensures Broken(OptionMinLength) in r <==> exists i :: 0 <= i < |options| && options[i] == []
  {
    assert forall s: string :: JsString.Length(s) >= MinOptionLength <==> s != [];
    var short := ShortOptionIssues(options);
    assert short != [] ==> short[0] == Broken(OptionMinLength);
    (if |options| < MinOptionCount then [Broken(OptionsMinCount)] else []) + short
  }

  /** `CreatePollSchema.safeParse({question, options})`. */
  function SafeParse(question: Option<FormValue>, options: seq<string>): (r: Parsed)
    ensures r.Success? <==> QuestionIssues(question) == [] && OptionIssues(options) == []
    ensures r.Success? ==> question == Some(Text(r.question)) && r.options == options
    ensures r.Failure? ==> r.errors == FieldErrors(QuestionIssues(question), OptionIssues(options))
  {
    var q := QuestionIssues(question);
    var o := OptionIssues(options);
    if q == [] && o == [] then Success(question.value.text, options) else Failure(FieldErrors(q, o))
  }

  /** The question rule is a pure length test: 2 is rejected, 3 accepted, white space counts. */
  lemma QuestionBoundary()
    ensures QuestionIssues(Some(Text("ab"))) == [Broken(QuestionMinLength)]
    ensures QuestionIssues(Some(Text("abc"))) == []
    ensures QuestionIssues(Some(Text("   "))) == []
    ensures QuestionIssues(Some(Text("a\U{1F600}"))) == []
    ensures QuestionIssues(None) == [NotAString]
  {
    assert JsString.Length("ab") == 2;
    assert JsString.Length("a\U{1F600}") == 3;
  }

  /** A single empty option breaks both option rules at once; a question error comes alongside. */
  lemma BothFieldsReported()
    ensures SafeParse(Some(Text("ab")), [""])
            == Failure(FieldErrors([Broken(QuestionMinLength)], [Broken(OptionsMinCount), Broken(OptionMinLength)]))
  {
    assert JsString.Length("ab") == 2;
  }

  /** Each rule has its own fixed message. */
  lemma MessagesDistinct(a: Rule, b: Rule)
    ensures Message(a) == Message(b) ==> a == b
  {
  }
}
