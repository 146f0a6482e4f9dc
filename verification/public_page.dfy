/**
 * The respondent's page: the answer map it keeps per question id, and how a
 * submission is checked and formatted before it is sent.
 */
module PublicPage {
  import opened Wrappers
  import opened JsText
  import opened Schema

  /** The ids of a question list. */
  function QuestionIds(qs: seq<Question>): set<string>
  {
    set k | 0 <= k < |qs| :: qs[k].id
  }

  /** The answer map after the form has loaded: every question id mapped to "". */
  function LoadAnswers(qs: seq<Question>): (r: map<string, string>)
    ensures r.Keys == QuestionIds(qs)
    ensures forall id :: id in r ==> r[id] == ""
  {
    map id | id in QuestionIds(qs) :: ""
  }

  /** An edit of one answer: only that question's entry changes. */
  function ChangeAnswer(answers: map<string, string>, questionId: string, value: string): (r: map<string, string>)
    ensures r.Keys == answers.Keys + {questionId}
    ensures r[questionId] == value
    ensures forall id :: id in answers && id != questionId ==> r[id] == answers[id]
  {
    answers[questionId := value]
  }

  /** A sequence of answer edits, applied in order. */
  function ApplyEdits(answers: map<string, string>, edits: seq<(string, string)>): map<string, string>
    decreases |edits|
  {
    if |edits| == 0 then answers
    else ApplyEdits(ChangeAnswer(answers, edits[0].0, edits[0].1), edits[1..])
  }

  /** Edits never remove an entry. */
  lemma {:induction false} EditsKeepKeys(answers: map<string, string>, edits: seq<(string, string)>)
    ensures answers.Keys <= ApplyEdits(answers, edits).Keys
    decreases |edits|
  {
    if |edits| > 0 {
      EditsKeepKeys(ChangeAnswer(answers, edits[0].0, edits[0].1), edits[1..]);
    }
  }

  /** After loading and any edits, every question still has an entry. */
  lemma EditsKeepEntries(qs: seq<Question>, edits: seq<(string, string)>)
    ensures QuestionIds(qs) <= ApplyEdits(LoadAnswers(qs), edits).Keys
  {
    EditsKeepKeys(LoadAnswers(qs), edits);
  }

  /** The answer to a question is missing, or empty or whitespace only. */
  predicate Unanswered(answers: map<string, string>, questionId: string)
  {
    questionId !in answers || IsBlank(answers[questionId])
  }

  /** The answer the page holds for a question; absent means `undefined`. */
  function Lookup(answers: map<string, string>, questionId: string): Option<string>
  {
    if questionId in answers then Some(answers[questionId]) else None
  }

  /** One formatted answer as the page builds it. */
  datatype Entry = Entry(questionId: string, questionText: string, answer: Option<string>)

  /** The message naming the question the respondent must still answer. */
  function PleaseAnswer(q: Question): string
  {
    "Please answer: " + q.text
  }

  /** A required question whose answer is missing or blank blocks the submission. */
  predicate Blocks(answers: map<string, string>, q: Question)
  {
    q.required && Unanswered(answers, q.id)
  }

  /**
   * The submit handler's formatting: one entry per question in form order,
   * aborting at the first required question left unanswered.
   */
  function FormatAnswers(qs: seq<Question>, answers: map<string, string>): (r: Result<seq<Entry>, string>)
    ensures r.Failure? <==> exists k :: 0 <= k < |qs| && Blocks(answers, qs[k])
    ensures r.Success? ==> |r.value| == |qs|
    ensures r.Success? ==> forall k :: 0 <= k < |qs| ==>
              r.value[k] == Entry(qs[k].id, qs[k].text, Lookup(answers, qs[k].id))
  {
    if |qs| == 0 then Success([])
    else if Blocks(answers, qs[0]) then Failure(PleaseAnswer(qs[0]))
    else
      var rest := FormatAnswers(qs[1..], answers);
      match rest
      case Failure(msg) =>
        ghost var k' :| 0 <= k' < |qs| - 1 && Blocks(answers, qs[1..][k']);
        assert Blocks(answers, qs[k' + 1]);
        Failure(msg)
      case Success(entries) =>
        var r := [Entry(qs[0].id, qs[0].text, Lookup(answers, qs[0].id))] + entries;
        assert forall k :: 1 <= k < |qs| ==> qs[1..][k - 1] == qs[k] && r[k] == entries[k - 1];
        Success(r)
  }

  /** The message names the first blocking question, and only the first. */
  lemma {:induction false} FormatAnswersFirst(qs: seq<Question>, answers: map<string, string>)
    requires FormatAnswers(qs, answers).Failure?
    ensures exists k :: 0 <= k < |qs| && Blocks(answers, qs[k])
                      && (forall j :: 0 <= j < k ==> !Blocks(answers, qs[j]))
                      && FormatAnswers(qs, answers).error == PleaseAnswer(qs[k])
  {
    if !Blocks(answers, qs[0]) {
      var tail := qs[1..];
      FormatAnswersFirst(tail, answers);
      var k' :| 0 <= k' < |tail| && Blocks(answers, tail[k'])
                && (forall j :: 0 <= j < k' ==> !Blocks(answers, tail[j]))
                && FormatAnswers(tail, answers).error == PleaseAnswer(tail[k']);
      forall j | 0 <= j < k' + 1
        ensures !Blocks(answers, qs[j])
      {
        if j > 0 {
          assert qs[j] == tail[j - 1];
        }
      }
      assert qs[k' + 1] == tail[k'];
    }
  }

  /** An optional question never blocks, whatever its answer. */
  lemma OptionalNeverBlocks(qs: seq<Question>, answers: map<string, string>)
    requires forall k :: 0 <= k < |qs| ==> !qs[k].required
    ensures FormatAnswers(qs, answers).Success?
  {
  }

  /** The request body the page sends: JSON drops an `undefined` answer field. */
  function ToWire(e: Entry): (r: RawAnswer)
    ensures r.questionId == Some(e.questionId) && r.questionText == Some(e.questionText)
    ensures r.answer.Some? <==> e.answer.Some?
    ensures e.answer.Some? ==> r.answer == Some(Str(e.answer.value))
  {
    RawAnswer(Some(e.questionId), Some(e.questionText),
              if e.answer.Some? then Some(Str(e.answer.value)) else None)
  }

  /** The page's submission: either a message and no request at all, or the answers array it sends. */
  function SubmitPayload(qs: seq<Question>, answers: map<string, string>): (r: Result<seq<RawAnswer>, string>)
    ensures r.Failure? <==> FormatAnswers(qs, answers).Failure?
    ensures r.Failure? ==> r.error == FormatAnswers(qs, answers).error
    ensures r.Success? ==> |r.value| == |qs|
    ensures r.Success? ==> forall k :: 0 <= k < |qs| ==> r.value[k] == ToWire(FormatAnswers(qs, answers).value[k])
  {
    match FormatAnswers(qs, answers)
    case Failure(msg) => Failure(msg)
    case Success(entries) => Success(seq(|entries|, k requires 0 <= k < |entries| => ToWire(entries[k])))
  }

  // ----- The submit handler around the formatting -----
  //
  // The handler clears the shown error, formats the answers, and only then
  // enters the block whose catch shows a "Please answer:" message. The
  // formatting throws before that block, so as written its message escapes
  // the handler and the page keeps showing no error.

  /** What the page shows after submit is pressed, and the body it sent, if any. */
  datatype SubmitView = SubmitView(sent: Option<seq<RawAnswer>>, error: string, submitted: bool)

  /** The message for a request that was sent but failed. */
  const SendFailed: string := "Failed to submit response. Please try again."

  /**
   * The handler as written; `delivered` is whether the request succeeded.
   * A blocking question sends nothing and leaves the error cleared.
   */
  function HandleSubmitAsWritten(qs: seq<Question>, answers: map<string, string>, delivered: bool): (r: SubmitView)
    ensures r.sent.Some? <==> FormatAnswers(qs, answers).Success?
    ensures r.sent.None? ==> r.error == "" && !r.submitted
    ensures r.sent.Some? ==> r.sent.value == SubmitPayload(qs, answers).value
    ensures r.sent.Some? ==> (r.submitted <==> delivered) && (r.error == "" <==> delivered)
  {
    match SubmitPayload(qs, answers)
    case Failure(_) => SubmitView(None, "", false)
    case Success(body) =>
      if delivered then SubmitView(Some(body), "", true) else SubmitView(Some(body), SendFailed, false)
  }

  /** The handler as its catch clause shows it was meant to behave: the blocking question's message is shown. */
  function HandleSubmit(qs: seq<Question>, answers: map<string, string>, delivered: bool): (r: SubmitView)
    ensures r.sent.Some? <==> FormatAnswers(qs, answers).Success?
    ensures r.sent.None? ==> r.error == FormatAnswers(qs, answers).error && !r.submitted
    ensures r.sent.Some? ==> r.sent.value == SubmitPayload(qs, answers).value
    ensures r.sent.Some? ==> (r.submitted <==> delivered) && (r.error == "" <==> delivered)
  {
    match SubmitPayload(qs, answers)
    case Failure(msg) => SubmitView(None, msg, false)
    case Success(body) =>
      if delivered then SubmitView(Some(body), "", true) else SubmitView(Some(body), SendFailed, false)
  }

  /**
   * When a question blocks, the corrected handler names it and the handler
   * as written shows nothing; otherwise the two agree.
   */
  lemma BlockedMessageLost(qs: seq<Question>, answers: map<string, string>, delivered: bool)
    ensures FormatAnswers(qs, answers).Failure? ==>
              && HandleSubmitAsWritten(qs, answers, delivered).error == ""
              && exists k :: 0 <= k < |qs| && Blocks(answers, qs[k])
                             && HandleSubmit(qs, answers, delivered).error == PleaseAnswer(qs[k])
                             && HandleSubmit(qs, answers, delivered).error != ""
    ensures FormatAnswers(qs, answers).Success? ==>
              HandleSubmitAsWritten(qs, answers, delivered) == HandleSubmit(qs, answers, delivered)
  {
    if FormatAnswers(qs, answers).Failure? {
      FormatAnswersFirst(qs, answers);
      var k :| 0 <= k < |qs| && Blocks(answers, qs[k])
               && (forall j :: 0 <= j < k ==> !Blocks(answers, qs[j]))
               && FormatAnswers(qs, answers).error == PleaseAnswer(qs[k]);
      assert |PleaseAnswer(qs[k])| >= |"Please answer: "|;
    }
  }

  /** One required question left empty: as written the page shows "", the corrected page "Please answer: Name". */
  lemma EmptyRequiredAnswerExample(qs: seq<Question>, answers: map<string, string>)
    requires qs == [Question("q1", "Name", Text, [], true)]
    requires answers == LoadAnswers(qs)
    ensures HandleSubmitAsWritten(qs, answers, true) == SubmitView(None, "", false)
    ensures HandleSubmit(qs, answers, true) == SubmitView(None, "Please answer: Name", false)
  {
    assert QuestionIds(qs) == {"q1"};
    assert answers["q1"] == "" && IsBlank("");
    assert Blocks(answers, qs[0]);
    assert FormatAnswers(qs, answers) == Failure(PleaseAnswer(qs[0]));
  }
}
