/**
 * The form builder page: the creator edits a title, a description and three
 * to five draft questions, then submits. The page checks the draft itself
 * before sending it, and its check prunes blank options from the draft in
 * place as it goes.
 */
module FormBuilder {
  import opened Wrappers
  import opened JsText
  import opened Schema

  /** A question being edited; `qtype` is the value of the type select. */
  datatype Draft = Draft(text: string, qtype: QuestionType, options: seq<string>, required: bool)

  /** The page state, which is also the shape of the request body it sends. */
  datatype Builder = Builder(title: string, description: string, questions: seq<Draft>)

  const MinQuestions: nat := 3
  const MaxQuestions: nat := 5

  /** The question the page starts with and adds: empty text response, required. */
  const BlankDraft := Draft("", Text, [], true)

  /** The page's initial state. */
  function Init(): (r: Builder)
    ensures Bounded(r)
    ensures r.title == "" && r.description == ""
    ensures |r.questions| == 3 && forall k :: 0 <= k < |r.questions| ==> r.questions[k] == BlankDraft
  {
    Builder("", "", [BlankDraft, BlankDraft, BlankDraft])
  }

  /** The number of questions stays between the bounds the add and remove buttons keep. */
  predicate Bounded(b: Builder)
  {
    MinQuestions <= |b.questions| <= MaxQuestions
  }

  // ---------------------------------------------------------------------
  // Filtering blank strings

  /** The positions whose flag is set, in increasing order. */
  function Positions(flags: seq<bool>): (r: seq<nat>)
    ensures |r| <= |flags|
    ensures forall j :: 0 <= j < |r| ==> r[j] < |flags| && flags[r[j]]
    ensures forall j, l :: 0 <= j < l < |r| ==> r[j] < r[l]
  {
    if |flags| == 0 then []
    else
      var n := |flags| - 1;
      var init := flags[..n];
      var front := Positions(init);
      assert forall j :: 0 <= j < |front| ==> init[front[j]] == flags[front[j]];
      if flags[n] then front + [n] else front
  }

  /** No set flag is missed. */
  lemma {:induction false} PositionsComplete(flags: seq<bool>, k: nat)
    requires k < |flags| && flags[k]
    ensures k in Positions(flags)
  {
    var n := |flags| - 1;
    if k < n {
      assert flags[..n][k] == flags[k];
      PositionsComplete(flags[..n], k);
    }
  }

  /** With every flag set, every position is listed. */
  lemma {:induction false} PositionsAll(flags: seq<bool>)
    requires forall k :: 0 <= k < |flags| ==> flags[k]
    ensures |Positions(flags)| == |flags|
    ensures forall j :: 0 <= j < |flags| ==> Positions(flags)[j] == j
  {
    if |flags| > 0 {
      PositionsAll(flags[..|flags| - 1]);
    }
  }

  /** Whether each item survives `filter(s => s.trim())`. */
  function NonblankFlags(items: seq<string>): (r: seq<bool>)
    ensures |r| == |items| && forall k :: 0 <= k < |items| ==> r[k] == !IsBlank(items[k])
  {
    seq(|items|, k requires 0 <= k < |items| => !IsBlank(items[k]))
  }

  /**
   * `items.filter(s => s.trim())`, as the positions it keeps: only
   * non-blank items, in increasing order (and, by `KeptComplete`, all of
   * them).
   */
  function Kept(items: seq<string>): (r: seq<nat>)
    ensures |r| <= |items|
    ensures forall j :: 0 <= j < |r| ==> r[j] < |items| && !IsBlank(items[r[j]])
    ensures forall j, l :: 0 <= j < l < |r| ==> r[j] < r[l]
  {
    Positions(NonblankFlags(items))
  }

  /** No non-blank item is dropped. */
  lemma KeptComplete(items: seq<string>, k: nat)
    requires k < |items| && !IsBlank(items[k])
    ensures k in Kept(items)
  {
    PositionsComplete(NonblankFlags(items), k);
  }

  /** The non-blank options, in order. */
  function NonblankOptions(options: seq<string>): (r: seq<string>)
    ensures |r| == |Kept(options)|
    ensures forall j :: 0 <= j < |r| ==> r[j] == options[Kept(options)[j]]
  {
    var keep := Kept(options);
    seq(|keep|, j requires 0 <= j < |keep| => options[keep[j]])
  }

  /** With nothing blank, every position is kept. */
  lemma KeptAll(items: seq<string>)
    requires forall k :: 0 <= k < |items| ==> !IsBlank(items[k])
    ensures |Kept(items)| == |items|
    ensures forall j :: 0 <= j < |items| ==> Kept(items)[j] == j
  {
    PositionsAll(NonblankFlags(items));
  }

  /** Filtering the options a second time changes nothing. */
  lemma NonblankOptionsIdempotent(options: seq<string>)
    ensures NonblankOptions(NonblankOptions(options)) == NonblankOptions(options)
  {
    var once := NonblankOptions(options);
    KeptAll(once);
  }

  /** The texts of the drafts, in order. */
  function TextsOf(qs: seq<Draft>): (r: seq<string>)
    ensures |r| == |qs| && forall k :: 0 <= k < |qs| ==> r[k] == qs[k].text
  {
    seq(|qs|, k requires 0 <= k < |qs| => qs[k].text)
  }

  // ---------------------------------------------------------------------
  // Handlers

  /** The two plain inputs of the page. */
  datatype InputField = TitleInput | DescriptionInput

  /** Typing into the title or the description input. */
  function SetInput(b: Builder, field: InputField, value: string): (r: Builder)
    ensures r.questions == b.questions
    ensures field == TitleInput ==> r.title == value && r.description == b.description
    ensures field == DescriptionInput ==> r.description == value && r.title == b.title
  {
    match field
    case TitleInput => b.(title := value)
    case DescriptionInput => b.(description := value)
  }

  /** A change to one field of one question, through the two controls the page renders for it. */
  datatype QuestionChange = ChangeText(text: string) | ChangeType(qtype: QuestionType)

  /** Replaces question `i`, leaving the others. */
  function Replace(qs: seq<Draft>, i: nat, q: Draft): (r: seq<Draft>)
    requires i < |qs|
    ensures |r| == |qs| && r[i] == q
    ensures forall k :: 0 <= k < |qs| && k != i ==> r[k] == qs[k]
  {
    qs[i := q]
  }

  /**
   * Editing a question's text or type. Choosing the text
   * type clears the options; choosing multiple choice keeps them.
   */
  function ChangeQuestion(b: Builder, i: nat, change: QuestionChange): (r: Builder)
    requires i < |b.questions|
    ensures r.title == b.title && r.description == b.description
    ensures |r.questions| == |b.questions|
    ensures forall k :: 0 <= k < |b.questions| && k != i ==> r.questions[k] == b.questions[k]
    ensures change.ChangeText? ==> r.questions[i] == b.questions[i].(text := change.text)
    ensures change.ChangeType? ==>
              && r.questions[i].qtype == change.qtype
              && r.questions[i].text == b.questions[i].text
              && r.questions[i].required == b.questions[i].required
              && r.questions[i].options == (if change.qtype == Text then [] else b.questions[i].options)
  {
    var q := b.questions[i];
    var q' := match change
      case ChangeText(t) => q.(text := t)
      case ChangeType(Text) => q.(qtype := Text, options := [])
      case ChangeType(MultipleChoice) => q.(qtype := MultipleChoice);
    b.(questions := Replace(b.questions, i, q'))
  }

  /** Typing into option `o` of question `i`. */
  function ChangeOption(b: Builder, i: nat, o: nat, value: string): (r: Builder)
    requires i < |b.questions| && o < |b.questions[i].options|
    ensures r.title == b.title && r.description == b.description && |r.questions| == |b.questions|
    ensures forall k :: 0 <= k < |b.questions| && k != i ==> r.questions[k] == b.questions[k]
    ensures r.questions[i] == b.questions[i].(options := b.questions[i].options[o := value])
  {
    var q := b.questions[i];
    b.(questions := Replace(b.questions, i, q.(options := q.options[o := value])))
  }

  /** The add-option button: one more empty option at the end. */
  function AddOption(b: Builder, i: nat): (r: Builder)
    requires i < |b.questions|
    ensures r.title == b.title && r.description == b.description && |r.questions| == |b.questions|
    ensures forall k :: 0 <= k < |b.questions| && k != i ==> r.questions[k] == b.questions[k]
    ensures r.questions[i].options == b.questions[i].options + [""]
    ensures r.questions[i] == b.questions[i].(options := r.questions[i].options)
  {
    var q := b.questions[i];
    b.(questions := Replace(b.questions, i, q.(options := q.options + [""])))
  }

  /** `options.splice(o, 1)`: removes option `o`, or nothing when there is no such option. */
  function Splice(options: seq<string>, o: nat): (r: seq<string>)
    ensures o < |options| ==> |r| == |options| - 1
    ensures o < |options| ==> forall k :: 0 <= k < o ==> r[k] == options[k]
    ensures o < |options| ==> forall k :: o <= k < |r| ==> r[k] == options[k + 1]
    ensures o >= |options| ==> r == options
  {
    if o < |options| then options[..o] + options[o + 1..] else options
  }

  /** The remove-option button of option `o` of question `i`. */
  function RemoveOption(b: Builder, i: nat, o: nat): (r: Builder)
    requires i < |b.questions|
    ensures r.title == b.title && r.description == b.description && |r.questions| == |b.questions|
    ensures forall k :: 0 <= k < |b.questions| && k != i ==> r.questions[k] == b.questions[k]
    ensures r.questions[i] == b.questions[i].(options := Splice(b.questions[i].options, o))
  {
    var q := b.questions[i];
    b.(questions := Replace(b.questions, i, q.(options := Splice(q.options, o))))
  }

  /** The add-question button: a blank question at the end while there are fewer than five. */
  function AddQuestion(b: Builder): (r: Builder)
    ensures r.title == b.title && r.description == b.description
    ensures |b.questions| < MaxQuestions ==> r.questions == b.questions + [BlankDraft]
    ensures |b.questions| >= MaxQuestions ==> r == b
  {
    if |b.questions| < MaxQuestions then b.(questions := b.questions + [BlankDraft]) else b
  }

  /** `qs.filter((_, k) => k !== i)`. */
  function DropIndex(qs: seq<Draft>, i: nat): (r: seq<Draft>)
    ensures i < |qs| ==> |r| == |qs| - 1
    ensures i < |qs| ==> forall k :: 0 <= k < i ==> r[k] == qs[k]
    ensures i < |qs| ==> forall k :: i <= k < |r| ==> r[k] == qs[k + 1]
    ensures i >= |qs| ==> r == qs
  {
    if |qs| == 0 then []
    else
      var front := DropIndex(qs[..|qs| - 1], i);
      if |qs| - 1 == i then front else front + [qs[|qs| - 1]]
  }

  /** The remove-question button: drops question `i` while there are more than three. */
  function RemoveQuestion(b: Builder, i: nat): (r: Builder)
    ensures r.title == b.title && r.description == b.description
    ensures |b.questions| > MinQuestions && i < |b.questions| ==> |r.questions| == |b.questions| - 1
    ensures |b.questions| > MinQuestions ==> r.questions == DropIndex(b.questions, i)
    ensures |b.questions| <= MinQuestions ==> r == b
  {
    if |b.questions| > MinQuestions then b.(questions := DropIndex(b.questions, i)) else b
  }

  /** One user action on the page. */
  datatype Edit =
    | Input(field: InputField, value: string)
    | EditQuestion(index: nat, change: QuestionChange)
    | EditOption(index: nat, option: nat, value: string)
    | MoreOptions(index: nat)
    | FewerOptions(index: nat, option: nat)
    | MoreQuestions
    | FewerQuestions(index: nat)

  /** Whether an action names a question (and option) the page shows. */
  predicate Applicable(b: Builder, e: Edit)
  {
    match e
    case Input(_, _) => true
    case EditQuestion(i, _) => i < |b.questions|
    case EditOption(i, o, _) => i < |b.questions| && o < |b.questions[i].options|
    case MoreOptions(i) => i < |b.questions|
    case FewerOptions(i, _) => i < |b.questions|
    case MoreQuestions => true
    case FewerQuestions(_) => true
  }

  function Apply(b: Builder, e: Edit): (r: Builder)
    requires Applicable(b, e)
  {
    match e
    case Input(field, v) => SetInput(b, field, v)
    case EditQuestion(i, change) => ChangeQuestion(b, i, change)
    case EditOption(i, o, v) => ChangeOption(b, i, o, v)
    case MoreOptions(i) => AddOption(b, i)
    case FewerOptions(i, o) => RemoveOption(b, i, o)
    case MoreQuestions => AddQuestion(b)
    case FewerQuestions(i) => RemoveQuestion(b, i)
  }

  /** Every action keeps the number of questions within bounds. */
  lemma ApplyBounded(b: Builder, e: Edit)
    requires Bounded(b) && Applicable(b, e)
    ensures Bounded(Apply(b, e))
  {
  }

  /** A run of actions; `None` when one of them names something not on the page. */
  function Session(b: Builder, edits: seq<Edit>): Option<Builder>
    decreases |edits|
  {
    if |edits| == 0 then Some(b)
    else if !Applicable(b, edits[0]) then None
    else Session(Apply(b, edits[0]), edits[1..])
  }

  /** Whatever the creator does, the page holds three to five questions. */
  lemma {:induction false} SessionBounded(b: Builder, edits: seq<Edit>)
    requires Bounded(b)
    ensures Session(b, edits).Some? ==> Bounded(Session(b, edits).value)
    decreases |edits|
  {
    if |edits| > 0 && Applicable(b, edits[0]) {
      ApplyBounded(b, edits[0]);
      SessionBounded(Apply(b, edits[0]), edits[1..]);
    }
  }

  // ---------------------------------------------------------------------
  // Submit

  /** The three checks the submit handler can fail. */
  datatype BuildError = TitleRequired | TooFewQuestions | OptionsRequired

  /** The message the page shows for each failed check. */
  function Message(e: BuildError): string
  {
    match e
    case TitleRequired => "Form title is required"
    case TooFewQuestions => "At least 3 questions are required"
    case OptionsRequired => "Multiple-choice questions must have at least 2 options"
  }

  /** A question the submit loop rejects: kept, multiple choice, and fewer than two non-blank options. */
  predicate LacksChoices(q: Draft)
  {
    !IsBlank(q.text) && q.qtype == MultipleChoice && |NonblankOptions(q.options)| < 2
  }

  /** What the submit loop does to a question it gets past: a kept multiple-choice question loses its blank options. */
  function Cleaned(q: Draft): (r: Draft)
    ensures r.text == q.text && r.qtype == q.qtype && r.required == q.required
    ensures !IsBlank(q.text) && q.qtype == MultipleChoice ==> r.options == NonblankOptions(q.options)
    ensures IsBlank(q.text) || q.qtype == Text ==> r == q
  {
    if !IsBlank(q.text) && q.qtype == MultipleChoice then q.(options := NonblankOptions(q.options)) else q
  }

  /** For each question, whether the submit loop rejects it. */
  function Rejected(qs: seq<Draft>): (r: seq<bool>)
    ensures |r| == |qs| && forall k :: 0 <= k < |qs| ==> r[k] == LacksChoices(qs[k])
  {
    seq(|qs|, k requires 0 <= k < |qs| => LacksChoices(qs[k]))
  }

  /** The first set flag, or the length when none is set. */
  function FirstSet(flags: seq<bool>): (r: nat)
    ensures r <= |flags|
    ensures forall k :: 0 <= k < r ==> !flags[k]
    ensures r < |flags| ==> flags[r]
  {
    if |flags| == 0 then 0
    else if flags[0] then 0
    else
      var rest := flags[1..];
      assert forall k :: 1 <= k < |flags| ==> rest[k - 1] == flags[k];
      1 + FirstSet(rest)
  }

  /** Where the submit loop stops: the first rejected question, or the end. */
  function Stop(qs: seq<Draft>): (r: nat)
    ensures r <= |qs|
    ensures forall k :: 0 <= k < r ==> !LacksChoices(qs[k])
    ensures r < |qs| ==> LacksChoices(qs[r])
  {
    FirstSet(Rejected(qs))
  }

  /** Getting past the first question moves the stopping point along by one. */
  lemma StopStep(qs: seq<Draft>)
    requires |qs| > 0 && !LacksChoices(qs[0])
    ensures Stop(qs) == 1 + Stop(qs[1..])
  {
    assert Rejected(qs[1..]) == Rejected(qs)[1..];
  }

  /**
   * The page's questions after the submit loop: it walks the kept questions
   * in order, replacing each multiple-choice question's options by the
   * non-blank ones, and returns at the first it rejects. The objects are
   * shared with the page state, so the pruning persists.
   */
  function Prune(qs: seq<Draft>): (r: seq<Draft>)
    ensures |r| == |qs|
  {
    if |qs| == 0 then []
    else if LacksChoices(qs[0]) then qs
    else [Cleaned(qs[0])] + Prune(qs[1..])
  }

  /** The loop cleans every question before the one it stops at and leaves the rest as they were. */
  lemma {:induction false} PruneStops(qs: seq<Draft>)
    ensures forall k :: 0 <= k < Stop(qs) ==> Prune(qs)[k] == Cleaned(qs[k])
    ensures forall k :: Stop(qs) <= k < |qs| ==> Prune(qs)[k] == qs[k]
  {
    if |qs| > 0 && !LacksChoices(qs[0]) {
      var rest := qs[1..];
      PruneStops(rest);
      var r, tail := Prune(qs), Prune(rest);
      assert r[1..] == tail;
      StopStep(qs);
      forall k | 1 <= k < |qs|
        ensures r[k] == tail[k - 1] && rest[k - 1] == qs[k]
      {
      }
    }
  }

  /** The kept questions, in order. */
  function Nonblank(qs: seq<Draft>): (r: seq<Draft>)
    ensures |r| == |Kept(TextsOf(qs))|
    ensures forall j :: 0 <= j < |r| ==> r[j] == qs[Kept(TextsOf(qs))[j]]
  {
    var keep := Kept(TextsOf(qs));
    seq(|keep|, j requires 0 <= j < |keep| => qs[keep[j]])
  }

  /** The result of pressing submit: the request body or the failed check, and the page state after. */
  datatype Submission = Submission(outcome: Result<Builder, BuildError>, state: Builder)

  /**
   * The submit handler's checks, in order: a title, at least three kept
   * questions, then at least two non-blank options for each kept
   * multiple-choice question. The body sent carries the title and
   * description as typed and the kept questions with their pruned options.
   */
  function Submit(b: Builder): (r: Submission)
    ensures r.state.title == b.title && r.state.description == b.description
    ensures IsBlank(b.title) || |Kept(TextsOf(b.questions))| < MinQuestions ==> r.state == b
    ensures !IsBlank(b.title) && |Kept(TextsOf(b.questions))| >= MinQuestions ==> r.state.questions == Prune(b.questions)
  {
    if IsBlank(b.title) then Submission(Failure(TitleRequired), b)
    else if |Nonblank(b.questions)| < MinQuestions then Submission(Failure(TooFewQuestions), b)
    else
      var pruned := Prune(b.questions);
      var state := b.(questions := pruned);
      if Stop(b.questions) < |b.questions| then Submission(Failure(OptionsRequired), state)
      else Submission(Success(b.(questions := Nonblank(pruned))), state)
  }

  /** The three messages, each exactly when its check is the first to fail. */
  lemma SubmitChecks(b: Builder)
    ensures Submit(b).outcome == Failure(TitleRequired) <==> IsBlank(b.title)
    ensures Submit(b).outcome == Failure(TooFewQuestions) <==>
              !IsBlank(b.title) && |Kept(TextsOf(b.questions))| < MinQuestions
    ensures Submit(b).outcome == Failure(OptionsRequired) <==>
              && !IsBlank(b.title) && |Kept(TextsOf(b.questions))| >= MinQuestions
              && exists k :: 0 <= k < |b.questions| && LacksChoices(b.questions[k])
    ensures Submit(b).outcome.Success? <==>
              && !IsBlank(b.title) && |Kept(TextsOf(b.questions))| >= MinQuestions
              && forall k :: 0 <= k < |b.questions| ==> !LacksChoices(b.questions[k])
  {
    if !IsBlank(b.title) && |Kept(TextsOf(b.questions))| >= MinQuestions {
      SubmitPastCount(b);
      var r := Stop(b.questions);
      if r < |b.questions| {
        assert LacksChoices(b.questions[r]);
      }
    }
  }

  /**
   * A successful submit sends the title and description as typed and the
   * kept questions, in order, each cleaned of blank options.
   */
  lemma SubmitSends(b: Builder)
    requires Submit(b).outcome.Success?
    ensures Submit(b).outcome.value.title == b.title && Submit(b).outcome.value.description == b.description
    ensures |Submit(b).outcome.value.questions| == |Kept(TextsOf(b.questions))|
    ensures forall j :: 0 <= j < |Submit(b).outcome.value.questions| ==>
              Submit(b).outcome.value.questions[j] == Cleaned(b.questions[Kept(TextsOf(b.questions))[j]])
  {
    var qs := b.questions;
    var pruned := Prune(qs);
    assert !IsBlank(b.title) && |Nonblank(qs)| >= MinQuestions;
    assert Stop(qs) == |qs|;
    PruneStops(qs);
    PruneKeepsTexts(qs);
    var keep := Kept(TextsOf(qs));
    var out := Submit(b).outcome.value;
    assert out == b.(questions := Nonblank(pruned));
    forall j | 0 <= j < |out.questions|
      ensures out.questions[j] == Cleaned(qs[keep[j]])
    {
      assert out.questions[j] == pruned[keep[j]];
    }
  }

  /** Cleaning a question twice is cleaning it once, and cleaning never changes whether the loop rejects it. */
  lemma CleanedIdempotent(q: Draft)
    ensures Cleaned(Cleaned(q)) == Cleaned(q)
    ensures LacksChoices(Cleaned(q)) == LacksChoices(q)
  {
    NonblankOptionsIdempotent(q.options);
  }

  /** Running the submit loop over its own output stops at the same place and changes nothing more. */
  lemma {:induction false} PruneIdempotent(qs: seq<Draft>)
    ensures Stop(Prune(qs)) == Stop(qs)
    ensures Prune(Prune(qs)) == Prune(qs)
  {
    if |qs| > 0 && !LacksChoices(qs[0]) {
      var rest := qs[1..];
      PruneIdempotent(rest);
      CleanedIdempotent(qs[0]);
      var p := Prune(qs);
      assert p == [Cleaned(qs[0])] + Prune(rest);
      assert p[0] == Cleaned(qs[0]) && p[1..] == Prune(rest);
      assert !LacksChoices(p[0]);
      StopStep(qs);
      StopStep(p);
    }
  }

  /** The loop keeps every question's text. */
  lemma PruneKeepsTexts(qs: seq<Draft>)
    ensures TextsOf(Prune(qs)) == TextsOf(qs)
  {
    PruneStops(qs);
    var p := Prune(qs);
    forall k | 0 <= k < |qs|
      ensures p[k].text == qs[k].text
    {
      if k < Stop(qs) {
        assert p[k] == Cleaned(qs[k]);
      }
    }
  }

  /** Submit once the title and the count have passed: what is left is the options check. */
  lemma SubmitPastCount(b: Builder)
    requires !IsBlank(b.title) && |Kept(TextsOf(b.questions))| >= MinQuestions
    ensures Submit(b).state == b.(questions := Prune(b.questions))
    ensures Submit(b).outcome ==
              if Stop(b.questions) < |b.questions| then Failure(OptionsRequired)
              else Success(b.(questions := Nonblank(Prune(b.questions))))
  {
  }

  /**
   * Pressing submit again on the state a submit left behind gives the same
   * outcome and leaves the same state: the pruning the first press did is
   * all the pruning there is.
   */
  lemma SubmitAgain(b: Builder)
    ensures Submit(Submit(b).state) == Submit(b)
  {
    var qs := b.questions;
    if !IsBlank(b.title) && |Kept(TextsOf(qs))| >= MinQuestions {
      var p := Prune(qs);
      PruneKeepsTexts(qs);
      PruneIdempotent(qs);
      var s := b.(questions := p);
      SubmitPastCount(b);
      SubmitPastCount(s);
    }
  }
}
