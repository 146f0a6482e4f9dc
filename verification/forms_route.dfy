/**
 * The form routes of the server: create, public submit, export, update and
 * delete, each reduced to the decision it makes over the stored documents.
 * The document store is a pair of sequences in insertion order.
 */
module FormsRoute {
  import opened Wrappers
  import opened JsText
  import opened Schema

  /** The two collections. */
  datatype Db = Db(forms: seq<Form>, responses: seq<Response>)

  /** A create or update request body; any field may be missing. */
  datatype FormRequest = FormRequest(title: Option<string>, description: Option<string>,
                                     questions: Option<seq<RawQuestion>>)

  datatype CreateError =
    | InvalidFields    // the field validators failed (400 with an error list)
    | TooFewOptions    // a multiple-choice question has fewer than two options (400)
    | DuplicateKey     // the store's unique index refused the save (500)

  // ----- validator.js `isLength` -----
  //
  // `isLength` measures a string as its UTF-16 length, less one for every
  // presentation selector (U+FE0E, U+FE0F) and one for every surrogate pair,
  // so it counts the code points other than those two selectors.

  /** The two presentation selectors `isLength` leaves out of its count. */
  predicate IsPresentationSelector(c: char)
  {
    c == '\U{FE0E}' || c == '\U{FE0F}'
  }

  /** The matches of `/(\uFE0F|\uFE0E)/g` in `s`. */
  function SelectorCount(s: string): (r: nat)
    ensures r <= |s|
    ensures r == |s| <==> forall k :: 0 <= k < |s| ==> IsPresentationSelector(s[k])
  {
    if |s| == 0 then 0
    else
      assert forall k :: 1 <= k < |s| ==> s[1..][k - 1] == s[k];
      (if IsPresentationSelector(s[0]) then 1 else 0) + SelectorCount(s[1..])
  }

  /** The surrogate pairs of `s` in UTF-16: one per code point above U+FFFF. */
  function PairCount(s: string): nat
  {
    if |s| == 0 then 0 else (if s[0] as int > 0xFFFF then 1 else 0) + PairCount(s[1..])
  }

  /** Each surrogate pair adds one code unit to the code-point count. */
  lemma {:induction false} Utf16LengthPairs(s: string)
    ensures Utf16Length(s) == |s| + PairCount(s)
  {
    if |s| > 0 {
      Utf16LengthPairs(s[1..]);
    }
  }

  /** The length `isLength` compares with its bounds. */
  function MeasuredLength(s: string): (r: int)
    ensures r == |s| - SelectorCount(s)
  {
    Utf16LengthPairs(s);
    Utf16Length(s) - SelectorCount(s) - PairCount(s)
  }

  /** The chain `trim().isLength({ min: 1 })`: something other than whitespace and selectors. */
  predicate FilledIn(s: string)
  {
    MeasuredLength(Trim(s)) >= 1
  }

  /** The chain fails exactly when the trimmed text is empty or all presentation selectors. */
  lemma FilledInIffSomeCounted(s: string)
    ensures FilledIn(s) <==> exists k :: 0 <= k < |Trim(s)| && !IsPresentationSelector(Trim(s)[k])
  {
  }

  /** What passes the chain is not blank to the `!s.trim()` test either. */
  lemma FilledInNotBlank(s: string)
    requires FilledIn(s)
    ensures !IsBlank(s) && !IsBlank(Trim(s)) && Trim(Trim(s)) == Trim(s)
  {
    TrimIdempotent(s);
  }

  /** Text starting with a character that is neither whitespace nor a selector passes the chain. */
  lemma FilledInFromFirst(s: string)
    requires |s| > 0 && !IsWhitespace(s[0]) && !IsPresentationSelector(s[0])
    ensures FilledIn(s)
  {
    assert TrimStart(s) == s;
    var r := Trim(s);
    assert !AllWhitespace(s);
    assert r[0] == s[0];
  }

  /** Text made only of presentation selectors is not blank, yet fails the chain. */
  lemma SelectorsOnlyFail(s: string)
    requires |s| > 0 && forall k :: 0 <= k < |s| ==> IsPresentationSelector(s[k])
    ensures !IsBlank(s) && !FilledIn(s)
  {
    assert !IsWhitespace(s[0]);
    TrimSlice(s);
    var t := Trim(s);
    var i :| 0 <= i <= |s| - |t| && t == s[i..i + |t|];
    assert forall k :: 0 <= k < |t| ==> t[k] == s[i + k];
  }

  /** The title validator: present, and of length at least one once trimmed. */
  predicate TitleValid(title: Option<string>)
  {
    title.Some? && FilledIn(title.value)
  }

  /** The question-list validator: an array of 3 to 5 elements. */
  predicate CountValid(questions: Option<seq<RawQuestion>>)
  {
    questions.Some? && 3 <= |questions.value| <= 5
  }

  /** The per-question validators: text of length at least one once trimmed, and a type inside the enum. */
  predicate QuestionFieldsValid(q: RawQuestion)
  {
    && q.text.Some? && FilledIn(q.text.value)
    && q.qtype.Some? && ParseType(q.qtype.value).Some?
  }

  /** All the validators of the create route. */
  predicate CreateFieldsValid(req: FormRequest)
  {
    && TitleValid(req.title)
    && CountValid(req.questions)
    && forall k :: 0 <= k < |req.questions.value| ==> QuestionFieldsValid(req.questions.value[k])
  }

  /** The options rule: a multiple-choice question needs an options array of at least two. */
  predicate LacksOptions(q: RawQuestion)
  {
    q.qtype == Some("multiple-choice") && (q.options.None? || |q.options.value| < 2)
  }

  /** Index of the first question breaking the options rule, if any. */
  function FirstLackingOptions(qs: seq<RawQuestion>): (r: Option<nat>)
    ensures r.None? <==> forall k :: 0 <= k < |qs| ==> !LacksOptions(qs[k])
    ensures r.Some? ==> r.value < |qs| && LacksOptions(qs[r.value])
    ensures r.Some? ==> forall k :: 0 <= k < r.value ==> !LacksOptions(qs[k])
  {
    if |qs| == 0 then None
    else if LacksOptions(qs[0]) then Some(0)
    else
      match FirstLackingOptions(qs[1..])
      case None =>
        assert forall k :: 1 <= k < |qs| ==> qs[1..][k - 1] == qs[k];
        None
      case Some(i) =>
        assert forall k :: 1 <= k < |qs| ==> qs[1..][k - 1] == qs[k];
        Some(i + 1)
  }

  /** The create route's checks, in the order it makes them: field validators, then the options loop. */
  function ValidateCreate(req: FormRequest): (r: Outcome<CreateError>)
    ensures r == Fail(InvalidFields) <==> !CreateFieldsValid(req)
    ensures r == Fail(TooFewOptions) <==>
              CreateFieldsValid(req) && exists k :: 0 <= k < |req.questions.value| && LacksOptions(req.questions.value[k])
    ensures r != Fail(DuplicateKey)
  {
    if !CreateFieldsValid(req) then Fail(InvalidFields)
    else if FirstLackingOptions(req.questions.value).Some? then Fail(TooFewOptions)
    else Pass
  }

  /** When no question breaks the options rule, the field validators alone decide. */
  lemma VerdictWithoutOptionFaults(req: FormRequest)
    requires req.questions.Some?
    requires forall k :: 0 <= k < |req.questions.value| ==> !LacksOptions(req.questions.value[k])
    ensures ValidateCreate(req) == if CreateFieldsValid(req) then Pass else Fail(InvalidFields)
  {
  }

  /** Casts the validated question list, giving question `k` the store-assigned id `ids[k]`. */
  function CastQuestions(qs: seq<RawQuestion>, ids: seq<string>): (r: seq<Question>)
    requires |ids| == |qs|
    requires forall k :: 0 <= k < |qs| ==> qs[k].qtype.Some? && ParseType(qs[k].qtype.value).Some?
    ensures |r| == |qs|
    ensures forall k :: 0 <= k < |qs| ==> r[k] == CastQuestion(ids[k], qs[k])
  {
    seq(|qs|, k requires 0 <= k < |qs| => CastQuestion(ids[k], qs[k]))
  }

  /**
   * The create route: validate, build the document with the store-assigned
   * form id and question ids, run the pre-save hook, and insert it.
   */
  function Create(db: Db, req: FormRequest, formId: string, creator: string, questionIds: seq<string>): (r: Result<Db, CreateError>)
    requires req.questions.Some? ==> |questionIds| == |req.questions.value|
    ensures r.Failure? && r.error != DuplicateKey <==> ValidateCreate(req).Fail?
    ensures r == Failure(DuplicateKey) <==>
              ValidateCreate(req).Pass? && exists i :: 0 <= i < |db.forms| && db.forms[i].publicUrl == Some(formId)
    ensures r.Success? ==> r.value.responses == db.responses
    ensures r.Success? ==> |r.value.forms| == |db.forms| + 1 && r.value.forms[..|db.forms|] == db.forms
    ensures r.Success? ==>
              var f := r.value.forms[|db.forms|];
              && f.id == formId && f.creator == creator && f.isActive
              && f.publicUrl == Some(formId)
              && f.title == Trim(req.title.value)
              && f.description == (if req.description.Some? then Some(Trim(req.description.value)) else None)
              && |f.questions| == |req.questions.value|
              && (forall k :: 0 <= k < |f.questions| ==> f.questions[k] == CastQuestion(questionIds[k], req.questions.value[k]))
              && WellFormed(f)
    ensures UniqueSlugs(db.forms) && r.Success? ==> UniqueSlugs(r.value.forms)
  {
    match ValidateCreate(req)
    case Fail(e) => Failure(e)
    case Pass =>
      assert CreateFieldsValid(req);
      var f := NewDocument(req, formId, creator, questionIds);
      assert f.publicUrl == Some(formId);
      match InsertForm(db.forms, f)
      case None => Failure(DuplicateKey)
      case Some(forms) => Success(db.(forms := forms))
  }

  /** The document the create route saves for a validated request, after the save hook. */
  function NewDocument(req: FormRequest, formId: string, creator: string, questionIds: seq<string>): (f: Form)
    requires ValidateCreate(req) == Pass
    requires |questionIds| == |req.questions.value|
    ensures f.id == formId && f.creator == creator && f.isActive && f.publicUrl == Some(formId)
    ensures f.title == Trim(req.title.value)
    ensures f.description == if req.description.Some? then Some(Trim(req.description.value)) else None
    ensures |f.questions| == |req.questions.value|
    ensures forall k :: 0 <= k < |f.questions| ==> f.questions[k] == CastQuestion(questionIds[k], req.questions.value[k])
    ensures WellFormed(f)
  {
    var qs := req.questions.value;
    assert CreateFieldsValid(req);
    var questions := CastQuestions(qs, questionIds);
    var f := PreSave(NewForm(formId, req.title.value, req.description, questions, creator));
    CreatedWellFormed(req, questions, f);
    f
  }

  /** What the validators and casting together guarantee of the saved document. */
  lemma CreatedWellFormed(req: FormRequest, questions: seq<Question>, f: Form)
    requires ValidateCreate(req) == Pass
    requires |questions| == |req.questions.value|
    requires forall k :: 0 <= k < |questions| ==>
               questions[k] == CastQuestion(questions[k].id, req.questions.value[k])
    requires f.title == Trim(req.title.value) && f.questions == questions
    ensures WellFormed(f)
  {
    var qs := req.questions.value;
    assert CreateFieldsValid(req);
    FilledInNotBlank(req.title.value);
    assert !IsBlank(f.title) && Trim(f.title) == f.title;
    assert 3 <= |f.questions| <= 5;
    assert forall k :: 0 <= k < |qs| ==> !LacksOptions(qs[k]);
    forall k | 0 <= k < |f.questions|
      ensures !IsBlank(f.questions[k].text) && Trim(f.questions[k].text) == f.questions[k].text
      ensures f.questions[k].qtype == MultipleChoice ==> |f.questions[k].options| >= 2
    {
      assert QuestionFieldsValid(qs[k]) && !LacksOptions(qs[k]);
      CastKeepsFields(questions[k], qs[k]);
    }
  }

  /** One validated request question, once cast, has trimmed non-blank text and, if multiple-choice, two options. */
  lemma CastKeepsFields(q: Question, raw: RawQuestion)
    requires QuestionFieldsValid(raw) && !LacksOptions(raw)
    requires q == CastQuestion(q.id, raw)
    ensures !IsBlank(q.text) && Trim(q.text) == q.text
    ensures q.qtype == MultipleChoice ==> |q.options| >= 2
  {
    FilledInNotBlank(raw.text.value);
    if q.qtype == MultipleChoice {
      assert raw.qtype == Some("multiple-choice");
    }
  }

  /** The update route's validators: only the title and the question count are checked. */
  function ValidateUpdate(req: FormRequest): (r: Outcome<CreateError>)
    ensures r.Pass? <==> TitleValid(req.title) && CountValid(req.questions)
    ensures r.Fail? ==> r.error == InvalidFields
  {
    if TitleValid(req.title) && CountValid(req.questions) then Pass else Fail(InvalidFields)
  }

  /** Whatever the create route accepts, the update route accepts. */
  lemma CreateValidImpliesUpdateValid(req: FormRequest)
    requires ValidateCreate(req).Pass?
    ensures ValidateUpdate(req).Pass?
  {
  }

  /** The converse fails: the update route accepts multiple-choice questions with no options at all. */
  lemma UpdateSkipsOptionsRule()
    ensures var q := RawQuestion(Some("Pick one"), Some("multiple-choice"), None, None);
            var req := FormRequest(Some("Survey"), None, Some([q, q, q]));
            ValidateUpdate(req).Pass? && ValidateCreate(req) == Fail(TooFewOptions)
  {
    FilledInFromFirst("Survey");
    FilledInFromFirst("Pick one");
    OptionlessChoicesPassUpdate("Survey", "Pick one");
  }

  /** Three multiple-choice questions without options, under a valid title and text. */
  lemma OptionlessChoicesPassUpdate(title: string, text: string)
    requires FilledIn(title) && FilledIn(text)
    ensures var q := RawQuestion(Some(text), Some("multiple-choice"), None, None);
            var req := FormRequest(Some(title), None, Some([q, q, q]));
            ValidateUpdate(req).Pass? && ValidateCreate(req) == Fail(TooFewOptions)
  {
    var q := RawQuestion(Some(text), Some("multiple-choice"), None, None);
    var req := FormRequest(Some(title), None, Some([q, q, q]));
    assert QuestionFieldsValid(q);
    assert forall k :: 0 <= k < |req.questions.value| ==> req.questions.value[k] == q;
    assert LacksOptions(req.questions.value[0]);
  }

  /** The public lookup: the first active form published under `slug`. */
  function FindPublic(forms: seq<Form>, slug: string): (r: Option<Form>)
    ensures r.None? <==> forall k :: 0 <= k < |forms| ==> !(forms[k].publicUrl == Some(slug) && forms[k].isActive)
    ensures r.Some? ==> r.value in forms && r.value.publicUrl == Some(slug) && r.value.isActive
  {
    if |forms| == 0 then None
    else if forms[0].publicUrl == Some(slug) && forms[0].isActive then Some(forms[0])
    else
      var r := FindPublic(forms[1..], slug);
      assert forall k :: 1 <= k < |forms| ==> forms[1..][k - 1] == forms[k];
      r
  }

  /** With unique slugs, the public lookup finds the one active form holding the slug. */
  lemma FindPublicUnique(forms: seq<Form>, slug: string, k: nat)
    requires UniqueSlugs(forms)
    requires k < |forms| && forms[k].publicUrl == Some(slug) && forms[k].isActive
    ensures FindPublic(forms, slug) == Some(forms[k])
  {
    if k > 0 {
      assert forms[0].publicUrl != forms[k].publicUrl;
      assert forms[1..][k - 1] == forms[k];
      FindPublicUnique(forms[1..], slug, k - 1);
    }
  }

  /** The `answers` field of a submission body. */
  datatype AnswersField = Missing | NotArray | Items(items: seq<RawAnswer>)

  datatype SubmitError =
    | NotFound        // no active form under the slug (404)
    | InvalidFormat   // `answers` absent or not an array (400)
    | SaveRejected    // an answer lacks a field the schema requires (500)

  /**
   * The public submit route. The form is looked up first, the shape of
   * `answers` is checked second, and the array is then stored as it is:
   * answers are not compared with the form's questions or options.
   */
  function Submit(db: Db, slug: string, answers: AnswersField, ip: Option<string>, now: int): (r: Result<Db, SubmitError>)
    ensures r == Failure(NotFound) <==> FindPublic(db.forms, slug).None?
    ensures r == Failure(InvalidFormat) <==> FindPublic(db.forms, slug).Some? && !answers.Items?
    ensures r == Failure(SaveRejected) <==>
              FindPublic(db.forms, slug).Some? && answers.Items? && CastAnswers(answers.items).None?
    ensures r.Success? ==>
              && r.value.forms == db.forms
              && |r.value.responses| == |db.responses| + 1
              && r.value.responses[..|db.responses|] == db.responses
              && var stored := r.value.responses[|db.responses|];
                 && stored.formId == FindPublic(db.forms, slug).value.id
                 && stored.submittedAt == now && stored.ipAddress == ip
                 && |stored.answers| == |answers.items|
                 && forall k :: 0 <= k < |answers.items| ==> Some(stored.answers[k]) == CastAnswer(answers.items[k])
  {
    match FindPublic(db.forms, slug)
    case None => Failure(NotFound)
    case Some(form) =>
      if !answers.Items? then Failure(InvalidFormat)
      else
        match CastAnswers(answers.items)
        case None => Failure(SaveRejected)
        case Some(stored) =>
          Success(db.(responses := db.responses + [NewResponse(form.id, stored, ip, now)]))
  }

  /** Whether a submission is "not found" is decided before, and regardless of, its payload. */
  lemma NotFoundIgnoresPayload(db: Db, slug: string, a1: AnswersField, a2: AnswersField,
                               ip1: Option<string>, ip2: Option<string>, t1: int, t2: int)
    ensures Submit(db, slug, a1, ip1, t1) == Failure(NotFound) <==> Submit(db, slug, a2, ip2, t2) == Failure(NotFound)
  {
  }

  /** The export row keys that do not come from answers. */
  const SubmittedAtKey: string := "Submitted At"
  const IpKey: string := "IP Address"

  /** The question texts an answer list carries. */
  function Texts(answers: seq<Answer>): set<string>
  {
    set k | 0 <= k < |answers| :: answers[k].questionText
  }

  /** Index of the last answer carrying question text `text`. */
  function LastWithText(answers: seq<Answer>, text: string): (r: Option<nat>)
    ensures r.None? <==> text !in Texts(answers)
    ensures r.Some? ==> r.value < |answers| && answers[r.value].questionText == text
    ensures r.Some? ==> forall k :: r.value < k < |answers| ==> answers[k].questionText != text
  {
    if |answers| == 0 then None
    else if answers[|answers| - 1].questionText == text then Some(|answers| - 1)
    else
      var front := answers[..|answers| - 1];
      assert forall k :: 0 <= k < |front| ==> front[k] == answers[k];
      assert Texts(answers) == Texts(front) + {answers[|answers| - 1].questionText};
      LastWithText(front, text)
  }

  /**
   * Writes each answer into the row under its question text, in order, so a
   * later answer with the same text overwrites an earlier one (and an answer
   * whose text is a fixed column name overwrites that column). An answer
   * whose text is `__proto__` writes nothing: the object ignores that
   * assignment.
   */
  function FillRow(row: map<string, string>, answers: seq<Answer>): (r: map<string, string>)
    ensures r.Keys == row.Keys + (Texts(answers) - {ProtoKey})
    ensures forall t :: t in Texts(answers) && t != ProtoKey ==>
              r[t] == Displayed(answers[LastWithText(answers, t).value].value)
    ensures forall t :: t in row && (t !in Texts(answers) || t == ProtoKey) ==> r[t] == row[t]
  {
    if |answers| == 0 then row
    else
      var front := answers[..|answers| - 1];
      var last := answers[|answers| - 1];
      assert forall k :: 0 <= k < |front| ==> front[k] == answers[k];
      assert Texts(answers) == Texts(front) + {last.questionText};
      if last.questionText == ProtoKey then FillRow(row, front)
      else FillRow(row, front)[last.questionText := Displayed(last.value)]
  }

  /** The export row of one response: timestamp, address, then one cell per answer text. */
  function ExportRow(resp: Response, iso: int -> string): (r: map<string, string>)
    ensures r.Keys == {SubmittedAtKey, IpKey} + (Texts(resp.answers) - {ProtoKey})
    ensures SubmittedAtKey !in Texts(resp.answers) ==> r[SubmittedAtKey] == iso(resp.submittedAt)
    ensures IpKey !in Texts(resp.answers) ==> r[IpKey] == IpCell(resp.ipAddress)
    ensures forall t :: t in Texts(resp.answers) && t != ProtoKey ==>
              r[t] == Displayed(resp.answers[LastWithText(resp.answers, t).value].value)
  {
    FillRow(map[SubmittedAtKey := iso(resp.submittedAt), IpKey := IpCell(resp.ipAddress)], resp.answers)
  }

  /** A question titled `__proto__` gets no column, and its answer is lost from the export. */
  lemma ProtoTextLeavesNoCell(iso: int -> string)
    ensures var resp := Response("f1", [Answer("q1", ProtoKey, Str("x"))], 0, None);
            ExportRow(resp, iso).Keys == {SubmittedAtKey, IpKey}
  {
  }

  datatype ExportError = NoResponses

  /** The export's rows: an error for no responses, otherwise one row per response in the given order. */
  function ExportRows(responses: seq<Response>, iso: int -> string): (r: Result<seq<map<string, string>>, ExportError>)
    ensures r.Failure? <==> |responses| == 0
    ensures r.Success? ==> |r.value| == |responses|
    ensures r.Success? ==> forall k :: 0 <= k < |responses| ==> r.value[k] == ExportRow(responses[k], iso)
  {
    if |responses| == 0 then Failure(NoResponses)
    else Success(seq(|responses|, k requires 0 <= k < |responses| => ExportRow(responses[k], iso)))
  }

  /** The responses stored for a form, in store order. */
  function ResponsesOf(responses: seq<Response>, formId: string): (r: seq<Response>)
    ensures forall k :: 0 <= k < |r| ==> r[k].formId == formId
    ensures forall x :: multiset(r)[x] == if x.formId == formId then multiset(responses)[x] else 0
  {
    if |responses| == 0 then []
    else
      var rest := ResponsesOf(responses[1..], formId);
      assert forall k :: 1 <= k < |responses| ==> responses[1..][k - 1] == responses[k];
      assert multiset(responses) == multiset{responses[0]} + multiset(responses[1..]) by {
        assert responses == [responses[0]] + responses[1..];
      }
      if responses[0].formId == formId then [responses[0]] + rest else rest
  }

  /** The responses that do not belong to a form, in store order. */
  function ResponsesNotOf(responses: seq<Response>, formId: string): (r: seq<Response>)
    ensures forall k :: 0 <= k < |r| ==> r[k].formId != formId
    ensures forall x :: multiset(r)[x] == if x.formId != formId then multiset(responses)[x] else 0
  {
    if |responses| == 0 then []
    else
      var rest := ResponsesNotOf(responses[1..], formId);
      assert forall k :: 1 <= k < |responses| ==> responses[1..][k - 1] == responses[k];
      assert multiset(responses) == multiset{responses[0]} + multiset(responses[1..]) by {
        assert responses == [responses[0]] + responses[1..];
      }
      if responses[0].formId != formId then [responses[0]] + rest else rest
  }

  /** Selecting a form's responses distributes over concatenation, so store order is kept. */
  lemma {:induction false} ResponsesOfAppend(a: seq<Response>, b: seq<Response>, formId: string)
    ensures ResponsesOf(a + b, formId) == ResponsesOf(a, formId) + ResponsesOf(b, formId)
  {
    if |a| == 0 {
      assert a + b == b;
    } else {
      assert (a + b)[1..] == a[1..] + b;
      ResponsesOfAppend(a[1..], b, formId);
    }
  }

  /** Dropping a form's responses distributes over concatenation, so store order is kept. */
  lemma {:induction false} ResponsesNotOfAppend(a: seq<Response>, b: seq<Response>, formId: string)
    ensures ResponsesNotOf(a + b, formId) == ResponsesNotOf(a, formId) + ResponsesNotOf(b, formId)
  {
    if |a| == 0 {
      assert a + b == b;
    } else {
      assert (a + b)[1..] == a[1..] + b;
      ResponsesNotOfAppend(a[1..], b, formId);
    }
  }

  /** The owner-scoped lookup: index of the first form with this id and creator. */
  function FindOwned(forms: seq<Form>, id: string, creator: string): (r: Option<nat>)
    ensures r.None? <==> forall k :: 0 <= k < |forms| ==> !(forms[k].id == id && forms[k].creator == creator)
    ensures r.Some? ==> r.value < |forms| && forms[r.value].id == id && forms[r.value].creator == creator
  {
    if |forms| == 0 then None
    else if forms[0].id == id && forms[0].creator == creator then Some(0)
    else
      match FindOwned(forms[1..], id, creator)
      case None =>
        assert forall k :: 1 <= k < |forms| ==> forms[1..][k - 1] == forms[k];
        None
      case Some(i) =>
        assert forms[1..][i] == forms[i + 1];
        Some(i + 1)
  }

  datatype RouteError = FormNotFound | NothingToExport

  /** The export route: owner-scoped lookup, then the rows of that form's responses. */
  function ExportRoute(db: Db, id: string, creator: string, iso: int -> string): (r: Result<seq<map<string, string>>, RouteError>)
    ensures r == Failure(FormNotFound) <==> FindOwned(db.forms, id, creator).None?
    ensures r == Failure(NothingToExport) <==>
              FindOwned(db.forms, id, creator).Some? && ResponsesOf(db.responses, db.forms[FindOwned(db.forms, id, creator).value].id) == []
    ensures r.Success? ==> |r.value| == |ResponsesOf(db.responses, id)|
  {
    match FindOwned(db.forms, id, creator)
    case None => Failure(FormNotFound)
    case Some(i) =>
      match ExportRows(ResponsesOf(db.responses, db.forms[i].id), iso)
      case Failure(_) => Failure(NothingToExport)
      case Success(rows) => Success(rows)
  }

  /**
   * The delete route: remove the owner's form, then every response that
   * belongs to it.
   */
  function Delete(db: Db, id: string, creator: string): (r: Result<Db, RouteError>)
    ensures r.Failure? <==> FindOwned(db.forms, id, creator).None?
    ensures r.Failure? ==> r.error == FormNotFound
    ensures r.Success? ==>
              var i := FindOwned(db.forms, id, creator).value;
              && r.value.forms == db.forms[..i] + db.forms[i + 1..]
              && r.value.responses == ResponsesNotOf(db.responses, id)
  {
    match FindOwned(db.forms, id, creator)
    case None => Failure(FormNotFound)
    case Some(i) =>
      Success(Db(db.forms[..i] + db.forms[i + 1..], ResponsesNotOf(db.responses, db.forms[i].id)))
  }

  /** After a delete no response of the form is left, and every other response is kept. */
  lemma DeleteLeavesNoOrphans(db: Db, id: string, creator: string)
    requires Delete(db, id, creator).Success?
    ensures ResponsesOf(Delete(db, id, creator).value.responses, id) == []
    ensures forall k :: 0 <= k < |db.responses| && db.responses[k].formId != id ==>
              db.responses[k] in Delete(db, id, creator).value.responses
  {
    var rs := Delete(db, id, creator).value.responses;
    NoneOf(rs, id);
  }

  /** A list with no response of a form yields none for it. */
  lemma NoneOf(rs: seq<Response>, id: string)
    requires forall k :: 0 <= k < |rs| ==> rs[k].formId != id
    ensures ResponsesOf(rs, id) == []
  {
  }
}
