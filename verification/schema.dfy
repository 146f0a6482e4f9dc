/**
 * The stored documents: a form with its embedded questions, and a response
 * with its embedded answers, together with the defaults and the pre-save
 * hook the document schemas declare.
 */
module Schema {
  import opened Wrappers
  import opened JsText

  /** The two question kinds the schema's enum admits. */
  datatype QuestionType = Text | MultipleChoice

  /** The enum spelling of a question type. */
  function TypeName(t: QuestionType): string
  {
    match t
    case Text => "text"
    case MultipleChoice => "multiple-choice"
  }

  /** Reads an enum spelling back; anything outside the enum is rejected. */
  function ParseType(name: string): (r: Option<QuestionType>)
    ensures r.Some? <==> name == "text" || name == "multiple-choice"
    ensures r.Some? ==> TypeName(r.value) == name
  {
    if name == "text" then Some(Text)
    else if name == "multiple-choice" then Some(MultipleChoice)
    else None
  }

  /** Spelling a type and reading it back gives the type. */
  lemma TypeNameRoundTrip(t: QuestionType)
    ensures ParseType(TypeName(t)) == Some(t)
  {
  }

  /** An embedded question; `id` is the subdocument id the store assigns. */
  datatype Question = Question(id: string, text: string, qtype: QuestionType,
                               options: seq<string>, required: bool)

  /** A form document. `publicUrl` is absent until the pre-save hook fills it. */
  datatype Form = Form(id: string, title: string, description: Option<string>,
                       questions: seq<Question>, creator: string,
                       isActive: bool, publicUrl: Option<string>)

  /** A stored answer value: a string, or an array of strings. */
  datatype AnswerValue = Str(s: string) | List(items: seq<string>)

  /** An embedded answer: the question it answers, a snapshot of that question's text, and the value. */
  datatype Answer = Answer(questionId: string, questionText: string, value: AnswerValue)

  /** A response document; `submittedAt` is a time in milliseconds. */
  datatype Response = Response(formId: string, answers: seq<Answer>,
                               submittedAt: int, ipAddress: Option<string>)

  /** An answer as it arrives in a request body: every field may be missing. */
  datatype RawAnswer = RawAnswer(questionId: Option<string>, questionText: Option<string>,
                                 answer: Option<AnswerValue>)

  /** A question as it arrives in a request body: every field may be missing. */
  datatype RawQuestion = RawQuestion(text: Option<string>, qtype: Option<string>,
                                     options: Option<seq<string>>, required: Option<bool>)

  /** JavaScript truthiness of an optional string: absent and "" are falsy. */
  predicate Truthy(s: Option<string>)
  {
    s.Some? && s.value != ""
  }

  /**
   * Casts a request question into a stored one: text and each option are
   * trimmed, a missing options array becomes empty, and `required` defaults
   * to true. Defined only for a question whose type is in the enum.
   */
  function CastQuestion(id: string, q: RawQuestion): (r: Question)
    requires q.qtype.Some? && ParseType(q.qtype.value).Some?
    ensures r.id == id && TypeName(r.qtype) == q.qtype.value
    ensures q.text.Some? ==> r.text == Trim(q.text.value)
    ensures q.options.None? ==> r.options == []
    ensures q.options.Some? ==> |r.options| == |q.options.value|
    ensures q.options.Some? ==> forall k :: 0 <= k < |r.options| ==> r.options[k] == Trim(q.options.value[k])
    ensures q.required.None? ==> r.required
    ensures q.required.Some? ==> r.required == q.required.value
  {
    var opts := if q.options.Some? then q.options.value else [];
    Question(id,
             if q.text.Some? then Trim(q.text.value) else "",
             ParseType(q.qtype.value).value,
             seq(|opts|, k requires 0 <= k < |opts| => Trim(opts[k])),
             if q.required.Some? then q.required.value else true)
  }

  /** The pre-save hook: a falsy `publicUrl` becomes the form's id; a set one is kept. */
  function PreSave(f: Form): (r: Form)
    ensures Truthy(f.publicUrl) ==> r.publicUrl == f.publicUrl
    ensures !Truthy(f.publicUrl) ==> r.publicUrl == Some(f.id)
    ensures r.(publicUrl := f.publicUrl) == f
  {
    if Truthy(f.publicUrl) then f else f.(publicUrl := Some(f.id))
  }

  /** Saving a second time changes nothing the first save did not. */
  lemma PreSaveIdempotent(f: Form)
    ensures PreSave(PreSave(f)) == PreSave(f)
  {
  }

  /**
   * A new form document before its first save: `isActive` defaults to true
   * and there is no public URL yet.
   */
  function NewForm(id: string, title: string, description: Option<string>,
                   questions: seq<Question>, creator: string): (r: Form)
    ensures r.isActive && r.publicUrl.None?
    ensures r.id == id && r.creator == creator && r.questions == questions
    ensures r.title == Trim(title)
    ensures description.Some? ==> r.description == Some(Trim(description.value))
  {
    Form(id, Trim(title),
         if description.Some? then Some(Trim(description.value)) else None,
         questions, creator, true, None)
  }

  /** A saved new form is active and published under its own id. */
  lemma SavedNewFormSlug(id: string, title: string, description: Option<string>,
                         questions: seq<Question>, creator: string)
    ensures PreSave(NewForm(id, title, description, questions, creator)).publicUrl == Some(id)
    ensures PreSave(NewForm(id, title, description, questions, creator)).isActive
  {
  }

  /**
   * The schema's `required` validators on an incoming answer: a string field
   * rejects a missing value and "", a mixed field only a missing one.
   */
  function CastAnswer(a: RawAnswer): (r: Option<Answer>)
    ensures r.Some? <==> a.questionId.Some? && Truthy(a.questionText) && a.answer.Some?
    ensures r.Some? ==> r.value == Answer(a.questionId.value, a.questionText.value, a.answer.value)
  {
    if a.questionId.Some? && Truthy(a.questionText) && a.answer.Some? then
      Some(Answer(a.questionId.value, a.questionText.value, a.answer.value))
    else None
  }

  /** Casts every answer of a response body; one failing answer fails the whole save. */
  function CastAnswers(raws: seq<RawAnswer>): (r: Option<seq<Answer>>)
    ensures r.Some? <==> forall k :: 0 <= k < |raws| ==> CastAnswer(raws[k]).Some?
    ensures r.Some? ==> |r.value| == |raws|
    ensures r.Some? ==> forall k :: 0 <= k < |raws| ==> Some(r.value[k]) == CastAnswer(raws[k])
  {
    if |raws| == 0 then Some([])
    else
      match (CastAnswer(raws[0]), CastAnswers(raws[1..]))
      case (Some(a), Some(rest)) =>
        assert forall k :: 1 <= k < |raws| ==> raws[1..][k - 1] == raws[k];
        Some([a] + rest)
      case (None, _) => None
      case (_, None) =>
        assert forall k :: 1 <= k < |raws| ==> raws[1..][k - 1] == raws[k];
        None
  }

  /**
   * A new response document: `submittedAt` defaults to the creation time and
   * the address is optional.
   */
  function NewResponse(formId: string, answers: seq<Answer>, ip: Option<string>, now: int): (r: Response)
    ensures r.formId == formId && r.answers == answers
    ensures r.submittedAt == now && r.ipAddress == ip
  {
    Response(formId, answers, now, ip)
  }

  /** The collection's unique index on `publicUrl`: no two forms share a value (absent counts as one value). */
  predicate UniqueSlugs(forms: seq<Form>)
  {
    forall i, j :: 0 <= i < j < |forms| ==> forms[i].publicUrl != forms[j].publicUrl
  }

  /** Inserting into the collection: rejected when the new form's `publicUrl` is already indexed. */
  function InsertForm(forms: seq<Form>, f: Form): (r: Option<seq<Form>>)
    ensures r.None? <==> exists i :: 0 <= i < |forms| && forms[i].publicUrl == f.publicUrl
    ensures r.Some? ==> r.value == forms + [f]
    ensures UniqueSlugs(forms) && r.Some? ==> UniqueSlugs(r.value)
  {
    if exists i :: 0 <= i < |forms| && forms[i].publicUrl == f.publicUrl then None
    else Some(forms + [f])
  }
  /**
   * The shape the create route guarantees of a stored form: a non-blank
   * trimmed title, 3 to 5 questions, each with non-blank trimmed text, and at
   * least two options on every multiple-choice question.
   */
  predicate WellFormed(f: Form)
  {
    && !IsBlank(f.title) && Trim(f.title) == f.title
    && 3 <= |f.questions| <= 5
    && (forall k :: 0 <= k < |f.questions| ==>
          !IsBlank(f.questions[k].text) && Trim(f.questions[k].text) == f.questions[k].text)
    && (forall k :: 0 <= k < |f.questions| && f.questions[k].qtype == MultipleChoice ==>
          |f.questions[k].options| >= 2)
  }

  /** How an answer value is shown in a table cell or export row: arrays are joined with ", ". */
  function Displayed(v: AnswerValue): (r: string)
    ensures v.Str? ==> r == v.s
    ensures v.List? && |v.items| == 1 ==> r == v.items[0]
    ensures v.List? && |v.items| > 0 ==> v.items[0] <= r
  {
    match v
    case Str(s) => s
    case List(items) => Join(items, ", ")
  }

  /** How a response's address is shown: the address when truthy, "N/A" otherwise. */
  function IpCell(ip: Option<string>): (r: string)
    ensures r == "N/A" <==> !Truthy(ip) || ip.value == "N/A"
    ensures Truthy(ip) ==> r == ip.value
  {
    if Truthy(ip) then ip.value else "N/A"
  }
}
