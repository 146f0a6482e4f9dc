/**
 * The pieces put together: the create route accepts what the builder page
 * sends exactly when the validator measures its title and texts as filled
 * in, what the respondent's page sends to a created form is
 * stored answer for answer, and a deleted form leaves nothing to export.
 */
module Pipeline {
  import opened Wrappers
  import opened JsText
  import opened Schema
  import FormsRoute
  import PublicPage
  import FormBuilder

  /** A draft question as the builder serialises it into the request body. */
  function ToRawQuestion(d: FormBuilder.Draft): (r: RawQuestion)
    ensures r.text == Some(d.text) && r.options == Some(d.options) && r.required == Some(d.required)
    ensures r.qtype.Some? && ParseType(r.qtype.value) == Some(d.qtype)
  {
    TypeNameRoundTrip(d.qtype);
    RawQuestion(Some(d.text), Some(TypeName(d.qtype)), Some(d.options), Some(d.required))
  }

  /** The builder's request body as the create route reads it. */
  function ToRequest(p: FormBuilder.Builder): (r: FormsRoute.FormRequest)
    ensures r.title == Some(p.title) && r.description == Some(p.description)
    ensures r.questions.Some? && |r.questions.value| == |p.questions|
    ensures forall k :: 0 <= k < |p.questions| ==> r.questions.value[k] == ToRawQuestion(p.questions[k])
  {
    FormsRoute.FormRequest(Some(p.title), Some(p.description),
      Some(seq(|p.questions|, k requires 0 <= k < |p.questions| => ToRawQuestion(p.questions[k]))))
  }

  /**
   * The create route accepts what the builder sends exactly when the title
   * and every kept question text pass `trim().isLength({ min: 1 })`; it never
   * rejects the options. The builder's own test, `!s.trim()`, is weaker:
   * text made only of presentation selectors passes it and fails the route.
   */
  lemma RouteAcceptsBuilderPayload(b: FormBuilder.Builder)
    requires FormBuilder.Bounded(b)
    requires FormBuilder.Submit(b).outcome.Success?
    ensures var p := FormBuilder.Submit(b).outcome.value;
            var v := FormsRoute.ValidateCreate(ToRequest(p));
            && (v == Pass || v == Fail(FormsRoute.InvalidFields))
            && (v == Pass <==>
                  FormsRoute.FilledIn(b.title) &&
                  forall j :: 0 <= j < |p.questions| ==> FormsRoute.FilledIn(p.questions[j].text))
  {
    var qs := b.questions;
    var keep := FormBuilder.Kept(FormBuilder.TextsOf(qs));
    var p := FormBuilder.Submit(b).outcome.value;
    FormBuilder.SubmitSends(b);
    forall j | 0 <= j < |p.questions|
      ensures !IsBlank(p.questions[j].text) && !FormsRoute.LacksOptions(ToRawQuestion(p.questions[j]))
    {
      var d := qs[keep[j]];
      assert !IsBlank(FormBuilder.TextsOf(qs)[keep[j]]);
      CleanedPassesValidators(d);
    }
    RequestVerdict(p);
  }

  /** The create route's verdict on a serialised builder of three to five questions none of which breaks the options rule. */
  lemma RequestVerdict(p: FormBuilder.Builder)
    requires 3 <= |p.questions| <= 5
    requires forall j :: 0 <= j < |p.questions| ==> !FormsRoute.LacksOptions(ToRawQuestion(p.questions[j]))
    ensures var v := FormsRoute.ValidateCreate(ToRequest(p));
            && (v == Pass || v == Fail(FormsRoute.InvalidFields))
            && (v == Pass <==>
                  FormsRoute.FilledIn(p.title) &&
                  forall j :: 0 <= j < |p.questions| ==> FormsRoute.FilledIn(p.questions[j].text))
  {
    var req := ToRequest(p);
    var raws := req.questions.value;
    forall j | 0 <= j < |raws|
      ensures FormsRoute.QuestionFieldsValid(raws[j]) <==> FormsRoute.FilledIn(p.questions[j].text)
      ensures !FormsRoute.LacksOptions(raws[j])
    {
      RawFieldsValid(p.questions[j]);
    }
    FormsRoute.VerdictWithoutOptionFaults(req);
    assert FormsRoute.CountValid(req.questions);
    assert FormsRoute.TitleValid(req.title) <==> FormsRoute.FilledIn(p.title);
  }

  /** A serialised draft meets the per-question validators exactly when its text passes the length chain. */
  lemma RawFieldsValid(d: FormBuilder.Draft)
    ensures FormsRoute.QuestionFieldsValid(ToRawQuestion(d)) <==> FormsRoute.FilledIn(d.text)
  {
  }

  /** A kept question the builder's loop got past meets the route's per-question checks iff its text passes the length chain. */
  lemma CleanedPassesValidators(d: FormBuilder.Draft)
    requires !IsBlank(d.text) && !FormBuilder.LacksChoices(d)
    ensures FormBuilder.Cleaned(d).text == d.text
    ensures !FormsRoute.LacksOptions(ToRawQuestion(FormBuilder.Cleaned(d)))
  {
    var c := FormBuilder.Cleaned(d);
    if d.qtype == MultipleChoice {
      assert |c.options| >= 2;
    }
  }

  /**
   * A title of a single U+FE0F over three filled-in text questions: the
   * builder sends it, and the create route rejects it.
   */
  lemma SelectorTitleRejected()
    ensures var d := FormBuilder.Draft("Q", Text, [], true);
            var b := FormBuilder.Builder("\U{FE0F}", "", [d, d, d]);
            && FormBuilder.Submit(b).outcome.Success?
            && FormsRoute.ValidateCreate(ToRequest(FormBuilder.Submit(b).outcome.value)) == Fail(FormsRoute.InvalidFields)
  {
    FormsRoute.SelectorsOnlyFail("\U{FE0F}");
    var d := FormBuilder.Draft("Q", Text, [], true);
    assert !IsWhitespace(d.text[0]);
    var qs := [d, d, d];
    assert forall k :: 0 <= k < |qs| ==> qs[k] == d;
    UncountedTitleRejected("\U{FE0F}", qs);
  }

  /** The builder sends a title it sees as filled in that the route does not count, and the route refuses it. */
  lemma UncountedTitleRejected(title: string, qs: seq<FormBuilder.Draft>)
    requires !IsBlank(title) && !FormsRoute.FilledIn(title)
    requires FormBuilder.MinQuestions <= |qs| <= FormBuilder.MaxQuestions
    requires forall k :: 0 <= k < |qs| ==> qs[k].qtype == Text && !IsBlank(qs[k].text)
    ensures var b := FormBuilder.Builder(title, "", qs);
            && FormBuilder.Submit(b).outcome.Success?
            && FormsRoute.ValidateCreate(ToRequest(FormBuilder.Submit(b).outcome.value)) == Fail(FormsRoute.InvalidFields)
  {
    var b := FormBuilder.Builder(title, "", qs);
    TextDraftsSubmit(b);
    RouteAcceptsBuilderPayload(b);
  }

  /** A builder with a title and three to five filled-in text questions passes the page's own checks. */
  lemma TextDraftsSubmit(b: FormBuilder.Builder)
    requires !IsBlank(b.title) && FormBuilder.Bounded(b)
    requires forall k :: 0 <= k < |b.questions| ==> b.questions[k].qtype == Text && !IsBlank(b.questions[k].text)
    ensures FormBuilder.Submit(b).outcome.Success?
  {
    FormBuilder.KeptAll(FormBuilder.TextsOf(b.questions));
    assert forall k :: 0 <= k < |b.questions| ==> !FormBuilder.LacksChoices(b.questions[k]);
    FormBuilder.SubmitChecks(b);
  }

  /**
   * A form the respondent loaded, edited and submitted without a blocking
   * question is stored, answer for answer: each question's id and text and
   * the string the respondent left in its input, in form order.
   */
  lemma PageSubmissionStored(db: FormsRoute.Db, slug: string, edits: seq<(string, string)>,
                             ip: Option<string>, now: int)
    requires FormsRoute.FindPublic(db.forms, slug).Some?
    requires WellFormed(FormsRoute.FindPublic(db.forms, slug).value)
    requires PublicPage.SubmitPayload(
               FormsRoute.FindPublic(db.forms, slug).value.questions,
               PublicPage.ApplyEdits(PublicPage.LoadAnswers(FormsRoute.FindPublic(db.forms, slug).value.questions), edits)).Success?
    ensures var form := FormsRoute.FindPublic(db.forms, slug).value;
            var answers := PublicPage.ApplyEdits(PublicPage.LoadAnswers(form.questions), edits);
            var r := FormsRoute.Submit(db, slug, FormsRoute.Items(PublicPage.SubmitPayload(form.questions, answers).value), ip, now);
            && r.Success?
            && var stored := r.value.responses[|db.responses|];
               && stored.formId == form.id
               && |stored.answers| == |form.questions|
               && forall k :: 0 <= k < |form.questions| ==>
                    form.questions[k].id in answers &&
                    stored.answers[k] == Answer(form.questions[k].id, form.questions[k].text, Str(answers[form.questions[k].id]))
  {
    var form := FormsRoute.FindPublic(db.forms, slug).value;
    var qs := form.questions;
    var answers := PublicPage.ApplyEdits(PublicPage.LoadAnswers(qs), edits);
    PublicPage.EditsKeepEntries(qs, edits);
    var entries := PublicPage.FormatAnswers(qs, answers).value;
    var items := PublicPage.SubmitPayload(qs, answers).value;
    forall k | 0 <= k < |qs|
      ensures qs[k].id in answers
      ensures CastAnswer(items[k]) == Some(Answer(qs[k].id, qs[k].text, Str(answers[qs[k].id])))
    {
      assert qs[k].id in PublicPage.QuestionIds(qs);
      assert entries[k] == PublicPage.Entry(qs[k].id, qs[k].text, Some(answers[qs[k].id]));
      assert !IsBlank(qs[k].text);
      assert Truthy(Some(qs[k].text));
    }
    assert CastAnswers(items).Some?;
  }

  /** The create route followed by the public lookup: the new form is reachable under its own id. */
  lemma CreatedFormIsPublic(db: FormsRoute.Db, req: FormsRoute.FormRequest, formId: string,
                            creator: string, questionIds: seq<string>)
    requires req.questions.Some? ==> |questionIds| == |req.questions.value|
    requires UniqueSlugs(db.forms)
    requires FormsRoute.Create(db, req, formId, creator, questionIds).Success?
    ensures var forms := FormsRoute.Create(db, req, formId, creator, questionIds).value.forms;
            && FormsRoute.FindPublic(forms, formId) == Some(forms[|db.forms|])
            && WellFormed(forms[|db.forms|])
  {
    var forms := FormsRoute.Create(db, req, formId, creator, questionIds).value.forms;
    FormsRoute.FindPublicUnique(forms, formId, |db.forms|);
  }

  /** No two stored forms share an id. */
  predicate UniqueIds(forms: seq<Form>)
  {
    forall j, k :: 0 <= j < k < |forms| ==> forms[j].id != forms[k].id
  }

  /** After deleting a form, exporting it finds no form, and none of its responses remain. */
  lemma DeletedFormGone(db: FormsRoute.Db, id: string, creator: string, iso: int -> string)
    requires UniqueIds(db.forms)
    requires FormsRoute.Delete(db, id, creator).Success?
    ensures FormsRoute.ExportRoute(FormsRoute.Delete(db, id, creator).value, id, creator, iso) == Failure(FormsRoute.FormNotFound)
    ensures FormsRoute.ResponsesOf(FormsRoute.Delete(db, id, creator).value.responses, id) == []
  {
    var i := FormsRoute.FindOwned(db.forms, id, creator).value;
    var after := FormsRoute.Delete(db, id, creator).value;
    var forms := after.forms;
    assert forms == db.forms[..i] + db.forms[i + 1..];
    forall k | 0 <= k < |forms|
      ensures !(forms[k].id == id && forms[k].creator == creator)
    {
      if k < i {
        assert forms[k] == db.forms[k];
      } else {
        assert forms[k] == db.forms[k + 1];
      }
    }
    FormsRoute.DeleteLeavesNoOrphans(db, id, creator);
  }
}
