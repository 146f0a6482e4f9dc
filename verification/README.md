# Feedback forms: definition, submission, summary and export

This project models the core of a small feedback-form application. A
creator builds a form of three to five questions, and the server validates
and stores it. Respondents answer the form on a public page, and the server
stores each submission as a response. The creator then sees a table and a
per-question summary of the responses, or exports them as rows.

Every rule along that pipeline is modelled as a pure Dafny function over
immutable datatypes:

- the checks the server's create, update and submit routes make;
- the defaults and the save hook of the form and response document schemas;
- the checks and the in-place pruning of the form builder page;
- the respondent page's formatting of its answer map;
- the response table, the multiple-choice tally and its `Object.entries`
  order, and the export rows;
- the password checks of the registration page.

Modules, one per part of the program:

| module | file | models |
|---|---|---|
| `Wrappers` | wrappers.dfy | `Option`, `Result`, `Outcome` |
| `JsText` | jstext.dfy | `trim`, `join`, UTF-16 `length`, array-index property keys |
| `Schema` | schema.dfy | server/models/Form.js and server/models/Response.js |
| `FormsRoute` | forms_route.dfy | server/routes/forms.js: create, public lookup, submit, export, update validators, delete |
| `PublicPage` | public_page.dfy | client/src/pages/PublicForm.js |
| `Tally` | tally.dfy | the counts object of client/src/pages/ViewResponses.js and `Object.entries` |
| `ResponsesView` | responses_view.dfy | client/src/pages/ViewResponses.js: table cells and summary blocks |
| `FormBuilder` | create_form.dfy | client/src/pages/CreateForm.js |
| `Registration` | register.dfy | client/src/pages/Register.js |
| `Pipeline` | pipeline.dfy | lemmas across components: builder to create route, page to submit route, delete to export |

## How the model treats the program

- **Storage.** The document store is a pair of sequences in insertion order.
- **Identifiers.** The form id, the question subdocument ids, the creator,
  the request's address and the current time are parameters.
- **Export timestamps.** `toISOString` is the parameter `iso: int -> string`.
- **Trimming.** `trim` strips the ECMAScript WhiteSpace and LineTerminator
  characters. The request validators and the schemas' `trim: true` both use
  that set.
- **Lengths.** `s.length` counts UTF-16 code units, so a character outside
  the Basic Multilingual Plane counts twice.
- **Validator lengths.** The request validators check `trim()` followed by
  validator.js `isLength({ min: 1 })`. That measure is the UTF-16 length
  less the presentation selectors U+FE0E and U+FE0F and less one per
  surrogate pair, that is, the number of characters other than the two
  selectors. A title made only of such selectors is therefore refused by
  the server although it is not blank. The builder page checks only
  `!title.trim()` and sends it.
- **Percentages.** `Math.round(count / n * 100)` is computed exactly as
  `(200·count + n) / (2·n)`.
- **Summary order.** The counts object lists properties in `Object.entries`
  order. Keys that are array indices come first, in ascending numeric order.
  The other keys follow in the order they were created.
- **Export keys.** Each answer is written into its row object under its
  question text. Assigning a string to `__proto__` is ignored, so an answer
  whose question text is `__proto__` gets no cell.
- **Submitted answers.** The submit route stores any array of answers that
  passes the answer schema. It does not compare answers with the form's
  questions, and nothing rejects an answer that is not one of the options.
- **Required answers.** Only the respondent's page checks that required
  questions are answered.
- **Options.** The server checks only how many options a multiple-choice
  question has. An option of spaces is trimmed to "" and still stored.
- **Answer values.** An answer value is a string or an array of strings.
- **Updates.** The update route checks only the title and the question count.
- **Deleting.** A form and its responses are removed by two separate
  deletions.


## Model

| member | source | states |
|---|---|---|
| JsText.Trim | server/routes/forms.js:12-14 | `trim` yields "" exactly when the input is all whitespace; otherwise the result neither starts nor ends with whitespace |
| JsText.TrimSlice | server/routes/forms.js:12-14 | the result of `trim` is a contiguous slice of the input, with only whitespace before and after it |
| JsText.TrimIdempotent | server/models/Form.js:4-8 | trimming text the validator already trimmed changes nothing more |
| JsText.BlankIffAllWhitespace | client/src/pages/CreateForm.js:80-83 | the test `!s.trim()` holds exactly for strings made only of whitespace |
| JsText.Join | server/routes/forms.js:203-205 | joining no items gives ""; a joined array starts with its first item and ends with its last |
| JsText.JoinLength | server/routes/forms.js:203-205 | a joined array holds every item plus one separator between each neighbouring pair |
| JsText.JoinSnoc | server/routes/forms.js:203-205 | joining one more item appends the separator and the item |
| JsText.Utf16Length | client/src/pages/Register.js:34 | `length` lies between the code-point count and twice it, and equals the code-point count exactly when no character is outside the Basic Multilingual Plane |
| Schema.ParseType | server/models/Form.js:9-13 | only "text" and "multiple-choice" are accepted, and an accepted type spells back to the same name |
| Schema.TypeNameRoundTrip | server/models/Form.js:9-13 | spelling a type and parsing it back gives the type |
| Schema.CastQuestion | server/models/Form.js:3-22 | a stored question has its trimmed text, each option trimmed, no options when none were sent, and `required` true unless sent |
| Schema.PreSave | server/models/Form.js:53-58 | the hook sets `publicUrl` to the id only when it is falsy, keeps a set one, and changes no other field |
| Schema.PreSaveIdempotent | server/models/Form.js:53-58 | saving twice gives the same document as saving once |
| Schema.NewForm | server/models/Form.js:24-50 | a new form is active, has no public URL yet, and has its title and description trimmed |
| Schema.SavedNewFormSlug | server/models/Form.js:40-58 | a new form, once saved, is active and published under its own id |
| Schema.CastAnswer | server/models/Response.js:3-16 | an answer is accepted iff it has a question id, a non-empty question text and a value; the stored answer carries exactly those |
| Schema.CastAnswers | server/models/Response.js:24 | a response's answers are saved only if every answer is accepted, one stored answer per sent answer, in order |
| Schema.NewResponse | server/models/Response.js:18-31 | a new response references its form, is timestamped with the creation time, and carries the optional address |
| Schema.InsertForm | server/models/Form.js:44-47 | the unique index refuses a form iff its `publicUrl` is already stored, otherwise appends it, and keeps slugs unique |
| Schema.Displayed | server/routes/forms.js:203-205 | a string answer is shown as is; an array is shown joined, starting with its first item, a one-item array as that item |
| Schema.IpCell | server/routes/forms.js:199 | the address cell is the address when it is truthy and "N/A" otherwise |
| FormsRoute.FirstLackingOptions | server/routes/forms.js:26-31 | the loop finds nothing iff no multiple-choice question lacks two options, otherwise the first that does |
| FormsRoute.SelectorCount | server/routes/forms.js:12 | the number of presentation selectors in a string, which is its whole length iff it holds nothing else |
| FormsRoute.Utf16LengthPairs | server/routes/forms.js:12 | the UTF-16 length is the character count plus one per character outside the Basic Multilingual Plane |
| FormsRoute.MeasuredLength | server/routes/forms.js:12 | the validator's length, UTF-16 length less selectors and surrogate pairs, is the number of characters other than the two selectors |
| FormsRoute.FilledInIffSomeCounted | server/routes/forms.js:12-14 | `trim().isLength({ min: 1 })` holds iff the trimmed text has a character other than U+FE0E and U+FE0F |
| FormsRoute.FilledInNotBlank | server/routes/forms.js:12-14 | text passing the length check is not blank, and its trimmed form is already trimmed |
| FormsRoute.FilledInFromFirst | server/routes/forms.js:12-14 | text whose first character is neither whitespace nor a selector passes the length check |
| FormsRoute.SelectorsOnlyFail | server/routes/forms.js:12-14 | non-empty text made only of selectors is not blank and fails the length check |
| FormsRoute.VerdictWithoutOptionFaults | server/routes/forms.js:11-32 | when no question breaks the options rule, create passes iff the field validators pass, and otherwise reports invalid fields |
| FormsRoute.ValidateCreate | server/routes/forms.js:11-32 | the field validators fail iff title, count, a text or a type is invalid; the options error is raised iff they all pass and some multiple-choice question has a missing or short options array |
| FormsRoute.Create | server/routes/forms.js:11-44 | create fails with a validation error iff validation fails, and with a duplicate key iff validation passes and the new id is already a stored slug; on success it appends one active, well-formed form published under its id, with the trimmed title and description and each sent question cast under its id, keeps the responses and the earlier forms, and keeps slugs unique |
| FormsRoute.NewDocument | server/routes/forms.js:34-41 | the document saved for a validated request carries the given id and creator, the trimmed title, the trimmed description when one was sent, and each sent question cast under its id; it is active, published under its id, and well-formed |
| FormsRoute.CreatedWellFormed | server/routes/forms.js:12-41 | validation and casting together give a trimmed non-blank title, 3 to 5 trimmed non-blank questions, and two options on every multiple-choice question |
| FormsRoute.CastKeepsFields | server/routes/forms.js:14-15 | a question that passed the validators keeps non-blank trimmed text once stored, and its two options if multiple-choice |
| FormsRoute.ValidateUpdate | server/routes/forms.js:224-232 | update passes iff the trimmed title has validator length at least one and there are 3 to 5 questions |
| FormsRoute.CreateValidImpliesUpdateValid | server/routes/forms.js:224-226 | every request create accepts, update accepts |
| FormsRoute.OptionlessChoicesPassUpdate | server/routes/forms.js:224-232 | three multiple-choice questions without options, under a title and text that pass the length check, pass update and are refused by create for too few options |
| FormsRoute.UpdateSkipsOptionsRule | server/routes/forms.js:224-232 | update accepts multiple-choice questions with no options, which create refuses |
| FormsRoute.FindPublic | server/routes/forms.js:124-131 | the lookup finds nothing iff no active form holds the slug; a found form is active and holds it |
| FormsRoute.FindPublicUnique | server/routes/forms.js:124-127 | with unique slugs the lookup returns the one active form holding the slug |
| FormsRoute.Submit | server/routes/forms.js:120-145 | not found iff no active form; bad format iff found but `answers` is not an array; rejected iff an answer fails the schema; otherwise exactly one response is appended, holding the sent answers unchanged, the form, the time and the address |
| FormsRoute.NotFoundIgnoresPayload | server/routes/forms.js:124-131 | whether a submission is "not found" does not depend on its answers, address or time |
| FormsRoute.FillRow | server/routes/forms.js:202-206 | the row gains one key per answer text other than `__proto__`; each holds the display of the last answer with that text; every other key keeps its value |
| FormsRoute.ExportRow | server/routes/forms.js:196-208 | a row has "Submitted At", "IP Address" and one key per answer text other than `__proto__`; the fixed cells hold the time and the address unless an answer text overwrites them |
| FormsRoute.ProtoTextLeavesNoCell | server/routes/forms.js:202-206 | a response whose only answer has the question text `__proto__` exports just the two fixed cells: that answer is lost |
| FormsRoute.ExportRows | server/routes/forms.js:191-209 | no responses is an error; otherwise there is exactly one row per response, in order |
| FormsRoute.ResponsesOf | server/routes/forms.js:188-189 | every selected response belongs to the form, and each response of the form occurs as many times as in the store |
| FormsRoute.ResponsesOfAppend | server/routes/forms.js:188-189 | selecting from two concatenated stores concatenates the selections, so store order is kept |
| FormsRoute.ResponsesNotOf | server/routes/forms.js:263-264 | every kept response belongs to another form, and each such response occurs as many times as in the store |
| FormsRoute.ResponsesNotOfAppend | server/routes/forms.js:263-264 | dropping from two concatenated stores concatenates the results, so store order is kept |
| FormsRoute.FindOwned | server/routes/forms.js:179-186 | the owner-scoped lookup finds nothing iff no form has this id and creator |
| FormsRoute.ExportRoute | server/routes/forms.js:177-209 | export fails "not found" iff the owner has no such form, "no responses" iff the form has none, else gives one row per response |
| FormsRoute.Delete | server/routes/forms.js:252-264 | delete fails iff the owner has no such form; otherwise exactly that form and its responses are removed |
| FormsRoute.DeleteLeavesNoOrphans | server/routes/forms.js:259-264 | after a delete no response of the form remains and every other response is kept |
| PublicPage.LoadAnswers | client/src/pages/PublicForm.js:23-28 | after loading, the answer map has exactly one key per question, each holding "" |
| PublicPage.ChangeAnswer | client/src/pages/PublicForm.js:36-41 | an edit sets the given question's entry and leaves every other entry unchanged |
| PublicPage.EditsKeepEntries | client/src/pages/PublicForm.js:23-41 | after loading and any edits, every question still has an entry |
| PublicPage.FormatAnswers | client/src/pages/PublicForm.js:48-60 | formatting fails iff some required question is unanswered or blank; otherwise entry k carries question k's id, text and current answer |
| PublicPage.FormatAnswersFirst | client/src/pages/PublicForm.js:51-53 | the failure message is "Please answer: " and the text of the first blocking question in form order |
| PublicPage.OptionalNeverBlocks | client/src/pages/PublicForm.js:51-58 | a form of optional questions always formats, whatever the answers |
| PublicPage.SubmitPayload | client/src/pages/PublicForm.js:48-65 | a blocked submission sends nothing; otherwise one answer per question is sent, in form order |
| PublicPage.HandleSubmitAsWritten | client/src/pages/PublicForm.js:43-76 | as written: a blocked submission sends nothing and leaves the error empty; a sent one is marked submitted iff delivered, and shows an error iff it was not |
| PublicPage.HandleSubmit | client/src/pages/PublicForm.js:43-76 | as evidently intended: like the handler as written, but a blocked submission shows the formatting message |
| PublicPage.BlockedMessageLost | client/src/pages/PublicForm.js:45-72 | when a question blocks, the page as written shows "" where the intended page names the blocking question; otherwise the two agree |
| PublicPage.EmptyRequiredAnswerExample | client/src/pages/PublicForm.js:45-72 | one required question left empty: the page as written shows no message, the intended page "Please answer: Name" |
| ResponsesView.FindAnswer | client/src/pages/ViewResponses.js:126-128 | `find` gives nothing iff no answer has the question id, otherwise the first that does |
| ResponsesView.TableCell | client/src/pages/ViewResponses.js:126-135 | a cell is "N/A" when the response has no answer to the question, else the display of its first answer |
| ResponsesView.TableRow | client/src/pages/ViewResponses.js:125-139 | a row has one cell per form question, in form order, then the address cell |
| ResponsesView.TableFirstExportLast | client/src/pages/ViewResponses.js:126-135 | with two answers to one question the table cell shows the first, while the export row's cell for that question text holds the last |
| ResponsesView.AnsweredKeysCount | client/src/pages/ViewResponses.js:151-153 | one value is counted per response whose first answer to the question is truthy |
| ResponsesView.AnsweredKeysSound | client/src/pages/ViewResponses.js:151-158 | every counted value is the key of some answering response's answer |
| ResponsesView.AnsweredKeysComplete | client/src/pages/ViewResponses.js:151-158 | the key of every answering response's answer is counted |
| ResponsesView.RoundPercent | client/src/pages/ViewResponses.js:172 | the percentage is the integer nearest to 100·count/n, halves rounded up |
| ResponsesView.RoundPercentFacts | client/src/pages/ViewResponses.js:172 | the percentage is at most 100, exactly 100 when every response has the value, and 0 for none |
| ResponsesView.StatsOf | client/src/pages/ViewResponses.js:156-172 | the counts of a block add up to the number of answering responses, each is at least 1, and each share is rounded against that number |
| ResponsesView.StatsCountValues | client/src/pages/ViewResponses.js:156-167 | each summary line counts exactly the occurrences of its value |
| ResponsesView.StatsCoverValues | client/src/pages/ViewResponses.js:156-167 | every counted value has a summary line |
| ResponsesView.SummarizeQuestion | client/src/pages/ViewResponses.js:150-195 | a question has a block iff it is multiple-choice and some response answers it truthily; the block's denominator is the number of such responses, and its lines are the tally of exactly those answers |
| ResponsesView.Summarize | client/src/pages/ViewResponses.js:150-195 | the summary holds exactly the blocks of the questions that have one, in form question order |
| ResponsesView.SummaryExample | client/src/pages/ViewResponses.js:151-172 | answers A, B, A summarise as A 2 (67%) then B 1 (33%) |
| ResponsesView.EntriesOrderExample | client/src/pages/ViewResponses.js:167 | values "b", "10", "2" are listed as "2", "10", "b" |
| Tally.BumpKeys | client/src/pages/ViewResponses.js:159 | counting a seen value keeps the keys; an unseen value's key is appended |
| Tally.BumpTotal | client/src/pages/ViewResponses.js:159 | counting one value adds one to the total |
| Tally.BumpCount | client/src/pages/ViewResponses.js:159 | counting a value adds one to its count and leaves every other count alone |
| Tally.BumpShape | client/src/pages/ViewResponses.js:159 | counting keeps the keys distinct and the counts positive |
| Tally.BumpAgrees | client/src/pages/ViewResponses.js:159 | for a value that names no Object.prototype member, the page's increment is the intended one |
| Tally.CountAll | client/src/pages/ViewResponses.js:156-160 | the counts object has distinct keys and positive counts |
| Tally.CountMultiplicity | client/src/pages/ViewResponses.js:156-160 | the count recorded for a value is its number of occurrences |
| Tally.CountKeys | client/src/pages/ViewResponses.js:156-160 | exactly the counted values become keys |
| Tally.CountTotal | client/src/pages/ViewResponses.js:156-160 | the counts add up to the number of values |
| Tally.CountEntries | client/src/pages/ViewResponses.js:156-160 | each property's count is the number of times its key occurs |
| Tally.CountFirstSeenOrder | client/src/pages/ViewResponses.js:156-160 | properties are created in the order their values are first seen |
| Tally.SortByIndex | client/src/pages/ViewResponses.js:167 | the array-index properties are put in ascending numeric order, as a permutation keeping the total |
| Tally.Entries | client/src/pages/ViewResponses.js:167 | `Object.entries` lists every property exactly once |
| Tally.EntriesOrder | client/src/pages/ViewResponses.js:167 | array-index keys come first and ascend; the other keys keep their creation order |
| Tally.EntriesTotal | client/src/pages/ViewResponses.js:167 | listing loses no count |
| Tally.CountedIsListed | client/src/pages/ViewResponses.js:156-167 | every counted value is listed |
| Tally.BumpAsWritten | client/src/pages/ViewResponses.js:159 | as written: counting "__proto__" changes nothing, and counting any other value adds at most one property |
| Tally.AsWrittenAgreesOnPlainKeys | client/src/pages/ViewResponses.js:156-160 | when no value names an Object.prototype member, the counts object as written holds exactly the intended counts |
| Tally.ProtoAnswerVanishes | client/src/pages/ViewResponses.js:156-160 | as written, an answer "__proto__" produces no property, where one count was intended |
| Tally.ConstructorAnswerGarbled | client/src/pages/ViewResponses.js:156-160 | as written, an answer "constructor" is given a function's source text plus "1" instead of the count 1 |
| FormBuilder.Init | client/src/pages/CreateForm.js:6-14 | the page starts with an empty title and description and exactly three blank required text questions without options |
| FormBuilder.Kept | client/src/pages/CreateForm.js:85 | the filter keeps only non-blank items, in their original order |
| FormBuilder.KeptComplete | client/src/pages/CreateForm.js:85 | the filter keeps every non-blank item |
| FormBuilder.NonblankOptions | client/src/pages/CreateForm.js:94 | the valid options are the non-blank options, in order |
| FormBuilder.NonblankOptionsIdempotent | client/src/pages/CreateForm.js:94-99 | filtering the options a second time changes nothing |
| FormBuilder.SetInput | client/src/pages/CreateForm.js:20-25 | typing sets the named input and leaves the other input and the questions alone |
| FormBuilder.ChangeQuestion | client/src/pages/CreateForm.js:27-37 | an edit of a question's text or type changes only that field of that question; choosing the text type clears its options, choosing multiple choice keeps them |
| FormBuilder.ChangeOption | client/src/pages/CreateForm.js:39-45 | typing into an option changes only that option of that question |
| FormBuilder.AddOption | client/src/pages/CreateForm.js:47-51 | an empty option is appended to that question only |
| FormBuilder.RemoveOption | client/src/pages/CreateForm.js:53-57 | that option is removed from that question only, the others kept in order |
| FormBuilder.AddQuestion | client/src/pages/CreateForm.js:59-66 | a blank question is appended only while there are fewer than five |
| FormBuilder.DropIndex | client/src/pages/CreateForm.js:70 | exactly index i is removed and the others keep their order |
| FormBuilder.RemoveQuestion | client/src/pages/CreateForm.js:68-73 | question i is removed only while there are more than three |
| FormBuilder.ApplyBounded | client/src/pages/CreateForm.js:59-73 | no single action takes the question count outside 3 to 5 |
| FormBuilder.SessionBounded | client/src/pages/CreateForm.js:20-73 | no run of actions takes the question count outside 3 to 5 |
| FormBuilder.Cleaned | client/src/pages/CreateForm.js:93-100 | a kept multiple-choice question gets its non-blank options; any other question is unchanged |
| FormBuilder.Stop | client/src/pages/CreateForm.js:92-98 | the loop stops at the first question it rejects, or runs to the end |
| FormBuilder.PruneStops | client/src/pages/CreateForm.js:92-101 | questions before the stopping point are cleaned; the rest are left as they were |
| FormBuilder.Nonblank | client/src/pages/CreateForm.js:85 | the valid questions are the questions with non-blank text, in order |
| FormBuilder.Submit | client/src/pages/CreateForm.js:75-109 | a failed title or count check leaves the page state alone; past them, the questions in the page state are pruned even when the options check fails |
| FormBuilder.SubmitChecks | client/src/pages/CreateForm.js:80-98 | the title error, the count error and the options error each occur exactly when that check is the first to fail |
| FormBuilder.SubmitSends | client/src/pages/CreateForm.js:85-109 | a successful submit sends the title and description as typed and the non-blank questions, in order, each with its non-blank options |
| FormBuilder.CleanedIdempotent | client/src/pages/CreateForm.js:94-99 | cleaning twice is cleaning once, and cleaning does not change whether the loop rejects a question |
| FormBuilder.PruneIdempotent | client/src/pages/CreateForm.js:92-101 | running the loop over its own output stops at the same place and changes nothing more |
| FormBuilder.PruneKeepsTexts | client/src/pages/CreateForm.js:92-101 | the loop never changes a question's text |
| FormBuilder.SubmitAgain | client/src/pages/CreateForm.js:75-109 | pressing submit again on the state a submit left gives the same outcome and the same state |
| Registration.Check | client/src/pages/Register.js:25-45 | mismatch iff the passwords differ; too short iff they match and have fewer than 6 units; otherwise only name, email and password are sent |
| Registration.LongPasswordsPass | client/src/pages/Register.js:34-37 | matching passwords of six or more characters always pass |
| Registration.BmpLengthIsCodePoints | client/src/pages/Register.js:34 | inside the Basic Multilingual Plane the length check counts characters |
| Registration.AstralPasswordPasses | client/src/pages/Register.js:34-37 | three emoji are six units and pass the length check |
| Pipeline.RouteAcceptsBuilderPayload | client/src/pages/CreateForm.js:80-109 | the create route never refuses what the builder sends for its options, and accepts it iff the title and every sent question text pass the validator's length check; otherwise it reports invalid fields |
| Pipeline.RequestVerdict | server/routes/forms.js:11-32 | for a serialised builder of 3 to 5 questions that meet the options rule, the route passes iff the title and every text pass the length check, and otherwise reports invalid fields |
| Pipeline.CleanedPassesValidators | client/src/pages/CreateForm.js:92-100 | cleaning a question the builder got past keeps its text and leaves it meeting the route's options rule |
| Pipeline.RawFieldsValid | server/routes/forms.js:14-15 | a serialised draft passes the per-question validators iff its text passes the length check |
| Pipeline.TextDraftsSubmit | client/src/pages/CreateForm.js:80-101 | a builder with a non-blank title and three to five non-blank text questions passes the page's own checks |
| Pipeline.UncountedTitleRejected | server/routes/forms.js:12 | a title the page sees as non-blank but the validator measures as empty passes the builder and is refused by the route with invalid fields |
| Pipeline.SelectorTitleRejected | server/routes/forms.js:12 | the title "\uFE0F" over three text questions is sent by the builder and refused by the route |
| Pipeline.PageSubmissionStored | client/src/pages/PublicForm.js:48-65 | a submission the page sends to an active form is stored with one answer per question: its id, its text and the answer the respondent left, in form order |
| Pipeline.CreatedFormIsPublic | server/routes/forms.js:101-110 | with unique slugs, a created form is found by the public lookup under its id, and is well-formed |
| Pipeline.DeletedFormGone | server/routes/forms.js:252-264 | after a delete, exporting the form finds no form, and none of its responses remain |

## Left out

- HTTP and Express wiring, the auth middleware, `populate`, `countDocuments`, the JSON responses and status codes. The model keeps the error kinds and drops the status codes and messages.
- The two list routes and the single-form route. They only read and count.
- `json2csv` column derivation and CSV quoting. An export row stops at the key-to-value map.
- The response list's `createdAt` descending sort, and the `createdAt`/`updatedAt` timestamps.
- FormsRoute.ResponsesOf: keeps the store's insertion order instead of sorting newest first. A row sequence is stated for whatever order it is given.
- FormsRoute.FillRow: follows the code, so an answer whose question text is `__proto__` has no cell in its export row. The model defines no export that keeps such an answer.
- FormsRoute.ExportRoute: states the number of rows, and leaves their content to ExportRows over the form's responses.
- ObjectId generation and casting. Ids are plain strings given as parameters. The model does not check that an answer's question id is a well-formed ObjectId.
- Mongoose casting of answer values other than a string or an array of strings.
- FormsRoute.Create: request fields are modelled with the JSON types the builder page sends: a string title and text, and an options array of strings. A body with a non-array `options` is not modelled. For example, `"options": "ab"` has length 2 and passes the options check, and the schema then wraps it into the one-option array `["ab"]`. So the route can store a multiple-choice question with one option, which the well-formedness promised by FormsRoute.Create, FormsRoute.NewDocument and FormsRoute.CreatedWellFormed excludes only for bodies of these types. The same restriction leaves out a non-string title or text.
- FormsRoute.ValidateUpdate: only the update route's two validators are modelled. The update itself replaces fields with the raw body through `findOneAndUpdate`, and that replacement is not modelled.
- The two-step, non-atomic delete. The model applies both steps together.
- Floating-point effects of `count / n * 100` and the bar-width style value. Rounding is exact.
- Date formatting in the browser locale, file download, loading indicators and navigation.
- Whether a request reaches the server. The respondent page's outcome is the parameter `delivered`.
- The account service call after the registration checks, and what the page does with its result.
- FormBuilder.ChangeQuestion, FormBuilder.ChangeOption, FormBuilder.AddOption and FormBuilder.RemoveOption: these require an index the page displays. The page only calls them from rendered rows, so an out-of-range index cannot arise. `FormBuilder.Session` returns `None` for an action naming such an index.
- The dashboard, login, header and home pages, the API client, the server bootstrap and the health route. They are UI and plumbing outside this core.

## Findings

| source | as written | input that shows it | evidently intended | confidence | as-written member | corrected member |
|---|---|---|---|---|---|---|
| client/src/pages/ViewResponses.js:156-160 | `counts` starts as `{}`, so `counts[answer]` finds an Object.prototype member when the answer names one; the first count of "constructor" becomes that function's source text plus "1" | one response answering a multiple-choice question with "constructor" | the count 1 for "constructor" | not executed; high | Tally.ConstructorAnswerGarbled | Tally.CountMultiplicity |
| client/src/pages/ViewResponses.js:156-160 | `counts["__proto__"] \|\| 0` reads Object.prototype, so the value assigned is the string "[object Object]1", and the `__proto__` setter ignores a value that is not an object; so that answer is counted in the denominator but never listed | one response answering a multiple-choice question with "__proto__" | a line "__proto__" with count 1 | not executed; high | Tally.ProtoAnswerVanishes | Tally.CountKeys |
| client/src/pages/PublicForm.js:45-72 | the "Please answer:" error is thrown while the answers are formatted, before the `try` whose `catch` would show it; the handler rejects, and the error stays "" | a form with one required question submitted with its answer left empty | the page shows "Please answer: " and the question's text | not executed; high | PublicPage.HandleSubmitAsWritten | PublicPage.HandleSubmit |

Both halves of each finding are in the model:

- **Counts object.** The counts object as written is `Tally.CountAllAsWritten`. `Tally.AsWrittenAgreesOnPlainKeys` proves that it agrees with the intended `Tally.CountAll` whenever no answer names an Object.prototype member. The summary is built on the intended counts.
- **Respondent page.** `PublicPage.BlockedMessageLost` proves that the two handlers differ exactly when a question blocks. `PublicPage.EmptyRequiredAnswerExample` shows that difference on a concrete input.
