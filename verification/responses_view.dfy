/**
 * The creator's responses page: the table of answers per question and the
 * per-question summary of multiple-choice answers.
 */
module ResponsesView {
  import opened Wrappers
  import opened JsText
  import opened Schema
  import opened Tally
  import FormsRoute

  /** `answers.find(a => a.questionId === id)`, as an index. */
  function FindAnswer(answers: seq<Answer>, questionId: string): (r: Option<nat>)
    ensures r.None? <==> forall k :: 0 <= k < |answers| ==> answers[k].questionId != questionId
    ensures r.Some? ==> r.value < |answers| && answers[r.value].questionId == questionId
    ensures r.Some? ==> forall k :: 0 <= k < r.value ==> answers[k].questionId != questionId
  {
    if |answers| == 0 then None
    else if answers[0].questionId == questionId then Some(0)
    else
      match FindAnswer(answers[1..], questionId)
      case None =>
        assert forall k :: 1 <= k < |answers| ==> answers[1..][k - 1] == answers[k];
        None
      case Some(i) =>
        assert forall k :: 1 <= k < i + 1 ==> answers[1..][k - 1] == answers[k];
        Some(i + 1)
  }

  /** One table cell: the first answer to the question, shown joined if an array, or "N/A". */
  function TableCell(resp: Response, q: Question): (r: string)
    ensures FindAnswer(resp.answers, q.id).None? ==> r == "N/A"
    ensures FindAnswer(resp.answers, q.id).Some? ==>
              r == Displayed(resp.answers[FindAnswer(resp.answers, q.id).value].value)
  {
    match FindAnswer(resp.answers, q.id)
    case None => "N/A"
    case Some(i) => Displayed(resp.answers[i].value)
  }

  /** A table row without its date cell: one cell per form question, then the address. */
  datatype TableLine = TableLine(cells: seq<string>, ip: string)

  function TableRow(qs: seq<Question>, resp: Response): (r: TableLine)
    ensures |r.cells| == |qs|
    ensures forall k :: 0 <= k < |qs| ==> r.cells[k] == TableCell(resp, qs[k])
    ensures r.ip == IpCell(resp.ipAddress)
  {
    TableLine(seq(|qs|, k requires 0 <= k < |qs| => TableCell(resp, qs[k])), IpCell(resp.ipAddress))
  }

  /** The table shows the first answer for a question where the export keeps the last. */
  lemma TableFirstExportLast(iso: int -> string)
    ensures var q := Question("q1", "Colour", MultipleChoice, ["Red", "Blue"], true);
            var resp := Response("f1", [Answer("q1", "Colour", Str("Red")), Answer("q1", "Colour", Str("Blue"))], 0, None);
            && TableCell(resp, q) == "Red"
            && "Colour" in FormsRoute.ExportRow(resp, iso)
            && FormsRoute.ExportRow(resp, iso)["Colour"] == "Blue"
  {
  }

  /** JavaScript truthiness of an answer value: a non-empty string, or any array. */
  predicate TruthyValue(v: AnswerValue)
  {
    v.List? || v.s != ""
  }

  /** The property key a value becomes: `String(value)`, which joins an array with ",". */
  function CountKey(v: AnswerValue): string
  {
    match v
    case Str(s) => s
    case List(items) => Join(items, ",")
  }

  /** A response answers a question when its first answer to it has a truthy value. */
  predicate Answered(resp: Response, questionId: string)
  {
    var i := FindAnswer(resp.answers, questionId);
    i.Some? && TruthyValue(resp.answers[i.value].value)
  }

  /** For each response, whether it answers the question. */
  function AnswerFlags(responses: seq<Response>, questionId: string): (r: seq<bool>)
    ensures |r| == |responses| && forall k :: 0 <= k < |responses| ==> r[k] == Answered(responses[k], questionId)
  {
    seq(|responses|, k requires 0 <= k < |responses| => Answered(responses[k], questionId))
  }

  /** The positions whose flag is set. */
  function Marked(flags: seq<bool>): set<nat>
  {
    set k: nat | k < |flags| && flags[k]
  }

  /** The responses that answer a question, by position. */
  function AnsweringPositions(responses: seq<Response>, questionId: string): set<nat>
  {
    Marked(AnswerFlags(responses, questionId))
  }

  /** The key an answering response's answer is counted under. */
  function KeyOf(resp: Response, questionId: string): string
    requires Answered(resp, questionId)
  {
    CountKey(resp.answers[FindAnswer(resp.answers, questionId).value].value)
  }

  /** The counted values of a question: the key of each answering response's answer, in response order. */
  function AnsweredKeys(responses: seq<Response>, questionId: string): seq<string>
  {
    if |responses| == 0 then []
    else
      var n := |responses| - 1;
      var rest := AnsweredKeys(responses[..n], questionId);
      if Answered(responses[n], questionId) then rest + [KeyOf(responses[n], questionId)] else rest
  }

  /** One counted value per answering response. */
  lemma {:induction false} AnsweredKeysCount(responses: seq<Response>, questionId: string)
    ensures |AnsweredKeys(responses, questionId)| == |AnsweringPositions(responses, questionId)|
  {
    var flags := AnswerFlags(responses, questionId);
    if |responses| == 0 {
      assert Marked(flags) == {};
    } else {
      var n := |responses| - 1;
      var front := responses[..n];
      AnsweredKeysCount(front, questionId);
      assert AnswerFlags(front, questionId) == flags[..n];
      MarkedSnoc(flags);
    }
  }

  /** One more response adds its key when it answers, and nothing otherwise. */
  lemma AnsweredKeysSnoc(responses: seq<Response>, questionId: string)
    requires |responses| > 0
    ensures var n := |responses| - 1;
            AnsweredKeys(responses, questionId) ==
              if Answered(responses[n], questionId)
              then AnsweredKeys(responses[..n], questionId) + [KeyOf(responses[n], questionId)]
              else AnsweredKeys(responses[..n], questionId)
  {
  }

  /** Each counted value is the key of some answering response. */
  lemma {:induction false} AnsweredKeysSound(responses: seq<Response>, questionId: string, v: string)
    requires v in AnsweredKeys(responses, questionId)
    ensures exists k :: 0 <= k < |responses| && Answered(responses[k], questionId) && v == KeyOf(responses[k], questionId)
  {
    var n := |responses| - 1;
    var front := responses[..n];
    AnsweredKeysSnoc(responses, questionId);
    if v in AnsweredKeys(front, questionId) {
      AnsweredKeysSound(front, questionId, v);
      var k :| 0 <= k < |front| && Answered(front[k], questionId) && v == KeyOf(front[k], questionId);
      assert responses[k] == front[k];
    } else {
      assert Answered(responses[n], questionId) && v == KeyOf(responses[n], questionId);
    }
  }

  /** The key of every answering response is counted. */
  lemma {:induction false} AnsweredKeysComplete(responses: seq<Response>, questionId: string, k: nat)
    requires k < |responses| && Answered(responses[k], questionId)
    ensures KeyOf(responses[k], questionId) in AnsweredKeys(responses, questionId)
  {
    var n := |responses| - 1;
    var front := responses[..n];
    var x := KeyOf(responses[k], questionId);
    AnsweredKeysSnoc(responses, questionId);
    var rest := AnsweredKeys(front, questionId);
    if k < n {
      assert front[k] == responses[k];
      AnsweredKeysComplete(front, questionId, k);
      assert x in rest;
      assert rest <= AnsweredKeys(responses, questionId);
    } else {
      assert AnsweredKeys(responses, questionId) == rest + [x];
    }
  }

  /** Appending a flag adds its position exactly when it is set. */
  lemma MarkedSnoc(flags: seq<bool>)
    requires |flags| > 0
    ensures |Marked(flags)| == |Marked(flags[..|flags| - 1])| + (if flags[|flags| - 1] then 1 else 0)
  {
    var n := |flags| - 1;
    var before := Marked(flags[..n]);
    assert Marked(flags) == before + (if flags[n] then {n} else {});
    assert n !in before;
  }

  /** `Math.round(100 * count / n)` in exact integers: nearest, halves rounded up. */
  function RoundPercent(count: nat, n: nat): (r: nat)
    requires n > 0
    ensures 2 * r * n <= 200 * count + n < 2 * r * n + 2 * n
  {
    (200 * count + n) / (2 * n)
  }

  /** The rounded percentage is at most 100, exactly 100 for all and exactly 0 for none. */
  lemma RoundPercentFacts(count: nat, n: nat)
    requires n > 0
    ensures count <= n ==> RoundPercent(count, n) <= 100
    ensures count == n ==> RoundPercent(count, n) == 100
    ensures count == 0 ==> RoundPercent(count, n) == 0
  {
    var r := RoundPercent(count, n);
    SignOfProduct(201 - 2 * r, n);
    SignOfProduct(2 * r - 199, n);
    SignOfProduct(1 - 2 * r, n);
    assert (201 - 2 * r) * n == 201 * n - 2 * r * n;
    assert (2 * r - 199) * n == 2 * r * n - 199 * n;
    assert (1 - 2 * r) * n == n - 2 * r * n;
  }

  /** A product with a positive factor has the sign of the other factor. */
  lemma SignOfProduct(x: int, n: int)
    requires n > 0
    ensures x < 0 ==> x * n < 0
    ensures x > 0 ==> x * n > 0
  {
  }

  /** One line of a question's summary. */
  datatype OptionStat = OptionStat(option: string, count: nat, percent: nat)

  /** The summary block of one multiple-choice question. */
  datatype QuestionSummary = QuestionSummary(position: nat, question: Question, answered: nat, stats: seq<OptionStat>)

  /** The lines of a summary block, from the listed counts and the number of answering responses. */
  function Stats(entries: seq<Count>, answered: nat): (r: seq<OptionStat>)
    requires answered > 0
    ensures |r| == |entries|
    ensures forall i :: 0 <= i < |entries| ==>
              r[i] == OptionStat(entries[i].key, entries[i].n, RoundPercent(entries[i].n, answered))
  {
    seq(|entries|, i requires 0 <= i < |entries| =>
          OptionStat(entries[i].key, entries[i].n, RoundPercent(entries[i].n, answered)))
  }

  /** Sum of the counts of a summary block. */
  function StatTotal(stats: seq<OptionStat>): nat
  {
    if |stats| == 0 then 0 else stats[0].count + StatTotal(stats[1..])
  }

  lemma {:induction false} StatTotalIsTotal(entries: seq<Count>, answered: nat)
    requires answered > 0
    ensures StatTotal(Stats(entries, answered)) == Total(entries)
  {
    if |entries| > 0 {
      StatTotalIsTotal(entries[1..], answered);
      assert Stats(entries, answered)[1..] == Stats(entries[1..], answered);
    }
  }

  /** The summary lines of the counted values: counts in listing order with their rounded shares. */
  function StatsOf(keys: seq<string>): (r: seq<OptionStat>)
    requires |keys| > 0
    ensures StatTotal(r) == |keys|
    ensures forall i :: 0 <= i < |r| ==> r[i].count >= 1 && r[i].percent == RoundPercent(r[i].count, |keys|)
  {
    var entries := Entries(CountAll(keys));
    CountTotal(keys);
    EntriesTotal(CountAll(keys));
    EntriesPositive(CountAll(keys));
    StatTotalIsTotal(entries, |keys|);
    Stats(entries, |keys|)
  }

  /** The summary block of one question, when it has one. */
  function SummarizeQuestion(qs: seq<Question>, responses: seq<Response>, p: nat): (r: Option<QuestionSummary>)
    requires p < |qs|
    ensures r.Some? <==> qs[p].qtype == MultipleChoice && AnsweringPositions(responses, qs[p].id) != {}
    ensures r.Some? ==>
              && r.value.position == p && r.value.question == qs[p]
              && r.value.answered == |AnsweringPositions(responses, qs[p].id)|
              && StatTotal(r.value.stats) == r.value.answered
              && forall i :: 0 <= i < |r.value.stats| ==>
                   r.value.stats[i].count >= 1 &&
                   r.value.stats[i].percent == RoundPercent(r.value.stats[i].count, r.value.answered)
    ensures r.Some? ==>
              && |AnsweredKeys(responses, qs[p].id)| > 0
              && r.value.stats == StatsOf(AnsweredKeys(responses, qs[p].id))
  {
    var keys := AnsweredKeys(responses, qs[p].id);
    AnsweredKeysCount(responses, qs[p].id);
    if qs[p].qtype == MultipleChoice && |keys| > 0 then
      Some(QuestionSummary(p, qs[p], |keys|, StatsOf(keys)))
    else None
  }

  /** Each summary line counts exactly the answering responses whose value has its key. */
  lemma StatsCountValues(keys: seq<string>)
    requires |keys| > 0
    ensures forall i :: 0 <= i < |StatsOf(keys)| ==> StatsOf(keys)[i].count == Occurrences(keys, StatsOf(keys)[i].option)
  {
    var t := CountAll(keys);
    var entries := Entries(t);
    var stats := StatsOf(keys);
    assert stats == Stats(entries, |keys|);
    CountEntries(keys);
    forall i | 0 <= i < |stats|
      ensures stats[i].count == Occurrences(keys, stats[i].option)
    {
      assert stats[i].count == entries[i].n && stats[i].option == entries[i].key;
      assert entries[i] in multiset(t);
    }
  }

  /** Every counted value has a summary line. */
  lemma StatsCoverValues(keys: seq<string>, v: string)
    requires |keys| > 0 && v in keys
    ensures exists i :: 0 <= i < |StatsOf(keys)| && StatsOf(keys)[i].option == v
  {
    var entries := Entries(CountAll(keys));
    CountedIsListed(keys, v);
    var i :| 0 <= i < |entries| && entries[i].key == v;
    var stats := StatsOf(keys);
    assert stats == Stats(entries, |keys|);
    assert stats[i].option == v;
  }

  /** A list of optional blocks, each filed under its own position. */
  predicate Filed(blocks: seq<Option<QuestionSummary>>)
  {
    forall p :: 0 <= p < |blocks| && blocks[p].Some? ==> blocks[p].value.position == p
  }

  /** The present blocks from position `from` on, in order. */
  function Collect(blocks: seq<Option<QuestionSummary>>, from: nat): seq<QuestionSummary>
    requires from <= |blocks|
    decreases |blocks| - from
  {
    if from == |blocks| then []
    else if blocks[from].Some? then [blocks[from].value] + Collect(blocks, from + 1)
    else Collect(blocks, from + 1)
  }

  /** Every collected block is the one filed under its position at or after `from`. */
  lemma {:induction false} CollectSound(blocks: seq<Option<QuestionSummary>>, from: nat)
    requires from <= |blocks| && Filed(blocks)
    ensures forall i :: 0 <= i < |Collect(blocks, from)| ==>
              from <= Collect(blocks, from)[i].position < |blocks|
              && blocks[Collect(blocks, from)[i].position] == Some(Collect(blocks, from)[i])
    decreases |blocks| - from
  {
    if from < |blocks| {
      CollectSound(blocks, from + 1);
      var rest := Collect(blocks, from + 1);
      var r := Collect(blocks, from);
      if blocks[from].Some? {
        assert r == [blocks[from].value] + rest;
        assert forall i :: 1 <= i < |r| ==> r[i] == rest[i - 1];
      } else {
        assert r == rest;
      }
    }
  }

  /** Collected blocks come in increasing position order. */
  lemma {:induction false} CollectOrdered(blocks: seq<Option<QuestionSummary>>, from: nat)
    requires from <= |blocks| && Filed(blocks)
    ensures forall i, j :: 0 <= i < j < |Collect(blocks, from)| ==>
              Collect(blocks, from)[i].position < Collect(blocks, from)[j].position
    decreases |blocks| - from
  {
    if from < |blocks| {
      CollectOrdered(blocks, from + 1);
      CollectSound(blocks, from + 1);
      var rest := Collect(blocks, from + 1);
      var r := Collect(blocks, from);
      if blocks[from].Some? {
        assert r == [blocks[from].value] + rest;
        forall i, j | 0 <= i < j < |r|
          ensures r[i].position < r[j].position
        {
          assert r[j] == rest[j - 1];
          if i > 0 {
            assert r[i] == rest[i - 1];
          }
        }
      } else {
        assert r == rest;
      }
    }
  }

  /** Every present block is collected. */
  lemma {:induction false} CollectComplete(blocks: seq<Option<QuestionSummary>>, from: nat, p: nat)
    requires Filed(blocks) && from <= p < |blocks| && blocks[p].Some?
    ensures exists i :: 0 <= i < |Collect(blocks, from)| && Collect(blocks, from)[i].position == p
    decreases |blocks| - from
  {
    var r := Collect(blocks, from);
    if p == from {
      assert r[0] == blocks[p].value;
    } else {
      CollectComplete(blocks, from + 1, p);
      var rest := Collect(blocks, from + 1);
      var i :| 0 <= i < |rest| && rest[i].position == p;
      if blocks[from].Some? {
        assert r[i + 1] == rest[i];
      } else {
        assert r[i] == rest[i];
      }
    }
  }

  /**
   * The response summary: one block per multiple-choice question that has at
   * least one answering response, in form question order.
   */
  function Summarize(qs: seq<Question>, responses: seq<Response>): (r: seq<QuestionSummary>)
    ensures forall i :: 0 <= i < |r| ==>
              r[i].position < |qs| && Some(r[i]) == SummarizeQuestion(qs, responses, r[i].position)
    ensures forall i, j :: 0 <= i < j < |r| ==> r[i].position < r[j].position
    ensures forall p :: 0 <= p < |qs| && qs[p].qtype == MultipleChoice && AnsweringPositions(responses, qs[p].id) != {} ==>
              exists i :: 0 <= i < |r| && r[i].position == p
  {
    var blocks := seq(|qs|, p requires 0 <= p < |qs| => SummarizeQuestion(qs, responses, p));
    var r := Collect(blocks, 0);
    CollectSound(blocks, 0);
    CollectOrdered(blocks, 0);
    forall p | 0 <= p < |qs| && qs[p].qtype == MultipleChoice && AnsweringPositions(responses, qs[p].id) != {}
      ensures exists i :: 0 <= i < |r| && r[i].position == p
    {
      assert blocks[p] == SummarizeQuestion(qs, responses, p);
      CollectComplete(blocks, 0, p);
    }
    r
  }

  /** Answers A, B, A to one multiple-choice question summarise as A 2 (67%) and B 1 (33%). */
  lemma SummaryExample()
    ensures var q := Question("q1", "Rate us", MultipleChoice, ["A", "B"], true);
            var rs := [Response("f1", [Answer("q1", "Rate us", Str("A"))], 1, None),
                       Response("f1", [Answer("q1", "Rate us", Str("B"))], 2, None),
                       Response("f1", [Answer("q1", "Rate us", Str("A"))], 3, None)];
            SummarizeQuestion([q], rs, 0) ==
              Some(QuestionSummary(0, q, 3, [OptionStat("A", 2, 67), OptionStat("B", 1, 33)]))
  {
    var rs := [Response("f1", [Answer("q1", "Rate us", Str("A"))], 1, None),
               Response("f1", [Answer("q1", "Rate us", Str("B"))], 2, None),
               Response("f1", [Answer("q1", "Rate us", Str("A"))], 3, None)];
    ExampleKeys(rs);
    ExampleStatsOf(["A", "B", "A"]);
  }

  lemma ExampleStatsOf(keys: seq<string>)
    requires keys == ["A", "B", "A"]
    ensures StatsOf(keys) == [OptionStat("A", 2, 67), OptionStat("B", 1, 33)]
  {
    ExampleCounts();
    ExampleEntries();
    ExampleStats();
  }

  lemma ExampleEntries()
    ensures Entries([Count("A", 2), Count("B", 1)]) == [Count("A", 2), Count("B", 1)]
  {
    var t := [Count("A", 2), Count("B", 1)];
    assert !IsArrayIndex("A") && !IsArrayIndex("B");
    assert t[1..] == [Count("B", 1)] && t[1..][1..] == [];
    assert IndexEntries(t) == [] && NamedEntries(t) == t;
  }

  lemma ExampleStats()
    ensures Stats([Count("A", 2), Count("B", 1)], 3) == [OptionStat("A", 2, 67), OptionStat("B", 1, 33)]
  {
    assert RoundPercent(2, 3) == 67 && RoundPercent(1, 3) == 33;
  }

  lemma ExampleKeys(rs: seq<Response>)
    requires rs == [Response("f1", [Answer("q1", "Rate us", Str("A"))], 1, None),
                    Response("f1", [Answer("q1", "Rate us", Str("B"))], 2, None),
                    Response("f1", [Answer("q1", "Rate us", Str("A"))], 3, None)]
    ensures AnsweredKeys(rs, "q1") == ["A", "B", "A"]
  {
    assert rs[..2][..1] == rs[..1] && rs[..1][..0] == [];
    assert Answered(rs[0], "q1") && Answered(rs[1], "q1") && Answered(rs[2], "q1");
    assert AnsweredKeys(rs[..1], "q1") == ["A"];
    assert AnsweredKeys(rs[..2], "q1") == ["A", "B"];
  }

  lemma ExampleCounts()
    ensures CountAll(["A", "B", "A"]) == [Count("A", 2), Count("B", 1)]
  {
    var vs := ["A", "B", "A"];
    assert vs[..2][..1] == vs[..1] && vs[..1][..0] == [];
    assert CountAll(vs[..1]) == [Count("A", 1)];
    assert CountAll(vs[..2]) == Bump([Count("A", 1)], "B");
    assert CountAll(vs[..2]) == [Count("A", 1), Count("B", 1)];
  }

  /** Integer-like answers are listed first, ascending, before the others in first-seen order. */
  lemma EntriesOrderExample()
    ensures Keys(Entries(CountAll(["b", "10", "2"]))) == ["2", "10", "b"]
  {
    ExampleCountedListed(["b", "10", "2"]);
    ExampleListedKeys();
  }

  lemma ExampleCountedListed(vs: seq<string>)
    requires vs == ["b", "10", "2"]
    ensures Entries(CountAll(vs)) == [Count("2", 1), Count("10", 1), Count("b", 1)]
  {
    ExampleOrderCounts();
    ExampleListed();
  }

  lemma ExampleListedKeys()
    ensures Keys([Count("2", 1), Count("10", 1), Count("b", 1)]) == ["2", "10", "b"]
  {
    var k := Keys([Count("2", 1), Count("10", 1), Count("b", 1)]);
    assert |k| == 3 && k[0] == "2" && k[1] == "10" && k[2] == "b";
  }

  lemma ExampleListed()
    ensures Entries([Count("b", 1), Count("10", 1), Count("2", 1)]) == [Count("2", 1), Count("10", 1), Count("b", 1)]
  {
    var t := [Count("b", 1), Count("10", 1), Count("2", 1)];
    ExampleSplit();
    ExampleSort();
    var idx := SortByIndex(IndexEntries(t));
    assert idx == [Count("2", 1), Count("10", 1)];
    assert Entries(t) == idx + NamedEntries(t);
  }

  lemma ExampleSplit()
    ensures IndexEntries([Count("b", 1), Count("10", 1), Count("2", 1)]) == [Count("10", 1), Count("2", 1)]
    ensures NamedEntries([Count("b", 1), Count("10", 1), Count("2", 1)]) == [Count("b", 1)]
  {
    var c10, c2, cb := Count("10", 1), Count("2", 1), Count("b", 1);
    ExampleIndexKeys();
    var t := [cb, c10, c2];
    assert t[1..] == [c10, c2] && [c10, c2][1..] == [c2] && [c2][1..] == [];
    assert IndexEntries([c2]) == [c2];
    assert IndexEntries([c10, c2]) == [c10, c2];
    assert NamedEntries([c2]) == [];
    assert NamedEntries([c10, c2]) == NamedEntries([c2]);
  }

  lemma ExampleOrderCounts()
    ensures CountAll(["b", "10", "2"]) == [Count("b", 1), Count("10", 1), Count("2", 1)]
  {
    var vs := ["b", "10", "2"];
    assert vs[..2][..1] == vs[..1] && vs[..1][..0] == [];
    assert CountAll(vs[..1]) == [Count("b", 1)];
    assert CountAll(vs[..2]) == Bump([Count("b", 1)], "10");
    assert CountAll(vs[..2]) == [Count("b", 1), Count("10", 1)];
    assert CountAll(vs) == Bump([Count("b", 1), Count("10", 1)], "2");
  }

  lemma ExampleIndexKeys()
    ensures IsArrayIndex("10") && IsArrayIndex("2") && !IsArrayIndex("b")
    ensures IndexValue("10") == 10 && IndexValue("2") == 2
  {
    assert "10"[..1] == "1" && "1"[..0] == "" && "2"[..0] == "";
    assert DigitsValue("10") == 10;
    assert DigitsValue("2") == 2;
  }

  lemma ExampleSort()
    ensures SortByIndex([Count("10", 1), Count("2", 1)]) == [Count("2", 1), Count("10", 1)]
  {
    var c10, c2 := Count("10", 1), Count("2", 1);
    ExampleIndexKeys();
    assert [c10, c2][1..] == [c2] && [c2][1..] == [];
    assert SortByIndex([c2]) == [c2];
    assert InsertByIndex(c10, [c2]) == [c2, c10];
  }
}
