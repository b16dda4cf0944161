/** The summary cards and the per-question cards of
    components/responses/analytics-dashboard.tsx. */
module Dashboard {
  import opened JsValues
  import opened Seqs
  import opened Questions
  import opened Responses
  import opened Analytics

  /** A required question counts as answered when its answer is present
      and not null. */
  predicate Answered(r: Response, id: string) {
    AnswerTo(r, id).Some? && !AnswerTo(r, id).value.JNull?
  }

  predicate IsRequired(q: QuestionConfig) {
    q.required
  }

  /** `requiredQuestions.every(...)`: the response answers every required
      question of `required`. */
  function CompleteFor(required: seq<QuestionConfig>): Response -> bool {
    r => forall i :: 0 <= i < |required| ==> Answered(r, required[i].id)
  }

  /** `Math.round((completed / total) * 100)` on exact numbers: the
      nearest whole percentage, a half rounding up. */
  function CompletionRate(completed: nat, total: nat): (rate: int)
    requires completed <= total && total > 0
    ensures 0 <= rate <= 100
    ensures 2 * total * rate <= 200 * completed + total < 2 * total * (rate + 1)
  {
    var d, a := 2 * total, 200 * completed + total;
    DivBounds(a, d);
    MulBelow(d, a / d, 101);
    a / d
  }

  /** The quotient of `a` by `d` is the largest multiple of `d` not above `a`. */
  lemma DivBounds(a: int, d: int)
    requires d > 0
    ensures d * (a / d) <= a < d * (a / d) + d
  {
  }

  /** A multiple of `d` below `d * n` has a factor below `n`. */
  lemma MulBelow(d: int, k: int, n: int)
    requires d > 0 && d * k < d * n
    ensures k < n
  {
  }

  /** `Math.max(...)` of the submission times: at least every time, and
      one of them. */
  function Latest(rs: seq<Response>, time: Response -> int): (t: int)
    requires |rs| > 0
    ensures forall i :: 0 <= i < |rs| ==> time(rs[i]) <= t
    ensures exists i :: 0 <= i < |rs| && time(rs[i]) == t
    decreases |rs|
  {
    if |rs| == 1 then time(rs[0])
    else
      var m := Latest(rs[..|rs| - 1], time);
      var last := time(rs[|rs| - 1]);
      if last > m then last else m
  }

  datatype Stats = Stats(totalResponses: int, completionRate: int, lastSubmission: int)

  /** The number of responses that answer every required question. */
  function CompletedCount(questions: seq<QuestionConfig>, rs: seq<Response>): (n: nat)
    ensures n <= |rs|
    ensures rs == [] ==> n == 0
  {
    |Select(rs, CompleteFor(Select(questions, IsRequired)))|
  }

  /** The response answers every question of `questions` marked required. */
  predicate Completes(questions: seq<QuestionConfig>, r: Response) {
    forall j :: 0 <= j < |questions| && questions[j].required ==> Answered(r, questions[j].id)
  }

  /** Checking the required questions picked out first is checking every
      question marked required. */
  lemma CompleteForRequired(questions: seq<QuestionConfig>, r: Response)
    ensures CompleteFor(Select(questions, IsRequired))(r) <==> Completes(questions, r)
  {
    var required := Select(questions, IsRequired);
    if CompleteFor(required)(r) {
      forall j | 0 <= j < |questions| && questions[j].required
        ensures Answered(r, questions[j].id)
      {
        assert IsRequired(questions[j]);
        var k :| 0 <= k < |required| && required[k] == questions[j];
      }
    }
    if Completes(questions, r) {
      forall k | 0 <= k < |required| ensures Answered(r, required[k].id) {
        var j :| 0 <= j < |questions| && questions[j] == required[k];
      }
    }
  }

  /** One more response adds one to the count exactly when it answers every
      required question; with `CompletedCount(questions, []) == 0` this
      determines the count. */
  lemma CompletedCountSnoc(questions: seq<QuestionConfig>, rs: seq<Response>, r: Response)
    ensures CompletedCount(questions, rs + [r]) ==
      CompletedCount(questions, rs) + (if Completes(questions, r) then 1 else 0)
  {
    SelectSnoc(rs, r, CompleteFor(Select(questions, IsRequired)));
    CompleteForRequired(questions, r);
  }

  /** `stats`: none without responses; otherwise their number, the rounded
      share that answers every required question, and the latest
      submission time (`time` stands for `new Date(submitted_at).getTime()`). */
  function ComputeStats(questions: seq<QuestionConfig>, rs: seq<Response>, time: Response -> int): (st: Option<Stats>)
    ensures st.None? <==> rs == []
    ensures st.Some? ==> && st.value.totalResponses == |rs|
                         && 0 <= st.value.completionRate <= 100
                         && (forall i :: 0 <= i < |rs| ==> time(rs[i]) <= st.value.lastSubmission)
                         && (exists i :: 0 <= i < |rs| && time(rs[i]) == st.value.lastSubmission)
                         && st.value.completionRate == CompletionRate(CompletedCount(questions, rs), |rs|)
  {
    if rs == [] then None
    else Some(Stats(|rs|, CompletionRate(CompletedCount(questions, rs), |rs|), Latest(rs, time)))
  }

  lemma MulZero(d: int, k: int)
    requires d > 0 && -d < d * k < d
    ensures k == 0
  {
  }

  /** Integer division undoes multiplication, whatever remainder below
      the divisor is added. */
  lemma DivPlus(a: int, d: int, r: int)
    requires d > 0 && 0 <= r < d
    ensures (d * a + r) / d == a
  {
    var q := (d * a + r) / d;
    assert d * q + (d * a + r) % d == d * a + r;
    assert d * (q - a) == r - (d * a + r) % d;
    MulZero(d, q - a);
  }

  /** Math.round of 100%: all of `n` responses completed. */
  lemma FullRate(n: nat)
    requires n > 0
    ensures CompletionRate(n, n) == 100
  {
    DivPlus(100, 2 * n, n);
    assert 200 * n + n == 2 * n * 100 + n;
  }

  /** Every response that answers every required question is counted. */
  lemma AllCompleted(questions: seq<QuestionConfig>, rs: seq<Response>)
    requires forall i, j :: 0 <= i < |rs| && 0 <= j < |questions| && questions[j].required ==>
      Answered(rs[i], questions[j].id)
    ensures CompletedCount(questions, rs) == |rs|
  {
    var required := Select(questions, IsRequired);
    forall i | 0 <= i < |rs| ensures CompleteFor(required)(rs[i]) {
      forall k | 0 <= k < |required| ensures Answered(rs[i], required[k].id) {
        var j :| 0 <= j < |questions| && questions[j] == required[k];
      }
    }
    SelectAll(rs, CompleteFor(required));
  }

  /** When every response answers every required question, in particular
      when no question is required, the completion rate is 100. */
  lemma AllCompleteRate(questions: seq<QuestionConfig>, rs: seq<Response>, time: Response -> int)
    requires rs != []
    requires forall i, j :: 0 <= i < |rs| && 0 <= j < |questions| && questions[j].required ==>
      Answered(rs[i], questions[j].id)
    ensures ComputeStats(questions, rs, time).value.completionRate == 100
  {
    AllCompleted(questions, rs);
    FullRate(|rs|);
  }

  /** No completed response gives a rate of 0. */
  lemma NoneCompleteRate(questions: seq<QuestionConfig>, rs: seq<Response>, time: Response -> int)
    requires rs != [] && CompletedCount(questions, rs) == 0
    ensures ComputeStats(questions, rs, time).value.completionRate == 0
  {
    var n := |rs|;
    DivPlus(0, 2 * n, n);
    assert CompletionRate(0, n) == (2 * n * 0 + n) / (2 * n);
  }

  // ---------------------------------------------------------------------
  // Question cards

  /** The kinds that get a chart; every other kind lists its latest
      answers. */
  predicate IsChartable(t: QuestionType) {
    t in {Dropdown, Checkboxes, YesNo, Rating, OpinionScale}
  }

  /** Checkbox and opinion-scale questions get a bar chart, the other
      chartable kinds a pie chart. */
  predicate IsBarChart(t: QuestionType) {
    t == Checkboxes || t == OpinionScale
  }

  /** The answer of `r` to question `id` is truthy. */
  function AnswersTruthily(id: string): Response -> bool {
    r => TruthyAnswer(AnswerTo(r, id))
  }

  /** `f.slice(-n).reverse()`: the last `n` elements (all of them when
      there are fewer), newest first. */
  function LastReversed<T>(f: seq<T>, n: nat): (r: seq<T>)
    ensures |r| == (if |f| < n then |f| else n)
    ensures forall i :: 0 <= i < |r| ==> r[i] == f[|f| - 1 - i]
  {
    var m := if |f| < n then |f| else n;
    seq(m, i requires 0 <= i < m => f[|f| - 1 - i])
  }

  /** `String(answers[id])` for a response known to answer `id`. */
  function AnswerText(id: string, r: Response): string {
    ToStr(AnswerTo(r, id).GetOr(JNull))
  }

  /** `responses.filter(...).slice(-5).reverse().map(...)`: the text of the
      last five truthy answers, newest first. */
  function LatestAnswers(q: QuestionConfig, rs: seq<Response>): (items: seq<string>)
    ensures var f := Select(rs, AnswersTruthily(q.id));
      && |items| == (if |f| < 5 then |f| else 5)
      && forall i :: 0 <= i < |items| ==> AnswerTo(f[|f| - 1 - i], q.id).Some?
                                          && items[i] == ToStr(AnswerTo(f[|f| - 1 - i], q.id).value)
  {
    var f := Select(rs, AnswersTruthily(q.id));
    var p := LastReversed(f, 5);
    assert forall i :: 0 <= i < |p| ==> AnswersTruthily(q.id)(p[i]);
    seq(|p|, i requires 0 <= i < |p| => AnswerText(q.id, p[i]))
  }

  /** The badge word: `رد` for one answer, `ردود` otherwise. */
  function ResponseWord(total: int): string {
    if total == 1 then "رد" else "ردود"
  }

  /** What the page shows for one question: nothing when no answer counts,
      a bar or pie chart of its rows, or the list of latest answers. */
  datatype Card =
    | Hidden
    | ChartCard(bars: bool, rows: seq<Row>, total: int, word: string)
    | LatestCard(total: int, word: string, items: seq<string>)

  function QuestionCard(q: QuestionConfig, rs: seq<Response>): (c: Card)
    ensures c.Hidden? <==> ChartLabels(q, rs) == []
    ensures c.ChartCard? <==> ChartLabels(q, rs) != [] && IsChartable(q.qtype)
    ensures c.ChartCard? ==> c.bars == IsBarChart(q.qtype) && c.rows == ChartData(q, rs)
    ensures !c.Hidden? ==> c.total == |ChartLabels(q, rs)| > 0
    ensures !c.Hidden? ==> c.word == if c.total == 1 then "رد" else "ردود"
    ensures c.LatestCard? ==> c.items == LatestAnswers(q, rs)
  {
    var total := |ChartLabels(q, rs)|;
    if total == 0 then Hidden
    else if IsChartable(q.qtype) then ChartCard(IsBarChart(q.qtype), ChartData(q, rs), total, ResponseWord(total))
    else LatestCard(total, ResponseWord(total), LatestAnswers(q, rs))
  }

  lemma {:induction false} SumOfZero<T>(s: seq<T>, f: T -> int)
    requires forall i :: 0 <= i < |s| ==> f(s[i]) >= 0
    ensures SumOf(s, f) == 0 <==> forall i :: 0 <= i < |s| ==> f(s[i]) == 0
    ensures SumOf(s, f) >= 0
    decreases |s|
  {
    if s != [] {
      SumOfZero(s[..|s| - 1], f);
    }
  }

  /** A question's card is hidden exactly when no response gives it an
      answer that counts: every answer is missing, null or an empty list. */
  lemma HiddenIffNothingCounted(q: QuestionConfig, rs: seq<Response>)
    ensures QuestionCard(q, rs).Hidden? <==>
      forall i :: 0 <= i < |rs| ==> Weight(AnswerTo(rs[i], q.id)) == 0
  {
    TotalCountsAnswers(q, rs);
    SumOfZero(rs, WeightOf(q.id));
  }
}
