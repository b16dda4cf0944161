/** The analytics page of components/responses/analytics-dashboard.tsx:
    per-question answer counts with their chart order, the summary
    statistics, and the latest-answers preview of free-text questions. */
module Analytics {
  import opened JsValues
  import opened Seqs
  import opened Questions
  import opened Responses

  // ---------------------------------------------------------------------
  // Sums

  /** The sum of `f` over `s`. */
  function SumOf<T>(s: seq<T>, f: T -> int): int
    decreases |s|
  {
    if s == [] then 0 else SumOf(s[..|s| - 1], f) + f(s[|s| - 1])
  }

  lemma {:induction false} SumOfAppend<T>(a: seq<T>, b: seq<T>, f: T -> int)
    ensures SumOf(a + b, f) == SumOf(a, f) + SumOf(b, f)
    decreases |b|
  {
    if b != [] {
      assert (a + b)[..|a + b| - 1] == a + b[..|b| - 1];
      SumOfAppend(a, b[..|b| - 1], f);
    } else {
      assert a + b == a;
    }
  }

  /** A sum does not depend on the order of the terms. */
  lemma {:induction false} SumOfPermutation<T>(a: seq<T>, b: seq<T>, f: T -> int)
    requires multiset(a) == multiset(b)
    ensures SumOf(a, f) == SumOf(b, f)
    decreases |a|
  {
    if a == [] {
      assert |b| == |multiset(b)| == 0;
    } else {
      var a', x := a[..|a| - 1], a[|a| - 1];
      assert a == a' + [x];
      assert x in multiset(b);
      var j :| 0 <= j < |b| && b[j] == x;
      var b' := b[..j] + b[j + 1..];
      assert b == b[..j] + [x] + b[j + 1..];
      assert multiset(b') == multiset(b) - multiset{x};
      SumOfPermutation(a', b', f);
      SumOfAppend(b[..j] + [x], b[j + 1..], f);
      SumOfAppend(b[..j], [x], f);
      SumOfAppend(b[..j], b[j + 1..], f);
      assert SumOf([x], f) == f(x) by { assert [x][..0] == []; }
    }
  }

  // ---------------------------------------------------------------------
  // Labels

  /** The row of one label: its name and how many times it was counted. */
  datatype Row = Row(name: string, value: int)

  function RowValue(r: Row): int {
    r.value
  }

  /** The labels one answer contributes: none for a missing or null
      answer, `String(v)` of each element of an array, and one label for
      any other answer, `نعم`/`لا` by truthiness on a yes/no question. */
  function AnswerLabels(q: QuestionConfig, a: Option<Json>): (ls: seq<string>)
    ensures a.None? || a == Some(JNull) ==> ls == []
    ensures a.Some? && a.value.JArr? ==>
      |ls| == |a.value.elems| && forall i :: 0 <= i < |ls| ==> ls[i] == ToStr(a.value.elems[i])
    ensures a.Some? && !a.value.JNull? && !a.value.JArr? ==> |ls| == 1
    ensures a.Some? && !a.value.JNull? && !a.value.JArr? && q.qtype == YesNo ==>
      ls == [if Truthy(a.value) then Yes else No]
    ensures a.Some? && !a.value.JNull? && !a.value.JArr? && q.qtype != YesNo ==> ls == [ToStr(a.value)]
  {
    match a
    case None => []
    case Some(v) =>
      if v.JNull? then []
      else if v.JArr? then seq(|v.elems|, i requires 0 <= i < |v.elems| => ToStr(v.elems[i]))
      else if q.qtype == YesNo then [if Truthy(v) then Yes else No]
      else [ToStr(v)]
  }

  /** Every label counted for question `q`, in the order the loop meets
      them. */
  function ChartLabels(q: QuestionConfig, rs: seq<Response>): seq<string>
    decreases |rs|
  {
    if rs == [] then []
    else ChartLabels(q, rs[..|rs| - 1]) + AnswerLabels(q, AnswerTo(rs[|rs| - 1], q.id))
  }

  /** How many labels an answer is worth. */
  function Weight(a: Option<Json>): nat {
    if a.None? || a.value.JNull? then 0
    else if a.value.JArr? then |a.value.elems|
    else 1
  }

  function WeightOf(id: string): Response -> int {
    r => Weight(AnswerTo(r, id))
  }

  /** `total`: null and missing answers count nothing, an array counts
      each of its elements, any other answer counts once. */
  lemma {:induction false} TotalCountsAnswers(q: QuestionConfig, rs: seq<Response>)
    ensures |ChartLabels(q, rs)| == SumOf(rs, WeightOf(q.id))
    decreases |rs|
  {
    if rs != [] {
      TotalCountsAnswers(q, rs[..|rs| - 1]);
    }
  }

  /** The labels in the order of their first appearance: the insertion
      order of the keys of `counts`. */
  function FirstOccurrences(s: seq<string>): (r: seq<string>)
    ensures Distinct(r)
    ensures forall i :: 0 <= i < |r| ==> r[i] in s
    ensures forall i :: 0 <= i < |s| ==> s[i] in r
    decreases |s|
  {
    if s == [] then []
    else
      var f := FirstOccurrences(s[..|s| - 1]);
      if s[|s| - 1] in s[..|s| - 1] then f else f + [s[|s| - 1]]
  }

  /** `counts` as the loop leaves it: each label seen, with its number of
      occurrences. */
  function CountMap(s: seq<string>): map<string, int> {
    map k | k in s :: multiset(s)[k]
  }

  // ---------------------------------------------------------------------
  // Object.entries

  /** The order `Object.entries` lists the keys of an object created in
      the order `keys`: array indices first, ascending, then the other keys
      in insertion order. */
  function Entries(keys: seq<string>): (r: seq<string>)
    ensures multiset(r) == multiset(keys)
  {
    IndexFirst(keys, IsArrayIndex, IndexValue)
  }

  /** `Object.entries` lists the array-index keys first, in ascending
      numeric order, and then every other key in insertion order. */
  lemma EntriesOrder(keys: seq<string>)
    ensures var r := Entries(keys); var n := |Select(keys, IsArrayIndex)|;
      && (forall i :: 0 <= i < n ==> IsArrayIndex(r[i]))
      && (forall i :: n <= i < |r| ==> !IsArrayIndex(r[i]))
      && (forall i, j :: 0 <= i < j < n ==> IndexValue(r[i]) <= IndexValue(r[j]))
      && r[n..] == Select(keys, Not(IsArrayIndex))
  {
    IndexFirstOrder(keys, IsArrayIndex, IndexValue);
  }

  /** The rows `Object.entries(counts).map(...)` builds for keys `keys`. */
  function RowsOf(keys: seq<string>, m: multiset<string>): (rows: seq<Row>)
    ensures |rows| == |keys|
    ensures forall i :: 0 <= i < |keys| ==> rows[i] == Row(keys[i], m[keys[i]])
    decreases |keys|
  {
    if keys == [] then [] else RowsOf(keys[..|keys| - 1], m) + [Row(keys[|keys| - 1], m[keys[|keys| - 1]])]
  }

  // ---------------------------------------------------------------------
  // Chart order

  /** `Number(name)`, with a label that is not a number taken as 0. */
  function NumericLabel(r: Row): int {
    ToNumber(r.name).GetOr(0)
  }

  /** The key of `(a, b) => b.value - a.value`. */
  function NegatedCount(r: Row): int {
    -r.value
  }

  predicate IsScale(t: QuestionType) {
    t == Rating || t == OpinionScale
  }

  /** The sort key of a question's chart: the numeric label for rating
      and opinion-scale questions, the count, descending, otherwise. */
  function SortKey(q: QuestionConfig): Row -> int {
    if IsScale(q.qtype) then NumericLabel else NegatedCount
  }

  /** The `data` that `getChartData` returns. */
  function ChartData(q: QuestionConfig, rs: seq<Response>): seq<Row> {
    SortBy(LabelRows(ChartLabels(q, rs)), SortKey(q))
  }

  // ---------------------------------------------------------------------
  // What the chart shows

  function CountOf(m: multiset<string>): string -> int {
    k => m[k]
  }

  lemma {:induction false} CountSumAdd(d: seq<string>, m: multiset<string>, x: string)
    requires Distinct(d)
    ensures SumOf(d, CountOf(m + multiset{x})) == SumOf(d, CountOf(m)) + (if x in d then 1 else 0)
    decreases |d|
  {
    if d != [] {
      var d', y := d[..|d| - 1], d[|d| - 1];
      assert d == d' + [y];
      CountSumAdd(d', m, x);
      assert x in d <==> x in d' || x == y;
      assert y !in d';
    }
  }

  /** Over the distinct labels, the occurrence counts add up to the
      number of labels. */
  lemma {:induction false} CountSumTotal(s: seq<string>)
    ensures SumOf(FirstOccurrences(s), CountOf(multiset(s))) == |s|
    decreases |s|
  {
    if s != [] {
      var s', x := s[..|s| - 1], s[|s| - 1];
      var f, m := FirstOccurrences(s'), multiset(s);
      assert s == s' + [x];
      assert m == multiset(s') + multiset{x};
      assert FirstOccurrences(s) == if x in s' then f else f + [x];
      CountSumTotal(s');
      CountSumAdd(f, multiset(s'), x);
      if x !in s' {
        assert (f + [x])[..|f|] == f;
        assert SumOf(f + [x], CountOf(m)) == SumOf(f, CountOf(m)) + m[x];
        assert multiset(s')[x] == 0;
      }
    }
  }

  lemma {:induction false} RowsSum(keys: seq<string>, m: multiset<string>)
    ensures SumOf(RowsOf(keys, m), RowValue) == SumOf(keys, CountOf(m))
    decreases |keys|
  {
    if keys != [] {
      RowsSum(keys[..|keys| - 1], m);
    }
  }

  /** The rows built from the labels `labels`, in `Object.entries` order. */
  function LabelRows(labels: seq<string>): seq<Row> {
    RowsOf(Entries(FirstOccurrences(labels)), multiset(labels))
  }

  /** The row names a label and carries its number of occurrences. */
  ghost predicate CountedRow(labels: seq<string>, r: Row) {
    r.name in labels && r.value == multiset(labels)[r.name]
  }

  /** Each row names a label and carries its count. */
  lemma LabelRowsCounts(labels: seq<string>)
    ensures var u := LabelRows(labels);
      forall i :: 0 <= i < |u| ==> CountedRow(labels, u[i])
  {
    var f := FirstOccurrences(labels);
    var e := Entries(f);
    var u := LabelRows(labels);
    forall i | 0 <= i < |u| ensures u[i].name in labels {
      assert u[i].name == e[i];
      assert e[i] in multiset(f);
    }
  }

  /** No two rows are the same. */
  lemma LabelRowsDistinct(labels: seq<string>)
    ensures Distinct(LabelRows(labels))
  {
    var f := FirstOccurrences(labels);
    var e := Entries(f);
    var u := LabelRows(labels);
    DistinctPermutation(f, e);
    forall i, j | 0 <= i < j < |u| ensures u[i] != u[j] {
      assert u[i].name == e[i] && u[j].name == e[j];
    }
  }

  /** The names of the rows, in order. */
  function Names(rows: seq<Row>): (r: seq<string>)
    ensures |r| == |rows| && forall i :: 0 <= i < |rows| ==> r[i] == rows[i].name
  {
    seq(|rows|, i requires 0 <= i < |rows| => rows[i].name)
  }

  /** Every label has a row. */
  lemma LabelRowsCover(labels: seq<string>)
    ensures var u := LabelRows(labels);
      forall i :: 0 <= i < |labels| ==> labels[i] in Names(u)
  {
    var f := FirstOccurrences(labels);
    var e := Entries(f);
    var u := LabelRows(labels);
    forall i | 0 <= i < |labels| ensures labels[i] in Names(u) {
      assert labels[i] in multiset(e);
      var j :| 0 <= j < |e| && e[j] == labels[i];
      assert Names(u)[j] == labels[i];
    }
  }

  /** The counts of the rows add up to the number of labels. */
  lemma LabelRowsSum(labels: seq<string>)
    ensures SumOf(LabelRows(labels), RowValue) == |labels|
  {
    var m := multiset(labels);
    var f := FirstOccurrences(labels);
    var e := Entries(f);
    RowsSum(e, m);
    SumOfPermutation(e, f, CountOf(m));
    CountSumTotal(labels);
  }

  /** A permutation of counted rows holds only counted rows. */
  lemma RowsCounted(labels: seq<string>, u: seq<Row>, data: seq<Row>)
    requires multiset(u) == multiset(data)
    requires forall i :: 0 <= i < |u| ==> CountedRow(labels, u[i])
    ensures forall i :: 0 <= i < |data| ==> CountedRow(labels, data[i])
  {
    forall i | 0 <= i < |data| ensures CountedRow(labels, data[i]) {
      assert data[i] in multiset(u);
      var k :| 0 <= k < |u| && u[k] == data[i];
    }
  }

  lemma SortedRowsCounted(labels: seq<string>, key: Row -> int)
    ensures var data := SortBy(LabelRows(labels), key);
      forall i :: 0 <= i < |data| ==> CountedRow(labels, data[i])
  {
    var u := LabelRows(labels);
    LabelRowsCounts(labels);
    SortByPerm(u, key);
    RowsCounted(labels, u, SortBy(u, key));
  }

  /** A permutation of rows that name every label also names every label. */
  lemma NamesCovered(labels: seq<string>, u: seq<Row>, data: seq<Row>)
    requires multiset(u) == multiset(data)
    requires forall i :: 0 <= i < |labels| ==> labels[i] in Names(u)
    ensures forall i :: 0 <= i < |labels| ==> labels[i] in Names(data)
  {
    forall i | 0 <= i < |labels| ensures labels[i] in Names(data) {
      var k :| 0 <= k < |u| && Names(u)[k] == labels[i];
      assert u[k] in multiset(data);
      var j :| 0 <= j < |data| && data[j] == u[k];
      assert Names(data)[j] == labels[i];
    }
  }

  lemma SortedRowsCover(labels: seq<string>, key: Row -> int)
    ensures var data := SortBy(LabelRows(labels), key);
      forall i :: 0 <= i < |labels| ==> labels[i] in Names(data)
  {
    var u := LabelRows(labels);
    LabelRowsCover(labels);
    SortByPerm(u, key);
    NamesCovered(labels, u, SortBy(u, key));
  }

  lemma SortedRowsDistinctNames(labels: seq<string>, key: Row -> int)
    ensures var data := SortBy(LabelRows(labels), key);
      forall i, j :: 0 <= i < j < |data| ==> data[i].name != data[j].name
  {
    var u := LabelRows(labels);
    var data := SortBy(u, key);
    LabelRowsDistinct(labels);
    SortByPerm(u, key);
    DistinctPermutation(u, data);
    SortedRowsCounted(labels, key);
  }

  /** Sorting keeps every one of these facts, since it only permutes. */
  lemma SortedLabelRows(labels: seq<string>, key: Row -> int)
    ensures var data := SortBy(LabelRows(labels), key);
      && (forall i :: 0 <= i < |data| ==> CountedRow(labels, data[i]))
      && (forall i :: 0 <= i < |labels| ==> labels[i] in Names(data))
      && (forall i, j :: 0 <= i < j < |data| ==> data[i].name != data[j].name)
      && SumOf(data, RowValue) == |labels|
  {
    var u := LabelRows(labels);
    SortedRowsCounted(labels, key);
    SortedRowsCover(labels, key);
    SortedRowsDistinctNames(labels, key);
    LabelRowsSum(labels);
    SortByPerm(u, key);
    SumOfPermutation(SortBy(u, key), u, RowValue);
  }

  /** Each label of the answers appears in exactly one row of the chart,
      with the number of times it was counted, and the counts add up to
      `total`. */
  lemma ChartRowsCountLabels(q: QuestionConfig, rs: seq<Response>)
    ensures var labels := ChartLabels(q, rs); var data := ChartData(q, rs);
      && (forall i :: 0 <= i < |data| ==> CountedRow(labels, data[i]))
      && (forall i :: 0 <= i < |labels| ==> labels[i] in Names(data))
      && (forall i, j :: 0 <= i < j < |data| ==> data[i].name != data[j].name)
      && SumOf(data, RowValue) == |labels|
  {
    var labels := ChartLabels(q, rs);
    assert ChartData(q, rs) == SortBy(LabelRows(labels), SortKey(q));
    SortedLabelRows(labels, SortKey(q));
  }

  /** Rating and opinion-scale rows ascend by numeric label; all other rows
      descend by count. */
  lemma ChartSorted(q: QuestionConfig, rs: seq<Response>)
    ensures var data := ChartData(q, rs);
      && (IsScale(q.qtype) ==> forall i, j :: 0 <= i < j < |data| ==> NumericLabel(data[i]) <= NumericLabel(data[j]))
      && (!IsScale(q.qtype) ==> forall i, j :: 0 <= i < j < |data| ==> data[i].value >= data[j].value)
  {
    SortBySorted(LabelRows(ChartLabels(q, rs)), SortKey(q));
  }

  /** The sort is stable: rows with the same sort key keep their
      `Object.entries` order. */
  lemma ChartTiesKeepEntriesOrder(q: QuestionConfig, rs: seq<Response>, k: int)
    ensures Select(ChartData(q, rs), HasKey(SortKey(q), k)) == Select(LabelRows(ChartLabels(q, rs)), HasKey(SortKey(q), k))
  {
    SortByStable(LabelRows(ChartLabels(q, rs)), SortKey(q), k);
  }

  // ---------------------------------------------------------------------
  // getChartData

  lemma CountMapSnoc(seen: seq<string>, key: string)
    ensures CountMap(seen + [key]) ==
      CountMap(seen)[key := (if key in CountMap(seen) then CountMap(seen)[key] else 0) + 1]
  {
    var s := seen + [key];
    assert multiset(s) == multiset(seen) + multiset{key};
    assert forall k :: k in s <==> k in seen || k == key;
  }

  /** The state of the counting loop after the labels `seen`: the count
      of each label, the keys in insertion order, and the number counted. */
  ghost predicate Tallies(counts: map<string, int>, order: seq<string>, total: int, seen: seq<string>) {
    counts == CountMap(seen) && order == FirstOccurrences(seen) && total == |seen|
  }

  /** One step of the counting loop, `counts[key] = (counts[key] || 0) + 1`
      and `total++`; `order` is the insertion order of the keys of
      `counts`, which is what `Object.entries` reads. */
  method CountLabel(counts: map<string, int>, order: seq<string>, total: int, key: string, ghost seen: seq<string>)
    returns (counts': map<string, int>, order': seq<string>, total': int)
    requires Tallies(counts, order, total, seen)
    ensures Tallies(counts', order', total', seen + [key])
  {
    CountMapSnoc(seen, key);
    assert (seen + [key])[..|seen|] == seen;
    assert key in counts <==> key in seen;
    var n := if key in counts then counts[key] else 0;
    counts' := counts[key := n + 1];
    order' := if key in counts then order else order + [key];
    total' := total + 1;
  }

  /** The rows `Object.entries(counts).map(...)` gives for the keys `keys`. */
  function EntryRows(keys: seq<string>, counts: map<string, int>): (rows: seq<Row>)
    requires forall i :: 0 <= i < |keys| ==> keys[i] in counts
    ensures |rows| == |keys| && forall i :: 0 <= i < |keys| ==> rows[i] == Row(keys[i], counts[keys[i]])
  {
    seq(|keys|, i requires 0 <= i < |keys| && keys[i] in counts => Row(keys[i], counts[keys[i]]))
  }

  /** Moves `a[i]` left past every element of the sorted prefix `a[..i]`
      whose key exceeds its own. */
  method InsertInto(a: array<Row>, i: int, key: Row -> int)
    requires 0 <= i < a.Length
    modifies a
    ensures a[..i + 1] == InsertSorted(old(a[..i]), old(a[i]), key)
    ensures forall k :: i < k < a.Length ==> a[k] == old(a[k])
  {
    var x := a[i];
    ghost var t := a[..i];
    var j := i;
    while j > 0 && key(a[j - 1]) > key(x)
      invariant 0 <= j <= i
      invariant forall k :: 0 <= k < j ==> a[k] == t[k]
      invariant forall k :: j < k <= i ==> a[k] == t[k - 1]
      invariant forall k :: i < k < a.Length ==> a[k] == old(a[k])
      invariant forall k :: j <= k < i ==> key(t[k]) > key(x)
    {
      a[j] := a[j - 1];
      j := j - 1;
    }
    a[j] := x;
    InsertedAt(t, x, key, j, a[..i + 1]);
  }

  /** `data.sort(...)` with a comparator `key(a) - key(b)`: an insertion
      sort in place, which leaves the array as the stable sort by key. */
  method SortRows(a: array<Row>, key: Row -> int)
    modifies a
    ensures a[..] == SortBy(old(a[..]), key)
  {
    ghost var s := a[..];
    var i := 0;
    while i < a.Length
      invariant 0 <= i <= a.Length
      invariant a[..i] == SortBy(s[..i], key)
      invariant forall k :: i <= k < a.Length ==> a[k] == s[k]
    {
      InsertInto(a, i, key);
      SortByPrefix(s, i, key);
      i := i + 1;
    }
    assert s[..a.Length] == s;
  }

  /** `answer.forEach(...)` over the labels `keys`: one count each. */
  method CountLabels(keys: seq<string>, counts: map<string, int>, order: seq<string>, total: int, ghost seen: seq<string>)
    returns (counts': map<string, int>, order': seq<string>, total': int)
    requires Tallies(counts, order, total, seen)
    ensures Tallies(counts', order', total', seen + keys)
  {
    counts', order', total' := counts, order, total;
    var j := 0;
    ghost var done := seen;
    while j < |keys|
      invariant 0 <= j <= |keys|
      invariant done + keys[j..] == seen + keys
      invariant Tallies(counts', order', total', done)
    {
      counts', order', total' := CountLabel(counts', order', total', keys[j], done);
      assert keys[j..] == [keys[j]] + keys[j + 1..];
      done := done + [keys[j]];
      j := j + 1;
    }
    assert done == seen + keys;
  }

  /** The body of the `responses.forEach` loop for one answer: nothing for
      a missing or null answer, one count per element of an array, and one
      count otherwise. */
  method CountAnswer(q: QuestionConfig, answer: Option<Json>,
                     counts: map<string, int>, order: seq<string>, total: int, ghost seen: seq<string>)
    returns (counts': map<string, int>, order': seq<string>, total': int)
    requires Tallies(counts, order, total, seen)
    ensures Tallies(counts', order', total', seen + AnswerLabels(q, answer))
  {
    ghost var labels := AnswerLabels(q, answer);
    counts', order', total' := counts, order, total;
    if answer.None? || answer.value.JNull? {
      assert seen + labels == seen;
    } else if answer.value.JArr? {
      var es := answer.value.elems;
      var keys := seq(|es|, i requires 0 <= i < |es| => ToStr(es[i]));
      assert keys == labels;
      counts', order', total' := CountLabels(keys, counts', order', total', seen);
    } else {
      var key := ToStr(answer.value);
      if q.qtype == YesNo {
        key := if Truthy(answer.value) then Yes else No;
      }
      assert labels == [key];
      counts', order', total' := CountLabel(counts', order', total', key, seen);
    }
  }

  /** The `responses.forEach` loop of `getChartData`: `counts` maps each
      label to its number of occurrences, `order` lists the keys of `counts`
      in insertion order, and `total` is the number of labels counted. */
  method CountAnswers(q: QuestionConfig, responses: seq<Response>)
    returns (counts: map<string, int>, order: seq<string>, total: int)
    ensures counts == CountMap(ChartLabels(q, responses))
    ensures order == FirstOccurrences(ChartLabels(q, responses))
    ensures total == |ChartLabels(q, responses)|
  {
    counts, order, total := map[], [], 0;
    var i := 0;
    while i < |responses|
      invariant 0 <= i <= |responses|
      invariant Tallies(counts, order, total, ChartLabels(q, responses[..i]))
    {
      assert responses[..i + 1][..i] == responses[..i];
      assert ChartLabels(q, responses[..i + 1])
        == ChartLabels(q, responses[..i]) + AnswerLabels(q, AnswerTo(responses[i], q.id));
      counts, order, total := CountAnswer(q, AnswerTo(responses[i], q.id), counts, order, total,
                                          ChartLabels(q, responses[..i]));
      i := i + 1;
    }
    assert responses[..|responses|] == responses;
  }

  /** The rows `Object.entries(counts).map(...)` builds from the loop's
      results are the label rows of the answers. */
  lemma EntryRowsAreLabelRows(labels: seq<string>)
    ensures var order := Entries(FirstOccurrences(labels));
      && (forall k :: 0 <= k < |order| ==> order[k] in CountMap(labels))
      && EntryRows(order, CountMap(labels)) == LabelRows(labels)
  {
    var entries := Entries(FirstOccurrences(labels));
    forall k | 0 <= k < |entries| ensures entries[k] in CountMap(labels) {
      assert entries[k] in multiset(FirstOccurrences(labels));
    }
  }

  /** A fresh array holding `rows`, as `.map(...)` creates. */
  method NewArray(rows: seq<Row>) returns (a: array<Row>)
    ensures fresh(a) && a[..] == rows
  {
    a := new Row[|rows|](k requires 0 <= k < |rows| => rows[k]);
  }

  /** `getChartData(question, responses)`: the counting loop, then the
      rows in `Object.entries` order, sorted in place. It returns the chart
      rows and `total`. */
  method GetChartData(q: QuestionConfig, responses: seq<Response>) returns (data: seq<Row>, total: int)
    ensures data == ChartData(q, responses)
    ensures total == |ChartLabels(q, responses)|
  {
    var counts, order;
    counts, order, total := CountAnswers(q, responses);
    ghost var labels := ChartLabels(q, responses);
    EntryRowsAreLabelRows(labels);
    var rows := EntryRows(Entries(order), counts);
    assert rows == LabelRows(labels);
    var a := NewArray(rows);
    SortRows(a, SortKey(q));
    data := a[..];
  }
}
