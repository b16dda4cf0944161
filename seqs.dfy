/** Sequence operations the dashboards rely on: `Array.prototype.filter`
    (order-preserving selection) and the stable `Array.prototype.sort`
    driven by a comparator of the form `key(a) - key(b)`. */
module Seqs {

  /** `s.filter(p)`: the elements satisfying `p`, in their original order. */
  function Select<T>(s: seq<T>, p: T -> bool): (r: seq<T>)
    ensures |r| <= |s|
    ensures forall i :: 0 <= i < |r| ==> r[i] in s && p(r[i])
    ensures forall i :: 0 <= i < |s| && p(s[i]) ==> s[i] in r
    decreases |s|
  {
    if s == [] then []
    else Select(s[..|s| - 1], p) + (if p(s[|s| - 1]) then [s[|s| - 1]] else [])
  }

  /** The complement of a predicate, as a value that can be passed to Select. */
  function Not<T>(p: T -> bool): T -> bool {
    x => !p(x)
  }

  /** The predicate "has key k". */
  function HasKey<T>(key: T -> int, k: int): T -> bool {
    x => key(x) == k
  }

  lemma SelectSnoc<T>(s: seq<T>, y: T, p: T -> bool)
    ensures Select(s + [y], p) == Select(s, p) + (if p(y) then [y] else [])
  {
    assert (s + [y])[..|s|] == s;
  }

  lemma {:induction false} SelectAppend<T>(a: seq<T>, b: seq<T>, p: T -> bool)
    ensures Select(a + b, p) == Select(a, p) + Select(b, p)
    decreases |b|
  {
    if b == [] {
      assert a + b == a;
    } else {
      var b' := b[..|b| - 1];
      assert (a + b)[..|a + b| - 1] == a + b';
      SelectAppend(a, b', p);
    }
  }

  /** Selecting by a predicate every element satisfies keeps them all. */
  lemma {:induction false} SelectAll<T>(s: seq<T>, p: T -> bool)
    requires forall i :: 0 <= i < |s| ==> p(s[i])
    ensures Select(s, p) == s
    decreases |s|
  {
    if s != [] {
      SelectAll(s[..|s| - 1], p);
      assert s == s[..|s| - 1] + [s[|s| - 1]];
    }
  }

  /** Selecting by two predicates that agree everywhere gives the same. */
  lemma {:induction false} SelectSame<T>(s: seq<T>, p: T -> bool, q: T -> bool)
    requires forall x :: p(x) == q(x)
    ensures Select(s, p) == Select(s, q)
    decreases |s|
  {
    if s != [] {
      SelectSame(s[..|s| - 1], p, q);
    }
  }

  /** Selecting by `p` and by its complement splits `s` into two parts whose
      multisets add up to that of `s`. */
  lemma {:induction false} SelectPartition<T>(s: seq<T>, p: T -> bool)
    ensures multiset(Select(s, p)) + multiset(Select(s, Not(p))) == multiset(s)
    decreases |s|
  {
    if s != [] {
      var s' := s[..|s| - 1];
      SelectPartition(s', p);
      assert s == s' + [s[|s| - 1]];
    }
  }

  /** Keys never decrease from left to right. */
  ghost predicate SortedBy<T>(s: seq<T>, key: T -> int) {
    forall i, j :: 0 <= i < j < |s| ==> key(s[i]) <= key(s[j])
  }

  /** No element occurs twice. */
  ghost predicate Distinct<T>(s: seq<T>) {
    forall i, j :: 0 <= i < j < |s| ==> s[i] != s[j]
  }

  /** The facts about `a + b` that follow from facts about its parts: the
      first |a| elements satisfy `p` and are ordered by `key`, the rest
      do not satisfy `p` and are `b`. */
  lemma AppendParts<T>(a: seq<T>, b: seq<T>, p: T -> bool, key: T -> int)
    requires forall i :: 0 <= i < |a| ==> p(a[i])
    requires forall i :: 0 <= i < |b| ==> !p(b[i])
    requires SortedBy(a, key)
    ensures var r := a + b;
      && (forall i :: 0 <= i < |a| ==> p(r[i]))
      && (forall i :: |a| <= i < |r| ==> !p(r[i]))
      && (forall i, j :: 0 <= i < j < |a| ==> key(r[i]) <= key(r[j]))
      && r[|a|..] == b
  {
    var r := a + b;
    assert forall i :: 0 <= i < |a| ==> r[i] == a[i];
    assert forall i :: |a| <= i < |r| ==> r[i] == b[i - |a|];
  }

  /** Inserts `x` into `t` after every trailing element whose key exceeds
      `key(x)` has been passed: `x` lands after all elements with a key
      at most its own, which is what keeps the sort stable. */
  function InsertSorted<T>(t: seq<T>, x: T, key: T -> int): (r: seq<T>)
    ensures |r| == |t| + 1
    decreases |t|
  {
    if t == [] || key(t[|t| - 1]) <= key(x) then t + [x]
    else
      assert t == t[..|t| - 1] + [t[|t| - 1]];
      InsertSorted(t[..|t| - 1], x, key) + [t[|t| - 1]]
  }

  /** Stable sort by ascending key: insertion sort, one element at a time
      from the left. */
  function SortBy<T>(s: seq<T>, key: T -> int): (r: seq<T>)
    ensures |r| == |s|
    decreases |s|
  {
    if s == [] then []
    else
      var s' := s[..|s| - 1];
      assert s == s' + [s[|s| - 1]];
      InsertSorted(SortBy(s', key), s[|s| - 1], key)
  }

  /** Inserting adds `x` and loses nothing. */
  lemma {:induction false} InsertSortedPerm<T>(t: seq<T>, x: T, key: T -> int)
    ensures multiset(InsertSorted(t, x, key)) == multiset(t) + multiset{x}
    decreases |t|
  {
    if t != [] && key(t[|t| - 1]) > key(x) {
      var t', last := t[..|t| - 1], t[|t| - 1];
      assert t == t' + [last];
      InsertSortedPerm(t', x, key);
    }
  }

  /** SortBy is a permutation of its input. */
  lemma {:induction false} SortByPerm<T>(s: seq<T>, key: T -> int)
    ensures multiset(SortBy(s, key)) == multiset(s)
    decreases |s|
  {
    if s != [] {
      var s' := s[..|s| - 1];
      assert s == s' + [s[|s| - 1]];
      SortByPerm(s', key);
      InsertSortedPerm(SortBy(s', key), s[|s| - 1], key);
    }
  }

  lemma {:induction false} InsertSortedSorted<T>(t: seq<T>, x: T, key: T -> int)
    requires SortedBy(t, key)
    ensures SortedBy(InsertSorted(t, x, key), key)
    decreases |t|
  {
    if t == [] || key(t[|t| - 1]) <= key(x) {
    } else {
      var t', last := t[..|t| - 1], t[|t| - 1];
      InsertSortedSorted(t', x, key);
      InsertSortedPerm(t', x, key);
      var u := InsertSorted(t', x, key);
      forall y | y in u ensures key(y) <= key(last) {
        assert y in multiset(u);
        if y != x {
          assert y in t';
        }
      }
    }
  }

  /** `x` lands at `j` when the key of `t[j - 1]` is at most its own and
      every key from `j` on exceeds it. */
  lemma {:induction false} InsertSortedSplit<T>(t: seq<T>, x: T, key: T -> int, j: int)
    requires 0 <= j <= |t|
    requires j == 0 || key(t[j - 1]) <= key(x)
    requires forall k :: j <= k < |t| ==> key(t[k]) > key(x)
    ensures InsertSorted(t, x, key) == t[..j] + [x] + t[j..]
    decreases |t|
  {
    if j == |t| {
      assert t[..j] == t && t[j..] == [];
    } else {
      var t', last := t[..|t| - 1], t[|t| - 1];
      InsertSortedSplit(t', x, key, j);
      assert t'[..j] == t[..j];
      assert t'[j..] + [last] == t[j..];
    }
  }

  /** A sequence that agrees with `t` before `j`, holds `x` at `j` and
      agrees with `t` shifted by one after `j` is `t` with `x` spliced in. */
  lemma Spliced<T>(t: seq<T>, x: T, j: int, r: seq<T>)
    requires 0 <= j <= |t| && |r| == |t| + 1
    requires forall k :: 0 <= k < j ==> r[k] == t[k]
    requires r[j] == x
    requires forall k :: j < k < |r| ==> r[k] == t[k - 1]
    ensures r == t[..j] + [x] + t[j..]
  {
    var u := t[..j] + [x] + t[j..];
    forall k | 0 <= k < |r| ensures r[k] == u[k] {
      if k < j {
        assert u[k] == t[k];
      } else if k > j {
        assert u[k] == t[j..][k - j - 1];
      }
    }
  }

  /** A sequence laid out as `t` with `x` slotted in at `j`, where `j`
      is past every key no larger than `x`'s, is InsertSorted(t, x, key). */
  lemma InsertedAt<T>(t: seq<T>, x: T, key: T -> int, j: int, r: seq<T>)
    requires 0 <= j <= |t| && |r| == |t| + 1
    requires j == 0 || key(t[j - 1]) <= key(x)
    requires forall k :: j <= k < |t| ==> key(t[k]) > key(x)
    requires forall k :: 0 <= k < j ==> r[k] == t[k]
    requires r[j] == x
    requires forall k :: j < k < |r| ==> r[k] == t[k - 1]
    ensures r == InsertSorted(t, x, key)
  {
    Spliced(t, x, j, r);
    InsertSortedSplit(t, x, key, j);
  }


  /** Sorting one more element of `s` inserts it into the sorted prefix. */
  lemma SortByPrefix<T>(s: seq<T>, i: int, key: T -> int)
    requires 0 <= i < |s|
    ensures SortBy(s[..i + 1], key) == InsertSorted(SortBy(s[..i], key), s[i], key)
  {
    assert s[..i + 1][..i] == s[..i];
  }

  /** The result of SortBy is ordered by key. */
  lemma {:induction false} SortBySorted<T>(s: seq<T>, key: T -> int)
    ensures SortedBy(SortBy(s, key), key)
    decreases |s|
  {
    if s != [] {
      SortBySorted(s[..|s| - 1], key);
      InsertSortedSorted(SortBy(s[..|s| - 1], key), s[|s| - 1], key);
    }
  }

  /** Inserting `x` keeps the order of the elements with any one key:
      the elements `x` is moved past all have keys other than its own. */
  lemma {:induction false} InsertSortedStable<T>(t: seq<T>, x: T, key: T -> int, k: int)
    ensures Select(InsertSorted(t, x, key), HasKey(key, k)) == Select(t + [x], HasKey(key, k))
    decreases |t|
  {
    if t != [] && key(t[|t| - 1]) > key(x) {
      InsertSortedStable(t[..|t| - 1], x, key, k);
      InsertSortedStableStep(t[..|t| - 1], t[|t| - 1], x, key, k);
      assert t[..|t| - 1] + [t[|t| - 1]] == t;
    }
  }

  /** The step of InsertSortedStable: moving `x` past one element whose
      key exceeds its own. */
  lemma InsertSortedStableStep<T>(t: seq<T>, last: T, x: T, key: T -> int, k: int)
    requires key(last) > key(x)
    requires Select(InsertSorted(t, x, key), HasKey(key, k)) == Select(t + [x], HasKey(key, k))
    ensures Select(InsertSorted(t + [last], x, key), HasKey(key, k)) == Select(t + [last] + [x], HasKey(key, k))
  {
    var p := HasKey(key, k);
    var u := InsertSorted(t, x, key);
    var xs: seq<T> := if p(x) then [x] else [];
    var ls: seq<T> := if p(last) then [last] else [];
    assert (t + [last])[..|t|] == t;
    assert InsertSorted(t + [last], x, key) == u + [last];
    SelectSnoc(u, last, p);
    SelectSnoc(t, x, p);
    SelectSnoc(t, last, p);
    SelectSnoc(t + [last], x, p);
    assert p(x) == (key(x) == k) && p(last) == (key(last) == k);
    assert xs == [] || ls == [];
    SwapEmpty(Select(t, p), xs, ls);
  }

  lemma SwapEmpty<T>(a: seq<T>, xs: seq<T>, ys: seq<T>)
    requires xs == [] || ys == []
    ensures a + xs + ys == a + ys + xs
  {
    if xs == [] {
      assert a + xs == a;
    } else {
      assert a + ys == a;
    }
  }

  /** Stability: among elements sharing a key, SortBy keeps the input order. */
  lemma {:induction false} SortByStable<T>(s: seq<T>, key: T -> int, k: int)
    ensures Select(SortBy(s, key), HasKey(key, k)) == Select(s, HasKey(key, k))
    decreases |s|
  {
    if s != [] {
      var s', x := s[..|s| - 1], s[|s| - 1];
      var p := HasKey(key, k);
      assert s == s' + [x];
      SortByStable(s', key, k);
      InsertSortedStable(SortBy(s', key), x, key, k);
      SelectSnoc(SortBy(s', key), x, p);
      SelectSnoc(s', x, p);
    }
  }

  lemma {:induction false} DistinctCounts<T>(s: seq<T>)
    requires Distinct(s)
    ensures forall x :: multiset(s)[x] <= 1
    decreases |s|
  {
    if s != [] {
      var s' := s[..|s| - 1];
      assert s == s' + [s[|s| - 1]];
      DistinctCounts(s');
    }
  }

  lemma CountsDistinct<T>(s: seq<T>)
    requires forall x :: multiset(s)[x] <= 1
    ensures Distinct(s)
  {
    forall i, j | 0 <= i < j < |s| ensures s[i] != s[j] {
      assert s == s[..j] + [s[j]] + s[j + 1..];
      assert s[i] in s[..j];
      assert multiset(s)[s[i]] >= multiset(s[..j])[s[i]] + multiset{s[j]}[s[i]];
    }
  }

  /** A permutation of a sequence without repetitions has none either. */
  lemma DistinctPermutation<T>(s: seq<T>, t: seq<T>)
    requires multiset(s) == multiset(t) && Distinct(s)
    ensures Distinct(t)
  {
    DistinctCounts(s);
    CountsDistinct(t);
  }

  /** The order in which an object lists its own properties: the elements
      whose key is an array index first, ascending by that index (stably),
      then every other element in creation order. */
  function IndexFirst<T>(s: seq<T>, isIndex: T -> bool, index: T -> int): (r: seq<T>)
    ensures multiset(r) == multiset(s)
  {
    SelectPartition(s, isIndex);
    SortByPerm(Select(s, isIndex), index);
    SortBy(Select(s, isIndex), index) + Select(s, Not(isIndex))
  }

  /** Sorting keeps a property every element has. */
  lemma SortByKeeps<T>(s: seq<T>, p: T -> bool, key: T -> int)
    requires forall i :: 0 <= i < |s| ==> p(s[i])
    ensures forall i :: 0 <= i < |SortBy(s, key)| ==> p(SortBy(s, key)[i])
  {
    var sorted := SortBy(s, key);
    SortByPerm(s, key);
    forall i | 0 <= i < |sorted| ensures p(sorted[i]) {
      assert sorted[i] in multiset(s);
      var j :| 0 <= j < |s| && s[j] == sorted[i];
    }
  }

  /** The elements selected by the complement of `p` fail `p`. */
  lemma SelectNot<T>(s: seq<T>, p: T -> bool)
    ensures var rest := Select(s, Not(p));
      forall i :: 0 <= i < |rest| ==> !p(rest[i])
  {
    var rest := Select(s, Not(p));
    forall i | 0 <= i < |rest| ensures !p(rest[i]) {
      assert Not(p)(rest[i]);
    }
  }

  /** The shape of `IndexFirst`: the first `n` elements are the index
      elements in ascending order, the rest are the other elements in
      their original order. */
  lemma IndexFirstOrder<T>(s: seq<T>, isIndex: T -> bool, index: T -> int)
    ensures var r := IndexFirst(s, isIndex, index); var n := |Select(s, isIndex)|;
      && (forall i :: 0 <= i < n ==> isIndex(r[i]))
      && (forall i :: n <= i < |r| ==> !isIndex(r[i]))
      && (forall i, j :: 0 <= i < j < n ==> index(r[i]) <= index(r[j]))
      && r[n..] == Select(s, Not(isIndex))
  {
    var idx := Select(s, isIndex);
    var sorted := SortBy(idx, index);
    SortBySorted(idx, index);
    SortByKeeps(idx, isIndex, index);
    SelectNot(s, isIndex);
    AppendParts(sorted, Select(s, Not(isIndex)), isIndex, index);
  }
}
