/** `Array.prototype.sort` with a numeric comparator `(a, b) => rank(a) - rank(b)`:
    a stable sort into non-decreasing rank. Descending orders in the source are
    comparators of the form `key(b) - key(a)`, i.e. the rank `-key`.
    The functional `Sort` is the specification; `SortInPlace` is the in-place
    insertion sort proved to compute it, and `SortedCopy` is `[...s].sort(cmp)`. */
module StableSort {

  /** Non-decreasing under the rank `f`. */
  ghost predicate SortedBy<T>(s: seq<T>, f: T -> real) {
    forall i, j :: 0 <= i < j < |s| ==> f(s[i]) <= f(s[j])
  }

  /** Inserts `x` into `t` after every element whose rank is at most `f(x)`
      (scanning from the right, as insertion sort does). */
  function Insert<T>(t: seq<T>, x: T, f: T -> real): (r: seq<T>)
    ensures |r| == |t| + 1
    decreases |t|
  {
    if t == [] || f(t[|t| - 1]) <= f(x) then t + [x]
    else
      var prefix, last := t[..|t| - 1], t[|t| - 1];
      assert t == prefix + [last];
      Insert(prefix, x, f) + [last]
  }

  /** Insertion sort, one element at a time from the left. */
  function Sort<T>(s: seq<T>, f: T -> real): (r: seq<T>)
    ensures |r| == |s|
    decreases |s|
  {
    if s == [] then []
    else Insert(Sort(s[..|s| - 1], f), s[|s| - 1], f)
  }

  /** Inserting adds exactly `x`. */
  lemma {:induction false} InsertPermutes<T>(t: seq<T>, x: T, f: T -> real)
    ensures multiset(Insert(t, x, f)) == multiset(t) + multiset{x}
    decreases |t|
  {
    if t == [] || f(t[|t| - 1]) <= f(x) {
    } else {
      var prefix, last := t[..|t| - 1], t[|t| - 1];
      InsertPermutes(prefix, x, f);
      assert t == prefix + [last];
    }
  }

  /** Sorting is a permutation. */
  lemma {:induction false} SortPermutes<T>(s: seq<T>, f: T -> real)
    ensures multiset(Sort(s, f)) == multiset(s)
    decreases |s|
  {
    if s != [] {
      var prefix := s[..|s| - 1];
      SortPermutes(prefix, f);
      InsertPermutes(Sort(prefix, f), s[|s| - 1], f);
      assert s == prefix + [s[|s| - 1]];
    }
  }

  lemma {:induction false} InsertSorted<T>(t: seq<T>, x: T, f: T -> real)
    requires SortedBy(t, f)
    ensures SortedBy(Insert(t, x, f), f)
    decreases |t|
  {
    if t == [] || f(t[|t| - 1]) <= f(x) {
    } else {
      var prefix, last := t[..|t| - 1], t[|t| - 1];
      InsertSorted(prefix, x, f);
      InsertPermutes(prefix, x, f);
      var r := Insert(prefix, x, f);
      forall y | y in r ensures f(y) <= f(last) {
        assert y in multiset(r);
        if y != x {
          assert y in multiset(prefix);
          var k :| 0 <= k < |prefix| && prefix[k] == y;
          assert t[k] == y;
        }
      }
      assert forall i :: 0 <= i < |r| ==> r[i] in r;
    }
  }

  /** The result of `Sort` is ordered by rank. */
  lemma {:induction false} SortIsSorted<T>(s: seq<T>, f: T -> real)
    ensures SortedBy(Sort(s, f), f)
    decreases |s|
  {
    if s != [] {
      SortIsSorted(s[..|s| - 1], f);
      InsertSorted(Sort(s[..|s| - 1], f), s[|s| - 1], f);
    }
  }

  /** The subsequence of `s` whose rank is exactly `k`. */
  function WithRank<T>(s: seq<T>, f: T -> real, k: real): seq<T>
    decreases |s|
  {
    if s == [] then []
    else WithRank(s[..|s| - 1], f, k) + (if f(s[|s| - 1]) == k then [s[|s| - 1]] else [])
  }

  lemma {:induction false} WithRankInsert<T>(t: seq<T>, x: T, f: T -> real, k: real)
    requires SortedBy(t, f)
    ensures WithRank(Insert(t, x, f), f, k) == WithRank(t, f, k) + (if f(x) == k then [x] else [])
    decreases |t|
  {
    if t == [] || f(t[|t| - 1]) <= f(x) {
      assert (t + [x])[..|t|] == t;
    } else {
      var prefix, last := t[..|t| - 1], t[|t| - 1];
      WithRankInsert(prefix, x, f, k);
      var r := Insert(prefix, x, f);
      assert (r + [last])[..|r|] == r;
    }
  }

  /** Stability: for every rank, the elements of that rank keep their input order. */
  lemma {:induction false} SortIsStable<T>(s: seq<T>, f: T -> real, k: real)
    ensures WithRank(Sort(s, f), f, k) == WithRank(s, f, k)
    decreases |s|
  {
    if s != [] {
      var prefix := s[..|s| - 1];
      SortIsStable(prefix, f, k);
      SortIsSorted(prefix, f);
      WithRankInsert(Sort(prefix, f), s[|s| - 1], f, k);
    }
  }

  /** Where insertion puts `x`: after the first `j` elements, when `t[j - 1]`
      does not outrank it and every later element does. */
  lemma {:induction false} InsertAt<T>(t: seq<T>, x: T, f: T -> real, j: nat)
    requires j <= |t| && (j == 0 || f(t[j - 1]) <= f(x))
    requires forall k :: j <= k < |t| ==> f(t[k]) > f(x)
    ensures Insert(t, x, f) == t[..j] + [x] + t[j..]
    decreases |t|
  {
    if j < |t| {
      var prefix := t[..|t| - 1];
      InsertAt(prefix, x, f, j);
      assert prefix[..j] == t[..j];
      assert t[j..] == prefix[j..] + [t[|t| - 1]];
    }
  }

  /** One pass of insertion sort: moves `a[i]` left past every element of
      greater rank, so that `a[..i + 1]` becomes `Insert(a[..i], a[i])`. */
  method InsertInPlace<T>(a: array<T>, i: nat, f: T -> real)
    requires i < a.Length
    modifies a
    ensures a[..i + 1] == Insert(old(a[..i]), old(a[i]), f)
    ensures forall k :: i < k < a.Length ==> a[k] == old(a[k])
  {
    ghost var t := a[..i];
    var x := a[i];
    var j := i;
    while j > 0 && f(a[j - 1]) > f(x)
      invariant 0 <= j <= i
      invariant forall k :: 0 <= k < j ==> a[k] == t[k]
      invariant forall k :: j < k <= i ==> a[k] == t[k - 1]
      invariant forall k :: j <= k < i ==> f(t[k]) > f(x)
      invariant forall k :: i < k < a.Length ==> a[k] == old(a[k])
    {
      a[j] := a[j - 1];
      j := j - 1;
    }
    a[j] := x;
    InsertAt(t, x, f, j);
    ghost var r := t[..j] + [x] + t[j..];
    forall k | 0 <= k <= i ensures a[k] == r[k] {
      if k > j {
        assert r[k] == t[k - 1];
      }
    }
    assert a[..i + 1] == r;
  }

  /** Sorting one more element inserts it into the sorted prefix. */
  lemma SortStep<T>(s: seq<T>, i: nat, f: T -> real)
    requires i < |s|
    ensures Sort(s[..i + 1], f) == Insert(Sort(s[..i], f), s[i], f)
  {
    assert s[..i + 1][..i] == s[..i];
  }

  /** Insertion sort of `a` in place. */
  method SortInPlace<T>(a: array<T>, f: T -> real)
    modifies a
    ensures a[..] == Sort(old(a[..]), f)
  {
    ghost var input := a[..];
    var i := 0;
    while i < a.Length
      invariant 0 <= i <= a.Length
      invariant a[..i] == Sort(input[..i], f)
      invariant forall k :: i <= k < a.Length ==> a[k] == input[k]
    {
      ghost var sorted := a[..i];
      ghost var x := a[i];
      InsertInPlace(a, i, f);
      assert a[..i + 1] == Insert(sorted, x, f);
      SortStep(input, i, f);
      i := i + 1;
    }
    assert a[..] == a[..a.Length];
    assert input[..a.Length] == input;
  }

  /** `[...s].sort(cmp)`: sorts a fresh copy, leaving `s` as it was. */
  method SortedCopy<T>(s: seq<T>, f: T -> real) returns (r: seq<T>)
    ensures r == Sort(s, f)
  {
    var a := new T[|s|](i requires 0 <= i < |s| => s[i]);
    assert a[..] == s;
    SortInPlace(a, f);
    r := a[..];
  }
}
