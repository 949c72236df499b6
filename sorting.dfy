/**
 * Insertion sort by a caller-given order: what an SQL `ORDER BY` produces.
 * Only a permutation and sortedness are stated; the order of tied rows is not.
 */
module Sorting {

  ghost predicate Total<T(!new)>(before: (T, T) -> bool) {
    forall a, b :: before(a, b) || before(b, a)
  }

  ghost predicate Transitive<T(!new)>(before: (T, T) -> bool) {
    forall a, b, c :: before(a, b) && before(b, c) ==> before(a, c)
  }

  /** Every earlier element comes `before` every later one. */
  predicate SortedBy<T>(s: seq<T>, before: (T, T) -> bool) {
    forall i, j :: 0 <= i < j < |s| ==> before(s[i], s[j])
  }

  function InsertBy<T>(x: T, s: seq<T>, before: (T, T) -> bool): (r: seq<T>)
    ensures multiset(r) == multiset(s) + multiset{x}
    ensures |r| == |s| + 1
  {
    if s == [] then [x]
    else if before(x, s[0]) then [x] + s
    else
      assert s == [s[0]] + s[1..];
      [s[0]] + InsertBy(x, s[1..], before)
  }

  /** The rows of `s`, rearranged; a permutation of `s`. */
  function SortBy<T>(s: seq<T>, before: (T, T) -> bool): (r: seq<T>)
    ensures multiset(r) == multiset(s)
    ensures |r| == |s|
  {
    if s == [] then []
    else
      assert s == [s[0]] + s[1..];
      InsertBy(s[0], SortBy(s[1..], before), before)
  }

  /** An element that comes `before` all of a sorted sequence can head it. */
  lemma ConsSorted<T>(y: T, s: seq<T>, before: (T, T) -> bool)
    requires SortedBy(s, before)
    requires forall k :: 0 <= k < |s| ==> before(y, s[k])
    ensures SortedBy([y] + s, before)
  {
    var r := [y] + s;
    forall i, j | 0 <= i < j < |r| ensures before(r[i], r[j]) {
      assert r[j] == s[j - 1];
      if i > 0 {
        assert r[i] == s[i - 1];
      }
    }
  }

  /** A lower bound of `x` and of every element of `s` bounds the insertion too. */
  lemma LowerBoundInsert<T>(y: T, x: T, s: seq<T>, before: (T, T) -> bool)
    requires before(y, x)
    requires forall k :: 0 <= k < |s| ==> before(y, s[k])
    ensures forall k :: 0 <= k < |InsertBy(x, s, before)| ==> before(y, InsertBy(x, s, before)[k])
  {
    var r := InsertBy(x, s, before);
    forall k | 0 <= k < |r| ensures before(y, r[k]) {
      var z := r[k];
      assert z in multiset(r);
      assert z in multiset(s) + multiset{x};
      if z != x {
        assert z in s;
      }
    }
  }

  lemma {:induction false} InsertBySorted<T(!new)>(x: T, s: seq<T>, before: (T, T) -> bool)
    requires Total(before) && Transitive(before)
    requires SortedBy(s, before)
    ensures SortedBy(InsertBy(x, s, before), before)
  {
    if s == [] {
    } else if before(x, s[0]) {
      forall k | 0 <= k < |s| ensures before(x, s[k]) {
        if k > 0 {
          assert before(s[0], s[k]);
        }
      }
      ConsSorted(x, s, before);
    } else {
      var rest := s[1..];
      InsertBySorted(x, rest, before);
      assert before(s[0], x);
      assert forall k :: 0 <= k < |rest| ==> rest[k] == s[k + 1];
      LowerBoundInsert(s[0], x, rest, before);
      ConsSorted(s[0], InsertBy(x, rest, before), before);
    }
  }

  lemma {:induction false} SortBySorted<T(!new)>(s: seq<T>, before: (T, T) -> bool)
    requires Total(before) && Transitive(before)
    ensures SortedBy(SortBy(s, before), before)
  {
    if s != [] {
      SortBySorted(s[1..], before);
      InsertBySorted(s[0], SortBy(s[1..], before), before);
    }
  }
}
