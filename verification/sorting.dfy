/**
 * A stable sort by a comparator. It stands for Python's `list.sort(key=...)` and for the
 * database's `order_by(...)`: both return the same rows, ordered by a total preorder.
 */
module Sorting {

  /** `le` is total and transitive, as every key comparison of the source is. */
  ghost predicate TotalPreorder<T(!new)>(le: (T, T) -> bool) {
    && (forall a, b :: le(a, b) || le(b, a))
    && (forall a, b, c :: le(a, b) && le(b, c) ==> le(a, c))
  }

  ghost predicate Sorted<T>(s: seq<T>, le: (T, T) -> bool) {
    forall i, j :: 0 <= i < j < |s| ==> le(s[i], s[j])
  }

  /** Puts `x` in front of the first element it is not after; equal elements keep their order. */
  function Insert<T>(x: T, s: seq<T>, le: (T, T) -> bool): (r: seq<T>)
    ensures |r| == |s| + 1
    ensures multiset(r) == multiset(s) + multiset{x}
  {
    if s == [] then [x]
    else if le(x, s[0]) then [x] + s
    else
      assert s == [s[0]] + s[1..];
      [s[0]] + Insert(x, s[1..], le)
  }

  /** Insertion sort: a permutation of `s` that is sorted when `le` is a total preorder. */
  function Sort<T>(s: seq<T>, le: (T, T) -> bool): (r: seq<T>)
    ensures |r| == |s|
    ensures multiset(r) == multiset(s)
  {
    if s == [] then []
    else
      assert s == [s[0]] + s[1..];
      Insert(s[0], Sort(s[1..], le), le)
  }

  lemma {:induction false} InsertSorted<T(!new)>(x: T, s: seq<T>, le: (T, T) -> bool)
    requires TotalPreorder(le) && Sorted(s, le)
    ensures Sorted(Insert(x, s, le), le)
  {
    if s != [] && !le(x, s[0]) {
      InsertSorted(x, s[1..], le);
      var r := Insert(x, s[1..], le);
      forall k | 0 <= k < |r| ensures le(s[0], r[k]) {
        assert r[k] in multiset(r);
        if r[k] != x {
          assert r[k] in multiset(s[1..]);
          var m :| 0 <= m < |s[1..]| && s[1..][m] == r[k];
          assert s[1..][m] == s[m + 1];
        }
      }
    }
  }

  lemma {:induction false} SortSorted<T(!new)>(s: seq<T>, le: (T, T) -> bool)
    requires TotalPreorder(le)
    ensures Sorted(Sort(s, le), le)
  {
    if s != [] {
      SortSorted(s[1..], le);
      InsertSorted(s[0], Sort(s[1..], le), le);
    }
  }

  /** No element occurs twice. */
  predicate Distinct<T(==)>(s: seq<T>) {
    forall i, j :: 0 <= i < j < |s| ==> s[i] != s[j]
  }

  /**
   * Taking the last element off one of two permutations and an equal element off the
   * other leaves permutations.
   */
  lemma RemoveOneKeepsRest<T>(s: seq<T>, t: seq<T>, j: nat)
    requires s != [] && multiset(s) == multiset(t) && j < |t| && t[j] == s[|s| - 1]
    ensures multiset(s[..|s| - 1]) == multiset(t[..j] + t[j + 1..])
  {
    var n := |s| - 1;
    var x := s[n];
    assert t == t[..j] + [x] + t[j + 1..];
    assert s == s[..n] + [x];
    var rest := t[..j] + t[j + 1..];
    assert multiset(t) == multiset(t[..j]) + multiset([x]) + multiset(t[j + 1..]);
    assert multiset(rest) == multiset(t[..j]) + multiset(t[j + 1..]);
    assert multiset(s) == multiset(s[..n]) + multiset([x]);
    forall y ensures multiset(rest)[y] == multiset(s[..n])[y] {
      assert (multiset(rest) + multiset([x]))[y] == (multiset(s[..n]) + multiset([x]))[y];
    }
  }

  /** In a sequence without repetitions every element occurs at most once. */
  lemma {:induction false} DistinctOccursOnce<T>(s: seq<T>, x: T)
    requires Distinct(s)
    ensures multiset(s)[x] <= 1
    decreases |s|
  {
    if s != [] {
      var n := |s| - 1;
      assert s == s[..n] + [s[n]];
      assert Distinct(s[..n]);
      DistinctOccursOnce(s[..n], x);
      if s[n] == x {
        assert x !in s[..n];
      }
    }
  }

  /** A reordering of a sequence without repetitions has none either, and the same elements. */
  lemma DistinctPermutation<T>(s: seq<T>, t: seq<T>)
    requires Distinct(s) && multiset(s) == multiset(t)
    ensures Distinct(t)
    ensures forall x :: x in s <==> x in t
  {
    forall i, j | 0 <= i < j < |t|
      ensures t[i] != t[j]
    {
      if t[i] == t[j] {
        var x := t[i];
        assert t == t[..j] + [x] + t[j + 1..];
        assert x in t[..j];
        assert multiset(t)[x] >= 2;
        DistinctOccursOnce(s, x);
        assert false;
      }
    }
    forall x
      ensures x in s <==> x in t
    {
      assert x in s <==> x in multiset(s);
      assert x in t <==> x in multiset(t);
    }
  }
}
