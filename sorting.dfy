/**
 * What a call of `qsort` with a given comparator promises: the result is a
 * permutation of the input that is sorted under the comparator. `qsort` is
 * not stable, so nothing is said about the order of elements the comparator
 * calls equal. The model picks the result with `:|`; the lemma here shows that
 * such a result always exists when the comparator is a total preorder.
 */
module Sorting {

  ghost predicate TotalPreorder<T(!new)>(le: (T, T) -> bool) {
    && (forall a, b :: le(a, b) || le(b, a))
    && (forall a, b, c :: le(a, b) && le(b, c) ==> le(a, c))
  }

  predicate SortedBy<T>(le: (T, T) -> bool, s: seq<T>) {
    forall i, j :: 0 <= i < j < |s| ==> le(s[i], s[j])
  }

  /** A possible outcome of `qsort(s, le)`. */
  predicate IsSortOf<T(==)>(le: (T, T) -> bool, s: seq<T>, t: seq<T>) {
    SortedBy(le, t) && multiset(t) == multiset(s)
  }

  function Insert<T>(le: (T, T) -> bool, x: T, s: seq<T>): seq<T> {
    if s == [] || le(x, s[0]) then [x] + s else [s[0]] + Insert(le, x, s[1..])
  }

  function InsertionSort<T>(le: (T, T) -> bool, s: seq<T>): seq<T> {
    if s == [] then [] else Insert(le, s[0], InsertionSort(le, s[1..]))
  }

  lemma {:induction false} InsertKeepsOrder<T(!new)>(le: (T, T) -> bool, x: T, s: seq<T>)
    requires TotalPreorder(le) && SortedBy(le, s)
    ensures |Insert(le, x, s)| == |s| + 1
    ensures Insert(le, x, s)[0] == x || (s != [] && Insert(le, x, s)[0] == s[0])
    ensures SortedBy(le, Insert(le, x, s))
    ensures multiset(Insert(le, x, s)) == multiset(s) + multiset{x}
  {
    if s == [] || le(x, s[0]) {
      if s != [] {
        var r := [x] + s;
        forall i, j | 0 <= i < j < |r| ensures le(r[i], r[j]) {
          if i == 0 && j > 1 {
            assert le(x, s[0]) && le(s[0], s[j - 1]);
          }
        }
      }
    } else {
      var rest := Insert(le, x, s[1..]);
      InsertKeepsOrder(le, x, s[1..]);
      assert s == [s[0]] + s[1..];
      assert le(s[0], rest[0]) by {
        if |s| > 1 { assert le(s[0], s[1]); }
      }
      var r := [s[0]] + rest;
      forall i, j | 0 <= i < j < |r| ensures le(r[i], r[j]) {
        if i == 0 {
          if j > 1 {
            assert le(rest[0], rest[j - 1]);
          }
        } else {
          assert r[i] == rest[i - 1] && r[j] == rest[j - 1];
        }
      }
    }
  }

  lemma {:induction false} InsertionSortSorts<T(!new)>(le: (T, T) -> bool, s: seq<T>)
    requires TotalPreorder(le)
    ensures IsSortOf(le, s, InsertionSort(le, s))
  {
    if s != [] {
      InsertionSortSorts(le, s[1..]);
      InsertKeepsOrder(le, s[0], InsertionSort(le, s[1..]));
      assert s == [s[0]] + s[1..];
    }
  }

  /** Taking the last element out of `a` and an equal element out of `b`
      leaves two sequences that are still permutations of each other. */
  lemma PermutationRemove<T>(a: seq<T>, b: seq<T>, j: nat)
    requires |a| > 0 && j < |b| && multiset(a) == multiset(b) && a[|a| - 1] == b[j]
    ensures multiset(a[..|a| - 1]) == multiset(b[..j] + b[j + 1..])
  {
    var n := |a| - 1;
    var x := a[n];
    var rest := b[..j] + b[j + 1..];
    assert a == a[..n] + [x];
    assert b == b[..j] + [x] + b[j + 1..];
    assert multiset(a) == multiset(a[..n]) + multiset{x};
    assert multiset(b) == multiset(b[..j]) + multiset{x} + multiset(b[j + 1..]);
    assert multiset(rest) == multiset(b[..j]) + multiset(b[j + 1..]);
    forall y ensures multiset(a[..n])[y] == multiset(rest)[y] {
      assert multiset(a)[y] == multiset(a[..n])[y] + multiset{x}[y];
      assert multiset(b)[y] == multiset(rest)[y] + multiset{x}[y];
    }
  }

  /** `qsort` always has an outcome. */
  lemma SortExists<T(!new)>(le: (T, T) -> bool, s: seq<T>)
    requires TotalPreorder(le)
    ensures exists t :: IsSortOf(le, s, t)
  {
    InsertionSortSorts(le, s);
  }
}
