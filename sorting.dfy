/** Insertion sort by a strict "comes first" relation, the model of Python's `sorted` and
    `list.sort` for the orders the core uses (both are total on the distinct values sorted). */
module Sorting {

  /** Insert `x` before the first element that does not come before it. */
  function Insert<T(==)>(before: (T, T) -> bool, x: T, s: seq<T>): (r: seq<T>)
    ensures multiset(r) == multiset(s) + multiset{x}
  {
    if s == [] then [x]
    else if before(x, s[0]) then [x] + s
    else
      assert s == [s[0]] + s[1..];
      [s[0]] + Insert(before, x, s[1..])
  }

  function Sort<T(==)>(before: (T, T) -> bool, s: seq<T>): (r: seq<T>)
    ensures multiset(r) == multiset(s)
  {
    if s == [] then []
    else
      assert s == [s[0]] + s[1..];
      Insert(before, s[0], Sort(before, s[1..]))
  }

  /** Every element comes before every later one. */
  ghost predicate SortedBy<T>(before: (T, T) -> bool, s: seq<T>) {
    forall p, q :: 0 <= p < q < |s| ==> before(s[p], s[q])
  }

  /** No element occurs twice. */
  predicate Distinct<T(==)>(s: seq<T>) {
    forall p, q :: 0 <= p < q < |s| ==> s[p] != s[q]
  }

  /** `before` orders any two different values among `xs` one way, and is transitive on them. */
  ghost predicate TotalOn<T(!new)>(before: (T, T) -> bool, xs: set<T>) {
    && (forall a, b :: a in xs && b in xs && a != b ==> before(a, b) || before(b, a))
    && (forall a, b, c :: a in xs && b in xs && c in xs && before(a, b) && before(b, c) ==> before(a, c))
  }

  lemma {:induction false} InsertSorted<T(!new)>(before: (T, T) -> bool, xs: set<T>, x: T, s: seq<T>)
    requires TotalOn(before, xs)
    requires x in xs && x !in s && forall y :: y in s ==> y in xs
    requires SortedBy(before, s)
    ensures SortedBy(before, Insert(before, x, s))
    decreases |s|
  {
    if s != [] {
      if before(x, s[0]) {
        var r := [x] + s;
        forall q | 0 < q < |r| ensures before(r[0], r[q]) {
          if q > 1 {
            assert r[q] == s[q - 1] && s[q - 1] in s && s[0] in s;
          }
        }
      } else {
        var rest := Insert(before, x, s[1..]);
        assert s[0] in s;
        assert forall y :: y in s[1..] ==> y in s;
        InsertSorted(before, xs, x, s[1..]);
        var r := [s[0]] + rest;
        forall q | 0 < q < |r| ensures before(r[0], r[q]) {
          assert r[q] in multiset(rest);
          if r[q] != x {
            assert r[q] in s[1..];
            var q' :| 0 <= q' < |s[1..]| && s[1..][q'] == r[q];
            assert s[q' + 1] == r[q];
          }
        }
      }
    }
  }

  /** Sorting distinct values of a set on which `before` is total gives a sorted permutation. */
  lemma {:induction false} SortSorted<T(!new)>(before: (T, T) -> bool, xs: set<T>, s: seq<T>)
    requires TotalOn(before, xs)
    requires Distinct(s) && forall y :: y in s ==> y in xs
    ensures SortedBy(before, Sort(before, s))
    decreases |s|
  {
    if s != [] {
      var rest := Sort(before, s[1..]);
      assert forall y :: y in s[1..] ==> y in s;
      SortSorted(before, xs, s[1..]);
      assert s[0] !in s[1..] by {
        forall k | 0 <= k < |s| - 1 ensures s[1..][k] != s[0] {
          assert s[1..][k] == s[k + 1];
        }
      }
      assert s[0] !in multiset(s[1..]);
      assert s[0] !in rest;
      assert s[0] in s;
      forall y | y in rest ensures y in xs {
        assert y in multiset(rest);
        assert y in s[1..];
      }
      InsertSorted(before, xs, s[0], rest);
    }
  }
}
