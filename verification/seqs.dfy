/** Order-preserving filtering of sequences, the model of a Python list comprehension with an `if`. */
module Seqs {

  /** `xs` is strictly ascending when each element is ranked by `rank`. */
  ghost predicate AscendingBy<T>(xs: seq<T>, rank: T -> int) {
    forall i, j :: 0 <= i < j < |xs| ==> rank(xs[i]) < rank(xs[j])
  }

  /** The elements of `xs` that `keep` accepts, in their original order. */
  function Filter<T(!new)>(xs: seq<T>, keep: T -> bool): (r: seq<T>)
    ensures |r| <= |xs|
    ensures forall x :: x in r <==> x in xs && keep(x)
    ensures forall x :: multiset(r)[x] == if keep(x) then multiset(xs)[x] else 0
  {
    if |xs| == 0 then []
    else
      var rest := Filter(xs[1..], keep);
      var head := if keep(xs[0]) then [xs[0]] else [];
      assert forall x :: x in xs <==> x == xs[0] || x in xs[1..] by {
        assert xs == [xs[0]] + xs[1..];
      }
      assert multiset(xs) == multiset{xs[0]} + multiset(xs[1..]) by {
        assert xs == [xs[0]] + xs[1..];
      }
      assert multiset(head + rest) == multiset(head) + multiset(rest);
      head + rest
  }

  /** A list strictly ascending by `rank` stays strictly ascending by `rank` after filtering. */
  lemma {:induction false} FilterAscending<T(!new)>(xs: seq<T>, keep: T -> bool, rank: T -> int)
    requires AscendingBy(xs, rank)
    ensures AscendingBy(Filter(xs, keep), rank)
  {
    if |xs| > 0 {
      var rest := Filter(xs[1..], keep);
      assert AscendingBy(xs[1..], rank) by {
        forall i, j | 0 <= i < j < |xs[1..]|
          ensures rank(xs[1..][i]) < rank(xs[1..][j])
        {
          assert xs[1..][i] == xs[i + 1] && xs[1..][j] == xs[j + 1];
        }
      }
      FilterAscending(xs[1..], keep, rank);
      assert Filter(xs, keep) == (if keep(xs[0]) then [xs[0]] else []) + rest;
      if keep(xs[0]) {
        forall y | y in rest
          ensures rank(xs[0]) < rank(y)
        {
          var m :| 0 <= m < |xs[1..]| && xs[1..][m] == y;
          assert y == xs[m + 1];
        }
        ConsAscending(xs[0], rest, rank);
      } else {
        assert [] + rest == rest;
      }
    }
  }

  /** A head ranked below everything after it extends an ascending list. */
  lemma ConsAscending<T>(x: T, xs: seq<T>, rank: T -> int)
    requires AscendingBy(xs, rank)
    requires forall y :: y in xs ==> rank(x) < rank(y)
    ensures AscendingBy([x] + xs, rank)
  {
    var r := [x] + xs;
    forall i, j | 0 <= i < j < |r|
      ensures rank(r[i]) < rank(r[j])
    {
      assert r[j] == xs[j - 1];
      if i > 0 {
        assert r[i] == xs[i - 1];
      }
    }
  }

  /** Two sequences strictly ascending by the same rank and holding the same elements are equal:
      membership and order determine a filter's result completely. */
  lemma {:induction false} AscendingUnique<T>(a: seq<T>, b: seq<T>, rank: T -> int)
    requires AscendingBy(a, rank) && AscendingBy(b, rank)
    requires forall x :: x in a <==> x in b
    ensures a == b
  {
    assert |b| > 0 ==> b[0] in a;
    assert |a| > 0 ==> a[0] in b;
    if |a| > 0 {
      // Both heads are the least-ranked element of the common set.
      assert a[0] in b && b[0] in a;
      var k :| 0 <= k < |b| && b[k] == a[0];
      var m :| 0 <= m < |a| && a[m] == b[0];
      assert rank(b[0]) <= rank(b[k]) && rank(a[0]) <= rank(a[m]);
      assert k == 0;
      assert AscendingBy(a[1..], rank) by {
        forall i, j | 0 <= i < j < |a[1..]|
          ensures rank(a[1..][i]) < rank(a[1..][j])
        {
          assert a[1..][i] == a[i + 1] && a[1..][j] == a[j + 1];
        }
      }
      assert AscendingBy(b[1..], rank) by {
        forall i, j | 0 <= i < j < |b[1..]|
          ensures rank(b[1..][i]) < rank(b[1..][j])
        {
          assert b[1..][i] == b[i + 1] && b[1..][j] == b[j + 1];
        }
      }
      forall x
        ensures x in a[1..] <==> x in b[1..]
      {
        if x in a[1..] {
          var i :| 0 <= i < |a[1..]| && a[1..][i] == x;
          assert a[i + 1] == x && rank(a[0]) < rank(x);
          assert x in b;
          var j :| 0 <= j < |b| && b[j] == x;
          assert j != 0;
          assert b[1..][j - 1] == x;
        }
        if x in b[1..] {
          var j :| 0 <= j < |b[1..]| && b[1..][j] == x;
          assert b[j + 1] == x && rank(b[0]) < rank(x);
          assert x in a;
          var i :| 0 <= i < |a| && a[i] == x;
          assert i != 0;
          assert a[1..][i - 1] == x;
        }
      }
      AscendingUnique(a[1..], b[1..], rank);
      assert a == [a[0]] + a[1..] && b == [b[0]] + b[1..];
    }
  }
}
