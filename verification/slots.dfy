/** Time slots of one date: strings kept strictly ascending, the way
    `Doctor.add_availability` keeps them with `sorted(list(set(...)))`. */
module Slots {

  /** Python's `<` on `str`: lexicographic by code point, a proper prefix first. */
  predicate Below(a: string, b: string)
    decreases |a|
  {
    if |a| == 0 then |b| > 0
    else if |b| == 0 then false
    else if a[0] != b[0] then a[0] < b[0]
    else Below(a[1..], b[1..])
  }

  lemma {:induction false} BelowIrreflexive(a: string)
    ensures !Below(a, a)
  {
    if |a| > 0 {
      BelowIrreflexive(a[1..]);
    }
  }

  lemma {:induction false} BelowTransitive(a: string, b: string, c: string)
    requires Below(a, b) && Below(b, c)
    ensures Below(a, c)
  {
    if |a| > 0 && a[0] == b[0] && b[0] == c[0] {
      BelowTransitive(a[1..], b[1..], c[1..]);
    }
  }

  lemma {:induction false} BelowTotal(a: string, b: string)
    requires a != b
    ensures Below(a, b) || Below(b, a)
  {
    if |a| > 0 && |b| > 0 && a[0] == b[0] {
      assert a == [a[0]] + a[1..] && b == [b[0]] + b[1..];
      BelowTotal(a[1..], b[1..]);
    }
  }

  lemma BelowAsymmetric(a: string, b: string)
    requires Below(a, b)
    ensures !Below(b, a)
  {
    if Below(b, a) {
      BelowTransitive(a, b, a);
      BelowIrreflexive(a);
    }
  }

  /** Ascending without repeats: the shape of every stored slot list. */
  predicate StrictlySorted(xs: seq<string>) {
    forall i, j :: 0 <= i < j < |xs| ==> Below(xs[i], xs[j])
  }

  /** Every later element of a strictly sorted list lies above its head. */
  lemma HeadBelowTail(xs: seq<string>, y: string)
    requires StrictlySorted(xs) && |xs| > 0 && y in xs[1..]
    ensures Below(xs[0], y)
  {
    var m :| 0 <= m < |xs[1..]| && xs[1..][m] == y;
    assert y == xs[m + 1];
  }

  lemma ConsSorted(x: string, xs: seq<string>)
    requires StrictlySorted(xs)
    requires forall y :: y in xs ==> Below(x, y)
    ensures StrictlySorted([x] + xs)
  {
    var r := [x] + xs;
    forall i, j | 0 <= i < j < |r|
      ensures Below(r[i], r[j])
    {
      assert r[j] == xs[j - 1];
      if i > 0 {
        assert r[i] == xs[i - 1];
      }
    }
  }

  lemma TailSorted(xs: seq<string>)
    requires StrictlySorted(xs) && |xs| > 0
    ensures StrictlySorted(xs[1..])
  {
    forall i, j | 0 <= i < j < |xs[1..]|
      ensures Below(xs[1..][i], xs[1..][j])
    {
      assert xs[1..][i] == xs[i + 1] && xs[1..][j] == xs[j + 1];
    }
  }

  /** Adds one slot to a strictly sorted list, keeping it strictly sorted. */
  function Insert(xs: seq<string>, x: string): (r: seq<string>)
    requires StrictlySorted(xs)
    ensures StrictlySorted(r)
    ensures forall y :: y in r <==> y in xs || y == x
  {
    if |xs| == 0 then [x]
    else if xs[0] == x then xs
    else if Below(x, xs[0]) then
      assert forall y :: y in xs ==> Below(x, y) by {
        forall y | y in xs
          ensures Below(x, y)
        {
          if y != xs[0] {
            assert y in xs[1..] by {
              assert xs == [xs[0]] + xs[1..];
            }
            HeadBelowTail(xs, y);
            BelowTransitive(x, xs[0], y);
          }
        }
      }
      ConsSorted(x, xs);
      [x] + xs
    else
      TailSorted(xs);
      var rest := Insert(xs[1..], x);
      assert forall y :: y in rest ==> Below(xs[0], y) by {
        forall y | y in rest
          ensures Below(xs[0], y)
        {
          if y == x {
            BelowTotal(x, xs[0]);
          } else {
            HeadBelowTail(xs, y);
          }
        }
      }
      ConsSorted(xs[0], rest);
      assert xs == [xs[0]] + xs[1..];
      [xs[0]] + rest
  }

  /** Python's `sorted(list(set(xs)))` on strings: each distinct element once, ascending. */
  function SortedSet(xs: seq<string>): (r: seq<string>)
    ensures StrictlySorted(r)
    ensures forall y :: y in r <==> y in xs
  {
    if |xs| == 0 then []
    else
      assert xs == xs[..|xs| - 1] + [xs[|xs| - 1]];
      Insert(SortedSet(xs[..|xs| - 1]), xs[|xs| - 1])
  }

  /** A strictly sorted list is determined by its elements: whichever way a sorted,
      duplicate-free list of a given set of slots is produced, it is this one. */
  lemma {:induction false} SortedUnique(a: seq<string>, b: seq<string>)
    requires StrictlySorted(a) && StrictlySorted(b)
    requires forall y :: y in a <==> y in b
    ensures a == b
  {
    assert |a| > 0 <==> |b| > 0 by {
      if |a| > 0 {
        assert a[0] in b;
      }
      if |b| > 0 {
        assert b[0] in a;
      }
    }
    if |a| > 0 {
      assert a[0] in b && b[0] in a;
      var k :| 0 <= k < |b| && b[k] == a[0];
      var m :| 0 <= m < |a| && a[m] == b[0];
      if k > 0 && m > 0 {
        BelowAsymmetric(a[0], a[m]);
      }
      assert k == 0 || m == 0;
      assert a[0] == b[0];
      TailSorted(a);
      TailSorted(b);
      forall y
        ensures y in a[1..] <==> y in b[1..]
      {
        assert a == [a[0]] + a[1..] && b == [b[0]] + b[1..];
        if y in a[1..] {
          HeadBelowTail(a, y);
          BelowIrreflexive(y);
          assert y != b[0] && y in b;
        }
        if y in b[1..] {
          HeadBelowTail(b, y);
          BelowIrreflexive(y);
          assert y != a[0] && y in a;
        }
      }
      SortedUnique(a[1..], b[1..]);
      assert a == [a[0]] + a[1..] && b == [b[0]] + b[1..];
    }
  }

  /** The list stored after `extend` and re-sorting: strictly sorted, holding exactly the
      previous slots and the added ones. */
  function AddSlots(existing: seq<string>, added: seq<string>): (r: seq<string>)
    ensures StrictlySorted(r)
    ensures forall y :: y in r <==> y in existing || y in added
  {
    SortedSet(existing + added)
  }

  /** The stored list is the unique sorted, duplicate-free list of the union. */
  lemma AddSlotsIsSortedUnion(existing: seq<string>, added: seq<string>, expected: seq<string>)
    requires StrictlySorted(expected)
    requires forall y :: y in expected <==> y in existing || y in added
    ensures AddSlots(existing, added) == expected
  {
    SortedUnique(AddSlots(existing, added), expected);
  }

  /** Adding the same slots a second time changes nothing. */
  lemma AddSlotsIdempotent(existing: seq<string>, added: seq<string>)
    ensures AddSlots(AddSlots(existing, added), added) == AddSlots(existing, added)
  {
    AddSlotsIsSortedUnion(AddSlots(existing, added), added, AddSlots(existing, added));
  }

  /** The position of the first occurrence of `x` (Python's `list.index(x)`). */
  function IndexOf(xs: seq<string>, x: string): (i: nat)
    requires x in xs
    ensures i < |xs| && xs[i] == x && x !in xs[..i]
  {
    if xs[0] == x then 0
    else
      assert x in xs[1..] by {
        assert xs == [xs[0]] + xs[1..];
      }
      var j := IndexOf(xs[1..], x);
      assert xs[..j + 1] == [xs[0]] + xs[1..][..j];
      j + 1
  }

  /** Python's `list.remove(x)`: drops the first occurrence of `x`, which must be present,
      and keeps the order of everything else. */
  function RemoveFirst(xs: seq<string>, x: string): (r: seq<string>)
    requires x in xs
    ensures r == xs[..IndexOf(xs, x)] + xs[IndexOf(xs, x) + 1..]
    ensures multiset(r) == multiset(xs) - multiset{x}
    ensures |r| == |xs| - 1
    ensures forall y :: y in r ==> y in xs
    ensures forall y :: y in xs && y != x ==> y in r
    ensures StrictlySorted(xs) ==> StrictlySorted(r) && x !in r
  {
    var i := IndexOf(xs, x);
    CutCount(xs, i);
    CutMembers(xs, i);
    CutSorted(xs, i);
    xs[..i] + xs[i + 1..]
  }

  /** Cutting position `i` out removes exactly one copy of `xs[i]`. */
  lemma CutCount(xs: seq<string>, i: nat)
    requires i < |xs|
    ensures multiset(xs[..i] + xs[i + 1..]) == multiset(xs) - multiset{xs[i]}
  {
    assert xs == xs[..i] + [xs[i]] + xs[i + 1..];
  }

  /** Cutting position `i` out keeps every other value of `xs` and adds none. */
  lemma CutMembers(xs: seq<string>, i: nat)
    requires i < |xs|
    ensures forall y :: y in xs[..i] + xs[i + 1..] ==> y in xs
    ensures forall y :: y in xs && y != xs[i] ==> y in xs[..i] + xs[i + 1..]
  {
    assert xs == xs[..i] + [xs[i]] + xs[i + 1..];
  }

  /** Cutting a position out of a strictly sorted list leaves it strictly sorted, and
      the value cut out does not occur again. */
  lemma CutSorted(xs: seq<string>, i: nat)
    requires i < |xs|
    ensures StrictlySorted(xs) ==> StrictlySorted(xs[..i] + xs[i + 1..]) && xs[i] !in xs[..i] + xs[i + 1..]
  {
    if StrictlySorted(xs) {
      var r := xs[..i] + xs[i + 1..];
      forall k | 0 <= k < |r|
        ensures r[k] == xs[if k < i then k else k + 1]
      {
      }
      forall k, m | 0 <= k < m < |r|
        ensures Below(r[k], r[m])
      {
        assert r[k] == xs[if k < i then k else k + 1];
        assert r[m] == xs[if m < i then m else m + 1];
      }
      forall k | 0 <= k < |r|
        ensures r[k] != xs[i]
      {
        var n := if k < i then k else k + 1;
        assert r[k] == xs[n];
        if n < i {
          assert Below(xs[n], xs[i]);
          BelowIrreflexive(xs[i]);
        } else {
          assert Below(xs[i], xs[n]);
          BelowIrreflexive(xs[i]);
        }
      }
    }
  }
}
