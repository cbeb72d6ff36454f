/** Stable insertion sort, standing for the library's stable sort: the sorted samples behind a percentile and the
    sorted commands behind a paint frame. */
module Sorting {

  /** Any two elements compare, and comparisons chain. */
  ghost predicate Total<T(!new)>(le: (T, T) -> bool) {
    && (forall x, y :: le(x, y) || le(y, x))
    && (forall x, y, z :: le(x, y) && le(y, z) ==> le(x, z))
  }

  /** Only equal elements compare both ways. */
  ghost predicate Linear<T(!new)>(le: (T, T) -> bool) {
    Total(le) && forall x, y :: le(x, y) && le(y, x) ==> x == y
  }

  ghost predicate Sorted<T>(s: seq<T>, le: (T, T) -> bool) {
    forall i, j | 0 <= i < j < |s| :: le(s[i], s[j])
  }

  lemma SortedCons<T(!new)>(x: T, s: seq<T>, le: (T, T) -> bool)
    requires Sorted(s, le) && forall y | y in s :: le(x, y)
    ensures Sorted([x] + s, le)
  {
    assert forall i | 0 <= i < |s| :: s[i] in s;
  }

  lemma SortedTail<T(!new)>(s: seq<T>, le: (T, T) -> bool)
    requires Sorted(s, le) && s != []
    ensures Sorted(s[1..], le) && forall y | y in s[1..] :: le(s[0], y)
  {
  }

  /** Inserts an element at its place in a sorted list. */
  function Place<T(!new)>(x: T, s: seq<T>, le: (T, T) -> bool): (r: seq<T>)
    requires Total(le) && Sorted(s, le)
    ensures Sorted(r, le) && multiset(r) == multiset(s) + multiset{x}
    ensures forall y :: y in r <==> y == x || y in s
  {
    if s == [] then [x]
    else
      SortedTail(s, le);
      assert s == [s[0]] + s[1..];
      if le(x, s[0]) then
        SortedCons(x, s, le);
        [x] + s
      else
        SortedCons(s[0], Place(x, s[1..], le), le);
        [s[0]] + Place(x, s[1..], le)
  }

  function Sort<T(!new)>(s: seq<T>, le: (T, T) -> bool): (r: seq<T>)
    requires Total(le)
    ensures Sorted(r, le) && multiset(r) == multiset(s) && |r| == |s|
    ensures forall x :: x in r <==> x in s
  {
    if s == [] then []
    else
      assert s == [s[0]] + s[1..];
      var r := Place(s[0], Sort(s[1..], le), le);
      assert |multiset(r)| == |multiset(s)|;
      r
  }

  lemma PlaceBefore<T(!new)>(x: T, s: seq<T>, le: (T, T) -> bool)
    requires Total(le) && Sorted(s, le) && (s == [] || le(x, s[0]))
    ensures Place(x, s, le) == [x] + s
  {
  }

  lemma PlaceAfter<T(!new)>(x: T, s: seq<T>, rest: seq<T>, le: (T, T) -> bool)
    requires Total(le) && Sorted(s, le) && s != [] && !le(x, s[0]) && rest == s[1..]
    ensures Sorted(rest, le) && Place(x, s, le) == [s[0]] + Place(x, rest, le)
  {
  }

  /** Two elements in front of a list are placed in their own order. */
  lemma PlaceBoth<T(!new)>(x: T, y: T, s: seq<T>, le: (T, T) -> bool)
    requires Linear(le) && Sorted(s, le) && le(x, y) && (s == [] || (le(x, s[0]) && le(y, s[0])))
    ensures Place(x, Place(y, s, le), le) == Place(y, Place(x, s, le), le)
  {
    var xs, ys := [x] + s, [y] + s;
    PlaceBefore(x, s, le);
    PlaceBefore(y, s, le);
    PlaceBefore(x, ys, le);
    if x != y {
      PlaceAfter(y, xs, s, le);
      assert [x] + ([y] + s) == [xs[0]] + ys;
    }
  }

  /** One element in front of a list and one further back do not interfere. */
  lemma PlaceApart<T(!new)>(x: T, y: T, s: seq<T>, le: (T, T) -> bool)
    requires Linear(le) && Sorted(s, le) && s != [] && le(x, s[0]) && !le(y, s[0])
    ensures Place(x, Place(y, s, le), le) == Place(y, Place(x, s, le), le)
  {
    var xs := [x] + s;
    PlaceBefore(x, s, le);
    PlaceAfter(y, s, s[1..], le);
    PlaceBefore(x, Place(y, s, le), le);
    PlaceAfter(y, xs, s, le);
  }

  lemma {:induction false} PlaceCommutes<T(!new)>(x: T, y: T, s: seq<T>, le: (T, T) -> bool)
    requires Linear(le) && Sorted(s, le)
    ensures Place(x, Place(y, s, le), le) == Place(y, Place(x, s, le), le)
  {
    if s == [] || (le(x, s[0]) && le(y, s[0])) {
      if le(x, y) {
        PlaceBoth(x, y, s, le);
      } else {
        PlaceBoth(y, x, s, le);
      }
    } else if le(x, s[0]) {
      PlaceApart(x, y, s, le);
    } else if le(y, s[0]) {
      PlaceApart(y, x, s, le);
    } else {
      PlaceBehind(x, y, s, s[1..], le);
      PlaceBehind(y, x, s, s[1..], le);
      PlaceCommutes(x, y, s[1..], le);
    }
  }

  lemma PlaceBehind<T(!new)>(x: T, y: T, s: seq<T>, rest: seq<T>, le: (T, T) -> bool)
    requires Linear(le) && Sorted(s, le) && s != [] && !le(x, s[0]) && !le(y, s[0]) && rest == s[1..]
    ensures Sorted(rest, le)
    ensures Place(x, Place(y, s, le), le) == [s[0]] + Place(x, Place(y, rest, le), le)
  {
    PlaceAfter(y, s, rest, le);
    PlaceAfter(x, Place(y, s, le), Place(y, rest, le), le);
  }

  function DropAt<T>(s: seq<T>, i: nat): seq<T>
    requires i < |s|
  {
    s[..i] + s[i + 1..]
  }

  /** Sorting may begin with any element of the list. */
  lemma {:induction false} SortPicksAny<T(!new)>(s: seq<T>, i: nat, le: (T, T) -> bool)
    requires Linear(le) && i < |s|
    ensures Sort(s, le) == Place(s[i], Sort(DropAt(s, i), le), le)
  {
    if i == 0 {
      assert DropAt(s, 0) == s[1..];
    } else {
      SortPicksAny(s[1..], i - 1, le);
      SortOfDropped(s, i, le);
      PlaceCommutes(s[0], s[i], Sort(DropAt(s[1..], i - 1), le), le);
    }
  }

  lemma {:induction false} SortOfDropped<T(!new)>(s: seq<T>, i: nat, le: (T, T) -> bool)
    requires Total(le) && 0 < i < |s|
    ensures Sort(DropAt(s, i), le) == Place(s[0], Sort(DropAt(s[1..], i - 1), le), le)
  {
    assert DropAt(s, i)[1..] == DropAt(s[1..], i - 1);
  }

  lemma DropAtContents<T>(s: seq<T>, i: nat)
    requires i < |s|
    ensures multiset(DropAt(s, i)) == multiset(s) - multiset{s[i]}
  {
    assert s == s[..i] + [s[i]] + s[i + 1..];
  }

  /** Sorting forgets the order its elements came in. */
  lemma {:induction false} SortForgetsOrder<T(!new)>(a: seq<T>, b: seq<T>, le: (T, T) -> bool)
    requires Linear(le) && multiset(a) == multiset(b)
    ensures Sort(a, le) == Sort(b, le)
    decreases |a|
  {
    if a == [] {
      assert |multiset(b)| == 0;
    } else {
      assert DropAt(a, 0) == a[1..];
      DropAtContents(a, 0);
      assert a[0] in multiset(b);
      var i :| 0 <= i < |b| && b[i] == a[0];
      DropAtContents(b, i);
      SortForgetsOrder(a[1..], DropAt(b, i), le);
      SortPicksAny(b, i, le);
    }
  }

  lemma {:induction false} SortOfSorted<T(!new)>(s: seq<T>, le: (T, T) -> bool)
    requires Total(le) && Sorted(s, le)
    ensures Sort(s, le) == s
  {
    if s == [] {
    } else {
      SortedTail(s, le);
      SortOfSorted(s[1..], le);
      assert s == [s[0]] + s[1..];
    }
  }

  /** A multiset has one sorted arrangement. */
  lemma OneArrangement<T(!new)>(a: seq<T>, b: seq<T>, le: (T, T) -> bool)
    requires Linear(le) && Sorted(a, le) && Sorted(b, le) && multiset(a) == multiset(b)
    ensures a == b
  {
    SortOfSorted(a, le);
    SortOfSorted(b, le);
    SortForgetsOrder(a, b, le);
  }
}
