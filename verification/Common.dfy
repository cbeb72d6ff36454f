/** Vocabulary shared by the component models. */
module Common {

  datatype Option<+T> = None | Some(value: T)

  datatype Result<+T, +E> = Ok(value: T) | Err(error: E)

  /** Largest value of the 64-bit counters, ticks and sizes of the system. */
  const U64_MAX: nat := 0xFFFF_FFFF_FFFF_FFFF

  type U64 = n: nat | n <= U64_MAX

  /** Largest length of a text in bytes: half the address space. */
  const TEXT_MAX: nat := 0x7FFF_FFFF_FFFF_FFFF

  type TextLength = n: nat | n <= TEXT_MAX

  /** Wrapping addition, as unchecked 64-bit `+=` performs it. */
  function WrapAdd(a: U64, b: U64): U64 {
    if a + b > U64_MAX then a + b - U64_MAX - 1 else a + b
  }

  /** Saturating addition of two 64-bit quantities. */
  function SatAdd(a: nat, b: nat): nat {
    if a + b > U64_MAX then U64_MAX else a + b
  }

  function Max(a: nat, b: nat): nat {
    if a < b then b else a
  }

  function Min(a: nat, b: nat): nat {
    if a < b then a else b
  }

  ghost predicate Distinct<T>(s: seq<T>) {
    forall i, j | 0 <= i < j < |s| :: s[i] != s[j]
  }

  lemma DistinctJoin<T>(a: seq<T>, b: seq<T>)
    requires Distinct(a) && Distinct(b)
    requires forall x | x in a :: x !in b
    ensures Distinct(a + b)
  {
    forall i, j | 0 <= i < j < |a + b|
      ensures (a + b)[i] != (a + b)[j]
    {
      if i < |a| <= j {
        assert a[i] in a && b[j - |a|] in b;
      }
    }
  }

  /** The elements of `s` outside `gone`, in order. */
  function Without<T(!new,==)>(s: seq<T>, gone: set<T>): (r: seq<T>)
    ensures forall x :: x in r <==> x in s && x !in gone
  {
    if s == [] then []
    else
      var rest := Without(s[1..], gone);
      assert s == [s[0]] + s[1..];
      if s[0] in gone then rest else [s[0]] + rest
  }

  lemma {:induction false} WithoutDistinct<T(!new)>(s: seq<T>, gone: set<T>)
    requires Distinct(s)
    ensures Distinct(Without(s, gone))
  {
    if s == [] {
    } else {
      assert s == [s[0]] + s[1..];
      WithoutDistinct(s[1..], gone);
      assert s[0] !in s[1..];
      DistinctJoin([s[0]], Without(s[1..], gone));
    }
  }

  lemma {:induction false} WithoutAll<T(!new)>(s: seq<T>, gone: set<T>)
    requires forall x | x in s :: x in gone
    ensures Without(s, gone) == []
  {
    if s == [] {
    } else {
      WithoutAll(s[1..], gone);
    }
  }

  lemma {:induction false} WithoutNothing<T(!new)>(s: seq<T>, gone: set<T>)
    requires forall x | x in s :: x !in gone
    ensures Without(s, gone) == s
  {
    if s == [] {
    } else {
      assert s == [s[0]] + s[1..];
      WithoutNothing(s[1..], gone);
    }
  }

  lemma {:induction false} WithoutSame<T(!new)>(s: seq<T>, a: set<T>, b: set<T>)
    requires forall x | x in s :: x in a <==> x in b
    ensures Without(s, a) == Without(s, b)
  {
    if s == [] {
    } else {
      assert s == [s[0]] + s[1..];
      WithoutSame(s[1..], a, b);
    }
  }

  /** At most the last `n` elements. */
  ghost function LastN<T>(s: seq<T>, n: nat): seq<T> {
    if |s| <= n then s else s[|s| - n..]
  }

  /** The members of a set in some order, each once.  It stands for the iteration
      order of an ordered map wherever that order is not observable. */
  ghost function Enumerate<T(!new)>(s: set<T>): (r: seq<T>)
    ensures forall x :: x in r <==> x in s
  {
    if s == {} then []
    else
      var x :| x in s;
      [x] + Enumerate(s - {x})
  }

  lemma {:induction false} EnumerateLength<T(!new)>(s: set<T>)
    ensures |Enumerate(s)| == |s|
  {
    if s == {} {
    } else {
      var x :| x in s && Enumerate(s) == [x] + Enumerate(s - {x});
      EnumerateLength(s - {x});
    }
  }

  lemma {:induction false} EnumerateDistinct<T(!new)>(s: set<T>)
    ensures Distinct(Enumerate(s))
  {
    if s == {} {
    } else {
      var x :| x in s && Enumerate(s) == [x] + Enumerate(s - {x});
      EnumerateDistinct(s - {x});
      DistinctJoin([x], Enumerate(s - {x}));
    }
  }

  /** A list is free of repetitions exactly when its multiset is. */
  lemma {:induction false} DistinctIffOnce<T(!new)>(s: seq<T>)
    ensures Distinct(s) <==> forall x | x in s :: multiset(s)[x] == 1
  {
    if s == [] {
    } else {
      var front, last := s[..|s| - 1], s[|s| - 1];
      assert s == front + [last];
      DistinctIffOnce(front);
      if Distinct(s) {
        assert last !in front;
        assert multiset(front)[last] == 0;
      } else if Distinct(front) {
        var i :| 0 <= i < |front| && front[i] == last;
        assert last in s && multiset(s)[last] == multiset(front)[last] + 1;
      } else {
        var x :| x in front && multiset(front)[x] != 1;
        assert x in s && multiset(s)[x] >= multiset(front)[x] > 1;
      }
    }
  }

  /** Reordering a list keeps its members and its freedom from repetitions. */
  lemma {:induction false} ReorderedDistinct<T(!new)>(a: seq<T>, b: seq<T>)
    requires multiset(a) == multiset(b) && Distinct(a)
    ensures Distinct(b) && forall x :: x in b <==> x in a
  {
    assert forall x :: x in a <==> x in multiset(a);
    assert forall x :: x in b <==> x in multiset(b);
    DistinctIffOnce(a);
    DistinctIffOnce(b);
  }
}
