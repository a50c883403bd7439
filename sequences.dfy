/** The LINQ operators the repositories chain together: Where, OrderBy, Skip and Take. */
module Sequences {
  import opened Wrappers

  /** The position FirstOrDefault(p) stops at: the first element satisfying p, if any. */
  function FirstIndex<T>(xs: seq<T>, p: T -> bool): (r: Option<nat>)
    ensures r.Some? ==> r.value < |xs| && p(xs[r.value])
    ensures r.Some? ==> forall j :: 0 <= j < r.value ==> !p(xs[j])
    ensures r.None? <==> forall j :: 0 <= j < |xs| ==> !p(xs[j])
  {
    if xs == [] then None
    else if p(xs[0]) then Some(0)
    else
      match FirstIndex(xs[1..], p)
      case None => None
      case Some(k) => Some(k + 1)
  }

  /** Enumerable.Where: the elements satisfying f, in their original order. */
  function Filter<T(!new)>(xs: seq<T>, f: T -> bool): (r: seq<T>)
    ensures |r| <= |xs|
    ensures multiset(r) <= multiset(xs)
    ensures forall x :: x in r <==> x in xs && f(x)
  {
    if xs == [] then []
    else
      assert xs == [xs[0]] + xs[1..];
      (if f(xs[0]) then [xs[0]] else []) + Filter(xs[1..], f)
  }

  lemma {:induction false} FilterAppend<T(!new)>(a: seq<T>, b: seq<T>, f: T -> bool)
    ensures Filter(a + b, f) == Filter(a, f) + Filter(b, f)
  {
    if a == [] {
      assert a + b == b;
    } else {
      assert (a + b)[0] == a[0] && (a + b)[1..] == a[1..] + b;
      FilterAppend(a[1..], b, f);
    }
  }

  /** Filtering with f keeps every element when f holds throughout. */
  lemma {:induction false} FilterAll<T(!new)>(xs: seq<T>, f: T -> bool)
    requires forall x :: x in xs ==> f(x)
    ensures Filter(xs, f) == xs
  {
    if xs != [] {
      assert xs[0] in xs;
      assert forall x :: x in xs[1..] ==> x in xs;
      FilterAll(xs[1..], f);
    }
  }

  /** Two tests that agree on every element filter alike. */
  lemma {:induction false} FilterCongruent<T(!new)>(xs: seq<T>, f: T -> bool, g: T -> bool)
    requires forall x :: x in xs ==> f(x) == g(x)
    ensures Filter(xs, f) == Filter(xs, g)
  {
    if xs != [] {
      assert xs[0] in xs;
      assert forall x :: x in xs[1..] ==> x in xs;
      FilterCongruent(xs[1..], f, g);
    }
  }

  /** Two Where steps in a row are one Where with the conjunction h of their tests. */
  lemma {:induction false} FilterFilter<T(!new)>(xs: seq<T>, f: T -> bool, g: T -> bool, h: T -> bool)
    requires forall x :: x in xs ==> h(x) == (f(x) && g(x))
    ensures Filter(Filter(xs, f), g) == Filter(xs, h)
  {
    if xs != [] {
      assert forall x :: x in xs[1..] ==> x in xs;
      assert xs[0] in xs;
      FilterFilter(xs[1..], f, g, h);
      var head := if f(xs[0]) then [xs[0]] else [];
      FilterAppend(head, Filter(xs[1..], f), g);
      if f(xs[0]) {
        assert Filter(head, g) == (if g(xs[0]) then [xs[0]] else []) + Filter([], g);
      }
    }
  }

  /** Each test of cls holds of x. */
  predicate AllHold<T, C>(cls: seq<C>, holds: (C, T) -> bool, x: T)
    decreases |cls|
  {
    cls == [] || (holds(cls[0], x) && AllHold(cls[1..], holds, x))
  }

  lemma {:induction false} AllHoldAppend<T, C>(a: seq<C>, b: seq<C>, holds: (C, T) -> bool, x: T)
    ensures AllHold(a + b, holds, x) <==> AllHold(a, holds, x) && AllHold(b, holds, x)
    decreases |a|
  {
    if a == [] {
      assert a + b == b;
    } else {
      assert (a + b)[0] == a[0] && (a + b)[1..] == a[1..] + b;
      AllHoldAppend(a[1..], b, holds, x);
    }
  }

  lemma AllHoldAppend4<T, C>(w1: seq<C>, w2: seq<C>, w3: seq<C>, w4: seq<C>, holds: (C, T) -> bool, x: T)
    ensures AllHold(w1 + w2 + w3 + w4, holds, x) <==>
              AllHold(w1, holds, x) && AllHold(w2, holds, x) && AllHold(w3, holds, x) && AllHold(w4, holds, x)
  {
    AllHoldAppend(w1, w2, holds, x);
    AllHoldAppend(w1 + w2, w3, holds, x);
    AllHoldAppend(w1 + w2 + w3, w4, holds, x);
  }

  /** A step present only when active. */
  function When<C>(active: bool, cl: C): seq<C> {
    if active then [cl] else []
  }

  lemma WhenHolds<T, C>(active: bool, cl: C, holds: (C, T) -> bool, x: T)
    ensures AllHold(When(active, cl), holds, x) <==> (!active || holds(cl, x))
  {
    if active {
      assert [cl][1..] == [];
    }
  }

  /** A chain of Where steps, one per test in cls, applied in order. */
  function FilterChain<T(!new), C>(xs: seq<T>, cls: seq<C>, holds: (C, T) -> bool): seq<T>
    decreases |cls|
  {
    if cls == [] then xs else FilterChain(Filter(xs, x => holds(cls[0], x)), cls[1..], holds)
  }

  /** The chain keeps, in order, exactly the elements every step accepts. */
  lemma {:induction false} FilterChainIsFilter<T(!new), C>(xs: seq<T>, cls: seq<C>, holds: (C, T) -> bool)
    ensures FilterChain(xs, cls, holds) == Filter(xs, x => AllHold(cls, holds, x))
    decreases |cls|
  {
    if cls == [] {
      FilterAll(xs, x => AllHold(cls, holds, x));
    } else {
      var first := x => holds(cls[0], x);
      var others := x => AllHold(cls[1..], holds, x);
      var all := x => AllHold(cls, holds, x);
      FilterChainIsFilter(Filter(xs, first), cls[1..], holds);
      FilterFilter(xs, first, others, all);
    }
  }

  /** le is a total preorder: what OrderBy needs from a key comparison. */
  ghost predicate TotalPreorder<T(!new)>(le: (T, T) -> bool) {
    && (forall a, b :: le(a, b) || le(b, a))
    && (forall a, b, c :: le(a, b) && le(b, c) ==> le(a, c))
  }

  ghost predicate SortedBy<T>(xs: seq<T>, le: (T, T) -> bool) {
    forall i, j :: 0 <= i < j < |xs| ==> le(xs[i], xs[j])
  }

  function Insert<T>(x: T, xs: seq<T>, le: (T, T) -> bool): (r: seq<T>)
    ensures |r| == |xs| + 1
    ensures multiset(r) == multiset(xs) + multiset{x}
  {
    if xs == [] then [x]
    else if le(x, xs[0]) then [x] + xs
    else
      assert xs == [xs[0]] + xs[1..];
      [xs[0]] + Insert(x, xs[1..], le)
  }

  /** Enumerable.OrderBy with the comparison le. Insertion sort fixes one order among
      elements le does not separate; callers rely only on SortedBy and the multiset. */
  function SortBy<T>(xs: seq<T>, le: (T, T) -> bool): (r: seq<T>)
    ensures |r| == |xs|
    ensures multiset(r) == multiset(xs)
  {
    if xs == [] then []
    else
      assert xs == [xs[0]] + xs[1..];
      Insert(xs[0], SortBy(xs[1..], le), le)
  }

  lemma {:induction false} InsertSorted<T(!new)>(x: T, xs: seq<T>, le: (T, T) -> bool)
    requires TotalPreorder(le)
    requires SortedBy(xs, le)
    ensures SortedBy(Insert(x, xs, le), le)
  {
    if xs != [] && !le(x, xs[0]) {
      var tail := Insert(x, xs[1..], le);
      InsertSorted(x, xs[1..], le);
      assert le(xs[0], x);
      forall y | y in tail
        ensures le(xs[0], y)
      {
        assert y in multiset(tail);
        if y != x {
          assert y in multiset(xs[1..]);
          var k :| 0 <= k < |xs[1..]| && xs[1..][k] == y;
          assert xs[k + 1] == y;
        }
      }
      var r := [xs[0]] + tail;
      forall i, j | 0 <= i < j < |r|
        ensures le(r[i], r[j])
      {
        if i == 0 {
          assert r[j] == tail[j - 1];
          assert r[j] in tail;
        } else {
          assert r[i] == tail[i - 1] && r[j] == tail[j - 1];
        }
      }
    } else if xs != [] {
      var r := [x] + xs;
      forall i, j | 0 <= i < j < |r|
        ensures le(r[i], r[j])
      {
        if i == 0 {
          assert r[j] == xs[j - 1];
          assert le(xs[0], xs[j - 1]) || j == 1;
        }
      }
    }
  }

  lemma {:induction false} SortBySorted<T(!new)>(xs: seq<T>, le: (T, T) -> bool)
    requires TotalPreorder(le)
    ensures SortedBy(SortBy(xs, le), le)
  {
    if xs != [] {
      SortBySorted(xs[1..], le);
      InsertSorted(xs[0], SortBy(xs[1..], le), le);
    }
  }

  /** Enumerable.Skip: a count of zero or less skips nothing, a count past the end leaves nothing. */
  function Skip<T>(xs: seq<T>, n: int): (r: seq<T>)
  {
    if n <= 0 then xs else if n >= |xs| then [] else xs[n..]
  }

  /** Enumerable.Take: a count of zero or less takes nothing, a count past the end takes all. */
  function Take<T>(xs: seq<T>, n: int): (r: seq<T>)
  {
    if n <= 0 then [] else if n >= |xs| then xs else xs[..n]
  }

  function Min(a: int, b: int): int { if a <= b then a else b }
  function Max(a: int, b: int): int { if a <= b then b else a }

  /** Skip then Take is the slice [skip, skip + take) clipped to the sequence, a negative
      count acting as 0. */
  lemma SkipTakeSlice<T>(xs: seq<T>, skip: int, take: int)
    ensures var lo := Min(Max(skip, 0), |xs|);
            Take(Skip(xs, skip), take) == xs[lo..Min(lo + Max(take, 0), |xs|)]
  {
  }

  /** A prefix of a sorted sequence is sorted, and what it leaves behind is no smaller. */
  lemma TakeOfSorted<T(!new)>(xs: seq<T>, n: int, le: (T, T) -> bool)
    requires SortedBy(xs, le)
    ensures SortedBy(Take(xs, n), le)
    ensures forall i, j :: 0 <= i < |Take(xs, n)| <= j < |xs| ==> le(xs[i], xs[j])
    ensures Take(xs, n) == xs[..|Take(xs, n)|]
  {
  }

  /** The first n of a sorted copy: sorted, of the expected size, drawn from xs, and with
      nothing left out that sorts before what is kept. */
  lemma SortedTake<T(!new)>(xs: seq<T>, le: (T, T) -> bool, n: int)
    requires TotalPreorder(le)
    ensures SortedBy(Take(SortBy(xs, le), n), le)
    ensures |Take(SortBy(xs, le), n)| == Min(Max(n, 0), |xs|)
    ensures multiset(Take(SortBy(xs, le), n)) <= multiset(xs)
    ensures forall x :: x in Take(SortBy(xs, le), n) ==> x in xs
    ensures forall s :: s in multiset(xs) - multiset(Take(SortBy(xs, le), n)) ==>
              forall r :: r in Take(SortBy(xs, le), n) ==> le(r, s)
  {
    var sorted := SortBy(xs, le);
    var t := Take(sorted, n);
    SortBySorted(xs, le);
    TakeOfSorted(sorted, n, le);
    TakeOfSortedLeavesLater(sorted, n, le);
    assert multiset(t) <= multiset(sorted) by {
      assert sorted == t + sorted[|t|..];
    }
    forall x | x in t
      ensures x in xs
    {
      assert x in multiset(xs);
    }
  }

  /** An element that every other element sorts strictly after heads the sorted copy. */
  lemma SortedTakeHead<T(!new)>(xs: seq<T>, le: (T, T) -> bool, n: int, x: T)
    requires TotalPreorder(le) && x in xs && n >= 1
    requires forall y :: y in xs && le(y, x) ==> y == x
    ensures |Take(SortBy(xs, le), n)| >= 1 && Take(SortBy(xs, le), n)[0] == x
  {
    var sorted := SortBy(xs, le);
    SortBySorted(xs, le);
    assert x in multiset(sorted);
    var j :| 0 <= j < |sorted| && sorted[j] == x;
    assert le(sorted[0], x);
    assert sorted[0] in multiset(xs);
  }

  /** What a prefix of a sorted sequence leaves behind comes after everything it keeps. */
  lemma TakeOfSortedLeavesLater<T(!new)>(xs: seq<T>, n: int, le: (T, T) -> bool)
    requires SortedBy(xs, le)
    ensures forall s :: s in multiset(xs) - multiset(Take(xs, n)) ==>
              forall r :: r in Take(xs, n) ==> le(r, s)
  {
    var k := |Take(xs, n)|;
    assert Take(xs, n) == xs[..k];
    assert multiset(xs) - multiset(Take(xs, n)) == multiset(xs[k..]) by {
      assert xs == xs[..k] + xs[k..];
    }
    forall s, r | s in multiset(xs[k..]) && r in xs[..k]
      ensures le(r, s)
    {
      var j :| 0 <= j < |xs[k..]| && xs[k..][j] == s;
      var i :| 0 <= i < k && xs[..k][i] == r;
      assert xs[i] == r && xs[k + j] == s;
    }
  }
}
