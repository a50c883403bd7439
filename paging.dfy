/** Page arithmetic: the skip count of a page and PagedResult.TotalPages. */
module Paging {
  import opened Wrappers
  import opened Sequences

  /** skip = (PageNumber - 1) * PageSize over unbounded integers (the corrected form). */
  function SkipCount(pageNumber: int, pageSize: int): int {
    (pageNumber - 1) * pageSize
  }

  /** C#'s unchecked 32-bit int: the value congruent to x modulo 2^32 in [-2^31, 2^31). */
  function Wrap32(x: int): (r: int)
    ensures -0x8000_0000 <= r < 0x8000_0000
    ensures (r - x) % 0x1_0000_0000 == 0
  {
    (x + 0x8000_0000) % 0x1_0000_0000 - 0x8000_0000
  }

  /** skip as the source computes it: each int operation wraps around. */
  function SkipCountAsWritten(pageNumber: int, pageSize: int): int {
    Wrap32(Wrap32(pageNumber - 1) * pageSize)
  }

  /** query.Skip(skip).Take(PageSize) */
  function Page<T>(xs: seq<T>, pageNumber: int, pageSize: int): seq<T> {
    Take(Skip(xs, SkipCount(pageNumber, pageSize)), pageSize)
  }

  function PageAsWritten<T>(xs: seq<T>, pageNumber: int, pageSize: int): seq<T> {
    Take(Skip(xs, SkipCountAsWritten(pageNumber, pageSize)), pageSize)
  }

  /** The ceiling of a / b for a positive divisor, from Euclidean division of -a. */
  function CeilDivPos(a: int, b: int): (q: int)
    requires b > 0
    ensures (q - 1) * b < a <= q * b
  {
    var m, r := (-a) / b, (-a) % b;
    assert -a == m * b + r && 0 <= r < b;
    MulNeg(m, b);
    MulPred(-m, b);
    -m
  }

  /** Math.Ceiling(a / b) for b != 0, computed exactly on integers. */
  function CeilDiv(a: int, b: int): (q: int)
    requires b != 0
    ensures b > 0 ==> (q - 1) * b < a <= q * b
    ensures b < 0 ==> q * b <= a < (q - 1) * b
  {
    if b > 0 then CeilDivPos(a, b)
    else
      var q := CeilDivPos(-a, -b);
      MulNeg(q - 1, b);
      MulNeg(q, b);
      q
  }

  lemma MulNeg(x: int, y: int)
    ensures (-x) * y == -(x * y) && x * (-y) == -(x * y)
  {
  }

  lemma MulPred(x: int, y: int)
    ensures (x - 1) * y == x * y - y
  {
  }

  lemma MulLeMono(x: int, y: int, s: int)
    requires x <= y && s >= 0
    ensures x * s <= y * s
  {
    assert y * s - x * s == (y - x) * s;
  }

  datatype PagedResult<T> = PagedResult(items: seq<T>, totalItems: int, pageNumber: int, pageSize: int) {

    /** (int)Math.Ceiling((double)TotalItems / PageSize). With PageSize 0 the double quotient is
        infinite or NaN and its conversion to int is platform-defined, so the model has no value. */
    function TotalPages(): (r: Option<int>)
      ensures r.None? <==> pageSize == 0
      ensures pageSize > 0 && r.Some? ==> (r.value - 1) * pageSize < totalItems <= r.value * pageSize
      ensures pageSize < 0 && r.Some? ==> r.value * pageSize <= totalItems < (r.value - 1) * pageSize
    {
      if pageSize == 0 then None else Some(CeilDiv(totalItems, pageSize))
    }
  }

  /** new PagedResult<T>(): an empty Items list, every number 0. */
  function EmptyPagedResult<T>(): (r: PagedResult<T>)
    ensures r.items == [] && r.totalItems == 0
    ensures r.TotalPages().None?
  {
    PagedResult([], 0, 0, 0)
  }

  /** For a positive page size the ceiling is the integer (TotalItems + PageSize - 1) / PageSize. */
  lemma TotalPagesFormula<T>(r: PagedResult<T>)
    requires r.pageSize >= 1 && r.totalItems >= 0
    ensures r.TotalPages() == Some((r.totalItems + r.pageSize - 1) / r.pageSize)
    ensures r.totalItems == 0 ==> r.TotalPages() == Some(0)
  {
    var q := CeilDiv(r.totalItems, r.pageSize);
    var n, s := r.totalItems, r.pageSize;
    var f := (n + s - 1) / s;
    assert n + s - 1 == f * s + (n + s - 1) % s;
    assert (q - 1) * s < n <= q * s;
    CeilUnique(n, s, q, f);
  }

  lemma CeilUnique(n: int, s: int, q: int, f: int)
    requires s >= 1
    requires (q - 1) * s < n <= q * s
    requires f * s <= n + s - 1 < (f + 1) * s
    ensures q == f
  {
    MulPred(f, s);
    MulPred(f + 1, s);
    MulPred(q, s);
    if q < f {
      MulLeMono(q, f - 1, s);
      assert false;
    } else if q > f {
      MulLeMono(f, q - 1, s);
      assert false;
    }
  }

  /** A page is a sub-multiset of what it is cut from, and holds at most PageSize items. */
  lemma PageWithin<T>(xs: seq<T>, pageNumber: int, pageSize: int)
    ensures multiset(Page(xs, pageNumber, pageSize)) <= multiset(xs)
    ensures forall x :: x in Page(xs, pageNumber, pageSize) ==> x in xs
    ensures |Page(xs, pageNumber, pageSize)| <= Max(pageSize, 0)
  {
    var skip := SkipCount(pageNumber, pageSize);
    var rest := Skip(xs, skip);
    var page := Page(xs, pageNumber, pageSize);
    assert multiset(rest) <= multiset(xs) by {
      if 0 < skip < |xs| {
        assert xs == xs[..skip] + rest;
      }
    }
    assert multiset(page) <= multiset(rest) by {
      if 0 < pageSize < |rest| {
        assert rest == page + rest[pageSize..];
      }
    }
    forall x | x in page
      ensures x in xs
    {
      assert x in multiset(page);
    }
  }

  /** From page 1 on, a page is the slice starting at (PageNumber - 1) * PageSize, holding
      what is left of the sequence there, capped at PageSize. */
  lemma PageSlice<T>(xs: seq<T>, pageNumber: int, pageSize: int)
    requires pageNumber >= 1 && pageSize >= 0
    ensures var skip := (pageNumber - 1) * pageSize;
            var lo := Min(Max(skip, 0), |xs|);
            Page(xs, pageNumber, pageSize) == xs[lo..Max(lo, Min(skip + pageSize, |xs|))]
    ensures |Page(xs, pageNumber, pageSize)| == Min(pageSize, Max(0, |xs| - (pageNumber - 1) * pageSize))
  {
    MulLeMono(0, pageNumber - 1, pageSize);
    SkipTakeSlice(xs, (pageNumber - 1) * pageSize, pageSize);
  }

  /** Any page after the last one is empty. */
  lemma {:induction false} PageBeyondLastIsEmpty<T>(xs: seq<T>, pageNumber: int, pageSize: int)
    requires pageSize >= 1
    requires pageNumber > PagedResult(xs, |xs|, pageNumber, pageSize).TotalPages().value
    ensures Page(xs, pageNumber, pageSize) == []
  {
    var t := CeilDiv(|xs|, pageSize);
    MulLeMono(t, pageNumber - 1, pageSize);
  }

  /** Every element sits on exactly one page: index j is item j % PageSize of page j / PageSize + 1. */
  lemma {:induction false} PageOfIndex<T>(xs: seq<T>, pageSize: int, j: int)
    requires pageSize >= 1 && 0 <= j < |xs|
    ensures var p := Page(xs, j / pageSize + 1, pageSize);
            j % pageSize < |p| && p[j % pageSize] == xs[j]
  {
    var q, r := j / pageSize, j % pageSize;
    var skip := SkipCount(q + 1, pageSize);
    DivModSplit(j, pageSize);
    SkipTakeSlice(xs, skip, pageSize);
    assert Min(Max(skip, 0), |xs|) == skip && Max(pageSize, 0) == pageSize;
    var hi := Min(skip + pageSize, |xs|);
    assert skip + r < hi;
    var p := Page(xs, q + 1, pageSize);
    assert p == xs[skip..hi];
    assert p[r] == xs[skip + r];
  }

  lemma DivModSplit(j: int, s: int)
    requires s >= 1 && j >= 0
    ensures SkipCount(j / s + 1, s) == (j / s) * s
    ensures 0 <= (j / s) * s <= j && j == (j / s) * s + j % s && 0 <= j % s < s
  {
    MulLeMono(0, j / s, s);
  }

  /** With a positive PageSize every element is on some page from page 1 on. */
  lemma OnSomePage<T>(xs: seq<T>, pageSize: int, x: T)
    requires pageSize >= 1 && x in xs
    ensures exists n :: n >= 1 && x in Page(xs, n, pageSize)
  {
    var j :| 0 <= j < |xs| && xs[j] == x;
    PageOfIndex(xs, pageSize, j);
    var n, r := j / pageSize + 1, j % pageSize;
    assert n >= 1 by { DivModSplit(j, pageSize); }
    var p := Page(xs, n, pageSize);
    assert r < |p| && p[r] == x;
    assert x in p;
  }

  /** Overflow: page 214748366 of size 10 wraps the skip count negative. Read with LINQ's
      Skip, the first page comes back, although every store of fewer than 2^31 clients ends
      long before that page; SQL Server instead refuses the negative OFFSET and the listing
      fails. Either way the page is not the empty one. */
  lemma SkipOverflow<T>(xs: seq<T>)
    requires 1 <= |xs| < 0x8000_0000
    ensures SkipCountAsWritten(214748366, 10) == -2147483646
    ensures PageAsWritten(xs, 214748366, 10) == Take(xs, 10) != []
    ensures Page(xs, 214748366, 10) == []
  {
  }
}
