/** SearchParametersRepository: the append-only log of the searches admins ran, and the
    lookup of one admin's most recent ones. */
module SearchParametersRepository {
  import opened Wrappers
  import opened Sequences
  import opened Entities

  /** The order of OrderByDescending(sp => sp.SearchDate): newer (or equally new) first. */
  predicate NewerOrSame(a: SearchParameter, b: SearchParameter) {
    a.searchDate >= b.searchDate
  }

  lemma NewerOrSameIsPreorder()
    ensures TotalPreorder(NewerOrSame)
  {
  }

  function OfAdmin(records: seq<SearchParameter>, adminId: string): seq<SearchParameter> {
    Filter(records, (sp: SearchParameter) => sp.adminId == adminId)
  }

  /** GetLastSearchParametersAsync: Where(AdminId == adminId), OrderByDescending(SearchDate), Take(count). */
  function LastSearches(records: seq<SearchParameter>, adminId: string, count: int): seq<SearchParameter> {
    Take(SortBy(OfAdmin(records, adminId), NewerOrSame), count)
  }

  /** The lookup returns records of that admin only, newest first, as many as were asked for
      or as the admin has, and no record it leaves out is newer than one it returns. */
  lemma LastSearchesSpec(records: seq<SearchParameter>, adminId: string, count: int)
    ensures forall sp :: sp in LastSearches(records, adminId, count) ==> sp in records && sp.adminId == adminId
    ensures var last := LastSearches(records, adminId, count);
            forall i, j :: 0 <= i < j < |last| ==> last[i].searchDate >= last[j].searchDate
    ensures |LastSearches(records, adminId, count)| == Min(Max(count, 0), |OfAdmin(records, adminId)|)
    ensures multiset(LastSearches(records, adminId, count)) <= multiset(OfAdmin(records, adminId))
    ensures forall s :: s in multiset(OfAdmin(records, adminId)) - multiset(LastSearches(records, adminId, count)) ==>
              forall r :: r in LastSearches(records, adminId, count) ==> s.searchDate <= r.searchDate
  {
    NewerOrSameIsPreorder();
    SortedTake(OfAdmin(records, adminId), NewerOrSame, count);
  }

  /** A search saved later than every earlier search of its admin heads that admin's list. */
  lemma NewestSearchComesFirst(records: seq<SearchParameter>, sp: SearchParameter, count: int)
    requires count >= 1
    requires forall r :: r in records && r.adminId == sp.adminId ==> r.searchDate < sp.searchDate
    ensures var last := LastSearches(records + [sp], sp.adminId, count);
            |last| >= 1 && last[0] == sp
  {
    var all := records + [sp];
    var mine := OfAdmin(all, sp.adminId);
    assert sp in all;
    forall y | y in mine && NewerOrSame(y, sp)
      ensures y == sp
    {
      assert y in all && y.adminId == sp.adminId;
      assert y !in records;
    }
    NewerOrSameIsPreorder();
    SortedTakeHead(mine, NewerOrSame, count, sp);
  }

  /** The search-history table. The lookup is a function of it and changes nothing. */
  class SearchParameterTable {
    var records: seq<SearchParameter>

    constructor ()
      ensures records == []
    {
      records := [];
    }

    /** AddSearchParameterAsync: exactly one record appended, the others untouched. */
    method AddSearchParameter(sp: SearchParameter)
      modifies this
      ensures records == old(records) + [sp]
    {
      records := records + [sp];
    }

    function GetLastSearchParameters(adminId: string, count: int): seq<SearchParameter>
      reads this
    {
      LastSearches(records, adminId, count)
    }
  }
}
