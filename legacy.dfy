/** The legacy ClientRepository.GetClientsAsync: three substring filters and a page slice of
    the store order, with no free-text search, no other filter and no sort. */
module LegacyClientRepository {
  import opened Wrappers
  import opened Text
  import opened Sequences
  import opened Entities
  import opened QueryParameters
  import opened ClientQuery
  import Paging

  /** The Where steps, in order: FirstName, LastName, Email, each only when not null or empty. */
  function LegacyClauses(lp: LegacyQueryParameters): seq<Clause> {
    When(!IsNullOrEmpty(lp.firstName), FirstNameHas(lp.firstName.GetOr([])))
    + When(!IsNullOrEmpty(lp.lastName), LastNameHas(lp.lastName.GetOr([])))
    + When(!IsNullOrEmpty(lp.email), EmailHas(lp.email.GetOr([])))
  }

  function LegacyFiltered(store: seq<Client>, lp: LegacyQueryParameters): seq<Client> {
    ApplyAll(store, LegacyClauses(lp))
  }

  /** GetClientsAsync of the legacy repository. */
  function LegacyGetClients(store: seq<Client>, lp: LegacyQueryParameters): seq<Client> {
    Paging.Page(LegacyFiltered(store, lp), lp.pageNumber, lp.pageSize)
  }

  /** The three criteria it reads, declaratively. */
  predicate LegacySatisfies(c: Client, lp: LegacyQueryParameters) {
    && (IsNullOrEmpty(lp.firstName) || Contains(c.firstName, lp.firstName.value))
    && (IsNullOrEmpty(lp.lastName) || Contains(c.lastName, lp.lastName.value))
    && (IsNullOrEmpty(lp.email) || Contains(c.email, lp.email.value))
  }

  lemma LegacyClausesMeaning(c: Client, lp: LegacyQueryParameters)
    ensures AllHold(LegacyClauses(lp), Holds, c) <==> LegacySatisfies(c, lp)
  {
    var w1 := When(!IsNullOrEmpty(lp.firstName), FirstNameHas(lp.firstName.GetOr([])));
    var w2 := When(!IsNullOrEmpty(lp.lastName), LastNameHas(lp.lastName.GetOr([])));
    var w3 := When(!IsNullOrEmpty(lp.email), EmailHas(lp.email.GetOr([])));
    WhenHolds(!IsNullOrEmpty(lp.firstName), FirstNameHas(lp.firstName.GetOr([])), Holds, c);
    WhenHolds(!IsNullOrEmpty(lp.lastName), LastNameHas(lp.lastName.GetOr([])), Holds, c);
    WhenHolds(!IsNullOrEmpty(lp.email), EmailHas(lp.email.GetOr([])), Holds, c);
    AllHoldAppend(w1, w2, Holds, c);
    AllHoldAppend(w1 + w2, w3, Holds, c);
  }

  /** The filtered query keeps, in store order, the clients matching the three substring
      filters; PersonalId, MobileNumber and Sex in the criteria change nothing. */
  lemma LegacyFilteredIsMatching(store: seq<Client>, lp: LegacyQueryParameters,
                                 personalId: Option<string>, mobileNumber: Option<string>,
                                 sex: ClientGender)
    ensures LegacyFiltered(store, lp) == Filter(store, c => LegacySatisfies(c, lp))
    ensures LegacyGetClients(store, lp) ==
              LegacyGetClients(store, lp.(personalId := personalId, mobileNumber := mobileNumber, sex := sex))
  {
    FilterChainIsFilter(store, LegacyClauses(lp), Holds);
    forall c | c in store
      ensures AllHold(LegacyClauses(lp), Holds, c) == LegacySatisfies(c, lp)
    {
      LegacyClausesMeaning(c, lp);
    }
    FilterCongruent(store, c => AllHold(LegacyClauses(lp), Holds, c), c => LegacySatisfies(c, lp));
    assert LegacyClauses(lp) ==
             LegacyClauses(lp.(personalId := personalId, mobileNumber := mobileNumber, sex := sex));
  }

  /** The same request put to the current query engine: the three names, the page, and
      every other criterion at its default. */
  function AsCurrent(lp: LegacyQueryParameters): ClientsQueryParameters {
    Defaults.(firstName := lp.firstName, lastName := lp.lastName, email := lp.email,
              pageNumber := lp.pageNumber, pageSize := lp.pageSize)
  }

  /** The legacy listing is the current listing with only the three name filters and no sort. */
  lemma LegacyIsCurrentWithoutSort(store: seq<Client>, lp: LegacyQueryParameters)
    ensures LegacyGetClients(store, lp) == ClientQuery.GetClients(store, AsCurrent(lp))
  {
    var p := AsCurrent(lp);
    LegacyFilteredIsMatching(store, lp, lp.personalId, lp.mobileNumber, lp.sex);
    FilteredIsMatching(store, p);
    FilterCongruent(store, c => LegacySatisfies(c, lp), c => Satisfies(c, p));
    ApplySortSpec(Filtered(store, p), p.sortBy, p.sortDescending);
  }

  /** Default legacy criteria: the first ten clients in store order. */
  lemma LegacyDefaultsListFirstTen(store: seq<Client>)
    ensures LegacyGetClients(store, LegacyDefaults) == Take(store, 10)
  {
    assert LegacyClauses(LegacyDefaults) == [];
  }
}
