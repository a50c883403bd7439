/** The client listing engine: the conditional Where chain, the sort-key dispatch and the page
    slice of GetClientsAsync, and the count of GetTotalClientsAsync over the same filter. */
module ClientQuery {
  import opened Wrappers
  import opened Text
  import opened Sequences
  import opened Entities
  import opened QueryParameters
  import Paging

  predicate SomeAccountNumberHas(c: Client, needle: string) {
    exists a :: a in c.accounts && Has(a.accountNumber, needle)
  }

  predicate SomeAccountTypeHas(c: Client, needle: string) {
    exists a :: a in c.accounts && Has(a.accountType, needle)
  }

  predicate SomeBalanceAtLeast(c: Client, min: int) {
    exists a :: a in c.accounts && a.balance >= min
  }

  predicate SomeBalanceAtMost(c: Client, max: int) {
    exists a :: a in c.accounts && a.balance <= max
  }

  /** The free-text group: the term occurs in one of eight fields. */
  predicate SearchTermHit(c: Client, term: string) {
    || Contains(c.firstName, term)
    || Contains(c.lastName, term)
    || Contains(c.email, term)
    || Contains(c.personalId, term)
    || Contains(c.mobileNumber, term)
    || Has(c.address.city, term)
    || Has(c.address.street, term)
    || SomeAccountNumberHas(c, term)
  }

  /** One Where step of the chain, with the criteria value it captured. */
  datatype Clause =
    | SearchTerm(term: string)
    | FirstNameHas(firstName: string)
    | LastNameHas(lastName: string)
    | EmailHas(email: string)
    | PersonalIdIs(personalId: string)
    | MobileNumberHas(mobileNumber: string)
    | SexIs(sex: ClientGender)
    | CountryHas(country: string)
    | CityHas(city: string)
    | StreetHas(street: string)
    | ZipCodeHas(zipCode: string)
    | AccountNumberHas(accountNumber: string)
    | AccountTypeHas(accountType: string)
    | MinBalance(min: int)
    | MaxBalance(max: int)

  /** The lambda each Where step applies. */
  predicate Holds(cl: Clause, c: Client) {
    match cl
    case SearchTerm(t) => SearchTermHit(c, t)
    case FirstNameHas(s) => Contains(c.firstName, s)
    case LastNameHas(s) => Contains(c.lastName, s)
    case EmailHas(s) => Contains(c.email, s)
    case PersonalIdIs(s) => c.personalId == s
    case MobileNumberHas(s) => Contains(c.mobileNumber, s)
    case SexIs(g) => c.sex == g
    case CountryHas(s) => Has(c.address.country, s)
    case CityHas(s) => Has(c.address.city, s)
    case StreetHas(s) => Has(c.address.street, s)
    case ZipCodeHas(s) => Has(c.address.zipCode, s)
    case AccountNumberHas(s) => SomeAccountNumberHas(c, s)
    case AccountTypeHas(s) => SomeAccountTypeHas(c, s)
    case MinBalance(m) => SomeBalanceAtLeast(c, m)
    case MaxBalance(m) => SomeBalanceAtMost(c, m)
  }

  /** The Where steps both repository queries apply, in the order they apply them: each
      string step only when its value is not null or empty, Sex only when it is not the
      default, each balance step only when it has a value. */
  function ActiveClauses(p: ClientsQueryParameters): seq<Clause> {
    SearchClauses(p) + ClientFieldClauses(p) + AddressClauses(p) + AccountClauses(p)
  }

  function SearchClauses(p: ClientsQueryParameters): seq<Clause> {
    When(!IsNullOrEmpty(p.searchTerm), SearchTerm(p.searchTerm.GetOr([])))
  }

  function ClientFieldClauses(p: ClientsQueryParameters): seq<Clause> {
    When(!IsNullOrEmpty(p.firstName), FirstNameHas(p.firstName.GetOr([])))
    + When(!IsNullOrEmpty(p.lastName), LastNameHas(p.lastName.GetOr([])))
    + When(!IsNullOrEmpty(p.email), EmailHas(p.email.GetOr([])))
    + When(!IsNullOrEmpty(p.personalId), PersonalIdIs(p.personalId.GetOr([])))
    + When(!IsNullOrEmpty(p.mobileNumber), MobileNumberHas(p.mobileNumber.GetOr([])))
    + When(p.sex != DefaultGender, SexIs(p.sex))
  }

  function AddressClauses(p: ClientsQueryParameters): seq<Clause> {
    When(!IsNullOrEmpty(p.country), CountryHas(p.country.GetOr([])))
    + When(!IsNullOrEmpty(p.city), CityHas(p.city.GetOr([])))
    + When(!IsNullOrEmpty(p.street), StreetHas(p.street.GetOr([])))
    + When(!IsNullOrEmpty(p.zipCode), ZipCodeHas(p.zipCode.GetOr([])))
  }

  function AccountClauses(p: ClientsQueryParameters): seq<Clause> {
    When(!IsNullOrEmpty(p.accountNumber), AccountNumberHas(p.accountNumber.GetOr([])))
    + When(!IsNullOrEmpty(p.accountType), AccountTypeHas(p.accountType.GetOr([])))
    + When(p.minBalance.Some?, MinBalance(p.minBalance.GetOr(0)))
    + When(p.maxBalance.Some?, MaxBalance(p.maxBalance.GetOr(0)))
  }

  /** query = query.Where(...) for each step in turn. */
  function ApplyAll(q: seq<Client>, cls: seq<Clause>): seq<Client> {
    FilterChain(q, cls, Holds)
  }

  /** The criteria read declaratively: every given criterion holds of the client. */
  predicate Satisfies(c: Client, p: ClientsQueryParameters) {
    && (IsNullOrEmpty(p.searchTerm) || SearchTermHit(c, p.searchTerm.value))
    && MatchesClientFields(c, p) && MatchesAddress(c, p) && MatchesAccounts(c, p)
  }

  predicate MatchesClientFields(c: Client, p: ClientsQueryParameters) {
    && (IsNullOrEmpty(p.firstName) || Contains(c.firstName, p.firstName.value))
    && (IsNullOrEmpty(p.lastName) || Contains(c.lastName, p.lastName.value))
    && (IsNullOrEmpty(p.email) || Contains(c.email, p.email.value))
    && (IsNullOrEmpty(p.personalId) || c.personalId == p.personalId.value)
    && (IsNullOrEmpty(p.mobileNumber) || Contains(c.mobileNumber, p.mobileNumber.value))
    && (p.sex == DefaultGender || c.sex == p.sex)
  }

  predicate MatchesAddress(c: Client, p: ClientsQueryParameters) {
    && (IsNullOrEmpty(p.country) || Has(c.address.country, p.country.value))
    && (IsNullOrEmpty(p.city) || Has(c.address.city, p.city.value))
    && (IsNullOrEmpty(p.street) || Has(c.address.street, p.street.value))
    && (IsNullOrEmpty(p.zipCode) || Has(c.address.zipCode, p.zipCode.value))
  }

  predicate MatchesAccounts(c: Client, p: ClientsQueryParameters) {
    && (IsNullOrEmpty(p.accountNumber) || SomeAccountNumberHas(c, p.accountNumber.value))
    && (IsNullOrEmpty(p.accountType) || SomeAccountTypeHas(c, p.accountType.value))
    && (p.minBalance.None? || SomeBalanceAtLeast(c, p.minBalance.value))
    && (p.maxBalance.None? || SomeBalanceAtMost(c, p.maxBalance.value))
  }

  lemma ClientFieldClausesMeaning(c: Client, p: ClientsQueryParameters)
    ensures AllHold(ClientFieldClauses(p), Holds, c) <==> MatchesClientFields(c, p)
  {
    var w1 := When(!IsNullOrEmpty(p.firstName), FirstNameHas(p.firstName.GetOr([])));
    var w2 := When(!IsNullOrEmpty(p.lastName), LastNameHas(p.lastName.GetOr([])));
    var w3 := When(!IsNullOrEmpty(p.email), EmailHas(p.email.GetOr([])));
    var w4 := When(!IsNullOrEmpty(p.personalId), PersonalIdIs(p.personalId.GetOr([])));
    var w5 := When(!IsNullOrEmpty(p.mobileNumber), MobileNumberHas(p.mobileNumber.GetOr([])));
    var w6 := When(p.sex != DefaultGender, SexIs(p.sex));
    assert AllHold(w1, Holds, c) <==> IsNullOrEmpty(p.firstName) || Contains(c.firstName, p.firstName.value) by {
      WhenHolds(!IsNullOrEmpty(p.firstName), FirstNameHas(p.firstName.GetOr([])), Holds, c);
    }
    assert AllHold(w2, Holds, c) <==> IsNullOrEmpty(p.lastName) || Contains(c.lastName, p.lastName.value) by {
      WhenHolds(!IsNullOrEmpty(p.lastName), LastNameHas(p.lastName.GetOr([])), Holds, c);
    }
    assert AllHold(w3, Holds, c) <==> IsNullOrEmpty(p.email) || Contains(c.email, p.email.value) by {
      WhenHolds(!IsNullOrEmpty(p.email), EmailHas(p.email.GetOr([])), Holds, c);
    }
    assert AllHold(w4, Holds, c) <==> IsNullOrEmpty(p.personalId) || c.personalId == p.personalId.value by {
      WhenHolds(!IsNullOrEmpty(p.personalId), PersonalIdIs(p.personalId.GetOr([])), Holds, c);
    }
    assert AllHold(w5, Holds, c) <==> IsNullOrEmpty(p.mobileNumber) || Contains(c.mobileNumber, p.mobileNumber.value) by {
      WhenHolds(!IsNullOrEmpty(p.mobileNumber), MobileNumberHas(p.mobileNumber.GetOr([])), Holds, c);
    }
    assert AllHold(w6, Holds, c) <==> p.sex == DefaultGender || c.sex == p.sex by {
      WhenHolds(p.sex != DefaultGender, SexIs(p.sex), Holds, c);
    }
    AllHoldAppend4(w1, w2, w3, w4, Holds, c);
    AllHoldAppend(w1 + w2 + w3 + w4, w5, Holds, c);
    AllHoldAppend(w1 + w2 + w3 + w4 + w5, w6, Holds, c);
  }

  lemma AddressClausesMeaning(c: Client, p: ClientsQueryParameters)
    ensures AllHold(AddressClauses(p), Holds, c) <==> MatchesAddress(c, p)
  {
    var w1 := When(!IsNullOrEmpty(p.country), CountryHas(p.country.GetOr([])));
    var w2 := When(!IsNullOrEmpty(p.city), CityHas(p.city.GetOr([])));
    var w3 := When(!IsNullOrEmpty(p.street), StreetHas(p.street.GetOr([])));
    var w4 := When(!IsNullOrEmpty(p.zipCode), ZipCodeHas(p.zipCode.GetOr([])));
    assert AllHold(w1, Holds, c) <==> IsNullOrEmpty(p.country) || Has(c.address.country, p.country.value) by {
      WhenHolds(!IsNullOrEmpty(p.country), CountryHas(p.country.GetOr([])), Holds, c);
    }
    assert AllHold(w2, Holds, c) <==> IsNullOrEmpty(p.city) || Has(c.address.city, p.city.value) by {
      WhenHolds(!IsNullOrEmpty(p.city), CityHas(p.city.GetOr([])), Holds, c);
    }
    assert AllHold(w3, Holds, c) <==> IsNullOrEmpty(p.street) || Has(c.address.street, p.street.value) by {
      WhenHolds(!IsNullOrEmpty(p.street), StreetHas(p.street.GetOr([])), Holds, c);
    }
    assert AllHold(w4, Holds, c) <==> IsNullOrEmpty(p.zipCode) || Has(c.address.zipCode, p.zipCode.value) by {
      WhenHolds(!IsNullOrEmpty(p.zipCode), ZipCodeHas(p.zipCode.GetOr([])), Holds, c);
    }
    AllHoldAppend4(w1, w2, w3, w4, Holds, c);
  }

  lemma AccountClausesMeaning(c: Client, p: ClientsQueryParameters)
    ensures AllHold(AccountClauses(p), Holds, c) <==> MatchesAccounts(c, p)
  {
    var w1 := When(!IsNullOrEmpty(p.accountNumber), AccountNumberHas(p.accountNumber.GetOr([])));
    var w2 := When(!IsNullOrEmpty(p.accountType), AccountTypeHas(p.accountType.GetOr([])));
    var w3 := When(p.minBalance.Some?, MinBalance(p.minBalance.GetOr(0)));
    var w4 := When(p.maxBalance.Some?, MaxBalance(p.maxBalance.GetOr(0)));
    assert AllHold(w1, Holds, c) <==> IsNullOrEmpty(p.accountNumber) || SomeAccountNumberHas(c, p.accountNumber.value) by {
      WhenHolds(!IsNullOrEmpty(p.accountNumber), AccountNumberHas(p.accountNumber.GetOr([])), Holds, c);
    }
    assert AllHold(w2, Holds, c) <==> IsNullOrEmpty(p.accountType) || SomeAccountTypeHas(c, p.accountType.value) by {
      WhenHolds(!IsNullOrEmpty(p.accountType), AccountTypeHas(p.accountType.GetOr([])), Holds, c);
    }
    assert AllHold(w3, Holds, c) <==> p.minBalance.None? || SomeBalanceAtLeast(c, p.minBalance.value) by {
      WhenHolds(p.minBalance.Some?, MinBalance(p.minBalance.GetOr(0)), Holds, c);
    }
    assert AllHold(w4, Holds, c) <==> p.maxBalance.None? || SomeBalanceAtMost(c, p.maxBalance.value) by {
      WhenHolds(p.maxBalance.Some?, MaxBalance(p.maxBalance.GetOr(0)), Holds, c);
    }
    AllHoldAppend4(w1, w2, w3, w4, Holds, c);
  }

  /** A client passes every active step exactly when it satisfies the criteria. */
  lemma ActiveClausesMeaning(c: Client, p: ClientsQueryParameters)
    ensures AllHold(ActiveClauses(p), Holds, c) <==> Satisfies(c, p)
  {
    WhenHolds(!IsNullOrEmpty(p.searchTerm), SearchTerm(p.searchTerm.GetOr([])), Holds, c);
    ClientFieldClausesMeaning(c, p);
    AddressClausesMeaning(c, p);
    AccountClausesMeaning(c, p);
    AllHoldAppend4(SearchClauses(p), ClientFieldClauses(p), AddressClauses(p), AccountClauses(p), Holds, c);
  }

  /** The filtered query of both repository methods. */
  function Filtered(store: seq<Client>, p: ClientsQueryParameters): seq<Client> {
    ApplyAll(store, ActiveClauses(p))
  }

  /** The filtered query is the store's clients that satisfy the criteria, in store order. */
  lemma FilteredIsMatching(store: seq<Client>, p: ClientsQueryParameters)
    ensures Filtered(store, p) == Filter(store, c => Satisfies(c, p))
  {
    FilterChainIsFilter(store, ActiveClauses(p), Holds);
    forall c | c in store
      ensures AllHold(ActiveClauses(p), Holds, c) == Satisfies(c, p)
    {
      ActiveClausesMeaning(c, p);
    }
    FilterCongruent(store, c => AllHold(ActiveClauses(p), Holds, c), c => Satisfies(c, p));
  }

  lemma FilteredMembers(store: seq<Client>, p: ClientsQueryParameters)
    ensures forall c :: c in Filtered(store, p) <==> c in store && Satisfies(c, p)
    ensures multiset(Filtered(store, p)) <= multiset(store)
  {
    FilteredIsMatching(store, p);
  }

  /** The sort keys the switch recognises. */
  datatype SortKey = FirstName | LastName | Email | PersonalId | MobileNumber

  function KeyName(k: SortKey): string {
    match k
    case FirstName => "firstname"
    case LastName => "lastname"
    case Email => "email"
    case PersonalId => "personalid"
    case MobileNumber => "mobilenumber"
  }

  /** The switch on SortBy.ToLower(); None stands for the default arm and for an empty SortBy. */
  function ParseSortKey(sortBy: Option<string>): (r: Option<SortKey>)
  {
    if IsNullOrEmpty(sortBy) then None
    else
      var s := ToLower(sortBy.value);
      if s == "firstname" then Some(FirstName)
      else if s == "lastname" then Some(LastName)
      else if s == "email" then Some(Email)
      else if s == "personalid" then Some(PersonalId)
      else if s == "mobilenumber" then Some(MobileNumber)
      else None
  }

  /** A key is chosen exactly when the lower-cased SortBy is its name. */
  lemma ParseSortKeyIff(s: string, k: SortKey)
    ensures ParseSortKey(Some(s)) == Some(k) <==> ToLower(s) == KeyName(k)
  {
  }

  /** Only the five names, in any letter case, choose a key. */
  lemma ParseSortKeyNone(sortBy: Option<string>)
    ensures ParseSortKey(sortBy).None? <==>
              (IsNullOrEmpty(sortBy) || forall k: SortKey :: ToLower(sortBy.value) != KeyName(k))
  {
    if !IsNullOrEmpty(sortBy) {
      var s := ToLower(sortBy.value);
      assert KeyName(FirstName) == "firstname" && KeyName(LastName) == "lastname"
          && KeyName(Email) == "email" && KeyName(PersonalId) == "personalid"
          && KeyName(MobileNumber) == "mobilenumber";
    }
  }

  /** The switch ignores letter case: "FirstName" sorts by first name. */
  lemma ParseSortKeyMixedCase()
    ensures ParseSortKey(Some("FirstName")) == Some(FirstName)
  {
    var s := ToLower("FirstName");
    assert s[0] == 'f' && s[5] == 'n';
    assert s == "firstname";
  }

  /** "EMAIL" sorts by email. */
  lemma ParseSortKeyUpperCase()
    ensures ParseSortKey(Some("EMAIL")) == Some(Email)
  {
    var s := ToLower("EMAIL");
    assert s[0] == 'e' && s[1] == 'm' && s[2] == 'a' && s[3] == 'i' && s[4] == 'l';
    assert s == "email";
  }

  /** A name outside the switch, such as "Id", or an empty SortBy, keeps the filtered order. */
  lemma ParseSortKeyUnknown()
    ensures ParseSortKey(Some("Id")).None?
    ensures ParseSortKey(Some("")).None?
  {
    assert |ToLower("Id")| == 2;
  }

  function KeyOf(c: Client, k: SortKey): string {
    match k
    case FirstName => c.firstName
    case LastName => c.lastName
    case Email => c.email
    case PersonalId => c.personalId
    case MobileNumber => c.mobileNumber
  }

  /** OrderBy(key) and OrderByDescending(key) as comparisons. */
  function Ascending(k: SortKey): (Client, Client) -> bool {
    (a: Client, b: Client) => LexLe(KeyOf(a, k), KeyOf(b, k))
  }

  function Descending(k: SortKey): (Client, Client) -> bool {
    (a: Client, b: Client) => LexLe(KeyOf(b, k), KeyOf(a, k))
  }

  lemma {:induction false} OrdersArePreorders(k: SortKey)
    ensures TotalPreorder(Ascending(k)) && TotalPreorder(Descending(k))
  {
    forall a, b
      ensures Ascending(k)(a, b) || Ascending(k)(b, a)
    {
      LexLeTotal(KeyOf(a, k), KeyOf(b, k));
    }
    forall a, b, c | Ascending(k)(a, b) && Ascending(k)(b, c)
      ensures Ascending(k)(a, c)
    {
      LexLeTransitive(KeyOf(a, k), KeyOf(b, k), KeyOf(c, k));
    }
    forall a, b
      ensures Descending(k)(a, b) || Descending(k)(b, a)
    {
      LexLeTotal(KeyOf(b, k), KeyOf(a, k));
    }
    forall a, b, c | Descending(k)(a, b) && Descending(k)(b, c)
      ensures Descending(k)(a, c)
    {
      LexLeTransitive(KeyOf(c, k), KeyOf(b, k), KeyOf(a, k));
    }
  }

  /** The sorting step. */
  function ApplySort(q: seq<Client>, sortBy: Option<string>, descending: bool): seq<Client> {
    match ParseSortKey(sortBy)
    case None => q
    case Some(k) => SortBy(q, if descending then Descending(k) else Ascending(k))
  }

  /** Sorting permutes the query: into key order when the key is recognised, not at all otherwise. */
  lemma ApplySortSpec(q: seq<Client>, sortBy: Option<string>, descending: bool)
    ensures multiset(ApplySort(q, sortBy, descending)) == multiset(q)
    ensures ParseSortKey(sortBy).None? ==> ApplySort(q, sortBy, descending) == q
    ensures ParseSortKey(sortBy).Some? && !descending ==>
              SortedBy(ApplySort(q, sortBy, descending), Ascending(ParseSortKey(sortBy).value))
    ensures ParseSortKey(sortBy).Some? && descending ==>
              SortedBy(ApplySort(q, sortBy, descending), Descending(ParseSortKey(sortBy).value))
  {
    if ParseSortKey(sortBy).Some? {
      var k := ParseSortKey(sortBy).value;
      OrdersArePreorders(k);
      SortBySorted(q, if descending then Descending(k) else Ascending(k));
    }
  }

  lemma ApplySortLength(q: seq<Client>, sortBy: Option<string>, descending: bool)
    ensures |ApplySort(q, sortBy, descending)| == |q|
  {
  }

  lemma ApplySortMembers(q: seq<Client>, sortBy: Option<string>, descending: bool)
    ensures forall c :: c in ApplySort(q, sortBy, descending) <==> c in q
  {
    ApplySortSpec(q, sortBy, descending);
    forall c
      ensures c in ApplySort(q, sortBy, descending) <==> c in q
    {
      assert c in ApplySort(q, sortBy, descending) <==> c in multiset(ApplySort(q, sortBy, descending));
    }
  }

  /** GetClientsAsync */
  function GetClients(store: seq<Client>, p: ClientsQueryParameters): seq<Client> {
    Paging.Page(Sorted(store, p), p.pageNumber, p.pageSize)
  }

  /** GetTotalClientsAsync */
  function GetTotalClients(store: seq<Client>, p: ClientsQueryParameters): int {
    |Filtered(store, p)|
  }

  /** Every listed client is a stored client satisfying the criteria, and a page never
      holds more than PageSize of them. */
  lemma GetClientsSound(store: seq<Client>, p: ClientsQueryParameters)
    ensures forall c :: c in GetClients(store, p) ==> c in store && Satisfies(c, p)
    ensures |GetClients(store, p)| <= Max(p.pageSize, 0)
    ensures multiset(GetClients(store, p)) <= multiset(Filtered(store, p))
  {
    var sorted := ApplySort(Filtered(store, p), p.sortBy, p.sortDescending);
    ApplySortSpec(Filtered(store, p), p.sortBy, p.sortDescending);
    FilteredMembers(store, p);
    Paging.PageWithin(sorted, p.pageNumber, p.pageSize);
    forall c | c in GetClients(store, p)
      ensures c in store && Satisfies(c, p)
    {
      assert c in multiset(sorted);
    }
  }

  /** For page numbers from 1, the page is the slice of the sorted query that starts at
      (PageNumber - 1) * PageSize: its size is what is left, capped at PageSize. */
  lemma GetClientsSlice(store: seq<Client>, p: ClientsQueryParameters)
    requires p.pageNumber >= 1 && p.pageSize >= 0
    ensures var sorted := Sorted(store, p);
            var skip := (p.pageNumber - 1) * p.pageSize;
            var lo := Min(Max(skip, 0), |sorted|);
            GetClients(store, p) == sorted[lo..Max(lo, Min(skip + p.pageSize, |sorted|))]
    ensures |GetClients(store, p)| ==
              Min(p.pageSize, Max(0, GetTotalClients(store, p) - (p.pageNumber - 1) * p.pageSize))
  {
    ApplySortLength(Filtered(store, p), p.sortBy, p.sortDescending);
    Paging.PageSlice(Sorted(store, p), p.pageNumber, p.pageSize);
  }

  /** The sorted, filtered query that GetClients cuts its pages from. */
  function Sorted(store: seq<Client>, p: ClientsQueryParameters): seq<Client> {
    ApplySort(Filtered(store, p), p.sortBy, p.sortDescending)
  }

  /** Changing only the page number picks another page of the same sorted query. */
  lemma GetClientsIsPage(store: seq<Client>, p: ClientsQueryParameters, n: int)
    ensures GetClients(store, p.(pageNumber := n)) == Paging.Page(Sorted(store, p), n, p.pageSize)
  {
    FilteredIgnoresSortAndPaging(store, p, p.sortBy, p.sortDescending, n, p.pageSize);
    assert p.(sortBy := p.sortBy, sortDescending := p.sortDescending, pageNumber := n,
              pageSize := p.pageSize) == p.(pageNumber := n);
  }

  /** With a positive PageSize every matching client is on some page. */
  lemma GetClientsComplete(store: seq<Client>, p: ClientsQueryParameters, c: Client)
    requires p.pageSize >= 1
    requires c in store && Satisfies(c, p)
    ensures exists n :: n >= 1 && c in GetClients(store, p.(pageNumber := n))
  {
    ApplySortMembers(Filtered(store, p), p.sortBy, p.sortDescending);
    FilteredMembers(store, p);
    Paging.OnSomePage(Sorted(store, p), p.pageSize, c);
    var n :| n >= 1 && c in Paging.Page(Sorted(store, p), n, p.pageSize);
    GetClientsIsPage(store, p, n);
  }

  /** The count is the number of stored clients satisfying the criteria. */
  lemma GetTotalClientsCounts(store: seq<Client>, p: ClientsQueryParameters)
    ensures GetTotalClients(store, p) == |Filter(store, c => Satisfies(c, p))|
    ensures 0 <= GetTotalClients(store, p) <= |store|
  {
    FilteredIsMatching(store, p);
  }

  /** The filter does not read the sort or paging fields. */
  lemma FilteredIgnoresSortAndPaging(store: seq<Client>, p: ClientsQueryParameters,
                                     sortBy: Option<string>, descending: bool,
                                     pageNumber: int, pageSize: int)
    ensures Filtered(store, p) ==
              Filtered(store, p.(sortBy := sortBy, sortDescending := descending,
                                 pageNumber := pageNumber, pageSize := pageSize))
  {
    var q := p.(sortBy := sortBy, sortDescending := descending,
                pageNumber := pageNumber, pageSize := pageSize);
    assert SearchClauses(q) == SearchClauses(p);
    assert ClientFieldClauses(q) == ClientFieldClauses(p);
    assert AddressClauses(q) == AddressClauses(p);
    assert AccountClauses(q) == AccountClauses(p);
  }

  /** The count does not depend on the sort or the page asked for. */
  lemma GetTotalClientsIgnoresSortAndPaging(store: seq<Client>, p: ClientsQueryParameters,
                                            sortBy: Option<string>, descending: bool,
                                            pageNumber: int, pageSize: int)
    ensures GetTotalClients(store, p) ==
              GetTotalClients(store, p.(sortBy := sortBy, sortDescending := descending,
                                        pageNumber := pageNumber, pageSize := pageSize))
  {
    FilteredIgnoresSortAndPaging(store, p, sortBy, descending, pageNumber, pageSize);
  }

  /** A page starting at or past the count is empty. */
  lemma PastTheCountIsEmpty(store: seq<Client>, p: ClientsQueryParameters)
    requires p.pageNumber >= 1 && p.pageSize >= 0
    requires (p.pageNumber - 1) * p.pageSize >= GetTotalClients(store, p)
    ensures GetClients(store, p) == []
  {
    GetClientsSlice(store, p);
  }

  /** Default criteria restrict nothing: the first ten stored clients, out of all of them. */
  lemma DefaultsListFirstTen(store: seq<Client>)
    ensures GetClients(store, Defaults) == Take(store, 10)
    ensures GetTotalClients(store, Defaults) == |store|
  {
    assert ActiveClauses(Defaults) == [];
  }

  /** With Sex left at its default, choosing sex g adds exactly the test the Sex step applies. */
  lemma SatisfiesWithSex(c: Client, p: ClientsQueryParameters, g: ClientGender)
    requires p.sex == DefaultGender
    ensures Satisfies(c, p.(sex := g)) <==> Satisfies(c, p) && (g == DefaultGender || c.sex == g)
    ensures Satisfies(c, p) <==> Satisfies(c.(sex := g), p)
  {
  }

  /** Leaving Sex at its default value never restricts; any other value keeps, of the same
      clients in the same order, those of that sex. */
  lemma SexFiltersOnlyWhenNotDefault(store: seq<Client>, p: ClientsQueryParameters, g: ClientGender)
    requires p.sex == DefaultGender
    ensures Filtered(store, p.(sex := g)) ==
              Filter(Filtered(store, p), (c: Client) => g == DefaultGender || c.sex == g)
  {
    var sexTest := (c: Client) => g == DefaultGender || c.sex == g;
    var q := p.(sex := g);
    FilteredIsMatching(store, p);
    FilteredIsMatching(store, q);
    forall c | c in store
      ensures Satisfies(c, q) == (Satisfies(c, p) && sexTest(c))
    {
      SatisfiesWithSex(c, p, g);
    }
    FilterFilter(store, c => Satisfies(c, p), sexTest, c => Satisfies(c, q));
  }

  /** The free-text search keeps exactly the clients with the term in one of the eight fields. */
  lemma SearchTermFilter(store: seq<Client>, term: string)
    requires term != []
    ensures var p := Defaults.(searchTerm := Some(term));
            forall c :: c in Filtered(store, p) <==> c in store && SearchTermHit(c, term)
  {
    FilteredMembers(store, Defaults.(searchTerm := Some(term)));
  }

  /** The balance bounds are separate existentials: one account may meet the minimum and
      another the maximum, even when the minimum exceeds the maximum. */
  lemma BalanceBoundsAreIndependent()
    ensures var c := Client(1, "a@b.c", "Ann", "Lee", "12345678901", None, "+15550100",
                            Female, Address(None, None, None, None),
                            [Account(1, Some("A1"), Some("Savings"), 10),
                             Account(2, Some("A2"), Some("Current"), 1000)]);
            Satisfies(c, Defaults.(minBalance := Some(500), maxBalance := Some(50)))
  {
    var c := Client(1, "a@b.c", "Ann", "Lee", "12345678901", None, "+15550100",
                    Female, Address(None, None, None, None),
                    [Account(1, Some("A1"), Some("Savings"), 10),
                     Account(2, Some("A2"), Some("Current"), 1000)]);
    assert c.accounts[1] in c.accounts && c.accounts[0] in c.accounts;
  }

  /** PersonalId is matched exactly while the other strings are matched as substrings. */
  lemma PersonalIdIsExact()
    ensures var c := Client(1, "smith@bank.com", "John", "Smith-Jones", "12345678901", None,
                            "+15550100", Male, Address(None, None, None, None), []);
            && Satisfies(c, Defaults.(lastName := Some("Smith")))
            && !Satisfies(c, Defaults.(personalId := Some("12345")))
  {
    ContainsInfix([], "Smith", "-Jones");
    assert [] + "Smith" + "-Jones" == "Smith-Jones";
  }
}
