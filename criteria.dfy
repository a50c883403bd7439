/** The listing criteria records and their default initialisers. */
module QueryParameters {
  import opened Wrappers
  import opened Entities

  /** ClientsQueryParameters as the repository reads it: the declared properties plus the
      address, account and balance filters the repository also reads. */
  datatype ClientsQueryParameters = ClientsQueryParameters(
    email: Option<string>,
    firstName: Option<string>,
    lastName: Option<string>,
    personalId: Option<string>,
    mobileNumber: Option<string>,
    sex: ClientGender,
    searchTerm: Option<string>,
    sortBy: Option<string>,
    sortDescending: bool,
    pageNumber: int,
    pageSize: int,
    country: Option<string>,
    city: Option<string>,
    street: Option<string>,
    zipCode: Option<string>,
    accountNumber: Option<string>,
    accountType: Option<string>,
    minBalance: Option<int>,
    maxBalance: Option<int>)

  /** new ClientsQueryParameters(): strings null, Sex the enum default, ascending, page 1 of 10. */
  const Defaults: ClientsQueryParameters :=
    ClientsQueryParameters(None, None, None, None, None, DefaultGender, None, None, false, 1, 10,
                           None, None, None, None, None, None, None, None)

  /** The legacy criteria record: no search term, no sort, no address or account filters. */
  datatype LegacyQueryParameters = LegacyQueryParameters(
    email: Option<string>,
    firstName: Option<string>,
    lastName: Option<string>,
    personalId: Option<string>,
    mobileNumber: Option<string>,
    sex: ClientGender,
    pageNumber: int,
    pageSize: int)

  const LegacyDefaults: LegacyQueryParameters :=
    LegacyQueryParameters(None, None, None, None, None, DefaultGender, 1, 10)
}
