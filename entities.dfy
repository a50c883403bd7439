/** The persisted entities. Address and Accounts are owned by their Client, so they are
    parts of the Client value: one Address per Client, each Account in exactly one Client. */
module Entities {
  import opened Wrappers

  /** ClientGender. Its declaration is not part of this model: the three members are assumed,
      and the first of them plays the role of the enum's default (zero) value. */
  datatype ClientGender = Male | Female | Other

  const DefaultGender: ClientGender := Male

  /** Nested strings may be null: the service copies them from item DTOs it never validates. */
  datatype Address = Address(country: Option<string>, city: Option<string>,
                             street: Option<string>, zipCode: Option<string>)

  /** Balance is a decimal amount; the model uses an integer number of minor units. */
  datatype Account = Account(id: int, accountNumber: Option<string>,
                             accountType: Option<string>, balance: int)

  /** The top-level strings are checked by [Required] before the service writes them. */
  datatype Client = Client(
    id: int,
    email: string,
    firstName: string,
    lastName: string,
    personalId: string,
    profilePhoto: Option<string>,
    mobileNumber: string,
    sex: ClientGender,
    address: Address,
    accounts: seq<Account>)

  /** One audit record: serialized criteria, UTC time of the search (ticks), admin id. */
  datatype SearchParameter = SearchParameter(searchCriteria: string, searchDate: int, adminId: string)
}
