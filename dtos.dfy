/** Data transfer objects: what the API receives and returns. A null reference is None. */
module Dtos {
  import opened Wrappers
  import opened Entities

  datatype AddressDto = AddressDto(country: Option<string>, city: Option<string>,
                                   street: Option<string>, zipCode: Option<string>)

  datatype AccountDto = AccountDto(id: int, accountNumber: Option<string>,
                                   accountType: Option<string>, balance: int)

  /** The view of a Client that the service returns. */
  datatype ClientDto = ClientDto(
    id: int,
    email: string,
    firstName: string,
    lastName: string,
    personalId: string,
    profilePhoto: Option<string>,
    mobileNumber: string,
    sex: ClientGender,
    address: AddressDto,
    accounts: seq<AccountDto>)

  datatype CreateAccountDto = CreateAccountDto(accountNumber: Option<string>,
                                               accountType: Option<string>, balance: int)

  datatype CreateClientDto = CreateClientDto(
    email: Option<string>,
    firstName: Option<string>,
    lastName: Option<string>,
    personalId: Option<string>,
    profilePhoto: Option<string>,
    mobileNumber: Option<string>,
    sex: ClientGender,
    address: Option<AddressDto>,
    accounts: Option<seq<CreateAccountDto>>)

  datatype UpdateAddressDto = UpdateAddressDto(country: Option<string>, city: Option<string>,
                                               street: Option<string>, zipCode: Option<string>)

  datatype UpdateAccountDto = UpdateAccountDto(id: int, accountNumber: Option<string>,
                                               accountType: Option<string>, balance: int)

  datatype UpdateClientDto = UpdateClientDto(
    clientId: int,
    email: Option<string>,
    firstName: Option<string>,
    lastName: Option<string>,
    personalId: Option<string>,
    profilePhoto: Option<string>,
    mobileNumber: Option<string>,
    sex: ClientGender,
    address: Option<UpdateAddressDto>,
    accounts: Option<seq<UpdateAccountDto>>)

  datatype DeleteClientDto = DeleteClientDto(clientId: int)

  datatype RegisterDto = RegisterDto(userName: Option<string>, email: Option<string>,
                                     password: Option<string>, role: Option<string>)
}
