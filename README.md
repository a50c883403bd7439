# BankingControlPanel client core in Dafny

This project models the client-management core of BankingControlPanel, an ASP.NET Core
back office for a bank. The model covers:

- **the query engine** of `ClientsRepository`: a conditional chain of `Where` filters (a
  free-text search term, substring filters on client, address and account fields, an exact
  personal id, a sex filter that is off at the enum default, balance bounds), a
  case-insensitive choice of sort key, and `Skip((PageNumber-1)*PageSize).Take(PageSize)`
  paging. The count uses the same filters;
- **the legacy `ClientRepository`**: the first-name, last-name and e-mail filters and a page,
  with no sort;
- **the `Clients` table**: insertion with database-generated keys (modelled as gap-free
  counters), lookup by id, update and delete, shared by both repositories;
- **the search log**: `SearchParametersRepository` and `AdminService`. The service stores the
  criteria of each listing, serialised, under the current admin. It reads back the admin's
  last three, newest first;
- **`ClientsService`**: listing with projection to DTOs, lookup by id, creation from a
  validated request, update with its account merge, and deletion;
- **the data-annotation validation** of the request DTOs, including the
  `^\+[1-9]\d{1,14}$` mobile number pattern, proved equal to a declarative E.164 shape, with
  lengths counted in UTF-16 code units as `String.Length` counts them;
- **`PagedResult.TotalPages`**, computed as an exact integer ceiling.

Entities and DTOs are immutable datatypes. The two tables are classes whose methods change
their rows. The services are classes holding their collaborators, and their methods state
the repository's whole new state. Pure query logic is written as functions, with lemmas
relating each one to a declarative specification.

Files, in dependency order: `wrappers.dfy`, `text.dfy`, `sequences.dfy`, `entities.dfy`,
`dtos.dfy`, `criteria.dfy`, `paging.dfy`, `codec.dfy`, `query.dfy`, `store.dfy`, `legacy.dfy`,
`validation.dfy`, `searchlog.dfy`, `admin.dfy`, `service.dfy`.

## Model

| member | source | states |
|---|---|---|
| Text.ContainsInfix | BankingControlPanel.Infrastructure/Repositories/ClientsRepository.cs:55 | `String.Contains` finds any infix of a string |
| Text.EmptyNeedle | BankingControlPanel.Infrastructure/Repositories/ClientsRepository.cs:40 | every string contains the empty string, which is why empty criteria are skipped and never applied |
| Text.ToLower | BankingControlPanel.Infrastructure/Repositories/ClientsRepository.cs:133 | `ToLower` keeps the length and lowers each character on its own |
| Text.Utf16Length | BankingControlPanel.Core/Models/DTOs/Clients/CreateClientDto.cs:18 | `String.Length`, which the length attributes measure, lies between the character count and twice it |
| Text.Utf16LengthBmp | BankingControlPanel.Core/Models/DTOs/Clients/CreateClientDto.cs:18 | within the Basic Multilingual Plane the length is the character count |
| Text.Utf16LengthAstral | BankingControlPanel.Core/Models/DTOs/Clients/CreateClientDto.cs:18 | characters beyond U+FFFF count two units each |
| Text.LexLeTotal | BankingControlPanel.Infrastructure/Repositories/ClientsRepository.cs:135-139 | the ordinal string order that `OrderBy` uses relates any two strings |
| Text.LexLeTransitive | BankingControlPanel.Infrastructure/Repositories/ClientsRepository.cs:135-139 | the string order is transitive |
| Text.LexLeAntisymmetric | BankingControlPanel.Infrastructure/Repositories/ClientsRepository.cs:135-139 | strings that are mutually ordered are equal |
| Sequences.FilterChainIsFilter | BankingControlPanel.Infrastructure/Repositories/ClientsRepository.cs:39-128 | a chain of `Where` steps is one filter by the conjunction of their predicates, keeping store order |
| Sequences.FirstIndex | BankingControlPanel.Infrastructure/Repositories/ClientsRepository.cs:277 | the position `FirstOrDefault(p)` stops at: the first element satisfying p, or none exactly when no element does |
| Sequences.SortBySorted | BankingControlPanel.Infrastructure/Repositories/ClientsRepository.cs:133-141 | sorting by a total preorder yields a sorted permutation of its input |
| Sequences.SkipTakeSlice | BankingControlPanel.Infrastructure/Repositories/ClientsRepository.cs:146 | `Skip(n).Take(m)` is the slice `[n, n+m)` clamped to the sequence, with negative counts read as 0 |
| Sequences.SortedTake | BankingControlPanel.Infrastructure/Repositories/SearchParametersRepository.cs:57-58 | `OrderByDescending(...).Take(n)` gives a sorted sub-multiset of size min(n, length), and nothing left out ranks before a kept item |
| Sequences.SortedTakeHead | BankingControlPanel.Infrastructure/Repositories/SearchParametersRepository.cs:57-58 | an item that strictly outranks every other item comes first |
| Paging.TotalPages | BankingControlPanel.Core/Models/Responses/PagedResult.cs:15 | for a positive size the result is the least q with totalItems <= q*pageSize, for a negative size the ceiling of the negative quotient (12 items of size -5 give -2); it has no value for page size 0 |
| Paging.EmptyPagedResult | BankingControlPanel.Core/Models/Responses/PagedResult.cs:17-20 | the parameterless constructor gives no items, total 0 and no TotalPages |
| Paging.TotalPagesFormula | BankingControlPanel.Core/Models/Responses/PagedResult.cs:15 | the ceiling equals `(TotalItems + PageSize - 1) / PageSize`, and is 0 pages for 0 items |
| Paging.PageWithin | BankingControlPanel.Infrastructure/Repositories/ClientsRepository.cs:145-146 | a page is a sub-multiset of its input and holds at most PageSize items |
| Paging.PageSlice | BankingControlPanel.Infrastructure/Repositories/ClientsRepository.cs:145-146 | from page 1 on, a page is the slice starting at (PageNumber-1)*PageSize with its exact length |
| Paging.PageBeyondLastIsEmpty | BankingControlPanel.Infrastructure/Repositories/ClientsRepository.cs:145-146 | a page number above TotalPages gives an empty page (unbounded arithmetic) |
| Paging.PageOfIndex | BankingControlPanel.Infrastructure/Repositories/ClientsRepository.cs:145-146 | item j is entry j % size of page j / size + 1 |
| Paging.OnSomePage | BankingControlPanel.Infrastructure/Repositories/ClientsRepository.cs:145-146 | with a positive page size every item is on some page |
| Paging.Page | BankingControlPanel.Infrastructure/Repositories/ClientsRepository.cs:144-146 | `Skip((PageNumber-1)*PageSize).Take(PageSize)` in unbounded arithmetic; stated by PageWithin, PageSlice, PageOfIndex and PageBeyondLastIsEmpty |
| Paging.SkipCountAsWritten | BankingControlPanel.Infrastructure/Repositories/ClientsRepository.cs:145 | the skip count with each 32-bit `int` operation wrapping (Wrap32); exhibited by SkipOverflow |
| Paging.PageAsWritten | BankingControlPanel.Infrastructure/Repositories/ClientsRepository.cs:145-146 | the page with the wrapping skip count; exhibited by SkipOverflow |
| Paging.Wrap32 | BankingControlPanel.Infrastructure/Repositories/ClientsRepository.cs:145 | the 32-bit result is in [-2^31, 2^31) and congruent to the exact value modulo 2^32 |
| Paging.SkipOverflow | BankingControlPanel.Infrastructure/Repositories/ClientsRepository.cs:145 | the 32-bit skip wraps to -2147483646 for page 214748366 of size 10; with LINQ's `Skip` the first page is returned where the page should be empty (SQL Server instead rejects the negative OFFSET, so the listing fails) |
| CriteriaCodec.RoundTrip | BankingControlPanel.Core/Services/AdminService.cs:47 | deserialising the serialised criteria gives back the same criteria, every field included |
| CriteriaCodec.EmptyIsCorrupt | BankingControlPanel.Core/Services/AdminService.cs:92 | a stored criteria text that is empty does not deserialise |
| CriteriaCodec.Encode | BankingControlPanel.Core/Services/AdminService.cs:47 | the criteria as stored text, every field written; partner of Decode by RoundTrip |
| CriteriaCodec.Decode | BankingControlPanel.Core/Services/AdminService.cs:92 | stored text back to criteria, or none when it is malformed; partner of Encode by RoundTrip |
| ClientQuery.ClientFieldClausesMeaning | BankingControlPanel.Infrastructure/Repositories/ClientsRepository.cs:52-86 | the FirstName, LastName, Email, PersonalId, MobileNumber and Sex steps hold exactly when each non-empty criterion matches: a substring, an exact PersonalId, the sex unless it is the default |
| ClientQuery.AddressClausesMeaning | BankingControlPanel.Infrastructure/Repositories/ClientsRepository.cs:88-107 | the address steps hold exactly when each non-empty address criterion is a substring of a non-null address field |
| ClientQuery.AccountClausesMeaning | BankingControlPanel.Infrastructure/Repositories/ClientsRepository.cs:109-128 | the account steps hold exactly when, for each criterion given, some account has the number, the type, a balance >= MinBalance or a balance <= MaxBalance |
| ClientQuery.ActiveClausesMeaning | BankingControlPanel.Infrastructure/Repositories/ClientsRepository.cs:39-128 | the whole chain holds exactly when the search term hits one of its eight fields and every other criterion holds |
| ClientQuery.FilteredIsMatching | BankingControlPanel.Infrastructure/Repositories/ClientsRepository.cs:35-128 | the filtered query is the store filtered by the declarative criteria, in store order |
| ClientQuery.FilteredMembers | BankingControlPanel.Infrastructure/Repositories/ClientsRepository.cs:35-128 | a client is in the filtered query exactly when it is stored and matches; nothing is duplicated |
| ClientQuery.ParseSortKeyIff | BankingControlPanel.Infrastructure/Repositories/ClientsRepository.cs:131-141 | a sort key is chosen exactly when the lower-cased SortBy equals its name |
| ClientQuery.ParseSortKeyNone | BankingControlPanel.Infrastructure/Repositories/ClientsRepository.cs:131-141 | no key is chosen exactly when SortBy is null, empty, or lower-cases to none of the five names |
| ClientQuery.ParseSortKeyMixedCase | BankingControlPanel.Infrastructure/Repositories/ClientsRepository.cs:133-135 | "FirstName" selects the first-name sort |
| ClientQuery.ParseSortKeyUpperCase | BankingControlPanel.Infrastructure/Repositories/ClientsRepository.cs:133-137 | "EMAIL" selects the e-mail sort |
| ClientQuery.ParseSortKeyUnknown | BankingControlPanel.Infrastructure/Repositories/ClientsRepository.cs:131-140 | "Id" and "" leave the query unsorted |
| ClientQuery.OrdersArePreorders | BankingControlPanel.Infrastructure/Repositories/ClientsRepository.cs:135-139 | each ascending and descending key order is a total preorder |
| ClientQuery.ApplySortSpec | BankingControlPanel.Infrastructure/Repositories/ClientsRepository.cs:130-142 | the sort permutes the query; it is sorted by the key in the chosen direction, or unchanged when no key is chosen |
| ClientQuery.ApplySortLength | BankingControlPanel.Infrastructure/Repositories/ClientsRepository.cs:130-142 | sorting keeps the length |
| ClientQuery.ApplySortMembers | BankingControlPanel.Infrastructure/Repositories/ClientsRepository.cs:130-142 | sorting keeps the members |
| ClientQuery.GetClientsSound | BankingControlPanel.Infrastructure/Repositories/ClientsRepository.cs:31-149 | every listed client is stored and matches; at most PageSize come back, each at most as often as in the filtered query |
| ClientQuery.GetClientsSlice | BankingControlPanel.Infrastructure/Repositories/ClientsRepository.cs:130-148 | from page 1 on, the listing is the slice of the sorted filtered query at (PageNumber-1)*PageSize, with its exact length |
| ClientQuery.GetClientsIsPage | BankingControlPanel.Infrastructure/Repositories/ClientsRepository.cs:144-146 | changing only the page number pages through one fixed sorted sequence |
| ClientQuery.GetClientsComplete | BankingControlPanel.Infrastructure/Repositories/ClientsRepository.cs:31-149 | with a positive page size every matching client is listed on some page |
| ClientQuery.GetTotalClientsCounts | BankingControlPanel.Infrastructure/Repositories/ClientsRepository.cs:162-256 | the count is the number of stored clients matching the criteria, between 0 and the store size |
| ClientQuery.FilteredIgnoresSortAndPaging | BankingControlPanel.Infrastructure/Repositories/ClientsRepository.cs:35-128 | sort key, direction, page number and page size do not change which clients match |
| ClientQuery.GetTotalClientsIgnoresSortAndPaging | BankingControlPanel.Infrastructure/Repositories/ClientsRepository.cs:162-256 | the count does not depend on sort or paging |
| ClientQuery.PastTheCountIsEmpty | BankingControlPanel.Infrastructure/Repositories/ClientsRepository.cs:144-146 | a page starting at or after the count is empty |
| ClientQuery.DefaultsListFirstTen | BankingControlPanel.Core/Models/DTOs/Clients/ClientsQueryParameters.cs:20-22 | default criteria list the first ten clients in store order and count the whole store |
| ClientQuery.SatisfiesWithSex | BankingControlPanel.Infrastructure/Repositories/ClientsRepository.cs:82-86 | setting Sex adds the test `c.Sex == Sex` unless it is the default, which the default criteria cannot tell apart from no filter |
| ClientQuery.SexFiltersOnlyWhenNotDefault | BankingControlPanel.Infrastructure/Repositories/ClientsRepository.cs:82-86 | the filtered query with a sex is the query without it, filtered by that sex unless it is the default |
| ClientQuery.SearchTermFilter | BankingControlPanel.Infrastructure/Repositories/ClientsRepository.cs:40-50 | a search term alone keeps exactly the clients it hits, in store order |
| ClientQuery.BalanceBoundsAreIndependent | BankingControlPanel.Infrastructure/Repositories/ClientsRepository.cs:120-128 | the two balance bounds may be met by different accounts of one client |
| ClientQuery.PersonalIdIsExact | BankingControlPanel.Infrastructure/Repositories/ClientsRepository.cs:71-74 | PersonalId is compared for equality, unlike the names, which match substrings |
| ClientQuery.Filtered | BankingControlPanel.Infrastructure/Repositories/ClientsRepository.cs:35-128 | the chain of conditional `Where` steps; stated by FilteredIsMatching and FilteredMembers |
| ClientQuery.ParseSortKey | BankingControlPanel.Infrastructure/Repositories/ClientsRepository.cs:131-141 | the `ToLower()` switch choosing a sort key; stated by ParseSortKeyIff and ParseSortKeyNone |
| ClientQuery.ApplySort | BankingControlPanel.Infrastructure/Repositories/ClientsRepository.cs:130-142 | `OrderBy` or `OrderByDescending` on the chosen key, or no sort; stated by ApplySortSpec |
| ClientQuery.GetClients | BankingControlPanel.Infrastructure/Repositories/ClientsRepository.cs:31-149 | `GetClientsAsync`: filter, sort, page; stated by GetClientsSound, GetClientsSlice and GetClientsComplete |
| ClientQuery.GetTotalClients | BankingControlPanel.Infrastructure/Repositories/ClientsRepository.cs:162-256 | `GetTotalClientsAsync`: the count of the same filter; stated by GetTotalClientsCounts |
| ClientStore.IndexOf | BankingControlPanel.Infrastructure/Repositories/ClientsRepository.cs:277 | the first position holding the id, or none exactly when no row has it |
| ClientStore.FindIn | BankingControlPanel.Infrastructure/Repositories/ClientsRepository.cs:270-277 | `FirstOrDefault(c => c.Id == id)`: a stored client with that id, or null exactly when there is none |
| ClientStore.FindMember | BankingControlPanel.Infrastructure/Repositories/ClientsRepository.cs:270-277 | under a unique key, looking up a stored client's id finds that client |
| ClientStore.RemoveAtMembers | BankingControlPanel.Infrastructure/Repositories/ClientsRepository.cs:343-344 | removing a row keeps the key unique and drops exactly the clients with that id |
| ClientStore.RemoveAtFind | BankingControlPanel.Infrastructure/Repositories/ClientsRepository.cs:343-344 | after removal the id is not found and every other lookup is unchanged |
| ClientStore.ReplaceAtFind | BankingControlPanel.Infrastructure/Repositories/ClientsRepository.cs:316-317 | after an overwrite the id finds the new client and every other lookup is unchanged |
| ClientStore.AppendFind | BankingControlPanel.Infrastructure/Repositories/ClientsRepository.cs:296-297 | after inserting a fresh id that id finds the client and every other lookup is unchanged |
| ClientStore.NumberAccounts | BankingControlPanel.Infrastructure/Repositories/ClientsRepository.cs:296-297 | in the model, each inserted account gets the next generated key in list order, and nothing else changes |
| ClientStore.AccountKeysUnique | BankingControlPanel.Infrastructure/Repositories/ClientsRepository.cs:296-297 | under the Accounts primary key, each stored client's accounts have distinct ids |
| ClientStore.AppendKeepsAccountKeys | BankingControlPanel.Infrastructure/Repositories/ClientsRepository.cs:296-297 | inserting accounts with the next generated keys keeps every account key generated and distinct |
| ClientStore.AppendKeepsClientIds | BankingControlPanel.Infrastructure/Repositories/ClientsRepository.cs:296-297 | inserting a client with the next generated key keeps every client key generated |
| ClientStore.InsertKeepsTable | BankingControlPanel.Infrastructure/Repositories/ClientsRepository.cs:292-305 | inserting a new client with the next keys keeps the table invariant and makes it findable by its id |
| ClientStore.RemoveKeepsAccountKeys | BankingControlPanel.Infrastructure/Repositories/ClientsRepository.cs:343-344 | removing a row keeps the account key valid |
| ClientStore.ReplaceKeepsAccountKeys | BankingControlPanel.Infrastructure/Repositories/ClientsRepository.cs:316-317 | overwriting a row with the same account keys in the same order keeps the account key valid |
| ClientStore.ClientTable.Find | BankingControlPanel.Infrastructure/Repositories/ClientsRepository.cs:270-277 | `GetClientByIdAsync` on the current rows; stated by FindIn |
| ClientStore.ClientTable.constructor | BankingControlPanel.Infrastructure/Data/ApplicationDbContext.cs:1-62 | an empty table with its invariant (unique client keys, unique generated account keys) established |
| ClientStore.ClientTable.Add | BankingControlPanel.Infrastructure/Repositories/ClientsRepository.cs:292-305 | a client whose keys are all unset is appended with its generated keys and returned; any other client fails and changes nothing |
| ClientStore.ClientTable.Update | BankingControlPanel.Infrastructure/Repositories/ClientsRepository.cs:312-325 | a client whose id is stored, and whose account keys stay generated and distinct across the table, replaces that row; otherwise the save fails and nothing changes |
| ClientStore.ClientTable.Delete | BankingControlPanel.Infrastructure/Repositories/ClientsRepository.cs:332-345 | an unknown id fails with "Client not found." and changes nothing; otherwise exactly that row is removed |
| LegacyClientRepository.LegacyClausesMeaning | BankingControlPanel.Infrastructure/Repositories/ClientRepository.cs:37-53 | the three legacy steps hold exactly when each non-empty name or e-mail criterion is a substring |
| LegacyClientRepository.LegacyFilteredIsMatching | BankingControlPanel.Infrastructure/Repositories/ClientRepository.cs:31-57 | the legacy listing filters by the three criteria only; PersonalId, MobileNumber and Sex change nothing |
| LegacyClientRepository.LegacyIsCurrentWithoutSort | BankingControlPanel.Infrastructure/Repositories/ClientRepository.cs:31-57 | the legacy listing equals the current listing with those three filters, the page, and everything else at its default |
| LegacyClientRepository.LegacyDefaultsListFirstTen | BankingControlPanel.Core/Models/DTOs/ClientsQueryParameters.cs:18-19 | default legacy criteria list the first ten clients in store order |
| LegacyClientRepository.LegacyGetClients | BankingControlPanel.Infrastructure/Repositories/ClientRepository.cs:31-57 | the legacy `GetClientsAsync`; stated by LegacyFilteredIsMatching and LegacyIsCurrentWithoutSort |
| Validation.RunRejected | BankingControlPanel.Core/Models/DTOs/Clients/CreateClientDto.cs:33 | once the pattern automaton rejects, it stays rejected |
| Validation.RunDigits | BankingControlPanel.Core/Models/DTOs/Clients/CreateClientDto.cs:33 | after the first digit the automaton accepts exactly a run of ASCII digits within the 15-digit limit |
| Validation.MobilePatternIff | BankingControlPanel.Core/Models/DTOs/Clients/CreateClientDto.cs:33 | the pattern matches exactly '+', a digit 1-9, then 1 to 14 digits |
| Validation.RequiredIff | BankingControlPanel.Core/Models/DTOs/Clients/CreateClientDto.cs:13 | `[Required]` on a string holds exactly when it is non-null and has a non-white-space character |
| Validation.ValidCreateClientMeans | BankingControlPanel.Core/Models/DTOs/Clients/CreateClientDto.cs:13-44 | a valid create request has every required field, names of 1-60 UTF-16 code units (`String.Length`), a personal id of 1-11 units, an E.164 mobile number, an address and at least one account |
| Validation.ValidUpdateClientMeans | BankingControlPanel.Core/Models/DTOs/Clients/UpdateClientDto.cs:13-43 | a valid update request has every required field, names of 1-50 UTF-16 code units and a personal id of 1-11, and stays valid with no address, no accounts and any id |
| Validation.PersonalIdIsOnlyBounded | BankingControlPanel.Core/Models/DTOs/Clients/CreateClientDto.cs:25-27 | "must be exactly 11 characters" is enforced only as at most 11 code units: 5 characters pass, 12 fail |
| Validation.BlankIsMissing | BankingControlPanel.Core/Models/DTOs/Clients/UpdateAddressDto.cs:12-22 | null, empty and white-space strings fail `[Required]`, so an address with a blank street is refused |
| Validation.BalanceZeroIsAccepted | BankingControlPanel.Core/Models/DTOs/Clients/CreateAccountDto.cs:18-19 | balance 0 passes the range check and -1 fails it |
| Validation.NameLimitsDiffer | BankingControlPanel.Core/Models/DTOs/Clients/UpdateClientDto.cs:21 | a first name of 51-60 UTF-16 code units can be created but never saved by an update |
| Validation.MobilePatternExamples | BankingControlPanel.Core/Models/DTOs/Clients/CreateClientDto.cs:31-33 | "+12" matches; "+02", "12" and "+1" do not; "" passes the pattern but fails `[Required]` |
| Validation.PasswordWindow | BankingControlPanel.Core/Models/DTOs/Auth/RegisterDto.cs:12-23 | a valid registration has a password of 6-100 UTF-16 code units (so 3-100 characters), a user name and a valid e-mail; Role is never checked |
| Validation.SupplementaryCountsTwice | BankingControlPanel.Core/Models/DTOs/Auth/RegisterDto.cs:20 | lengths count UTF-16 code units: three characters beyond U+FFFF meet the 6-unit password minimum, and 31 of them exceed a 60-unit name limit |
| Validation.ValidCreateClient | BankingControlPanel.Core/Models/DTOs/Clients/CreateClientDto.cs:13-44 | the attributes of CreateClientDto combined as `TryValidateObject` checks them, nested objects only for presence; its meaning is stated by ValidCreateClientMeans |
| Validation.ValidUpdateClient | BankingControlPanel.Core/Models/DTOs/Clients/UpdateClientDto.cs:13-43 | the attributes of UpdateClientDto; address and accounts unchecked; its meaning is stated by ValidUpdateClientMeans and NameLimitsDiffer |
| Validation.ValidRegister | BankingControlPanel.Core/Models/DTOs/Auth/RegisterDto.cs:12-23 | the attributes of RegisterDto; its meaning is stated by PasswordWindow |
| Validation.ValidCreateAccount | BankingControlPanel.Core/Models/DTOs/Clients/CreateAccountDto.cs:12-19 | number and type required, balance non-negative; examples in BalanceZeroIsAccepted |
| Validation.ValidUpdateAccount | BankingControlPanel.Core/Models/DTOs/Clients/UpdateAccountDto.cs:12-22 | as for a new account, the int Id always passing `[Required]`; examples in BalanceZeroIsAccepted |
| Validation.ValidUpdateAddress | BankingControlPanel.Core/Models/DTOs/Clients/UpdateAddressDto.cs:12-22 | all four address fields required; examples in BlankIsMissing |
| SearchParametersRepository.NewerOrSameIsPreorder | BankingControlPanel.Infrastructure/Repositories/SearchParametersRepository.cs:57 | ordering by newer date is a total preorder |
| SearchParametersRepository.LastSearchesSpec | BankingControlPanel.Infrastructure/Repositories/SearchParametersRepository.cs:51-59 | the result has only that admin's records, newest first, min(count, their number) of them, and no left-out record is newer than a returned one |
| SearchParametersRepository.NewestSearchComesFirst | BankingControlPanel.Infrastructure/Repositories/SearchParametersRepository.cs:55-59 | a record newer than all of the admin's others is returned first |
| SearchParametersRepository.LastSearches | BankingControlPanel.Infrastructure/Repositories/SearchParametersRepository.cs:55-59 | `Where(AdminId).OrderByDescending(SearchDate).Take(count)`; stated by LastSearchesSpec |
| SearchParametersRepository.SearchParameterTable.GetLastSearchParameters | BankingControlPanel.Infrastructure/Repositories/SearchParametersRepository.cs:51-59 | `GetLastSearchParametersAsync` on the current records; stated by LastSearchesSpec |
| SearchParametersRepository.SearchParameterTable.constructor | BankingControlPanel.Infrastructure/Data/ApplicationDbContext.cs:1-62 | the table starts empty |
| SearchParametersRepository.SearchParameterTable.AddSearchParameter | BankingControlPanel.Infrastructure/Repositories/SearchParametersRepository.cs:30-43 | the record is appended and nothing else changes |
| AdminService.CodecRoundTrips | BankingControlPanel.Core/Services/AdminService.cs:47 | the concrete criteria serializer satisfies the round-trip law the service relies on |
| AdminService.AdminService.constructor | BankingControlPanel.Core/Services/AdminService.cs:21-26 | the service keeps its repository and serializer |
| AdminService.AdminService.SaveSearchParameters | BankingControlPanel.Core/Services/AdminService.cs:32-64 | without a current user it fails and stores nothing; otherwise it appends the serialised criteria with the clock's time and the user's id |
| AdminService.AdminService.GetLastSearchParameters | BankingControlPanel.Core/Services/AdminService.cs:71-103 | without a current user it fails; otherwise it returns the criteria of the user's last three records, in order, each one deserialised; it fails when a stored text does not deserialise |
| AdminService.SavedRecordsDecode | BankingControlPanel.Core/Services/AdminService.cs:85-94 | when every stored text was written by the serializer, reading back the last three cannot fail |
| AdminService.SavedSearchIsRecalledFirst | BankingControlPanel.Core/Services/AdminService.cs:47-57 | criteria saved later than all of the admin's other records are the first criteria read back |
| ClientsService.AccountsToDtos | BankingControlPanel.Core/Services/ClientsService.cs:64-70 | one AccountDto per account, in order, copying every field |
| ClientsService.ToDtos | BankingControlPanel.Core/Services/ClientsService.cs:47-71 | one ClientDto per listed client, in order |
| ClientsService.ToDtoRoundTrip | BankingControlPanel.Core/Services/ClientsService.cs:47-71 | the projection loses nothing: the client is recovered from its DTO |
| ClientsService.ToDtoInjective | BankingControlPanel.Core/Services/ClientsService.cs:47-71 | distinct clients project to distinct DTOs |
| ClientsService.ToDto | BankingControlPanel.Core/Services/ClientsService.cs:47-71 | the `new ClientDto { ... }` projection (also at 111-135, 185-209, 278-302); stated by ToDtoRoundTrip and ToDtoInjective |
| ClientsService.NewAccounts | BankingControlPanel.Core/Services/ClientsService.cs:175-180 | one account per requested account, in order, with the requested fields and no key |
| ClientsService.NewClient | BankingControlPanel.Core/Services/ClientsService.cs:159-181 | the entity built from a valid request has no keys set and as many accounts, at least one, as requested |
| ClientsService.FirstAccount | BankingControlPanel.Core/Services/ClientsService.cs:264 | `FirstOrDefault(a => a.Id == id)`: the first account with the id, or none exactly when no account has it |
| ClientsService.LastMatch | BankingControlPanel.Core/Services/ClientsService.cs:262 | the last incoming item with the id, or none exactly when no item has it |
| ClientsService.MergeKeepsIds | BankingControlPanel.Core/Services/ClientsService.cs:260-272 | the merge keeps the number of accounts and each account's id |
| ClientsService.MergeLastWins | BankingControlPanel.Core/Services/ClientsService.cs:260-272 | with distinct account ids, each account takes number, type and balance from the last incoming item with its id (MergedAccount), and is untouched when there is none |
| ClientsService.MergeLastWinsAll | BankingControlPanel.Core/Services/ClientsService.cs:260-272 | the same for every account at once |
| ClientsService.MergeSpec | BankingControlPanel.Core/Services/ClientsService.cs:262-271 | the foreach applied item by item in list order; stated by MergeKeepsIds and MergeLastWins |
| ClientsService.MergedAccount | BankingControlPanel.Core/Services/ClientsService.cs:264-270 | an account after the loop: overwritten by the last incoming item with its id, else untouched |
| ClientsService.MergeAccounts | BankingControlPanel.Core/Services/ClientsService.cs:260-272 | the foreach loop with its inner search computes the merge |
| ClientsService.Updated | BankingControlPanel.Core/Services/ClientsService.cs:242-272 | the updated client keeps its id and its account ids; a missing address keeps the address; a null or empty account list keeps the accounts; with distinct account ids each account is its MergedAccount |
| ClientsService.ClientsService.constructor | BankingControlPanel.Core/Services/ClientsService.cs:21-26 | the service keeps its collaborators |
| ClientsService.ClientsService.ListClients | BankingControlPanel.Core/Services/ClientsService.cs:33-81 | the search is recorded first, and without a current user the listing fails with nothing stored; otherwise it returns the projected page, the full count, and the requested page number and size |
| ClientsService.ClientsService.GetClientById | BankingControlPanel.Core/Services/ClientsService.cs:89-142 | it refuses exactly the non-positive ids; otherwise it returns null exactly when no client has the id, else the projection of the stored client with that id |
| ClientsService.ClientsService.CreateClient | BankingControlPanel.Core/Services/ClientsService.cs:150-216 | an invalid request fails and stores nothing; a valid one appends the mapped client with its generated keys and returns its projection; the client key counter advances by one and the account key counter by the number of accounts, so in the model consecutive creations get consecutive ids |
| ClientsService.ClientsService.UpdateClient | BankingControlPanel.Core/Services/ClientsService.cs:223-309 | an invalid request or an unknown id fails and changes nothing; otherwise only that row is replaced by its updated form, which is returned, and each of its stored accounts takes number, type and balance from the last incoming item with its id; neither key counter moves |
| ClientsService.ClientsService.DeleteClient | BankingControlPanel.Core/Services/ClientsService.cs:317-347 | an unknown id fails and changes nothing; otherwise exactly that row is removed and the answer is true; it never answers false; neither key counter moves, so the deleted client's id is never handed out again |

## Left out

- Exceptions become `Result` failures. `ValidationFailed` stands for `ValidationException`. The "Client not found." exception becomes `ClientNotFound`. A failed `SaveChanges` becomes `StorageFailure`. A missing current user becomes `NoCurrentUser`. Log messages and exception texts are not modelled.
- Database faults, connection loss and concurrency conflicts are not modelled. Neither are the `async` interleavings. Every store call either completes or fails as stated.
- SQL Server rejects a negative `OFFSET` or a `FETCH` of 0 rows, so on the configured database (Program.cs:19) such a listing throws, after `ListClientsAsync` has already saved the search record (ClientsService.cs:40-44). The model uses LINQ-to-objects semantics for `Skip` and `Take` instead: negative counts act as 0 and an empty page comes back.
- Text comparison is ordinal and case-sensitive, on code points. .NET's ordinal order compares UTF-16 code units, which differs from code-point order only between characters from U+E000 to U+FFFF and characters beyond U+FFFF. The database collation can make `Contains`, `==` and `OrderBy` case-insensitive or culture-aware; that is not modelled.
- `ToLower` lowers ASCII letters only. The source's `SortBy.ToLower()` uses the current culture: under a Turkish or Azerbaijani culture "EMAIL" lowers to "emaıl" (dotless i) and selects no sort, which the model does not capture. The regular expression's `\d` is modelled as ASCII digits only; .NET also matches other Unicode decimal digits.
- ClientQuery.ApplySortSpec: only ordering and permutation are claimed, not the stability of `OrderBy` (insertion sort stands in for the database's sort).
- `Include` of the address and accounts and EF change tracking are not modelled. Entities are values, so a lookup returns a copy rather than a tracked object, and an update writes back the whole client.
- ClientStore.NumberAccounts: generated keys are modelled as gap-free counters that number a client's accounts in list order. SQL Server `IDENTITY` promises only fresh keys: a failed or rolled-back insert or a restart leaves a gap, and the rows of one insert need not get consecutive values. The counter clauses of ClientStore.ClientTable.Add and ClientsService.ClientsService.CreateClient rest on this choice; the uniqueness and freshness of keys, which the other lemmas use, do not.
- The `Clients` table is a sequence in store order, which the listing depends on. Keyed lookups are proved correct over it under a unique-key invariant.
- ClientQuery.GetClientsIsPage: the model gives unsorted rows, and rows tied on the sort key, one fixed order (store order, then the order insertion sort leaves). SQL Server promises no order for rows the `ORDER BY` does not separate, and each page is a separate query, so consecutive pages may overlap or skip such rows.
- ClientQuery.GetClientsComplete: covering every match by pages 1, 2, ... holds only under that one fixed order; across separate `OFFSET`/`FETCH` queries without a total sort key the database does not promise it.
- ClientQuery.DefaultsListFirstTen: "the first ten in store order" assumes the fixed store order above; with no sort key SQL Server's row order is unspecified.
- ClientStore.ClientTable.Update: EF's `Update` on a graph would insert an account with key 0 and rewrite the client's other navigation properties. The model replaces the client value only and treats an account key that was never generated (key 0 included) or that another account holds as a failed save; no such key can arise from `UpdateClientAsync`.
- `JsonSerializer` is library code. `AdminService` takes the serializer as a component with a round-trip law. A concrete length-prefixed codec (`CriteriaCodec`) is proved to satisfy that law, so the law is not an axiom. The real format is JSON; stored text deserialising to `null` (the JSON text `null`) is treated like any other text that does not deserialise.
- `[EmailAddress]` and `[Phone]` come from the framework and are taken as a predicate pair (`LibraryFormats`), a parameter of the validator.
- `TryValidateObject` is called without recursing into nested objects. The model follows this: nested address and account DTOs are only checked for presence, never for content. `UpdateAddressDto` and `UpdateAccountDto` have validators (`ValidUpdateAddress`, `ValidUpdateAccount`) that the service never calls.
- `Balance` is a `decimal`; the model uses unbounded integers. `TotalPages` divides doubles; the model computes the exact integer ceiling. For page size 0 the model gives no value rather than the platform's conversion of infinity or NaN.
- The clock (`DateTime.UtcNow`) and the current user (`GetCurrentUserAsync`) are parameters of the service methods. AuthService is not part of this model.
- A SearchParameter's own key and its `Admin` navigation property are not modelled.
- The `ClientGender` declaration is not part of this model. It is taken as Male, Female and Other, with Male as the default (value 0).
- The `ClientsQueryParameters` class as declared lacks SearchTerm's sibling fields Country, City, Street, ZipCode, AccountNumber, AccountType, MinBalance and MaxBalance, which `ClientsRepository` reads. The model follows the repository and includes them, with the defaults of the declared fields.
- The documentation comment of DeleteClientAsync (ClientsService.cs:316) promises `false` when nothing was deleted, but the code throws for an unknown client. The model follows the code: the operation fails, and `DeleteClient` never answers false.
- The `NotFound` branch of `ClientsController.DeleteClient` (ClientsController.cs:149) therefore cannot be reached. The controllers, the HTTP layer and authentication are not part of this model.
- Paging.Page: the model pages with unbounded arithmetic. The 32-bit wrap-around of the source is modelled separately in Paging.PageAsWritten (see Findings).

- Program.cs:27 registers only the legacy `IClientRepository`, while `ClientsService` (ClientsService.cs:21) needs `IClientsRepository`, so `IClientsService` cannot be resolved as configured. The model wires the service to the current repository; dependency injection is not modelled.
- Text lengths are UTF-16 code units, as `String.Length` counts them. Model strings hold Unicode scalar values, so a .NET string with a lone surrogate has no counterpart.

## Findings

| source | as written | input that shows it | evidently intended | confidence | as-written member | corrected member |
|---|---|---|---|---|---|---|
| BankingControlPanel.Infrastructure/Repositories/ClientsRepository.cs:145 | `skip = (PageNumber - 1) * PageSize` in unchecked 32-bit `int` (also ClientRepository.cs:56) | PageNumber 214748366, PageSize 10: the product wraps to -2147483646. On SQL Server the negative OFFSET is rejected, so `ListClientsAsync` throws after the search record has been saved; under LINQ-to-objects `Skip` the first page comes back | a page past the end is empty | not executed | Paging.SkipOverflow | Paging.PageBeyondLastIsEmpty |
