/** ClientsService: the listing that records each search, the id lookup, creation from a
    validated request, the update with its account merge, and deletion. */
module ClientsService {
  import opened Wrappers
  import opened Entities
  import opened Dtos
  import opened QueryParameters
  import opened Validation
  import opened ClientStore
  import opened Paging
  import ClientQuery
  import Sequences
  import AdminService

  // ----- The Select projections to ClientDto -----

  function AddressToDto(a: Address): AddressDto {
    AddressDto(a.country, a.city, a.street, a.zipCode)
  }

  function AccountToDto(a: Account): AccountDto {
    AccountDto(a.id, a.accountNumber, a.accountType, a.balance)
  }

  function AccountsToDtos(accounts: seq<Account>): (r: seq<AccountDto>)
    ensures |r| == |accounts|
    ensures forall k :: 0 <= k < |r| ==> r[k] == AccountToDto(accounts[k])
  {
    if accounts == [] then [] else [AccountToDto(accounts[0])] + AccountsToDtos(accounts[1..])
  }

  /** new ClientDto { ... } as the service builds it: id, every scalar, the address and
      every account. */
  function ToDto(c: Client): ClientDto {
    ClientDto(c.id, c.email, c.firstName, c.lastName, c.personalId, c.profilePhoto,
              c.mobileNumber, c.sex, AddressToDto(c.address), AccountsToDtos(c.accounts))
  }

  function ToDtos(cs: seq<Client>): (r: seq<ClientDto>)
    ensures |r| == |cs|
    ensures forall k :: 0 <= k < |r| ==> r[k] == ToDto(cs[k])
  {
    if cs == [] then [] else [ToDto(cs[0])] + ToDtos(cs[1..])
  }

  /** Reading a ClientDto back as a Client. */
  function FromDto(d: ClientDto): Client {
    Client(d.id, d.email, d.firstName, d.lastName, d.personalId, d.profilePhoto, d.mobileNumber,
           d.sex, Address(d.address.country, d.address.city, d.address.street, d.address.zipCode),
           seq(|d.accounts|, k requires 0 <= k < |d.accounts| =>
             Account(d.accounts[k].id, d.accounts[k].accountNumber, d.accounts[k].accountType,
                     d.accounts[k].balance)))
  }

  /** The projection loses nothing: the client can be read back from its DTO. */
  lemma ToDtoRoundTrip(c: Client)
    ensures FromDto(ToDto(c)) == c
  {
    var back := FromDto(ToDto(c)).accounts;
    assert |back| == |c.accounts|;
    assert forall k :: 0 <= k < |back| ==> back[k] == c.accounts[k];
  }

  /** So the listing maps distinct clients to distinct items. */
  lemma ToDtoInjective(a: Client, b: Client)
    requires ToDto(a) == ToDto(b)
    ensures a == b
  {
    ToDtoRoundTrip(a);
    ToDtoRoundTrip(b);
  }

  // ----- CreateClientAsync's mapping -----

  /** Accounts = Accounts.Select(a => new Account { ... }): no key yet. */
  function NewAccounts(ds: seq<CreateAccountDto>): (r: seq<Account>)
    ensures |r| == |ds|
    ensures forall k :: 0 <= k < |r| ==>
              r[k] == Account(0, ds[k].accountNumber, ds[k].accountType, ds[k].balance)
  {
    if ds == [] then []
    else [Account(0, ds[0].accountNumber, ds[0].accountType, ds[0].balance)] + NewAccounts(ds[1..])
  }

  /** The entity built from a validated create request, before the keys are generated. */
  function NewClient(fmt: LibraryFormats, d: CreateClientDto): (c: Client)
    requires ValidCreateClient(fmt, d)
    ensures IsNew(c)
    ensures |c.accounts| == |d.accounts.value| >= 1
  {
    ValidCreateClientMeans(fmt, d);
    var a := d.address.value;
    Client(0, d.email.value, d.firstName.value, d.lastName.value, d.personalId.value,
           d.profilePhoto, d.mobileNumber.value, d.sex,
           Address(a.country, a.city, a.street, a.zipCode), NewAccounts(d.accounts.value))
  }

  // ----- UpdateClientAsync's account merge -----

  /** account.AccountNumber/AccountType/Balance = accountDto's. */
  function Overwrite(a: Account, d: UpdateAccountDto): Account {
    a.(accountNumber := d.accountNumber, accountType := d.accountType, balance := d.balance)
  }

  /** Position of the first account with the id: FirstOrDefault(a => a.Id == id). */
  function FirstAccount(accounts: seq<Account>, id: int): (r: Option<nat>)
    ensures r.Some? ==> r.value < |accounts| && accounts[r.value].id == id
    ensures r.Some? ==> forall j :: 0 <= j < r.value ==> accounts[j].id != id
    ensures r.None? <==> forall j :: 0 <= j < |accounts| ==> accounts[j].id != id
  {
    Sequences.FirstIndex(accounts, (a: Account) => a.id == id)
  }

  /** One pass of the foreach body. */
  function MergeOne(accounts: seq<Account>, d: UpdateAccountDto): seq<Account> {
    match FirstAccount(accounts, d.id)
    case None => accounts
    case Some(j) => accounts[j := Overwrite(accounts[j], d)]
  }

  /** The whole foreach, item by item in list order. */
  function MergeSpec(accounts: seq<Account>, incoming: seq<UpdateAccountDto>): seq<Account>
    decreases |incoming|
  {
    if incoming == [] then accounts
    else MergeOne(MergeSpec(accounts, incoming[..|incoming| - 1]), incoming[|incoming| - 1])
  }

  /** The last incoming item carrying the id, if any. */
  function LastMatch(incoming: seq<UpdateAccountDto>, id: int): (r: Option<UpdateAccountDto>)
    ensures r.Some? ==> r.value in incoming && r.value.id == id
    ensures r.None? <==> forall j :: 0 <= j < |incoming| ==> incoming[j].id != id
    decreases |incoming|
  {
    if incoming == [] then None
    else if incoming[|incoming| - 1].id == id then Some(incoming[|incoming| - 1])
    else
      var r := LastMatch(incoming[..|incoming| - 1], id);
      assert forall j :: 0 <= j < |incoming| - 1 ==> incoming[..|incoming| - 1][j] == incoming[j];
      r
  }

  /** An account as the merge leaves it: number, type and balance of the last incoming item
      with its id, untouched when there is none. */
  function MergedAccount(a: Account, incoming: seq<UpdateAccountDto>): Account {
    match LastMatch(incoming, a.id)
    case None => a
    case Some(d) => Overwrite(a, d)
  }

  /** The merge never adds, removes or re-keys an account. */
  lemma {:induction false} MergeKeepsIds(accounts: seq<Account>, incoming: seq<UpdateAccountDto>)
    ensures |MergeSpec(accounts, incoming)| == |accounts|
    ensures forall k :: 0 <= k < |accounts| ==> MergeSpec(accounts, incoming)[k].id == accounts[k].id
    decreases |incoming|
  {
    if incoming != [] {
      MergeKeepsIds(accounts, incoming[..|incoming| - 1]);
    }
  }

  /** With distinct account ids, each account takes number, type and balance from the last
      incoming item with its id, and is untouched when no item has its id. */
  lemma {:induction false} MergeLastWins(accounts: seq<Account>, incoming: seq<UpdateAccountDto>, k: int)
    requires UniqueAccountIds(accounts) && 0 <= k < |accounts|
    ensures |MergeSpec(accounts, incoming)| == |accounts|
    ensures MergeSpec(accounts, incoming)[k] == MergedAccount(accounts[k], incoming)
    decreases |incoming|
  {
    MergeKeepsIds(accounts, incoming);
    if incoming != [] {
      var init := incoming[..|incoming| - 1];
      var d := incoming[|incoming| - 1];
      var before := MergeSpec(accounts, init);
      MergeLastWins(accounts, init, k);
      MergeKeepsIds(accounts, init);
      var j := FirstAccount(before, d.id);
      if d.id == accounts[k].id {
        assert j == Some(k);
      } else if j.Some? {
        assert j.value != k;
      }
    }
  }

  lemma MergeLastWinsAll(accounts: seq<Account>, incoming: seq<UpdateAccountDto>)
    requires UniqueAccountIds(accounts)
    ensures |MergeSpec(accounts, incoming)| == |accounts|
    ensures forall k :: 0 <= k < |accounts| ==> MergeSpec(accounts, incoming)[k] == MergedAccount(accounts[k], incoming)
  {
    MergeKeepsIds(accounts, incoming);
    forall k | 0 <= k < |accounts|
      ensures MergeSpec(accounts, incoming)[k] == MergedAccount(accounts[k], incoming)
    {
      MergeLastWins(accounts, incoming, k);
    }
  }

  /** The foreach loop of UpdateClientAsync, FirstOrDefault included. */
  method MergeAccounts(accounts: seq<Account>, incoming: seq<UpdateAccountDto>) returns (merged: seq<Account>)
    ensures merged == MergeSpec(accounts, incoming)
  {
    merged := accounts;
    var i := 0;
    while i < |incoming|
      invariant 0 <= i <= |incoming|
      invariant merged == MergeSpec(accounts, incoming[..i])
    {
      var d := incoming[i];
      var j := 0;
      while j < |merged| && merged[j].id != d.id
        invariant 0 <= j <= |merged|
        invariant forall t :: 0 <= t < j ==> merged[t].id != d.id
      {
        j := j + 1;
      }
      assert incoming[..i + 1][..i] == incoming[..i];
      if j < |merged| {
        assert FirstAccount(merged, d.id) == Some(j);
        merged := merged[j := Overwrite(merged[j], d)];
      } else {
        assert FirstAccount(merged, d.id).None?;
      }
      i := i + 1;
    }
    assert incoming[..i] == incoming;
  }

  /** The client after the update: the seven scalars overwritten, the address overwritten
      only when one is given, and the accounts merged only when a non-empty list is given. */
  function Updated(c: Client, fmt: LibraryFormats, d: UpdateClientDto): (u: Client)
    requires ValidUpdateClient(fmt, d)
    ensures u.id == c.id && |u.accounts| == |c.accounts|
    ensures forall k :: 0 <= k < |c.accounts| ==> u.accounts[k].id == c.accounts[k].id
    ensures d.address.None? ==> u.address == c.address
    ensures d.accounts.None? || d.accounts.value == [] ==> u.accounts == c.accounts
    ensures UniqueAccountIds(c.accounts) ==>
              forall k :: 0 <= k < |c.accounts| ==> u.accounts[k] == MergedAccount(c.accounts[k], d.accounts.GetOr([]))
  {
    ValidUpdateClientMeans(fmt, d);
    var address := match d.address
      case None => c.address
      case Some(a) => Address(a.country, a.city, a.street, a.zipCode);
    var incoming := d.accounts.GetOr([]);
    MergeKeepsIds(c.accounts, incoming);
    assert UniqueAccountIds(c.accounts) ==>
             forall k :: 0 <= k < |c.accounts| ==> MergeSpec(c.accounts, incoming)[k] == MergedAccount(c.accounts[k], incoming)
    by {
      if UniqueAccountIds(c.accounts) {
        MergeLastWinsAll(c.accounts, incoming);
      }
    }
    c.(email := d.email.value, firstName := d.firstName.value, lastName := d.lastName.value,
       personalId := d.personalId.value, profilePhoto := d.profilePhoto,
       mobileNumber := d.mobileNumber.value, sex := d.sex, address := address,
       accounts := if incoming == [] then c.accounts else MergeSpec(c.accounts, incoming))
  }

  class ClientsService {
    const repository: ClientTable
    const adminService: AdminService.AdminService
    const formats: LibraryFormats

    constructor (repository: ClientTable, adminService: AdminService.AdminService, formats: LibraryFormats)
      ensures this.repository == repository && this.adminService == adminService
      ensures this.formats == formats
    {
      this.repository := repository;
      this.adminService := adminService;
      this.formats := formats;
    }

    /** ListClientsAsync: record the search first (a failure there aborts the listing), then
        count and fetch with the same criteria and project each client. */
    method ListClients(p: ClientsQueryParameters, currentUser: Option<string>, now: int)
      returns (r: Result<PagedResult<ClientDto>, Error>)
      modifies adminService.repository
      ensures currentUser.None? ==>
                r == Failure(NoCurrentUser) && adminService.repository.records == old(adminService.repository.records)
      ensures currentUser.Some? ==>
                adminService.repository.records ==
                  old(adminService.repository.records) +
                  [SearchParameter(adminService.serializer.serialize(p), now, currentUser.value)]
      ensures currentUser.Some? ==>
                r == Success(PagedResult(ToDtos(ClientQuery.GetClients(repository.rows, p)),
                                         ClientQuery.GetTotalClients(repository.rows, p),
                                         p.pageNumber, p.pageSize))
    {
      var saved := adminService.SaveSearchParameters(p, currentUser, now);
      if saved.Failure? {
        return Failure(saved.error);
      }
      var totalItems := ClientQuery.GetTotalClients(repository.rows, p);
      var clients := ClientQuery.GetClients(repository.rows, p);
      r := Success(PagedResult(ToDtos(clients), totalItems, p.pageNumber, p.pageSize));
    }

    /** GetClientByIdAsync: a non-positive id is refused before the store is read; an
        unknown id gives null; otherwise the stored client's projection. */
    method GetClientById(id: int) returns (r: Result<Option<ClientDto>, Error>)
      requires repository.Valid()
      ensures id <= 0 <==> r == Failure(ValidationFailed)
      ensures id > 0 ==> r.Success?
      ensures id > 0 ==> (r.value.None? <==> forall c :: c in repository.rows ==> c.id != id)
      ensures r.Success? && r.value.Some? ==>
                r.value.value.id == id && FromDto(r.value.value) in repository.rows
    {
      if id <= 0 {
        return Failure(ValidationFailed);
      }
      var client := repository.Find(id);
      if client.None? {
        return Success(None);
      }
      ToDtoRoundTrip(client.value);
      r := Success(Some(ToDto(client.value)));
    }

    /** CreateClientAsync: an invalid request stores nothing; a valid one stores the input
        scalars and address with one new account per input account, and returns the stored
        client with its generated keys. */
    method CreateClient(d: CreateClientDto) returns (r: Result<ClientDto, Error>)
      requires repository.Valid()
      modifies repository
      ensures repository.Valid()
      ensures !ValidCreateClient(formats, d) ==> r == Failure(ValidationFailed) && unchanged(repository)
      ensures ValidCreateClient(formats, d) ==>
                var stored := WithIds(NewClient(formats, d), old(repository.nextClientId), old(repository.nextAccountId));
                && repository.rows == old(repository.rows) + [stored]
                && r == Success(ToDto(stored))
                && repository.nextClientId == old(repository.nextClientId) + 1
                && repository.nextAccountId == old(repository.nextAccountId) + |d.accounts.value|
    {
      if !ValidCreateClient(formats, d) {
        return Failure(ValidationFailed);
      }
      var client := NewClient(formats, d);
      var added := repository.Add(client);
      assert added.Success?;
      r := Success(ToDto(added.value));
    }

    /** UpdateClientAsync: an invalid request or an unknown id saves nothing; otherwise the
        stored client is replaced by its updated form, every other client untouched, and each
        of its accounts takes its values from the last incoming item with its id. */
    method UpdateClient(d: UpdateClientDto) returns (r: Result<ClientDto, Error>)
      requires repository.Valid()
      modifies repository
      ensures repository.Valid()
      ensures !ValidUpdateClient(formats, d) ==> r == Failure(ValidationFailed) && unchanged(repository)
      ensures ValidUpdateClient(formats, d) && IndexOf(old(repository.rows), d.clientId).None? ==>
                r == Failure(ClientNotFound) && unchanged(repository)
      ensures ValidUpdateClient(formats, d) && IndexOf(old(repository.rows), d.clientId).Some? ==>
                var i := IndexOf(old(repository.rows), d.clientId).value;
                var u := Updated(old(repository.rows)[i], formats, d);
                && repository.rows == old(repository.rows)[i := u]
                && r == Success(ToDto(u))
                && repository.nextClientId == old(repository.nextClientId)
                && repository.nextAccountId == old(repository.nextAccountId)
                && |repository.rows[i].accounts| == |old(repository.rows)[i].accounts|
                && forall k :: 0 <= k < |old(repository.rows)[i].accounts| ==>
                     repository.rows[i].accounts[k] ==
                       MergedAccount(old(repository.rows)[i].accounts[k], d.accounts.GetOr([]))
    {
      if !ValidUpdateClient(formats, d) {
        return Failure(ValidationFailed);
      }
      var existing := repository.Find(d.clientId);
      if existing.None? {
        return Failure(ClientNotFound);
      }
      ValidUpdateClientMeans(formats, d);
      var c := existing.value;
      var incoming := d.accounts.GetOr([]);
      var accounts := c.accounts;
      if incoming != [] {
        accounts := MergeAccounts(c.accounts, incoming);
      }
      var address := match d.address
        case None => c.address
        case Some(a) => Address(a.country, a.city, a.street, a.zipCode);
      var u := c.(email := d.email.value, firstName := d.firstName.value, lastName := d.lastName.value,
                  personalId := d.personalId.value, profilePhoto := d.profilePhoto,
                  mobileNumber := d.mobileNumber.value, sex := d.sex, address := address,
                  accounts := accounts);
      assert u == Updated(c, formats, d);
      ghost var i := IndexOf(repository.rows, d.clientId).value;
      AccountKeysUnique(repository.rows, repository.nextAccountId, i);
      ReplaceKeepsAccountKeys(repository.rows, i, u, repository.nextAccountId);
      var saved := repository.Update(u);
      assert saved.Success?;
      r := Success(ToDto(u));
    }

    /** DeleteClientAsync: an unknown id is an error; otherwise that client is removed and
        the answer is true. It never answers false. */
    method DeleteClient(d: DeleteClientDto) returns (r: Result<bool, Error>)
      requires repository.Valid()
      modifies repository
      ensures repository.Valid()
      ensures r != Success(false)
      ensures IndexOf(old(repository.rows), d.clientId).None? ==>
                r == Failure(ClientNotFound) && unchanged(repository)
      ensures IndexOf(old(repository.rows), d.clientId).Some? ==>
                && r == Success(true)
                && repository.rows == RemoveAt(old(repository.rows), IndexOf(old(repository.rows), d.clientId).value)
                && repository.nextClientId == old(repository.nextClientId)
                && repository.nextAccountId == old(repository.nextAccountId)
    {
      var existing := repository.Find(d.clientId);
      if existing.None? {
        return Failure(ClientNotFound);
      }
      var deleted := repository.Delete(d.clientId);
      assert deleted.Success?;
      r := Success(true);
    }
  }
}
