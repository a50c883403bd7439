/** The Clients table that ClientsRepository and the legacy ClientRepository write through:
    rows in store order, keyed by a database-generated Id. */
module ClientStore {
  import opened Wrappers
  import opened Entities
  import opened Sequences

  /** Position of the first row carrying the id. */
  function IndexOf(rows: seq<Client>, id: int): (r: Option<nat>)
    ensures r.Some? ==> r.value < |rows| && rows[r.value].id == id
    ensures r.Some? ==> forall j :: 0 <= j < r.value ==> rows[j].id != id
    ensures r.None? <==> forall j :: 0 <= j < |rows| ==> rows[j].id != id
  {
    FirstIndex(rows, (c: Client) => c.id == id)
  }

  /** FirstOrDefault(c => c.Id == id), and FindAsync(id) on the primary key. */
  function FindIn(rows: seq<Client>, id: int): (r: Option<Client>)
    ensures r.Some? ==> r.value in rows && r.value.id == id
    ensures r.None? <==> forall c :: c in rows ==> c.id != id
  {
    match IndexOf(rows, id)
    case None => None
    case Some(i) => Some(rows[i])
  }

  /** The primary key: no two rows share an Id. */
  predicate UniqueIds(rows: seq<Client>) {
    forall i, j :: 0 <= i < j < |rows| ==> rows[i].id != rows[j].id
  }

  /** Under a unique key, looking up a row's id finds that row. */
  lemma FindMember(rows: seq<Client>, c: Client)
    requires UniqueIds(rows) && c in rows
    ensures FindIn(rows, c.id) == Some(c)
  {
    var j :| 0 <= j < |rows| && rows[j] == c;
    var i := IndexOf(rows, c.id).value;
    assert !(i < j) && !(j < i);
  }

  function RemoveAt(rows: seq<Client>, i: nat): seq<Client>
    requires i < |rows|
  {
    rows[..i] + rows[i + 1..]
  }

  lemma RemoveAtMembers(rows: seq<Client>, i: nat)
    requires UniqueIds(rows) && i < |rows|
    ensures UniqueIds(RemoveAt(rows, i))
    ensures forall c :: c in RemoveAt(rows, i) <==> c in rows && c.id != rows[i].id
  {
    var r := RemoveAt(rows, i);
    assert forall k :: 0 <= k < |r| ==> r[k] == rows[if k < i then k else k + 1];
    forall c | c in rows && c.id != rows[i].id
      ensures c in r
    {
      var j :| 0 <= j < |rows| && rows[j] == c;
      assert j != i;
      assert r[if j < i then j else j - 1] == c;
    }
  }

  /** Removing the row at i drops exactly its id: that id is gone, every other lookup is as before. */
  lemma RemoveAtFind(rows: seq<Client>, i: nat)
    requires UniqueIds(rows) && i < |rows|
    ensures UniqueIds(RemoveAt(rows, i))
    ensures FindIn(RemoveAt(rows, i), rows[i].id).None?
    ensures forall id :: id != rows[i].id ==> FindIn(RemoveAt(rows, i), id) == FindIn(rows, id)
  {
    RemoveAtMembers(rows, i);
    var r := RemoveAt(rows, i);
    forall id | id != rows[i].id
      ensures FindIn(r, id) == FindIn(rows, id)
    {
      var found := FindIn(rows, id);
      if found.Some? {
        FindMember(rows, found.value);
        FindMember(r, found.value);
      }
    }
  }

  /** Replacing the row at i by a client with the same id: that id finds the new client,
      every other lookup is as before. */
  lemma ReplaceAtFind(rows: seq<Client>, i: nat, c: Client)
    requires UniqueIds(rows) && i < |rows| && c.id == rows[i].id
    ensures UniqueIds(rows[i := c])
    ensures FindIn(rows[i := c], c.id) == Some(c)
    ensures forall id :: id != c.id ==> FindIn(rows[i := c], id) == FindIn(rows, id)
  {
    var r := rows[i := c];
    assert c == r[i];
    FindMember(r, c);
    forall id | id != c.id
      ensures FindIn(r, id) == FindIn(rows, id)
    {
      var found := FindIn(rows, id);
      if found.Some? {
        var j :| 0 <= j < |rows| && rows[j] == found.value;
        assert r[j] == found.value;
        FindMember(rows, found.value);
        FindMember(r, found.value);
      } else {
        assert forall k :: 0 <= k < |r| ==> r[k].id != id;
      }
    }
  }

  /** Appending a client with a fresh id: that id finds it, every other lookup is as before. */
  lemma AppendFind(rows: seq<Client>, c: Client)
    requires UniqueIds(rows) && FindIn(rows, c.id).None?
    ensures UniqueIds(rows + [c])
    ensures FindIn(rows + [c], c.id) == Some(c)
    ensures forall id :: id != c.id ==> FindIn(rows + [c], id) == FindIn(rows, id)
  {
    var r := rows + [c];
    assert forall k :: 0 <= k < |rows| ==> r[k] == rows[k] && r[k] in rows;
    assert r[|rows|] == c;
    FindMember(r, c);
    forall id | id != c.id
      ensures FindIn(r, id) == FindIn(rows, id)
    {
      var found := FindIn(rows, id);
      if found.Some? {
        FindMember(rows, found.value);
        FindMember(r, found.value);
      }
    }
  }

  /** No two accounts of one client share an Id. */
  predicate UniqueAccountIds(accounts: seq<Account>) {
    forall i, j :: 0 <= i < j < |accounts| ==> accounts[i].id != accounts[j].id
  }

  /** The primary key of Accounts over the whole table: every stored account has a key the
      identity column has generated (1 up to next) and no two stored accounts share one. */
  predicate AccountKeysValid(rows: seq<Client>, next: int) {
    && (forall i, k :: 0 <= i < |rows| && 0 <= k < |rows[i].accounts| ==> 1 <= rows[i].accounts[k].id < next)
    && (forall i, k, j, l ::
          && 0 <= i < |rows| && 0 <= k < |rows[i].accounts|
          && 0 <= j < |rows| && 0 <= l < |rows[j].accounts|
          && (i != j || k != l)
          ==> rows[i].accounts[k].id != rows[j].accounts[l].id)
  }

  /** So each stored client's accounts have distinct ids. */
  lemma AccountKeysUnique(rows: seq<Client>, next: int, i: nat)
    requires AccountKeysValid(rows, next) && i < |rows|
    ensures UniqueAccountIds(rows[i].accounts)
  {
    forall k, l | 0 <= k < l < |rows[i].accounts|
      ensures rows[i].accounts[k].id != rows[i].accounts[l].id
    {
      assert k != l;
    }
  }

  /** Inserting a client whose accounts take the next keys in order keeps the key valid. */
  lemma AppendKeepsAccountKeys(rows: seq<Client>, c: Client, next: int)
    requires AccountKeysValid(rows, next) && next >= 1
    requires forall k :: 0 <= k < |c.accounts| ==> c.accounts[k].id == next + k
    ensures AccountKeysValid(rows + [c], next + |c.accounts|)
  {
    var r := rows + [c];
    assert forall i :: 0 <= i < |rows| ==> r[i] == rows[i];
    assert r[|rows|] == c;
  }

  /** Removing a row keeps the account key valid. */
  lemma RemoveKeepsAccountKeys(rows: seq<Client>, i: nat, next: int)
    requires AccountKeysValid(rows, next) && i < |rows|
    ensures AccountKeysValid(RemoveAt(rows, i), next)
  {
    var r := RemoveAt(rows, i);
    assert forall m :: 0 <= m < |r| ==> r[m] == rows[if m < i then m else m + 1];
  }

  /** Replacing a row by a client with the same account keys, in the same order, keeps the
      account key valid. */
  lemma ReplaceKeepsAccountKeys(rows: seq<Client>, i: nat, c: Client, next: int)
    requires AccountKeysValid(rows, next) && i < |rows|
    requires |c.accounts| == |rows[i].accounts|
    requires forall k :: 0 <= k < |c.accounts| ==> c.accounts[k].id == rows[i].accounts[k].id
    ensures AccountKeysValid(rows[i := c], next)
  {
    var r := rows[i := c];
    assert forall m, k :: 0 <= m < |r| && 0 <= k < |r[m].accounts| ==>
             |r[m].accounts| == |rows[m].accounts| && r[m].accounts[k].id == rows[m].accounts[k].id;
  }

  /** The identity column of Accounts: the k-th new account gets the k-th fresh key. */
  function NumberAccounts(accounts: seq<Account>, first: int): (r: seq<Account>)
    ensures |r| == |accounts|
    ensures forall k :: 0 <= k < |r| ==>
              r[k].id == first + k && r[k] == accounts[k].(id := r[k].id)
  {
    if accounts == [] then []
    else [accounts[0].(id := first)] + NumberAccounts(accounts[1..], first + 1)
  }

  /** The client as SaveChanges leaves it: keys generated for it and each of its accounts. */
  function WithIds(c: Client, id: int, firstAccountId: int): Client {
    c.(id := id, accounts := NumberAccounts(c.accounts, firstAccountId))
  }

  /** An entity is new when it and each of its accounts still has the default key 0;
      an explicit value for an identity column makes the INSERT fail. */
  predicate IsNew(c: Client) {
    c.id == 0 && forall k :: 0 <= k < |c.accounts| ==> c.accounts[k].id == 0
  }

  /** The table invariant: unique client keys below the next client key, and a valid
      account key. */
  predicate TableValid(rows: seq<Client>, nextClientId: int, nextAccountId: int) {
    && 1 <= nextClientId && 1 <= nextAccountId
    && UniqueIds(rows)
    && (forall i :: 0 <= i < |rows| ==> 1 <= rows[i].id < nextClientId)
    && AccountKeysValid(rows, nextAccountId)
  }

  /** Inserting a new client with the next keys keeps the invariant and makes it findable. */
  lemma InsertKeepsTable(rows: seq<Client>, c: Client, nextClientId: int, nextAccountId: int)
    requires TableValid(rows, nextClientId, nextAccountId) && IsNew(c)
    ensures var stored := WithIds(c, nextClientId, nextAccountId);
            && TableValid(rows + [stored], nextClientId + 1, nextAccountId + |c.accounts|)
            && FindIn(rows + [stored], stored.id) == Some(stored)
  {
    var stored := WithIds(c, nextClientId, nextAccountId);
    assert FindIn(rows, stored.id).None?;
    AppendFind(rows, stored);
    assert forall k :: 0 <= k < |stored.accounts| ==> stored.accounts[k].id == nextAccountId + k;
    AppendKeepsAccountKeys(rows, stored, nextAccountId);
    AppendKeepsClientIds(rows, stored, nextClientId);
  }

  lemma AppendKeepsClientIds(rows: seq<Client>, c: Client, next: int)
    requires forall i :: 0 <= i < |rows| ==> 1 <= rows[i].id < next
    requires c.id == next && next >= 1
    ensures forall i :: 0 <= i < |rows + [c]| ==> 1 <= (rows + [c])[i].id < next + 1
  {
    var r := rows + [c];
    assert forall i :: 0 <= i < |rows| ==> r[i] == rows[i];
  }

  class ClientTable {
    var rows: seq<Client>
    var nextClientId: int
    var nextAccountId: int

    ghost predicate Valid()
      reads this
    {
      TableValid(rows, nextClientId, nextAccountId)
    }

    constructor ()
      ensures Valid() && rows == []
    {
      rows := [];
      nextClientId := 1;
      nextAccountId := 1;
    }

    /** GetClientByIdAsync: the client with that Id, or null. */
    function Find(id: int): Option<Client>
      reads this
    {
      FindIn(rows, id)
    }

    /** AddAsync: insert, and the generated keys are written back into the entity. */
    method Add(c: Client) returns (r: Result<Client, Error>)
      requires Valid()
      modifies this
      ensures Valid()
      ensures r.Success? <==> IsNew(c)
      ensures r.Failure? ==> r.error == StorageFailure && unchanged(this)
      ensures r.Success? ==>
                && r.value == WithIds(c, old(nextClientId), old(nextAccountId))
                && rows == old(rows) + [r.value]
                && nextClientId == old(nextClientId) + 1
                && nextAccountId == old(nextAccountId) + |c.accounts|
      ensures r.Success? ==> r.value.id >= 1 && FindIn(rows, r.value.id) == Some(r.value)
    {
      if !IsNew(c) {
        return Failure(StorageFailure);
      }
      var stored := WithIds(c, nextClientId, nextAccountId);
      InsertKeepsTable(rows, c, nextClientId, nextAccountId);
      rows := rows + [stored];
      nextClientId := nextClientId + 1;
      nextAccountId := nextAccountId + |c.accounts|;
      r := Success(stored);
    }

    /** UpdateAsync: the stored client with the same key is overwritten. No such row makes
        SaveChanges affect 0 rows and fail; so does an account key that was never generated
        or that another stored account holds. */
    method Update(c: Client) returns (r: Result<(), Error>)
      requires Valid()
      modifies this
      ensures Valid()
      ensures r.Success? <==>
                && IndexOf(old(rows), c.id).Some?
                && AccountKeysValid(old(rows)[IndexOf(old(rows), c.id).value := c], old(nextAccountId))
      ensures r.Failure? ==> r.error == StorageFailure && unchanged(this)
      ensures r.Success? ==>
                && rows == old(rows)[IndexOf(old(rows), c.id).value := c]
                && nextClientId == old(nextClientId) && nextAccountId == old(nextAccountId)
    {
      var i := IndexOf(rows, c.id);
      if i.None? || !AccountKeysValid(rows[i.value := c], nextAccountId) {
        return Failure(StorageFailure);
      }
      ReplaceAtFind(rows, i.value, c);
      rows := rows[i.value := c];
      r := Success(());
    }

    /** DeleteAsync: "Client not found." for an unknown id, otherwise that row is removed. */
    method Delete(id: int) returns (r: Result<(), Error>)
      requires Valid()
      modifies this
      ensures Valid()
      ensures r.Success? <==> IndexOf(old(rows), id).Some?
      ensures r.Failure? ==> r.error == ClientNotFound && unchanged(this)
      ensures r.Success? ==>
                && rows == RemoveAt(old(rows), IndexOf(old(rows), id).value)
                && nextClientId == old(nextClientId) && nextAccountId == old(nextAccountId)
    {
      var i := IndexOf(rows, id);
      if i.None? {
        return Failure(ClientNotFound);
      }
      RemoveAtMembers(rows, i.value);
      RemoveKeepsAccountKeys(rows, i.value, nextAccountId);
      rows := RemoveAt(rows, i.value);
      r := Success(());
    }
  }
}
