/** The user and account directory of the persistence layer: registration,
    profile and name updates, account creation, direct balance edits, account
    and user deletion with their cascades, and the read-only queries. Each
    operation is a function from the store before the call to its result and
    the store after it; a failure rolls the whole store back. */
module Directory {
  import opened Schema

  /** Verifying a presented password against the stored credential. */
  predicate CheckPassword(u: User, password: string) {
    u.passwordHash == HashOf(password)
  }

  /** Only user `id` changed, and only in its name or password: keys, role,
      accounts and transactions are as before. */
  predicate OnlyProfileChanged(before: Db, after: Db, id: UserId) {
    && id in before.users
    && after.users.Keys == before.users.Keys
    && after.users[id].role == before.users[id].role
    && (forall k :: k in before.users && k != id ==> after.users[k] == before.users[k])
    && after.accounts == before.accounts
    && after.transactions == before.transactions
  }

  function RegisterUser(db: Db, id: UserId, name: string, password: string): (r: Response<()>)
    ensures r.result.Ok? <==> id !in db.users
    ensures r.result.Err? ==> r.result.error == DuplicateItem && r.db == db
    ensures r.result.Ok? ==>
      && r.db.users.Keys == db.users.Keys + {id}
      && r.db.users[id].name == name
      && r.db.users[id].role == Client
      && CheckPassword(r.db.users[id], password)
      && (forall k :: k in db.users ==> r.db.users[k] == db.users[k])
      && r.db.accounts == db.accounts
      && r.db.transactions == db.transactions
    ensures Consistent(db) ==> Consistent(r.db)
  {
    if id in db.users then
      Response(Err(DuplicateItem), db)
    else
      Response(Ok(()), db.(users := db.users[id := User(name, HashOf(password), Client)]))
  }

  /** Deleting a user; the ON DELETE CASCADE on `account.id_user` removes the
      user's accounts, and through them their transactions. */
  function DeleteUser(db: Db, id: UserId): (r: Response<()>)
    ensures r.result.Ok? <==> id in db.users
    ensures r.result.Err? ==> r.result.error == ItemNotFound && r.db == db
    ensures r.result.Ok? ==>
      && r.db.users == db.users - {id}
      && (forall a :: a in r.db.accounts <==> a in db.accounts && db.accounts[a].owner != id)
      && (forall a :: a in r.db.accounts ==> r.db.accounts[a] == db.accounts[a])
      && (forall t :: t in r.db.transactions <==>
            t in db.transactions && !Owns(db, db.transactions[t].account, id))
      && (forall t :: t in r.db.transactions ==> r.db.transactions[t] == db.transactions[t])
    ensures Consistent(db) ==> Consistent(r.db)
  {
    if id !in db.users then
      Response(Err(ItemNotFound), db)
    else
      var owned := set a | a in db.accounts && db.accounts[a].owner == id;
      Response(Ok(()), DropAccounts(db, owned).(users := db.users - {id}))
  }

  /** `update_user`, also reached as `update_user_name`. */
  function UpdateUser(db: Db, id: UserId, newName: string): (r: Response<()>)
    ensures r.result.Ok? <==> id in db.users
    ensures r.result.Err? ==> r.result.error == ItemNotFound && r.db == db
    ensures r.result.Ok? ==>
      && OnlyProfileChanged(db, r.db, id)
      && r.db.users[id].name == newName
      && r.db.users[id].passwordHash == db.users[id].passwordHash
    ensures Consistent(db) ==> Consistent(r.db)
  {
    if id !in db.users then
      Response(Err(ItemNotFound), db)
    else
      Response(Ok(()), db.(users := db.users[id := db.users[id].(name := newName)]))
  }

  /** Changes the name and/or password of a user; an empty string counts as
      not supplied. Having nothing to update is reported before the lookup. */
  function UpdateUserProfile(db: Db, id: UserId, newName: Option<string>, newPassword: Option<string>): (r: Response<()>)
    ensures r.result.Err? ==> r.db == db
    ensures !Truthy(newName) && !Truthy(newPassword) ==> r.result == Err(ValueError(NothingToUpdate))
    ensures (Truthy(newName) || Truthy(newPassword)) ==>
      (r.result.Ok? <==> id in db.users) && (r.result.Err? ==> r.result.error == ItemNotFound)
    ensures r.result.Ok? ==>
      && OnlyProfileChanged(db, r.db, id)
      && r.db.users[id].name == (if Truthy(newName) then newName.value else db.users[id].name)
      && (forall p :: CheckPassword(r.db.users[id], p) <==>
            if Truthy(newPassword) then p == newPassword.value else CheckPassword(db.users[id], p))
    ensures Consistent(db) ==> Consistent(r.db)
  {
    if !Truthy(newName) && !Truthy(newPassword) then
      Response(Err(ValueError(NothingToUpdate)), db)
    else if id !in db.users then
      Response(Err(ItemNotFound), db)
    else
      var u := db.users[id];
      var u1 := if Truthy(newName) then u.(name := newName.value) else u;
      var u2 := if Truthy(newPassword) then u1.(passwordHash := HashOf(newPassword.value)) else u1;
      Response(Ok(()), db.(users := db.users[id := u2]))
  }

  /** Opens an account for an existing user under the next free row id. */
  function InsertAccount(db: Db, idUser: UserId, amount: real, accType: string): (r: Response<()>)
    ensures r.result.Ok? <==> idUser in db.users
    ensures r.result.Err? ==> r.result.error == ItemNotFound && r.db == db
    ensures r.result.Ok? ==>
      && RowAppended(db.accounts, r.db.accounts, NextRowId(db.accounts.Keys), Account(idUser, amount, accType))
      && r.db.users == db.users
      && r.db.transactions == db.transactions
    ensures Consistent(db) ==> Consistent(r.db)
  {
    if idUser !in db.users then
      Response(Err(ItemNotFound), db)
    else
      var id := NextRowId(db.accounts.Keys);
      Response(Ok(()), db.(accounts := db.accounts[id := Account(idUser, amount, accType)]))
  }

  /** Sets an account's balance directly, with no transaction recorded. */
  function UpdateAccount(db: Db, idAccount: int, newAmount: real): (r: Response<()>)
    ensures r.result.Ok? <==> idAccount in db.accounts
    ensures r.result.Err? ==> r.result.error == ItemNotFound && r.db == db
    ensures r.result.Ok? ==>
      && BalanceSet(db.accounts, r.db.accounts, idAccount, newAmount)
      && r.db.users == db.users
      && r.db.transactions == db.transactions
    ensures Consistent(db) ==> Consistent(r.db)
  {
    if idAccount !in db.accounts then
      Response(Err(ItemNotFound), db)
    else
      Response(Ok(()), db.(accounts := db.accounts[idAccount := db.accounts[idAccount].(balance := newAmount)]))
  }

  /** Deletes an account: any existing one for the role "admin", otherwise
      only one the requester owns. The cascade removes its transactions. */
  function DeleteAccount(db: Db, idAccount: int, idUser: UserId, userRole: string): (r: Response<()>)
    ensures r.result.Ok? <==> idAccount in db.accounts && (userRole == Admin || db.accounts[idAccount].owner == idUser)
    ensures r.result.Err? ==> r.result.error == ItemNotFound && r.db == db
    ensures r.result.Ok? ==>
      && r.db.users == db.users
      && r.db.accounts == db.accounts - {idAccount}
      && (forall t :: t in r.db.transactions <==> t in db.transactions && db.transactions[t].account != idAccount)
      && (forall t :: t in r.db.transactions ==> r.db.transactions[t] == db.transactions[t])
    ensures Consistent(db) ==> Consistent(r.db)
  {
    if userRole != Admin && !Owns(db, idAccount, idUser) then
      Response(Err(ItemNotFound), db)
    else if idAccount !in db.accounts then
      Response(Err(ItemNotFound), db)
    else
      Response(Ok(()), DropAccounts(db, {idAccount}))
  }

  function GetUser(db: Db, id: UserId): (r: Option<User>)
    ensures r.Some? <==> id in db.users
    ensures r.Some? ==> r.value == db.users[id]
  {
    if id in db.users then Some(db.users[id]) else None
  }

  function GetAccount(db: Db, idAccount: int): (r: Option<Account>)
    ensures r.Some? <==> idAccount in db.accounts
    ensures r.Some? ==> r.value == db.accounts[idAccount]
  {
    if idAccount in db.accounts then Some(db.accounts[idAccount]) else None
  }

  /** The rows of one table, by key; SQLite's row order is not modelled. */
  datatype Rows =
    | UserRows(users: map<UserId, User>)
    | AccountRows(accounts: map<int, Account>)
    | TransactionRows(transactions: map<int, Transaction>)

  datatype Table = Table(columns: seq<string>, rows: Rows)

  const UserColumns: seq<string> := ["id_user", "name", "password_hash", "role"]
  const AccountColumns: seq<string> := ["id_account", "id_user", "amount", "type"]
  const TransactionColumns: seq<string> := ["id_transaction", "id_account", "amount", "type", "id_user"]

  /** Reads a whole table; for "account" and "transactions" a truthy `idUser`
      keeps only the rows whose `id_user` column equals it. Any other table
      name is refused with an error result. */
  function GetTableData(db: Db, tableName: string, idUser: Option<string>): (r: Result<Table>)
    ensures r.Err? <==> tableName != "user" && tableName != "account" && tableName != "transactions"
    ensures r.Err? ==> r.error == ValueError(TableNotAllowed)
    ensures tableName == "user" ==> r == Ok(Table(UserColumns, UserRows(db.users)))
    ensures tableName == "account" ==>
      && r.Ok? && r.value.columns == AccountColumns && r.value.rows.AccountRows?
      && (forall a :: a in r.value.rows.accounts <==>
            a in db.accounts && (Truthy(idUser) ==> db.accounts[a].owner == idUser.value))
      && (forall a :: a in r.value.rows.accounts ==> r.value.rows.accounts[a] == db.accounts[a])
    ensures tableName == "transactions" ==>
      && r.Ok? && r.value.columns == TransactionColumns && r.value.rows.TransactionRows?
      && (forall t :: t in r.value.rows.transactions <==>
            t in db.transactions && (Truthy(idUser) ==> db.transactions[t].user == idUser.value))
      && (forall t :: t in r.value.rows.transactions ==> r.value.rows.transactions[t] == db.transactions[t])
  {
    if tableName == "user" then
      Ok(Table(UserColumns, UserRows(db.users)))
    else if tableName == "account" then
      Ok(Table(AccountColumns, AccountRows(
        map a | a in db.accounts && (Truthy(idUser) ==> db.accounts[a].owner == idUser.value) :: db.accounts[a])))
    else if tableName == "transactions" then
      Ok(Table(TransactionColumns, TransactionRows(
        map t | t in db.transactions && (Truthy(idUser) ==> db.transactions[t].user == idUser.value) :: db.transactions[t])))
    else
      Err(ValueError(TableNotAllowed))
  }

  /** The transactions on the accounts a user owns (an inner join on
      `id_account`, filtered by the account's `id_user`). */
  function GetUserTransactions(db: Db, idUser: UserId): (r: Table)
    ensures r.columns == TransactionColumns && r.rows.TransactionRows?
    ensures forall t :: t in r.rows.transactions <==>
      t in db.transactions && Owns(db, db.transactions[t].account, idUser)
    ensures forall t :: t in r.rows.transactions ==> r.rows.transactions[t] == db.transactions[t]
  {
    Table(TransactionColumns, TransactionRows(
      map t | t in db.transactions && Owns(db, db.transactions[t].account, idUser) :: db.transactions[t]))
  }

  /** A registered user can be read back with the default role, and the
      password given at registration verifies. */
  lemma RegisteredUserReadsBack(db: Db, id: UserId, name: string, password: string)
    requires id !in db.users
    ensures var u := GetUser(RegisterUser(db, id, name, password).db, id);
      && u.Some? && u.value.name == name && u.value.role == Client
      && CheckPassword(u.value, password)
  {
  }

  /** After a profile update with a new password, exactly that password
      verifies: the old one no longer does, unless it is the same. */
  lemma ProfilePasswordReplaced(db: Db, id: UserId, newName: Option<string>, newPassword: string, oldPassword: string)
    requires id in db.users && newPassword != ""
    requires CheckPassword(db.users[id], oldPassword)
    ensures var r := UpdateUserProfile(db, id, newName, Some(newPassword));
      && r.result.Ok?
      && CheckPassword(r.db.users[id], newPassword)
      && (oldPassword != newPassword ==> !CheckPassword(r.db.users[id], oldPassword))
      && r.db.users[id].role == db.users[id].role
  {
  }

  /** Deleting a user leaves nothing of theirs behind: the user is gone, no
      account names them as owner, and (in a consistent store) no transaction
      row names them, whether found by the join or by the `id_user` column. */
  lemma {:induction false} DeleteUserCascades(db: Db, id: UserId)
    requires id in db.users && id != ""
    requires Consistent(db)
    ensures var after := DeleteUser(db, id).db;
      && GetUser(after, id) == None
      && GetTableData(after, "account", Some(id)).value.rows.accounts == map[]
      && GetUserTransactions(after, id).rows.transactions == map[]
      && GetTableData(after, "transactions", Some(id)).value.rows.transactions == map[]
  {
    var after := DeleteUser(db, id).db;
    var accs := GetTableData(after, "account", Some(id)).value.rows.accounts;
    var joined := GetUserTransactions(after, id).rows.transactions;
    var tagged := GetTableData(after, "transactions", Some(id)).value.rows.transactions;
    forall t | t in db.transactions && db.transactions[t].user == id
      ensures t !in after.transactions
    {
      assert db.transactions[t].account in db.accounts;
    }
    assert accs.Keys == {};
    assert joined.Keys == {};
    assert tagged.Keys == {};
  }

  /** In a consistent store, the join by account owner and the filter on the
      recorded `id_user` select the same transactions. */
  lemma {:induction false} UserTransactionsMatchTableFilter(db: Db, idUser: UserId)
    requires Consistent(db) && idUser != ""
    ensures GetTableData(db, "transactions", Some(idUser)).value.rows
         == GetUserTransactions(db, idUser).rows
  {
    var tagged := GetTableData(db, "transactions", Some(idUser)).value.rows.transactions;
    var joined := GetUserTransactions(db, idUser).rows.transactions;
    forall t
      ensures t in tagged <==> t in joined
    {
      if t in db.transactions {
        assert db.transactions[t].account in db.accounts;
      }
    }
    assert tagged == joined;
  }
}
