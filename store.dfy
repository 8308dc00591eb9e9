/** The database as the persistence layer uses it: three tables held in one
    object and changed in place. Each method is one unit of work. It reads
    the rows it needs, checks them, and only then writes, so a call that fails
    leaves every table as it found it. Each method is proved to produce
    exactly the result and the tables that the corresponding function of
    `Directory` or `Ledger` specifies; the read-only queries are those
    functions applied to `Snapshot()`. */
module Store {
  import opened Schema
  import Directory
  import Ledger

  class Database {
    var users: map<UserId, User>
    var accounts: map<int, Account>
    var transactions: map<int, Transaction>

    /** The current contents of the three tables. */
    function Snapshot(): Db
      reads this
    {
      Db(users, accounts, transactions)
    }

    /** The class invariant: every foreign key resolves and every recorded
        transaction is attributed to its account's owner. */
    ghost predicate Valid()
      reads this
    {
      Consistent(Snapshot())
    }

    /** `initialize_db` on a fresh database: the three tables, empty. */
    constructor ()
      ensures Snapshot() == Db(map[], map[], map[])
      ensures Valid()
    {
      users := map[];
      accounts := map[];
      transactions := map[];
    }

    method RegisterUser(id: UserId, name: string, password: string) returns (r: Result<()>)
      requires Valid()
      modifies this
      ensures Valid()
      ensures Response(r, Snapshot()) == Directory.RegisterUser(old(Snapshot()), id, name, password)
    {
      if id in users {
        return Err(DuplicateItem);
      }
      var passwordHash := HashOf(password);
      users := users[id := User(name, passwordHash, Client)];
      r := Ok(());
    }

    method DeleteUser(id: UserId) returns (r: Result<()>)
      requires Valid()
      modifies this
      ensures Valid()
      ensures Response(r, Snapshot()) == Directory.DeleteUser(old(Snapshot()), id)
    {
      if id !in users {
        return Err(ItemNotFound);
      }
      var owned := set a | a in accounts && accounts[a].owner == id;
      users := users - {id};
      accounts := accounts - owned;
      transactions := map t | t in transactions && transactions[t].account !in owned :: transactions[t];
      r := Ok(());
    }

    method UpdateUser(id: UserId, newName: string) returns (r: Result<()>)
      requires Valid()
      modifies this
      ensures Valid()
      ensures Response(r, Snapshot()) == Directory.UpdateUser(old(Snapshot()), id, newName)
    {
      if id !in users {
        return Err(ItemNotFound);
      }
      users := users[id := users[id].(name := newName)];
      r := Ok(());
    }

    method UpdateUserProfile(id: UserId, newName: Option<string>, newPassword: Option<string>) returns (r: Result<()>)
      requires Valid()
      modifies this
      ensures Valid()
      ensures Response(r, Snapshot()) == Directory.UpdateUserProfile(old(Snapshot()), id, newName, newPassword)
    {
      var nameGiven := Truthy(newName);
      var passwordGiven := Truthy(newPassword);
      if !nameGiven && !passwordGiven {
        return Err(ValueError(NothingToUpdate));
      }
      if id !in users {
        return Err(ItemNotFound);
      }
      var row := users[id];
      if nameGiven {
        row := row.(name := newName.value);
      }
      if passwordGiven {
        row := row.(passwordHash := HashOf(newPassword.value));
      }
      users := users[id := row];
      r := Ok(());
    }

    method InsertAccount(idUser: UserId, amount: real, accType: string) returns (r: Result<()>)
      requires Valid()
      modifies this
      ensures Valid()
      ensures Response(r, Snapshot()) == Directory.InsertAccount(old(Snapshot()), idUser, amount, accType)
    {
      if idUser !in users {
        return Err(ItemNotFound);
      }
      var id := NextRowId(accounts.Keys);
      accounts := accounts[id := Account(idUser, amount, accType)];
      r := Ok(());
    }

    method UpdateAccount(idAccount: int, newAmount: real) returns (r: Result<()>)
      requires Valid()
      modifies this
      ensures Valid()
      ensures Response(r, Snapshot()) == Directory.UpdateAccount(old(Snapshot()), idAccount, newAmount)
    {
      if idAccount !in accounts {
        return Err(ItemNotFound);
      }
      accounts := accounts[idAccount := accounts[idAccount].(balance := newAmount)];
      r := Ok(());
    }

    method DeleteAccount(idAccount: int, idUser: UserId, userRole: string) returns (r: Result<()>)
      requires Valid()
      modifies this
      ensures Valid()
      ensures Response(r, Snapshot()) == Directory.DeleteAccount(old(Snapshot()), idAccount, idUser, userRole)
    {
      if userRole != Admin {
        if idAccount !in accounts || accounts[idAccount].owner != idUser {
          return Err(ItemNotFound);
        }
      }
      if idAccount !in accounts {
        return Err(ItemNotFound);
      }
      accounts := accounts - {idAccount};
      transactions := map t | t in transactions && transactions[t].account != idAccount :: transactions[t];
      r := Ok(());
    }

    method InsertTransaction(accountId: int, amount: real, kind: string, idUser: UserId) returns (r: Result<real>)
      requires Valid()
      modifies this
      ensures Valid()
      ensures Response(r, Snapshot()) == Ledger.InsertTransaction(old(Snapshot()), accountId, amount, kind, idUser)
    {
      if accountId !in accounts || accounts[accountId].owner != idUser {
        return Err(ItemNotFound);
      }
      var currentBalance := accounts[accountId].balance;
      var newBalance: real;
      if kind == Deposit {
        newBalance := currentBalance + amount;
      } else if kind == Withdrawal {
        if currentBalance < amount {
          return Err(ValueError(InsufficientFunds));
        }
        newBalance := currentBalance - amount;
      } else {
        return Err(ValueError(InvalidTransactionType));
      }
      accounts := accounts[accountId := accounts[accountId].(balance := newBalance)];
      var id := NextRowId(transactions.Keys);
      transactions := transactions[id := Transaction(accountId, amount, kind, idUser)];
      r := Ok(newBalance);
    }

    method UpdateTransaction(id: int, newAmount: Option<real>, newType: Option<string>) returns (r: Result<()>)
      requires Valid()
      modifies this
      ensures Valid()
      ensures Response(r, Snapshot()) == Ledger.UpdateTransaction(old(Snapshot()), id, newAmount, newType)
    {
      if id !in transactions {
        return Err(ItemNotFound);
      }
      if newAmount.None? && newType.None? {
        return Ok(());
      }
      var row := transactions[id];
      if newAmount.Some? {
        row := row.(amount := newAmount.value);
      }
      if newType.Some? {
        row := row.(kind := newType.value);
      }
      transactions := transactions[id := row];
      r := Ok(());
    }

    method DeleteTransaction(id: int) returns (r: Result<()>)
      requires Valid()
      modifies this
      ensures Valid()
      ensures Response(r, Snapshot()) == Ledger.DeleteTransaction(old(Snapshot()), id)
    {
      if id !in transactions {
        return Err(ItemNotFound);
      }
      var row := transactions[id];
      if row.account !in accounts {
        return Err(ItemNotFound);
      }
      var accountBalance := accounts[row.account].balance;
      var newBalance: real;
      if row.kind == Deposit {
        newBalance := accountBalance - row.amount;
      } else if row.kind == Withdrawal {
        newBalance := accountBalance + row.amount;
      } else {
        return Err(ValueError(InvalidTransactionType));
      }
      accounts := accounts[row.account := accounts[row.account].(balance := newBalance)];
      transactions := transactions - {id};
      r := Ok(());
    }
  }
}
