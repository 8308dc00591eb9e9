/** The three tables created by `initialize_db`, their rows, the literals the
    bank stores in them, the typed failures of the persistence layer, and the
    two rules the schema itself contributes: SQLite's choice of a fresh
    INTEGER PRIMARY KEY and the ON DELETE CASCADE foreign keys. */
module Schema {

  type UserId = string

  /** Role literals stored in `user.role`; "cliente" is the column default. */
  const Client: string := "cliente"
  const Admin: string := "admin"

  /** The only transaction kinds the ledger accepts. */
  const Deposit: string := "deposito"
  const Withdrawal: string := "retiro"

  datatype Option<T> = None | Some(value: T)

  /** Python truthiness of an optional string argument: `None` and `""` are
      both false. */
  predicate Truthy(s: Option<string>) {
    s.Some? && s.value != ""
  }

  /** The stored password credential. The salted hash is abstracted to a token
      that verifies exactly the password it was made from. */
  datatype PasswordHash = HashOf(password: string)

  /** Row of table `user`, keyed by `id_user`. */
  datatype User = User(name: string, passwordHash: PasswordHash, role: string)

  /** Row of table `account`, keyed by `id_account`; `owner` is `id_user`,
      `balance` is the REAL column `amount`, `kind` is the column `type`. */
  datatype Account = Account(owner: UserId, balance: real, kind: string)

  /** Row of table `transactions`, keyed by `id_transaction`; `user` is the
      acting `id_user` recorded for audit. */
  datatype Transaction = Transaction(account: int, amount: real, kind: string, user: UserId)

  /** The whole store: one map per table. */
  datatype Db = Db(
    users: map<UserId, User>,
    accounts: map<int, Account>,
    transactions: map<int, Transaction>)

  /** The different `ValueError`s the layer raises (or returns, for table reads). */
  datatype ValueReason =
    | InsufficientFunds        // "Saldo insuficiente"
    | InvalidTransactionType   // kind other than "deposito"/"retiro"
    | NothingToUpdate          // profile update without name or password
    | TableNotAllowed          // table name outside the allowed list

  datatype Error =
    | ItemNotFound             // ItemNotFoundError
    | DuplicateItem            // DuplicateItemError
    | ValueError(reason: ValueReason)

  datatype Result<T> = Ok(value: T) | Err(error: Error)

  /** What one operation returns together with the store it leaves behind.
      A failing operation rolls back, so its store is the one it started from. */
  datatype Response<T> = Response(result: Result<T>, db: Db)

  /** The effect a ledger event of this kind and amount has on a balance. */
  function Signed(kind: string, amount: real): real {
    if kind == Deposit then amount
    else if kind == Withdrawal then -amount
    else 0.0
  }

  /** `SELECT ... FROM account WHERE id_account = ? AND id_user = ?` finds a row. */
  predicate Owns(db: Db, accountId: int, idUser: UserId) {
    accountId in db.accounts && db.accounts[accountId].owner == idUser
  }

  /** A non-empty set of keys has an element. */
  lemma KeyExists(s: set<int>)
    requires s != {}
    ensures exists x :: x in s
  {
    if forall y :: y !in s {
      assert false;
    }
  }

  lemma Choose(s: set<int>) returns (x: int)
    requires s != {}
    ensures x in s
  {
    KeyExists(s);
    x :| x in s;
  }

  lemma {:induction false} MaxExists(s: set<int>)
    requires s != {}
    ensures exists m :: m in s && forall k :: k in s ==> k <= m
    decreases |s|
  {
    var x := Choose(s);
    var rest := s - {x};
    var top := x;
    if rest != {} {
      MaxExists(rest);
      var m :| m in rest && forall k :: k in rest ==> k <= m;
      top := if x <= m then m else x;
    }
    forall k | k in s
      ensures k <= top
    {
      if k != x {
        assert k in rest;
      }
    }
  }

  /** The key SQLite gives a row inserted without one into a table whose key is
      INTEGER PRIMARY KEY (no AUTOINCREMENT): one more than the largest key in
      use, or 1 in an empty table. */
  function NextRowId(keys: set<int>): (id: int)
    ensures id !in keys
    ensures forall k :: k in keys ==> k < id
    ensures keys != {} ==> id - 1 in keys
    ensures keys == {} ==> id == 1
  {
    if keys == {} then 1
    else
      MaxExists(keys);
      var m :| m in keys && forall k :: k in keys ==> k <= m;
      m + 1
  }

  /** The FOREIGN KEY clauses: every account's owner is a user, every
      transaction's account is an account. SQLite enforces them because the
      connection turns `foreign_keys` on. */
  ghost predicate ForeignKeysHold(db: Db) {
    && (forall a :: a in db.accounts ==> db.accounts[a].owner in db.users)
    && (forall t :: t in db.transactions ==> db.transactions[t].account in db.accounts)
  }

  /** Every transaction records the owner of its account as its acting user,
      as `insert_transaction` only writes rows for accounts the actor owns. */
  ghost predicate Attributed(db: Db) {
    forall t :: t in db.transactions && db.transactions[t].account in db.accounts ==>
      db.accounts[db.transactions[t].account].owner == db.transactions[t].user
  }

  ghost predicate Consistent(db: Db) {
    ForeignKeysHold(db) && Attributed(db)
  }

  /** Deleting the accounts `ids`: ON DELETE CASCADE on `transactions.id_account`
      removes every transaction recorded on one of them, and nothing else. */
  function DropAccounts(db: Db, ids: set<int>): (r: Db)
    ensures r.users == db.users
    ensures forall a :: a in r.accounts <==> a in db.accounts && a !in ids
    ensures forall a :: a in r.accounts ==> r.accounts[a] == db.accounts[a]
    ensures forall t :: t in r.transactions <==> t in db.transactions && db.transactions[t].account !in ids
    ensures forall t :: t in r.transactions ==> r.transactions[t] == db.transactions[t]
    ensures Consistent(db) ==> Consistent(r)
  {
    Db(db.users,
       db.accounts - ids,
       map t | t in db.transactions && db.transactions[t].account !in ids :: db.transactions[t])
  }

  /** `after` is `before` with the balance of account `id` set to `balance`
      and nothing else changed. */
  predicate BalanceSet(before: map<int, Account>, after: map<int, Account>, id: int, balance: real) {
    && id in before
    && after.Keys == before.Keys
    && after[id] == before[id].(balance := balance)
    && forall a :: a in before && a != id ==> after[a] == before[a]
  }

  /** `after` is `before` with one more row, `row`, under a key not used before. */
  predicate RowAppended<T(==)>(before: map<int, T>, after: map<int, T>, id: int, row: T) {
    && id !in before
    && after.Keys == before.Keys + {id}
    && after[id] == row
    && forall k :: k in before ==> after[k] == before[k]
  }
}
