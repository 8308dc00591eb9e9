# Digital bank ledger: a verified model of the persistence layer

This project models the persistence layer of a small personal-banking
application (`app/db/database.py`). The store has three tables:

- `user`: `id_user` ↦ name, password credential, role (`"cliente"` by default, or `"admin"`);
- `account`: `id_account` ↦ owning `id_user`, balance (`amount`), account type;
- `transactions`: `id_transaction` ↦ `id_account`, amount, kind (`"deposito"` or `"retiro"`), acting `id_user`.

Every operation of the layer runs as one unit of work that commits on
success and rolls back on any exception. In the model each operation is a
function from the store before the call to a `Response`: the result
(`Ok`, or `Err` carrying `ItemNotFound`, `DuplicateItem` or a `ValueError`
reason) and the store after the call. Every operation's contract states that
a failure returns the store it was given.

Files:

- `schema.dfy` (module `Schema`): rows, literals, errors, SQLite's choice of a
  fresh integer key (`NextRowId`: largest key plus one, or 1), the foreign-key
  and attribution invariants (`Consistent`), and the ON DELETE CASCADE rule
  (`DropAccounts`).
- `directory.dfy` (module `Directory`): registration, user deletion with its
  cascade, name and profile updates, account creation, direct balance edits,
  account deletion with the owner-or-admin check, and the read-only queries.
- `ledger.dfy` (module `Ledger`): recording a deposit or withdrawal, correcting
  a recorded transaction, and deleting one by undoing its effect.
- `balance.dfy` (module `Balance`): the reconciliation invariant. Each account's
  balance equals its opening balance plus the signed sum of the deposits and
  withdrawals recorded on it. The module proves which operations keep this
  equation and shows that correcting a transaction can break it.
- `store.dfy` (module `Store`): class `Database` with the three tables as
  fields. Each method changes the tables in place, checking first and writing
  after. Each is proved to return exactly the result and the tables its
  specification function gives.

Behaviour kept from the code:

- `insert_transaction` looks up the account by id *and* owner, so another
  user's account reads as missing. A withdrawal is refused only when the
  balance is strictly below the amount. The amount is not checked for sign.
- `update_transaction` rewrites amount and/or kind and never touches the
  balance. The new kind is not validated, so a correction can leave a
  transaction that `delete_transaction` refuses (`UpdateCanBlockDeletion`).
- `update_user_profile` treats an empty string like a missing argument and
  reports "nothing to update" before checking that the user exists.
  `update_transaction` uses `is not None`, so an empty string or 0 does count
  as supplied there.
- `get_table_data` filters by `id_user` only when the argument is truthy (not
  `None` and not empty), and only for `account` and `transactions`.
- `delete_transaction` checks that the linked account exists, and that branch
  is modelled. In a store where the foreign keys hold, it cannot be taken.

## Model

| member | source | states |
|---|---|---|
| `Schema.NextRowId` | app/db/database.py:62-63 | the key of a new row is unused, above every key in use, exactly one more than the largest, and 1 in an empty table |
| `Schema.DropAccounts` | app/db/database.py:62-63 | cascade: exactly the given accounts and exactly the transactions recorded on them disappear; every other row is kept unchanged; consistency is preserved |
| `Directory.RegisterUser` | app/db/database.py:69-78 | fails with DuplicateItem exactly when the id is taken, leaving the store (and the original user) unchanged; otherwise adds exactly that user with role "cliente" and a credential that verifies the given password |
| `Directory.DeleteUser` | app/db/database.py:116-124 | fails with ItemNotFound exactly when the user is missing; otherwise removes the user, every account they own and every transaction on those accounts, and nothing else |
| `Directory.UpdateUser` | app/db/database.py:127-135 | fails with ItemNotFound exactly when the user is missing; otherwise sets the name and keeps id, role, password and all other rows |
| `Directory.UpdateUserProfile` | app/db/database.py:240-261 | no truthy name or password gives ValueError before any lookup; otherwise ItemNotFound exactly when the user is missing; on success the name is replaced if given, exactly the new password verifies if one is given, and role and all other rows are kept |
| `Directory.InsertAccount` | app/db/database.py:136-146 | fails with ItemNotFound exactly when the user is missing; otherwise appends one account for that user under a fresh key, with every other row unchanged |
| `Directory.UpdateAccount` | app/db/database.py:147-155 | fails with ItemNotFound exactly when the account is missing; otherwise sets only that account's balance |
| `Directory.DeleteAccount` | app/db/database.py:156-169 | succeeds exactly when the account exists and the role is "admin" or the requester owns it; otherwise ItemNotFound with the account kept; on success removes the account and its transactions only |
| `Directory.GetUser` | app/db/database.py:270-276 | returns the stored user exactly when the id exists, nothing otherwise |
| `Directory.GetAccount` | app/db/database.py:282-288 | returns the stored account exactly when the id exists, nothing otherwise |
| `Directory.GetTableData` | app/db/database.py:84-105 | a table name other than user/account/transactions gives an error result; otherwise the table's columns and rows, filtered to rows with that `id_user` exactly when a truthy id is given for account or transactions |
| `Directory.GetUserTransactions` | app/db/database.py:106-115 | returns exactly the transactions on accounts owned by the user |
| `Directory.RegisteredUserReadsBack` | tests/test_db.py:20-30 | a newly registered user reads back with its name, role "cliente", and a credential that verifies its password |
| `Directory.ProfilePasswordReplaced` | tests/test_db.py:192-215 | after a profile update with a new password, the new password verifies, a different old one no longer does, and the role is kept |
| `Directory.DeleteUserCascades` | tests/test_db.py:216-228 | after deleting a user, reading the user, their accounts, their transactions by join or their transactions by `id_user` all come back empty |
| `Directory.UserTransactionsMatchTableFilter` | app/db/database.py:92-109 | in a consistent store, the join by account owner and the `id_user` filter on transactions select the same rows |
| `Ledger.InsertTransaction` | app/db/database.py:170-191 | succeeds exactly for an account owned by the actor and a deposit, or a withdrawal not above the balance; deposit gives old balance + amount, withdrawal old − amount; only that balance changes and exactly one row (account, amount, kind, actor) is appended; otherwise ItemNotFound, insufficient funds or invalid kind, with the store unchanged |
| `Ledger.UpdateTransaction` | app/db/database.py:192-214 | ItemNotFound exactly when the transaction is missing; never changes accounts or users; overwrites only the supplied amount/kind of that one row; with no field supplied the store is unchanged |
| `Ledger.DeleteTransaction` | app/db/database.py:215-239 | succeeds exactly when the transaction and its account exist and the kind is deposit or withdrawal; a deposit's amount is subtracted from the balance, a withdrawal's added back, and the row removed; missing rows give ItemNotFound, an unknown kind a ValueError, with the store unchanged |
| `Ledger.InsertThenDeleteRestores` | tests/test_db.py:149-173 | deleting a transaction just recorded succeeds and gives back exactly the store before the insert |
| `Ledger.UpdateCanBlockDeletion` | app/db/database.py:204-234 | correcting the kind to anything other than deposit/withdrawal succeeds, after which deleting that transaction fails with a ValueError |
| `Ledger.CorrectionThenDeletionDiverges` | tests/test_db.py:127-148 | the test's scenario carried on to a deletion: 500 + deposit 100 gives 600; correcting it to a withdrawal of 150 keeps 600; deleting it then gives 750, not 500, because deletion (app/db/database.py lines 229-236) adds a withdrawal's amount back |
| `Balance.InsertTransactionKeepsBalanced` | app/db/database.py:179-188 | recording a transaction keeps every balance equal to opening plus recorded history |
| `Balance.DeleteTransactionKeepsBalanced` | app/db/database.py:229-236 | deleting a transaction keeps every balance equal to opening plus recorded history |
| `Balance.InsertAccountKeepsBalanced` | app/db/database.py:143 | a new account has no history, so its opening balance is its initial amount |
| `Balance.DropAccountsKeepsBalanced` | app/db/database.py:62-63 | the cascade leaves the history of every surviving account unchanged |
| `Balance.DeleteAccountKeepsBalanced` | app/db/database.py:164 | deleting an account keeps the remaining accounts reconciled |
| `Balance.DeleteUserKeepsBalanced` | app/db/database.py:123 | deleting a user keeps the remaining accounts reconciled |
| `Balance.UpdateAccountMovesOpening` | app/db/database.py:150 | a direct balance edit keeps the equation only by moving that account's opening balance; any real change breaks it against the old opening |
| `Balance.UpdateTransactionBreaksBalance` | app/db/database.py:209-211 | a reconciled store in which correcting a transaction leaves the balance out of step with the history |
| `Balance.NetRemove` | app/db/database.py:229-236 | the signed history sum splits off any one row, whatever order rows are summed in |
| `Balance.NetIgnoresOtherAccounts` | app/db/database.py:62-63 | removing rows recorded on other accounts leaves an account's history sum unchanged |
| `Store.Database.constructor` | app/db/database.py:58-64 | fresh database: three empty tables, which satisfy the class invariant `Valid` (foreign keys resolve, transactions attributed to the account owner) |
| `Store.Database.RegisterUser` | app/db/database.py:69-78 | in place, keeping `Valid`: same result and tables as `Directory.RegisterUser` |
| `Store.Database.DeleteUser` | app/db/database.py:116-124 | in place, keeping `Valid`: same result and tables as `Directory.DeleteUser` |
| `Store.Database.UpdateUser` | app/db/database.py:127-135 | in place, keeping `Valid`: same result and tables as `Directory.UpdateUser` |
| `Store.Database.UpdateUserProfile` | app/db/database.py:240-261 | in place, keeping `Valid`: same result and tables as `Directory.UpdateUserProfile` |
| `Store.Database.InsertAccount` | app/db/database.py:136-146 | in place, keeping `Valid`: same result and tables as `Directory.InsertAccount` |
| `Store.Database.UpdateAccount` | app/db/database.py:147-155 | in place, keeping `Valid`: same result and tables as `Directory.UpdateAccount` |
| `Store.Database.DeleteAccount` | app/db/database.py:156-169 | in place, keeping `Valid`: same result and tables as `Directory.DeleteAccount` |
| `Store.Database.InsertTransaction` | app/db/database.py:170-191 | in place, keeping `Valid`: same result and tables as `Ledger.InsertTransaction` |
| `Store.Database.UpdateTransaction` | app/db/database.py:192-214 | in place, keeping `Valid`: same result and tables as `Ledger.UpdateTransaction` |
| `Store.Database.DeleteTransaction` | app/db/database.py:215-239 | in place, keeping `Valid`: same result and tables as `Ledger.DeleteTransaction` |

`update_user_name` (app/db/database.py:289-290) only calls `update_user` and is
covered by `Directory.UpdateUser`.

## Left out

- Connection handling (`DatabaseManager`, the shared in-memory connection, `connect_db`, `close_connection`) and the SQL text. Only the outcome is modelled: a unit of work commits on success and rolls back on failure.
- Storage failures are not modelled: the model's store never fails to read or write. In the source they surface three ways. The operations that change state catch `sqlite3.Error` and re-raise it as a generic `Exception` after the rollback (for example app/db/database.py:238-239). `get_table_data` and `get_user_transactions` catch it and return `(None, None, message)` (app/db/database.py:104-105, 114-115). `get_user`, `get_all_users` and `get_account` catch nothing, so the error reaches the caller unchanged (app/db/database.py:270-288). A failed connection raises `DatabaseConnectionError` (app/db/database.py:32-33).
- `register_user`'s fallback for a UNIQUE-constraint race needs a concurrent writer, so it is left out. So is the silent `None` it returns for any other integrity error.
- Password hashing: werkzeug's salted hash is abstracted to a token that verifies exactly the password it was made from (`CheckPassword`). The `User` class and `check_password` are covered only by that abstraction.
- `get_all_users` (app/db/database.py:277-281) returns the same rows as `GetTableData` on `"user"`, so it has no function of its own.
- Directory.GetTableData: returns rows as a map by key; SQLite's row order and the list-of-dicts shape are not modelled.
- Directory.GetUserTransactions: same abstraction as `GetTableData`; the row order of the join is not modelled.
- Balances are exact reals: the float rounding of SQLite REAL values is not modelled.
- Schema.NextRowId: SQLite's random key choice once the largest key reaches 2^63 − 1 is not modelled.
- SQLite type affinity (an account id given as text matching an integer key) is not modelled: keys are typed.
- Human-readable messages are not modelled, except that `insert_transaction`'s success carries the new balance.
- The Flask routes, login/session handling, the admin-only decorator, input parsing helpers, the migration script and app wiring are outside this model.
