/** The ledger engine: recording a deposit or withdrawal against an account
    (balance and history written as one unit), correcting a recorded
    transaction, and deleting one by undoing its effect on the balance. */
module Ledger {
  import opened Schema

  /** Records a transaction by `idUser` on account `accountId`. The account
      must exist and belong to `idUser`; a deposit adds the amount, a
      withdrawal subtracts it unless the balance is strictly smaller. The
      result is the new balance. */
  function InsertTransaction(db: Db, accountId: int, amount: real, kind: string, idUser: UserId): (r: Response<real>)
    ensures r.result.Err? ==> r.db == db
    ensures r.result.Ok? <==>
      && Owns(db, accountId, idUser)
      && (kind == Deposit || (kind == Withdrawal && amount <= db.accounts[accountId].balance))
    ensures !Owns(db, accountId, idUser) ==> r.result == Err(ItemNotFound)
    ensures Owns(db, accountId, idUser) && kind == Withdrawal && db.accounts[accountId].balance < amount ==>
      r.result == Err(ValueError(InsufficientFunds))
    ensures Owns(db, accountId, idUser) && kind != Deposit && kind != Withdrawal ==>
      r.result == Err(ValueError(InvalidTransactionType))
    ensures r.result.Ok? && kind == Deposit ==> r.result.value == db.accounts[accountId].balance + amount
    ensures r.result.Ok? && kind == Withdrawal ==> r.result.value == db.accounts[accountId].balance - amount
    ensures r.result.Ok? ==>
      && BalanceSet(db.accounts, r.db.accounts, accountId, r.result.value)
      && RowAppended(db.transactions, r.db.transactions, NextRowId(db.transactions.Keys),
                     Transaction(accountId, amount, kind, idUser))
      && r.db.users == db.users
    ensures Consistent(db) ==> Consistent(r.db)
  {
    if !Owns(db, accountId, idUser) then
      Response(Err(ItemNotFound), db)
    else
      var balance := db.accounts[accountId].balance;
      if kind != Deposit && kind != Withdrawal then
        Response(Err(ValueError(InvalidTransactionType)), db)
      else if kind == Withdrawal && balance < amount then
        Response(Err(ValueError(InsufficientFunds)), db)
      else
        var newBalance := if kind == Deposit then balance + amount else balance - amount;
        var id := NextRowId(db.transactions.Keys);
        Response(Ok(newBalance), db.(
          accounts := db.accounts[accountId := db.accounts[accountId].(balance := newBalance)],
          transactions := db.transactions[id := Transaction(accountId, amount, kind, idUser)]))
  }

  /** Overwrites the supplied fields of a recorded transaction. The account
      balance is never touched, and with no field supplied the call is a
      successful no-op. */
  function UpdateTransaction(db: Db, id: int, newAmount: Option<real>, newType: Option<string>): (r: Response<()>)
    ensures r.result.Ok? <==> id in db.transactions
    ensures r.result.Err? ==> r.result.error == ItemNotFound && r.db == db
    ensures r.db.accounts == db.accounts && r.db.users == db.users
    ensures newAmount.None? && newType.None? ==> r.db == db
    ensures r.result.Ok? ==>
      && r.db.transactions.Keys == db.transactions.Keys
      && (forall t :: t in db.transactions && t != id ==> r.db.transactions[t] == db.transactions[t])
      && r.db.transactions[id].account == db.transactions[id].account
      && r.db.transactions[id].user == db.transactions[id].user
      && r.db.transactions[id].amount == (if newAmount.Some? then newAmount.value else db.transactions[id].amount)
      && r.db.transactions[id].kind == (if newType.Some? then newType.value else db.transactions[id].kind)
    ensures Consistent(db) ==> Consistent(r.db)
  {
    if id !in db.transactions then
      Response(Err(ItemNotFound), db)
    else if newAmount.None? && newType.None? then
      Response(Ok(()), db)
    else
      var t := db.transactions[id];
      var t1 := if newAmount.Some? then t.(amount := newAmount.value) else t;
      var t2 := if newType.Some? then t1.(kind := newType.value) else t1;
      Response(Ok(()), db.(transactions := db.transactions[id := t2]))
  }

  /** Deletes a recorded transaction after undoing it: a deposit's amount is
      taken back off its account, a withdrawal's is returned. There is no
      funds check. */
  function DeleteTransaction(db: Db, id: int): (r: Response<()>)
    ensures r.result.Err? ==> r.db == db
    ensures r.result.Ok? <==>
      && id in db.transactions
      && db.transactions[id].account in db.accounts
      && (db.transactions[id].kind == Deposit || db.transactions[id].kind == Withdrawal)
    ensures r.result == Err(ItemNotFound) <==>
      id !in db.transactions || db.transactions[id].account !in db.accounts
    ensures id in db.transactions && db.transactions[id].account in db.accounts &&
            db.transactions[id].kind != Deposit && db.transactions[id].kind != Withdrawal ==>
      r.result == Err(ValueError(InvalidTransactionType))
    ensures r.result.Ok? ==>
      var t := db.transactions[id];
      var before := db.accounts[t.account].balance;
      && BalanceSet(db.accounts, r.db.accounts, t.account,
                    if t.kind == Deposit then before - t.amount else before + t.amount)
      && r.db.transactions == db.transactions - {id}
      && r.db.users == db.users
    ensures Consistent(db) ==> Consistent(r.db)
  {
    if id !in db.transactions then
      Response(Err(ItemNotFound), db)
    else
      var t := db.transactions[id];
      if t.account !in db.accounts then
        Response(Err(ItemNotFound), db)
      else if t.kind != Deposit && t.kind != Withdrawal then
        Response(Err(ValueError(InvalidTransactionType)), db)
      else
        var balance := db.accounts[t.account].balance;
        var newBalance := if t.kind == Deposit then balance - t.amount else balance + t.amount;
        Response(Ok(()), db.(
          accounts := db.accounts[t.account := db.accounts[t.account].(balance := newBalance)],
          transactions := db.transactions - {id}))
  }

  /** Deleting the transaction just recorded restores the store exactly:
      the balance, the history and everything else. */
  lemma InsertThenDeleteRestores(db: Db, accountId: int, amount: real, kind: string, idUser: UserId)
    requires InsertTransaction(db, accountId, amount, kind, idUser).result.Ok?
    ensures DeleteTransaction(InsertTransaction(db, accountId, amount, kind, idUser).db,
                              NextRowId(db.transactions.Keys))
         == Response(Ok(()), db)
  {
  }

  /** Correcting a transaction's kind to anything but the two ledger kinds is
      accepted, and afterwards the transaction can no longer be deleted. */
  lemma UpdateCanBlockDeletion(db: Db, id: int, newType: string)
    requires id in db.transactions && newType != Deposit && newType != Withdrawal
    requires db.transactions[id].account in db.accounts
    ensures var u := UpdateTransaction(db, id, None, Some(newType));
      && u.result.Ok?
      && DeleteTransaction(u.db, id) == Response(Err(ValueError(InvalidTransactionType)), u.db)
  {
  }

  /** The correction scenario of the application's test suite
      (tests/test_db.py), carried on to a deletion: an account opened with
      500.0 receives a deposit of 100.0, which is then corrected into a
      withdrawal of 150.0. The balance stays at 600.0. Deleting the corrected
      transaction then adds 150.0 back, so the balance ends at 750.0 instead
      of returning to the opening 500.0. */
  lemma CorrectionThenDeletionDiverges()
    ensures var db0 := Db(map["T_UPD_1" := User("Updater", HashOf("pass"), Client)],
                          map[1 := Account("T_UPD_1", 500.0, "savings")],
                          map[]);
            var ins := InsertTransaction(db0, 1, 100.0, Deposit, "T_UPD_1");
            var upd := UpdateTransaction(ins.db, 1, Some(150.0), Some(Withdrawal));
            var del := DeleteTransaction(upd.db, 1);
            && ins.result == Ok(600.0)
            && upd.result.Ok? && upd.db.accounts[1].balance == 600.0
            && del.result.Ok? && del.db.accounts[1].balance == 750.0
            && del.db.transactions == map[]
  {
  }
}
