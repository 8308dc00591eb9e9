/** Reconciliation of balances against history. An account's balance should
    equal its opening balance plus the signed sum of the deposits and
    withdrawals recorded on it. Recording and deleting transactions keep this
    equation, and so do opening and deleting accounts and deleting users. A
    direct balance edit keeps it only by moving the opening balance. Correcting
    a recorded transaction can break it. */
module Balance {
  import opened Schema
  import Ledger
  import Directory

  /** What transaction `t` contributes to the balance of account `a`. */
  function Effect(t: Transaction, a: int): real {
    if t.account == a then Signed(t.kind, t.amount) else 0.0
  }

  /** The signed sum of the recorded transactions on account `a`. */
  ghost function Net(txs: map<int, Transaction>, a: int): real
    decreases |txs.Keys|
  {
    if txs.Keys == {} then 0.0
    else
      KeyExists(txs.Keys);
      var k :| k in txs.Keys;
      Effect(txs[k], a) + Net(txs - {k}, a)
  }

  /** Every account's balance is its opening balance plus its recorded history. */
  ghost predicate Balanced(db: Db, opening: map<int, real>) {
    forall a :: a in db.accounts ==>
      a in opening && db.accounts[a].balance == opening[a] + Net(db.transactions, a)
  }

  /** The sum does not depend on the order rows are taken in: any one row can
      be split off. */
  lemma {:induction false} NetRemove(txs: map<int, Transaction>, k: int, a: int)
    requires k in txs
    ensures Net(txs, a) == Effect(txs[k], a) + Net(txs - {k}, a)
    decreases |txs.Keys|
  {
    var j :| j in txs.Keys && Net(txs, a) == Effect(txs[j], a) + Net(txs - {j}, a);
    if j != k {
      assert txs - {j} - {k} == txs - {k} - {j};
      NetRemove(txs - {j}, k, a);
      NetRemove(txs - {k}, j, a);
    }
  }

  /** Dropping rows recorded on other accounts does not change the sum for `a`. */
  lemma {:induction false} NetIgnoresOtherAccounts(txs: map<int, Transaction>, kept: map<int, Transaction>, a: int)
    requires forall k :: k in kept ==> k in txs && kept[k] == txs[k]
    requires forall k :: k in txs && k !in kept ==> txs[k].account != a
    ensures Net(kept, a) == Net(txs, a)
    decreases |txs.Keys|
  {
    if txs.Keys == {} {
      assert forall k :: k !in kept.Keys;
      assert kept.Keys == {};
    } else {
      var k := Choose(txs.Keys);
      NetRemove(txs, k, a);
      if k in kept {
        NetRemove(kept, k, a);
        NetIgnoresOtherAccounts(txs - {k}, kept - {k}, a);
      } else {
        NetIgnoresOtherAccounts(txs - {k}, kept, a);
      }
    }
  }

  /** An account no transaction refers to has an empty history. */
  lemma NetUnreferenced(txs: map<int, Transaction>, a: int)
    requires forall k :: k in txs ==> txs[k].account != a
    ensures Net(txs, a) == 0.0
  {
    NetIgnoresOtherAccounts(txs, map[], a);
  }

  /** Recording one more row adds its effect to the sum. */
  lemma NetAppend(txs: map<int, Transaction>, after: map<int, Transaction>, id: int, t: Transaction, a: int)
    requires RowAppended(txs, after, id, t)
    ensures Net(after, a) == Effect(t, a) + Net(txs, a)
  {
    var rest := after - {id};
    assert rest.Keys == txs.Keys;
    assert forall k :: k in rest ==> rest[k] == txs[k];
    assert rest == txs;
    NetRemove(after, id, a);
  }

  lemma InsertTransactionKeepsBalanced(db: Db, opening: map<int, real>, accountId: int, amount: real, kind: string, idUser: UserId)
    requires Balanced(db, opening)
    ensures Balanced(Ledger.InsertTransaction(db, accountId, amount, kind, idUser).db, opening)
  {
    var r := Ledger.InsertTransaction(db, accountId, amount, kind, idUser);
    if r.result.Ok? {
      var t := Transaction(accountId, amount, kind, idUser);
      forall a | a in r.db.accounts
        ensures a in opening && r.db.accounts[a].balance == opening[a] + Net(r.db.transactions, a)
      {
        NetAppend(db.transactions, r.db.transactions, NextRowId(db.transactions.Keys), t, a);
      }
    }
  }

  lemma DeleteTransactionKeepsBalanced(db: Db, opening: map<int, real>, id: int)
    requires Balanced(db, opening)
    ensures Balanced(Ledger.DeleteTransaction(db, id).db, opening)
  {
    var r := Ledger.DeleteTransaction(db, id);
    if r.result.Ok? {
      forall a | a in r.db.accounts
        ensures a in opening && r.db.accounts[a].balance == opening[a] + Net(r.db.transactions, a)
      {
        NetRemove(db.transactions, id, a);
      }
    }
  }

  /** A new account starts with no history, so its opening balance is the
      amount it was created with. */
  lemma InsertAccountKeepsBalanced(db: Db, opening: map<int, real>, idUser: UserId, amount: real, accType: string)
    requires Balanced(db, opening) && ForeignKeysHold(db)
    ensures Balanced(Directory.InsertAccount(db, idUser, amount, accType).db,
                     opening[NextRowId(db.accounts.Keys) := amount])
  {
    var id := NextRowId(db.accounts.Keys);
    NetUnreferenced(db.transactions, id);
  }

  lemma DropAccountsKeepsBalanced(db: Db, opening: map<int, real>, ids: set<int>)
    requires Balanced(db, opening)
    ensures Balanced(DropAccounts(db, ids), opening)
  {
    var after := DropAccounts(db, ids);
    forall a | a in after.accounts
      ensures a in opening && after.accounts[a].balance == opening[a] + Net(after.transactions, a)
    {
      NetIgnoresOtherAccounts(db.transactions, after.transactions, a);
    }
  }

  lemma DeleteAccountKeepsBalanced(db: Db, opening: map<int, real>, idAccount: int, idUser: UserId, userRole: string)
    requires Balanced(db, opening)
    ensures Balanced(Directory.DeleteAccount(db, idAccount, idUser, userRole).db, opening)
  {
    DropAccountsKeepsBalanced(db, opening, {idAccount});
  }

  lemma DeleteUserKeepsBalanced(db: Db, opening: map<int, real>, id: UserId)
    requires Balanced(db, opening)
    ensures Balanced(Directory.DeleteUser(db, id).db, opening)
  {
    var owned := set a | a in db.accounts && db.accounts[a].owner == id;
    DropAccountsKeepsBalanced(db, opening, owned);
  }

  /** A direct balance edit keeps balances reconciled only by moving the
      account's opening balance; against the old opening balance, any real
      change breaks the equation. */
  lemma UpdateAccountMovesOpening(db: Db, opening: map<int, real>, idAccount: int, newAmount: real)
    requires Balanced(db, opening) && idAccount in db.accounts
    ensures var after := Directory.UpdateAccount(db, idAccount, newAmount).db;
      && Balanced(after, opening[idAccount := newAmount - Net(db.transactions, idAccount)])
      && (newAmount != db.accounts[idAccount].balance ==> !Balanced(after, opening))
  {
  }

  lemma NetSingle(id: int, t: Transaction, a: int)
    ensures Net(map[id := t], a) == Effect(t, a)
  {
    NetAppend(map[], map[id := t], id, t, a);
    NetUnreferenced(map[], a);
  }

  /** A reconciled store in which correcting a deposit of 100.0 into a
      withdrawal of 150.0 leaves the balance at 600.0 while the history now
      says 500.0 - 150.0. */
  lemma UpdateTransactionBreaksBalance()
    ensures var db := Db(map["u" := User("n", HashOf("p"), Client)],
                         map[1 := Account("u", 600.0, "savings")],
                         map[1 := Transaction(1, 100.0, Deposit, "u")]);
            var opening := map[1 := 500.0];
            && Balanced(db, opening)
            && !Balanced(Ledger.UpdateTransaction(db, 1, Some(150.0), Some(Withdrawal)).db, opening)
  {
    var deposit := Transaction(1, 100.0, Deposit, "u");
    var corrected := Transaction(1, 150.0, Withdrawal, "u");
    var db := Db(map["u" := User("n", HashOf("p"), Client)],
                 map[1 := Account("u", 600.0, "savings")],
                 map[1 := deposit]);
    var after := Ledger.UpdateTransaction(db, 1, Some(150.0), Some(Withdrawal)).db;
    assert after.transactions == map[1 := corrected];
    NetSingle(1, deposit, 1);
    NetSingle(1, corrected, 1);
    assert after.accounts[1].balance == 600.0;
    assert Net(after.transactions, 1) == -150.0;
  }
}
