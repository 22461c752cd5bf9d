/** The bookkeeping invariant the transaction actions of `src/app/actions.ts`
    maintain: a wallet's decrypted balance is the sum of the decrypted amounts
    of the transactions that point at it. */
module Ledger {
  import opened Wrappers
  import opened Crypto
  import opened Records

  /** The sum of the values of a finite map. */
  ghost function Total(m: map<Id, Number>): Number
    decreases |m|
  {
    if m == map[] then 0
    else
      var k :| k in m;
      m[k] + Total(m - {k})
  }

  /** The sum does not depend on which key is taken first. */
  lemma {:induction false} TotalRemove(m: map<Id, Number>, k: Id)
    requires k in m
    ensures Total(m) == m[k] + Total(m - {k})
    decreases |m|
  {
    var j :| j in m && Total(m) == m[j] + Total(m - {j});
    if j != k {
      var mj, mk := m - {j}, m - {k};
      assert k in mj && j in mk;
      TotalRemove(mj, k);
      TotalRemove(mk, j);
      assert mj - {k} == mk - {j};
    }
  }

  /** Setting one entry changes the sum by the difference. */
  lemma TotalUpdate(m: map<Id, Number>, k: Id, v: Number)
    ensures Total(m[k := v]) == v + Total(m - {k})
    ensures k in m ==> Total(m[k := v]) == Total(m) - m[k] + v
  {
    TotalRemove(m[k := v], k);
    assert m[k := v] - {k} == m - {k};
    if k in m {
      TotalRemove(m, k);
    }
  }

  /** Reading a stored number under the session key. */
  predicate Readable(c: Codec, f: Field, dek: seq<byte>) {
    c.decrypt(f, dek).Success?
  }

  /** The decrypted amounts of the transactions of wallet `w`. */
  function LedgerOf(c: Codec, txs: map<Id, Transaction>, dek: seq<byte>, w: Id): (l: map<Id, Number>)
    ensures forall t :: t in l <==> t in txs && txs[t].wallet == w && Readable(c, txs[t].amount, dek)
  {
    map t | t in txs && txs[t].wallet == w && Readable(c, txs[t].amount, dek)
      :: c.decrypt(txs[t].amount, dek).value
  }

  /** Writing one transaction row changes only that row's entry of a ledger. */
  lemma LedgerUpdate(c: Codec, txs: map<Id, Transaction>, dek: seq<byte>, t: Id, tx: Transaction, w: Id)
    ensures LedgerOf(c, txs[t := tx], dek, w) ==
      if tx.wallet == w && Readable(c, tx.amount, dek)
      then LedgerOf(c, txs, dek, w)[t := c.decrypt(tx.amount, dek).value]
      else LedgerOf(c, txs, dek, w) - {t}
  {
  }

  /** Deleting one transaction row removes only that row's entry. */
  lemma LedgerRemove(c: Codec, txs: map<Id, Transaction>, dek: seq<byte>, t: Id, w: Id)
    ensures LedgerOf(c, txs - {t}, dek, w) == LedgerOf(c, txs, dek, w) - {t}
  {
  }

  /** Wallet `w` exists, its balance and all its amounts decrypt, and the
      balance is the sum of the amounts. */
  ghost predicate Balanced(c: Codec, db: Db, dek: seq<byte>, w: Id) {
    && w in db.wallets
    && Readable(c, db.wallets[w].balance, dek)
    && (forall t :: t in db.transactions && db.transactions[t].wallet == w ==>
          Readable(c, db.transactions[t].amount, dek))
    && c.decrypt(db.wallets[w].balance, dek).value == Total(LedgerOf(c, db.transactions, dek, w))
  }

  /** Every transaction points at an existing wallet. */
  ghost predicate Linked(db: Db) {
    forall t :: t in db.transactions ==> db.transactions[t].wallet in db.wallets
  }

  /** The state the actions keep for user `u` whose session key is `dek`. */
  ghost predicate Consistent(c: Codec, db: Db, u: Id, dek: seq<byte>) {
    && Linked(db)
    && forall w :: w in db.wallets && db.wallets[w].owner == u ==> Balanced(c, db, dek, w)
  }

  /** A wallet without transactions is balanced exactly when its balance reads as 0. */
  lemma EmptyLedger(c: Codec, db: Db, dek: seq<byte>, w: Id)
    requires w in db.wallets && Readable(c, db.wallets[w].balance, dek)
    requires forall t :: t in db.transactions ==> db.transactions[t].wallet != w
    ensures Balanced(c, db, dek, w) <==> c.decrypt(db.wallets[w].balance, dek).value == 0
  {
    assert LedgerOf(c, db.transactions, dek, w) == map[];
  }

  /** A wallet stays balanced when its balance and the transactions that
      point at it, before and after, read the same. */
  lemma BalancedAgree(c: Codec, db: Db, db': Db, dek: seq<byte>, x: Id)
    requires Balanced(c, db, dek, x)
    requires x in db'.wallets && c.decrypt(db'.wallets[x].balance, dek) == c.decrypt(db.wallets[x].balance, dek)
    requires db'.transactions.Keys == db.transactions.Keys
    requires forall t :: t in db.transactions && (db.transactions[t].wallet == x || db'.transactions[t].wallet == x) ==>
      && db'.transactions[t].wallet == db.transactions[t].wallet
      && c.decrypt(db'.transactions[t].amount, dek) == c.decrypt(db.transactions[t].amount, dek)
    ensures Balanced(c, db', dek, x)
  {
    assert LedgerOf(c, db'.transactions, dek, x) == LedgerOf(c, db.transactions, dek, x);
  }
}
