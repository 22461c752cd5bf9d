/** What the actions of `src/app/actions.ts` promise about balances: each
    moves a wallet's balance by exactly the amounts it adds or removes, and
    together they keep every user's wallets balanced. */
module Bookkeeping {
  import opened Wrappers
  import opened Crypto
  import opened Records
  import opened Ledger
  import opened Actions

  /** The laws of the cipher the bookkeeping relies on: encryption needs a
      256-bit key and what it encrypts reads back. */
  ghost predicate Reliable(c: Codec) {
    KeyedEncrypt(c) && RoundTrips(c)
  }

  /** The cipher of `src/lib/crypto.ts` is reliable when GCM and the number
      conversions are. */
  lemma FieldCodecReliable(p: Primitives)
    requires AeadCorrect(p) && NumberTextRoundTrip(p)
    ensures Reliable(FieldCodec(p))
  {
    FieldCodecLawful(p);
  }

  /** A wallet whose balance and whose transactions are untouched stays balanced. */
  lemma BalancedFrame(c: Codec, db: Db, db': Db, dek: seq<byte>, x: Id)
    requires Balanced(c, db, dek, x)
    requires x in db'.wallets && db'.wallets[x].balance == db.wallets[x].balance
    requires forall t :: t in db'.transactions && db'.transactions[t].wallet == x ==>
      t in db.transactions && db'.transactions[t] == db.transactions[t]
    requires forall t :: t in db.transactions && db.transactions[t].wallet == x ==>
      t in db'.transactions && db'.transactions[t] == db.transactions[t]
    ensures Balanced(c, db', dek, x)
  {
    assert LedgerOf(c, db'.transactions, dek, x) == LedgerOf(c, db.transactions, dek, x);
  }

  /** A balance written as the ciphertext of `value` reads back as `value`. */
  lemma ReadsBack(c: Codec, value: Number, dek: seq<byte>, e: Entropy)
    requires Reliable(c) && |dek| == KeyLength
    ensures c.encrypt(value, dek, e).Success?
    ensures c.decrypt(Text(c.encrypt(value, dek, e).value), dek) == Success(value)
  {
  }

  // --- addTransactionAction ---

  /** The inputs for which `addTransactionAction` writes. */
  predicate AddWrites(c: Codec, db: Db, u: Id, dek: seq<byte>, data: TransactionInput, id: Id) {
    && u != "" && Owns(db, u, data.wallet)
    && Readable(c, db.wallets[data.wallet].balance, dek)
    && |dek| == KeyLength && id !in db.transactions
  }

  /** Adding a transaction inserts it with its amount encrypted, and the
      wallet's balance becomes the old balance plus the amount. */
  lemma AddTransactionEffect(
    c: Codec, db: Db, u: Id, dek: seq<byte>,
    data: TransactionInput, id: Id, createdAt: string, eAmount: Entropy, eBalance: Entropy)
    requires Reliable(c)
    ensures var r := AddTransaction(c, db, Some(u), Success(dek), data, id, createdAt, eAmount, eBalance);
      && (r.outcome == Pass <==> AddWrites(c, db, u, dek, data, id))
      && (r.outcome.Fail? ==> r.db == db)
      && (r.outcome == Pass ==>
           && c.decrypt(r.db.wallets[data.wallet].balance, dek).value
                == c.decrypt(db.wallets[data.wallet].balance, dek).value + data.amount
           && c.decrypt(r.db.transactions[id].amount, dek) == Success(data.amount))
  {
    var r := AddTransaction(c, db, Some(u), Success(dek), data, id, createdAt, eAmount, eBalance);
    if AddWrites(c, db, u, dek, data, id) {
      var w := data.wallet;
      var bal := c.decrypt(db.wallets[w].balance, dek).value;
      var amount := c.encrypt(data.amount, dek, eAmount).value;
      var balance := c.encrypt(bal + data.amount, dek, eBalance).value;
      var db1 := db.(transactions := db.transactions[id := NewTransaction(data, amount, createdAt)]);
      ReadsBack(c, data.amount, dek, eAmount);
      ReadsBack(c, bal + data.amount, dek, eBalance);
    } else {
      assert r.outcome.Fail? && r.db == db;
    }
  }

  /** Adding a transaction keeps every user's wallets balanced. */
  lemma AddTransactionPreserves(
    c: Codec, db: Db, u: Id, dek: seq<byte>,
    data: TransactionInput, id: Id, createdAt: string, eAmount: Entropy, eBalance: Entropy,
    v: Id, dv: seq<byte>)
    requires Reliable(c)
    requires Consistent(c, db, v, dv) && (v == u ==> dv == dek)
    ensures Consistent(c, AddTransaction(c, db, Some(u), Success(dek), data, id, createdAt, eAmount, eBalance).db, v, dv)
  {
    var r := AddTransaction(c, db, Some(u), Success(dek), data, id, createdAt, eAmount, eBalance);
    if AddWrites(c, db, u, dek, data, id) {
      forall x | x in r.db.wallets && r.db.wallets[x].owner == v
        ensures Balanced(c, r.db, dv, x)
      {
        if x == data.wallet {
          AddKeepsWallet(c, db, u, dek, data, id, createdAt, eAmount, eBalance);
        } else {
          BalancedFrame(c, db, r.db, dv, x);
        }
      }
    }
  }

  /** The wallet a transaction is added to stays balanced. */
  lemma AddKeepsWallet(
    c: Codec, db: Db, u: Id, dek: seq<byte>,
    data: TransactionInput, id: Id, createdAt: string, eAmount: Entropy, eBalance: Entropy)
    requires Reliable(c) && AddWrites(c, db, u, dek, data, id) && Balanced(c, db, dek, data.wallet)
    ensures Balanced(c, AddTransaction(c, db, Some(u), Success(dek), data, id, createdAt, eAmount, eBalance).db, dek, data.wallet)
  {
    var r := AddTransaction(c, db, Some(u), Success(dek), data, id, createdAt, eAmount, eBalance);
    var w := data.wallet;
    var bal := c.decrypt(db.wallets[w].balance, dek).value;
    var amount := c.encrypt(data.amount, dek, eAmount).value;
    var tx := NewTransaction(data, amount, createdAt);
    ReadsBack(c, data.amount, dek, eAmount);
    ReadsBack(c, bal + data.amount, dek, eBalance);
    var l := LedgerOf(c, db.transactions, dek, w);
    LedgerUpdate(c, db.transactions, dek, id, tx, w);
    TotalUpdate(l, id, data.amount);
    assert l - {id} == l;
  }

  // --- deleteTransactionAction ---

  /** The inputs for which `deleteTransactionAction` writes. */
  predicate DeleteWrites(c: Codec, db: Db, u: Id, dek: seq<byte>, id: Id) {
    && u != "" && id in db.transactions && Owns(db, u, db.transactions[id].wallet)
    && Readable(c, db.wallets[db.transactions[id].wallet].balance, dek)
    && Readable(c, db.transactions[id].amount, dek)
    && |dek| == KeyLength
  }

  /** Deleting a transaction removes it and takes its amount off its wallet's balance. */
  lemma DeleteTransactionEffect(c: Codec, db: Db, u: Id, dek: seq<byte>, id: Id, eBalance: Entropy)
    requires Reliable(c)
    ensures var r := DeleteTransaction(c, db, Some(u), Success(dek), id, eBalance);
      && (r.db != db <==> DeleteWrites(c, db, u, dek, id))
      && (DeleteWrites(c, db, u, dek, id) ==>
           var w := db.transactions[id].wallet;
           && r.outcome == Pass
           && id !in r.db.transactions
           && c.decrypt(r.db.wallets[w].balance, dek).value
                == c.decrypt(db.wallets[w].balance, dek).value
                   - c.decrypt(db.transactions[id].amount, dek).value)
  {
    if DeleteWrites(c, db, u, dek, id) {
      var tx := db.transactions[id];
      var bal := c.decrypt(db.wallets[tx.wallet].balance, dek).value;
      var amt := c.decrypt(tx.amount, dek).value;
      ReadsBack(c, bal - amt, dek, eBalance);
      assert id in DeleteTransaction(c, db, Some(u), Success(dek), id, eBalance).db.transactions ==> false;
    }
  }

  /** Deleting a transaction keeps every user's wallets balanced. */
  lemma DeleteTransactionPreserves(
    c: Codec, db: Db, u: Id, dek: seq<byte>, id: Id, eBalance: Entropy, v: Id, dv: seq<byte>)
    requires Reliable(c)
    requires Consistent(c, db, v, dv) && (v == u ==> dv == dek)
    ensures Consistent(c, DeleteTransaction(c, db, Some(u), Success(dek), id, eBalance).db, v, dv)
  {
    var r := DeleteTransaction(c, db, Some(u), Success(dek), id, eBalance);
    if DeleteWrites(c, db, u, dek, id) {
      forall x | x in r.db.wallets && r.db.wallets[x].owner == v
        ensures Balanced(c, r.db, dv, x)
      {
        if x == db.transactions[id].wallet {
          DeleteKeepsWallet(c, db, u, dek, id, eBalance);
        } else {
          BalancedFrame(c, db, r.db, dv, x);
        }
      }
    }
  }

  /** The wallet a transaction is deleted from stays balanced. */
  lemma DeleteKeepsWallet(c: Codec, db: Db, u: Id, dek: seq<byte>, id: Id, eBalance: Entropy)
    requires Reliable(c) && DeleteWrites(c, db, u, dek, id)
    requires Balanced(c, db, dek, db.transactions[id].wallet)
    ensures Balanced(c, DeleteTransaction(c, db, Some(u), Success(dek), id, eBalance).db, dek, db.transactions[id].wallet)
  {
    var tx := db.transactions[id];
    var w := tx.wallet;
    var bal := c.decrypt(db.wallets[w].balance, dek).value;
    var amt := c.decrypt(tx.amount, dek).value;
    ReadsBack(c, bal - amt, dek, eBalance);
    var l := LedgerOf(c, db.transactions, dek, w);
    LedgerRemove(c, db.transactions, dek, id, w);
    TotalRemove(l, id);
  }

  // --- editTransactionAction ---

  /** The inputs for which the edit moves a transaction between two of the
      caller's wallets and completes: both balances and the old amount read. */
  predicate EditWrites(c: Codec, db: Db, u: Id, dek: seq<byte>, id: Id, data: TransactionInput) {
    && u != "" && id in db.transactions
    && Owns(db, u, db.transactions[id].wallet) && Owns(db, u, data.wallet)
    && Readable(c, db.wallets[db.transactions[id].wallet].balance, dek)
    && Readable(c, db.transactions[id].amount, dek)
    && Readable(c, db.wallets[data.wallet].balance, dek)
    && |dek| == KeyLength
  }

  /** An edit between two of the caller's wallets completes, and the
      transaction now points at the new wallet with the new amount. */
  lemma EditTransactionMoves(
    c: Codec, db: Db, u: Id, dek: seq<byte>, id: Id, data: TransactionInput,
    eRevert: Entropy, eAmount: Entropy, eBalance: Entropy)
    requires Reliable(c) && EditWrites(c, db, u, dek, id, data)
    ensures var r := EditTransaction(c, db, Some(u), Success(dek), id, data, eRevert, eAmount, eBalance);
      && r.outcome == Pass
      && r.db.transactions[id].wallet == data.wallet
      && c.decrypt(r.db.transactions[id].amount, dek) == Success(data.amount)
  {
    EditStages(c, db, u, dek, id, data, eRevert, eAmount, eBalance);
  }

  /** Editing within one wallet moves its balance by the new amount minus the old. */
  lemma EditTransactionSameWallet(
    c: Codec, db: Db, u: Id, dek: seq<byte>, id: Id, data: TransactionInput,
    eRevert: Entropy, eAmount: Entropy, eBalance: Entropy)
    requires Reliable(c) && EditWrites(c, db, u, dek, id, data)
    requires db.transactions[id].wallet == data.wallet
    ensures var r := EditTransaction(c, db, Some(u), Success(dek), id, data, eRevert, eAmount, eBalance);
      var w := data.wallet;
      c.decrypt(r.db.wallets[w].balance, dek)
        == Success(c.decrypt(db.wallets[w].balance, dek).value
                   - c.decrypt(db.transactions[id].amount, dek).value + data.amount)
  {
    EditStages(c, db, u, dek, id, data, eRevert, eAmount, eBalance);
  }

  /** Editing into another wallet takes the old amount off the old wallet and
      puts the new amount on the new one. */
  lemma EditTransactionOtherWallet(
    c: Codec, db: Db, u: Id, dek: seq<byte>, id: Id, data: TransactionInput,
    eRevert: Entropy, eAmount: Entropy, eBalance: Entropy)
    requires Reliable(c) && EditWrites(c, db, u, dek, id, data)
    requires db.transactions[id].wallet != data.wallet
    ensures var r := EditTransaction(c, db, Some(u), Success(dek), id, data, eRevert, eAmount, eBalance);
      var ow := db.transactions[id].wallet;
      && c.decrypt(r.db.wallets[ow].balance, dek)
           == Success(c.decrypt(db.wallets[ow].balance, dek).value - c.decrypt(db.transactions[id].amount, dek).value)
      && c.decrypt(r.db.wallets[data.wallet].balance, dek)
           == Success(c.decrypt(db.wallets[data.wallet].balance, dek).value + data.amount)
  {
    EditStages(c, db, u, dek, id, data, eRevert, eAmount, eBalance);
  }

  /** An edit that writes runs its three steps to the end, each on the
      tables the previous one left. */
  lemma EditStages(
    c: Codec, db: Db, u: Id, dek: seq<byte>, id: Id, data: TransactionInput,
    eRevert: Entropy, eAmount: Entropy, eBalance: Entropy)
    requires Reliable(c) && EditWrites(c, db, u, dek, id, data)
    ensures var s1 := RevertTransaction(c, db, dek, id, eRevert);
      var s2 := RewriteTransaction(c, s1.db, dek, id, data, eAmount);
      var s3 := CreditWallet(c, s2.db, dek, data.wallet, data.amount, eBalance);
      var ow := db.transactions[id].wallet;
      && s1.outcome == Pass && s2.outcome == Pass && s3.outcome == Pass
      && EditTransaction(c, db, Some(u), Success(dek), id, data, eRevert, eAmount, eBalance) == s3
      && c.decrypt(s1.db.wallets[ow].balance, dek)
           == Success(c.decrypt(db.wallets[ow].balance, dek).value - c.decrypt(db.transactions[id].amount, dek).value)
      && s2.db.transactions[id].wallet == data.wallet
      && c.decrypt(s2.db.transactions[id].amount, dek) == Success(data.amount)
      && c.decrypt(s3.db.wallets[data.wallet].balance, dek)
           == Success(c.decrypt(s2.db.wallets[data.wallet].balance, dek).value + data.amount)
  {
    var s1 := RevertTransaction(c, db, dek, id, eRevert);
    RevertReadsBack(c, db, dek, id, eRevert);
    var s2 := RewriteTransaction(c, s1.db, dek, id, data, eAmount);
    RewriteReadsBack(c, s1.db, dek, id, data, eAmount);
    CreditReadsBack(c, s2.db, dek, data.wallet, data.amount, eBalance);
  }

  /** Step 1 succeeds under a 256-bit key on readable values and writes the difference. */
  lemma RevertReadsBack(c: Codec, db: Db, dek: seq<byte>, id: Id, e: Entropy)
    requires Reliable(c) && |dek| == KeyLength
    requires id in db.transactions && db.transactions[id].wallet in db.wallets
    requires Readable(c, db.wallets[db.transactions[id].wallet].balance, dek)
    requires Readable(c, db.transactions[id].amount, dek)
    ensures var r := RevertTransaction(c, db, dek, id, e);
      var w := db.transactions[id].wallet;
      && r.outcome == Pass
      && c.decrypt(r.db.wallets[w].balance, dek)
           == Success(c.decrypt(db.wallets[w].balance, dek).value - c.decrypt(db.transactions[id].amount, dek).value)
  {
    var w := db.transactions[id].wallet;
    ReadsBack(c, c.decrypt(db.wallets[w].balance, dek).value - c.decrypt(db.transactions[id].amount, dek).value, dek, e);
  }

  /** Step 2 succeeds under a 256-bit key, and the new amount reads back. */
  lemma RewriteReadsBack(c: Codec, db: Db, dek: seq<byte>, id: Id, data: TransactionInput, e: Entropy)
    requires Reliable(c) && |dek| == KeyLength && id in db.transactions
    ensures var r := RewriteTransaction(c, db, dek, id, data, e);
      && r.outcome == Pass
      && r.db.transactions[id].wallet == data.wallet
      && c.decrypt(r.db.transactions[id].amount, dek) == Success(data.amount)
  {
    ReadsBack(c, data.amount, dek, e);
  }

  /** Crediting an existing wallet whose balance reads succeeds and adds the amount. */
  lemma CreditReadsBack(c: Codec, db: Db, dek: seq<byte>, w: Id, amount: Number, e: Entropy)
    requires Reliable(c) && |dek| == KeyLength
    requires w in db.wallets && Readable(c, db.wallets[w].balance, dek)
    ensures var r := CreditWallet(c, db, dek, w, amount, e);
      && r.outcome == Pass
      && c.decrypt(r.db.wallets[w].balance, dek) == Success(c.decrypt(db.wallets[w].balance, dek).value + amount)
  {
    ReadsBack(c, c.decrypt(db.wallets[w].balance, dek).value + amount, dek, e);
  }

  /** The corrected edit keeps every user's wallets balanced. */
  lemma EditTransactionCheckedPreserves(
    c: Codec, db: Db, u: Id, dek: seq<byte>, id: Id, data: TransactionInput,
    eRevert: Entropy, eAmount: Entropy, eBalance: Entropy, v: Id, dv: seq<byte>)
    requires Reliable(c)
    requires Consistent(c, db, v, dv) && (v == u ==> dv == dek)
    ensures Consistent(c, EditTransactionChecked(c, db, Some(u), Success(dek), id, data, eRevert, eAmount, eBalance).db, v, dv)
  {
    var r := EditTransactionChecked(c, db, Some(u), Success(dek), id, data, eRevert, eAmount, eBalance);
    if r.db != db {
      assert Owns(db, u, data.wallet) && id in db.transactions && Owns(db, u, db.transactions[id].wallet);
      if v != u {
        EditPreservesOthers(c, db, u, dek, id, data, eRevert, eAmount, eBalance, v, dv);
      } else if |dek| == KeyLength {
        EditPreservesOwn(c, db, u, dek, id, data, eRevert, eAmount, eBalance);
      } else {
        EditWithoutKey(c, db, u, dek, id, data, eRevert, eAmount, eBalance);
      }
    }
  }

  /** Rewriting transaction `id` as `tx'` keeps wallet `x` balanced when its
      balance moves by what leaves and what enters its ledger. */
  lemma RewriteBalanced(c: Codec, db: Db, db': Db, dek: seq<byte>, id: Id, tx': Transaction, x: Id)
    requires Balanced(c, db, dek, x) && id in db.transactions
    requires db'.transactions == db.transactions[id := tx'] && Readable(c, tx'.amount, dek)
    requires x in db'.wallets && Readable(c, db'.wallets[x].balance, dek)
    requires c.decrypt(db'.wallets[x].balance, dek).value
      == c.decrypt(db.wallets[x].balance, dek).value
         - (if db.transactions[id].wallet == x then c.decrypt(db.transactions[id].amount, dek).value else 0)
         + (if tx'.wallet == x then c.decrypt(tx'.amount, dek).value else 0)
    ensures Balanced(c, db', dek, x)
  {
    var l := LedgerOf(c, db.transactions, dek, x);
    var a' := c.decrypt(tx'.amount, dek).value;
    LedgerUpdate(c, db.transactions, dek, id, tx', x);
    if db.transactions[id].wallet == x {
      TotalRemove(l, id);
      if tx'.wallet == x {
        TotalUpdate(l, id, a');
      }
    } else {
      assert id !in l;
      assert l - {id} == l;
      if tx'.wallet == x {
        TotalUpdate(l, id, a');
      }
    }
  }

  /** The caller's own wallets stay balanced when the edit completes. */
  lemma EditPreservesOwn(
    c: Codec, db: Db, u: Id, dek: seq<byte>, id: Id, data: TransactionInput,
    eRevert: Entropy, eAmount: Entropy, eBalance: Entropy)
    requires Reliable(c) && Consistent(c, db, u, dek) && |dek| == KeyLength
    requires u != "" && id in db.transactions && Owns(db, u, db.transactions[id].wallet) && Owns(db, u, data.wallet)
    ensures Consistent(c, EditTransaction(c, db, Some(u), Success(dek), id, data, eRevert, eAmount, eBalance).db, u, dek)
  {
    var r := EditTransaction(c, db, Some(u), Success(dek), id, data, eRevert, eAmount, eBalance);
    assert EditWrites(c, db, u, dek, id, data);
    EditKeepsLinked(c, db, u, dek, id, data, eRevert, eAmount, eBalance);
    forall x | x in r.db.wallets && r.db.wallets[x].owner == u
      ensures Balanced(c, r.db, dek, x)
    {
      EditKeepsWallet(c, db, u, dek, id, data, eRevert, eAmount, eBalance, x);
    }
  }

  /** A completed edit leaves every transaction pointing at an existing wallet. */
  lemma EditKeepsLinked(
    c: Codec, db: Db, u: Id, dek: seq<byte>, id: Id, data: TransactionInput,
    eRevert: Entropy, eAmount: Entropy, eBalance: Entropy)
    requires Reliable(c) && EditWrites(c, db, u, dek, id, data) && Linked(db)
    ensures Linked(EditTransaction(c, db, Some(u), Success(dek), id, data, eRevert, eAmount, eBalance).db)
  {
    EditTransactionMoves(c, db, u, dek, id, data, eRevert, eAmount, eBalance);
  }

  /** One of the caller's wallets after a completed edit. */
  lemma EditKeepsWallet(
    c: Codec, db: Db, u: Id, dek: seq<byte>, id: Id, data: TransactionInput,
    eRevert: Entropy, eAmount: Entropy, eBalance: Entropy, x: Id)
    requires Reliable(c) && EditWrites(c, db, u, dek, id, data)
    requires x in db.wallets && Balanced(c, db, dek, x)
    ensures Balanced(c, EditTransaction(c, db, Some(u), Success(dek), id, data, eRevert, eAmount, eBalance).db, dek, x)
  {
    var r := EditTransaction(c, db, Some(u), Success(dek), id, data, eRevert, eAmount, eBalance);
    EditTransactionMoves(c, db, u, dek, id, data, eRevert, eAmount, eBalance);
    if db.transactions[id].wallet == data.wallet {
      EditTransactionSameWallet(c, db, u, dek, id, data, eRevert, eAmount, eBalance);
    } else {
      EditTransactionOtherWallet(c, db, u, dek, id, data, eRevert, eAmount, eBalance);
    }
    RewriteBalanced(c, db, r.db, dek, id, r.db.transactions[id], x);
  }

  /** Without a 256-bit key the edit fails before its first write. */
  lemma EditWithoutKey(
    c: Codec, db: Db, u: Id, dek: seq<byte>, id: Id, data: TransactionInput,
    eRevert: Entropy, eAmount: Entropy, eBalance: Entropy)
    requires KeyedEncrypt(c) && |dek| != KeyLength
    ensures EditTransaction(c, db, Some(u), Success(dek), id, data, eRevert, eAmount, eBalance).db == db
  {
  }

  /** The wallets of anyone else are left alone by an edit of the caller's
      transaction into the caller's wallet, however far it gets. */
  lemma EditPreservesOthers(
    c: Codec, db: Db, u: Id, dek: seq<byte>, id: Id, data: TransactionInput,
    eRevert: Entropy, eAmount: Entropy, eBalance: Entropy, v: Id, dv: seq<byte>)
    requires Consistent(c, db, v, dv) && v != u
    requires u != "" && id in db.transactions && Owns(db, u, db.transactions[id].wallet) && Owns(db, u, data.wallet)
    ensures Consistent(c, EditTransaction(c, db, Some(u), Success(dek), id, data, eRevert, eAmount, eBalance).db, v, dv)
  {
    var r := EditTransaction(c, db, Some(u), Success(dek), id, data, eRevert, eAmount, eBalance);
    forall x | x in r.db.wallets && r.db.wallets[x].owner == v
      ensures Balanced(c, r.db, dv, x)
    {
      BalancedFrame(c, db, r.db, dv, x);
    }
  }

  // --- What the unchecked destination of editTransactionAction allows ---

  /** The inputs for which the edit reverts the caller's wallet and rewrites
      the row, wherever the row is sent. */
  predicate EditRewrites(c: Codec, db: Db, u: Id, dek: seq<byte>, id: Id) {
    && u != "" && id in db.transactions && Owns(db, u, db.transactions[id].wallet)
    && Readable(c, db.wallets[db.transactions[id].wallet].balance, dek)
    && Readable(c, db.transactions[id].amount, dek)
    && |dek| == KeyLength
  }

  /** Whatever the destination, a rewriting edit leaves the row pointing at it
      with the amount encrypted under the caller's key. */
  lemma EditSendsRow(
    c: Codec, db: Db, u: Id, dek: seq<byte>, id: Id, data: TransactionInput,
    eRevert: Entropy, eAmount: Entropy, eBalance: Entropy)
    requires KeyedEncrypt(c) && EditRewrites(c, db, u, dek, id)
    ensures var r := EditTransaction(c, db, Some(u), Success(dek), id, data, eRevert, eAmount, eBalance);
      && c.encrypt(data.amount, dek, eAmount).Success?
      && r.db.transactions[id].wallet == data.wallet
      && r.db.transactions[id].amount == Text(c.encrypt(data.amount, dek, eAmount).value)
  {
  }

  /** Editing one's transaction into another user's wallet, which the action
      does not forbid, leaves that user's wallet with a row it cannot read. */
  lemma EditIntoForeignWallet(
    c: Codec, db: Db, u: Id, dek: seq<byte>, id: Id, data: TransactionInput,
    eRevert: Entropy, eAmount: Entropy, eBalance: Entropy, v: Id, dv: seq<byte>)
    requires KeyedEncrypt(c) && SeparatesKeys(c) && EditRewrites(c, db, u, dek, id)
    requires data.wallet in db.wallets && db.wallets[data.wallet].owner == v && v != u
    requires |dv| == KeyLength && dv != dek
    ensures !Consistent(c, EditTransaction(c, db, Some(u), Success(dek), id, data, eRevert, eAmount, eBalance).db, v, dv)
  {
    var r := EditTransaction(c, db, Some(u), Success(dek), id, data, eRevert, eAmount, eBalance);
    EditSendsRow(c, db, u, dek, id, data, eRevert, eAmount, eBalance);
    assert !Readable(c, r.db.transactions[id].amount, dv);
    assert !Balanced(c, r.db, dv, data.wallet);
  }

  /** Editing one's transaction into a wallet id that does not exist leaves a
      row that points at no wallet. */
  lemma EditIntoMissingWallet(
    c: Codec, db: Db, u: Id, dek: seq<byte>, id: Id, data: TransactionInput,
    eRevert: Entropy, eAmount: Entropy, eBalance: Entropy)
    requires KeyedEncrypt(c) && EditRewrites(c, db, u, dek, id) && data.wallet !in db.wallets
    ensures !Linked(EditTransaction(c, db, Some(u), Success(dek), id, data, eRevert, eAmount, eBalance).db)
  {
    EditSendsRow(c, db, u, dek, id, data, eRevert, eAmount, eBalance);
  }

  /** With a foreign key on `wallet_id`, an edit into a wallet id that does not
      exist leaves the row where it was, but its amount has already been taken
      off the old wallet's balance, so that wallet no longer balances. */
  lemma EditIntoMissingWalletKeyed(
    c: Codec, db: Db, u: Id, dek: seq<byte>, id: Id, data: TransactionInput,
    eRevert: Entropy, eAmount: Entropy, eBalance: Entropy)
    requires Reliable(c) && EditRewrites(c, db, u, dek, id) && data.wallet !in db.wallets
    requires Balanced(c, db, dek, db.transactions[id].wallet)
    requires c.decrypt(db.transactions[id].amount, dek).value != 0
    ensures var r := EditTransactionKeyed(c, db, Some(u), Success(dek), id, data, eRevert, eAmount, eBalance);
      && r.outcome == Pass
      && r.db.transactions == db.transactions
      && !Balanced(c, r.db, dek, db.transactions[id].wallet)
      && !Consistent(c, r.db, u, dek)
  {
    var w := db.transactions[id].wallet;
    var r := EditTransactionKeyed(c, db, Some(u), Success(dek), id, data, eRevert, eAmount, eBalance);
    RevertReadsBack(c, db, dek, id, eRevert);
    ReadsBack(c, data.amount, dek, eAmount);
    assert LedgerOf(c, r.db.transactions, dek, w) == LedgerOf(c, db.transactions, dek, w);
    assert !Balanced(c, r.db, dek, w);
    assert w in r.db.wallets && r.db.wallets[w].owner == u;
  }

  // --- The wallet actions ---

  /** A new wallet starts with a balance that reads as 0, under the key it was
      written with. */
  lemma AddWalletStartsAtZero(
    c: Codec, db: Db, u: Id, dek: seq<byte>, data: WalletInput, id: Id, createdAt: string, eBalance: Entropy)
    requires Reliable(c)
    ensures var r := AddWallet(c, db, Some(u), Success(dek), data, id, createdAt, eBalance);
      && (r.outcome == Pass <==> u != "" && |dek| == KeyLength && id !in db.wallets)
      && (r.outcome == Pass ==> c.decrypt(r.db.wallets[id].balance, dek) == Success(0))
  {
    if |dek| == KeyLength {
      ReadsBack(c, 0, dek, eBalance);
    }
  }

  /** Adding a wallet keeps every user's wallets balanced. */
  lemma AddWalletPreserves(
    c: Codec, db: Db, u: Id, dek: seq<byte>, data: WalletInput, id: Id, createdAt: string, eBalance: Entropy,
    v: Id, dv: seq<byte>)
    requires Reliable(c)
    requires Consistent(c, db, v, dv) && (v == u ==> dv == dek)
    ensures Consistent(c, AddWallet(c, db, Some(u), Success(dek), data, id, createdAt, eBalance).db, v, dv)
  {
    var r := AddWallet(c, db, Some(u), Success(dek), data, id, createdAt, eBalance);
    if r.outcome == Pass {
      AddWalletStartsAtZero(c, db, u, dek, data, id, createdAt, eBalance);
      forall x | x in r.db.wallets && r.db.wallets[x].owner == v
        ensures Balanced(c, r.db, dv, x)
      {
        if x == id {
          EmptyLedger(c, r.db, dv, id);
        } else {
          BalancedFrame(c, db, r.db, dv, x);
        }
      }
    }
  }

  /** Renaming or recolouring a wallet keeps every user's wallets balanced. */
  lemma EditWalletPreserves(db: Db, u: Id, id: Id, data: WalletInput, c: Codec, v: Id, dv: seq<byte>)
    requires Consistent(c, db, v, dv)
    ensures Consistent(c, EditWallet(db, Some(u), id, data).db, v, dv)
  {
    var r := EditWallet(db, Some(u), id, data);
    forall x | x in r.db.wallets && r.db.wallets[x].owner == v
      ensures Balanced(c, r.db, dv, x)
    {
      BalancedFrame(c, db, r.db, dv, x);
    }
  }

  /** Deleting a wallet with its transactions keeps every user's remaining
      wallets balanced and no row points at the deleted wallet. */
  lemma DeleteWalletPreserves(db: Db, u: Id, id: Id, c: Codec, v: Id, dv: seq<byte>)
    requires Consistent(c, db, v, dv)
    ensures var r := DeleteWallet(db, Some(u), id);
      && Consistent(c, r.db, v, dv)
      && (forall t :: t in r.db.transactions ==> r.db.transactions[t].wallet != id || id in r.db.wallets)
  {
    var r := DeleteWallet(db, Some(u), id);
    forall x | x in r.db.wallets && r.db.wallets[x].owner == v
      ensures Balanced(c, r.db, dv, x)
    {
      BalancedFrame(c, db, r.db, dv, x);
    }
  }
}
