/** The transaction and wallet actions of `src/app/actions.ts` as functions from
    the tables before to the tables after.  Each takes the signed-in `user`
    (`getUserId()`) and, for the actions that call `getDEK()`, its result
    `dekR`; ids, timestamps and the random bytes of each encryption are
    parameters. */
module Actions {
  import opened Wrappers
  import opened Crypto
  import opened Records
  import opened Ledger

  /** Wallet `w` exists and belongs to `u`. */
  predicate Owns(db: Db, u: Id, w: Id) {
    w in db.wallets && db.wallets[w].owner == u
  }

  /** The row `addTransactionAction` inserts. */
  function NewTransaction(data: TransactionInput, amount: string, createdAt: string): (r: Transaction)
    ensures r.amount == Text(amount) && r.createdAt == createdAt
    ensures EditedTransaction(r, data, amount) == r
  {
    Transaction(data.wallet, Text(amount), data.category, data.description, data.kind, data.date, createdAt)
  }

  /** `wallet` with its balance column replaced. */
  function WithBalance(db: Db, w: Id, balance: string): (r: Db)
    requires w in db.wallets
    ensures r.wallets.Keys == db.wallets.Keys && r.wallets[w].balance == Text(balance)
  {
    db.(wallets := db.wallets[w := db.wallets[w].(balance := Text(balance))])
  }

  // --- Transactions ---

  /** `addTransactionAction(data)`; `id` and `createdAt` are `nanoid()` and the
      clock, `eAmount` and `eBalance` the random bytes of the two encryptions. */
  function AddTransaction(
    c: Codec, db: Db, user: Option<Id>, dekR: Result<seq<byte>, ActionError>,
    data: TransactionInput, id: Id, createdAt: string, eAmount: Entropy, eBalance: Entropy): (r: Step)
    ensures !SignedIn(user) ==> r == Step(db, Fail(Unauthorized))
    ensures SignedIn(user) && dekR.Failure? ==> r == Step(db, Fail(dekR.error))
    ensures SignedIn(user) && dekR.Success? && !Owns(db, user.value, data.wallet) ==> r == Step(db, Fail(WalletNotFound))
    ensures r.outcome.Pass? ==>
      && id !in db.transactions && r.db.transactions.Keys == db.transactions.Keys + {id}
      && r.db.transactions - {id} == db.transactions
      && r.db.transactions[id].wallet == data.wallet && r.db.transactions[id].createdAt == createdAt
    ensures r.db.users == db.users && r.db.assets == db.assets && r.db.wallets.Keys == db.wallets.Keys
    ensures forall x :: x in db.wallets && x != data.wallet ==> r.db.wallets[x] == db.wallets[x]
  {
    if !SignedIn(user) then Step(db, Fail(Unauthorized))
    else if dekR.Failure? then Step(db, Fail(dekR.error))
    else
      var u, dek := user.value, dekR.value;
      if !Owns(db, u, data.wallet) then Step(db, Fail(WalletNotFound))
      else
        var current := c.decrypt(db.wallets[data.wallet].balance, dek);
        if current.Failure? then Step(db, Fail(Crypto(current.error)))
        else
          var amount := c.encrypt(data.amount, dek, eAmount);
          if amount.Failure? then Step(db, Fail(Crypto(amount.error)))
          else if id in db.transactions then Step(db, Fail(InsertFailed))
          else
            var db1 := db.(transactions := db.transactions[id := NewTransaction(data, amount.value, createdAt)]);
            match c.encrypt(current.value + data.amount, dek, eBalance)
            case Failure(e) => Step(db1, Fail(Crypto(e)))
            case Success(balance) => Step(WithBalance(db1, data.wallet, balance), Pass)
  }

  /** `deleteTransactionAction(id)`; `eBalance` feeds the balance encryption.
      Silently does nothing unless the transaction is in one of the caller's wallets. */
  function DeleteTransaction(
    c: Codec, db: Db, user: Option<Id>, dekR: Result<seq<byte>, ActionError>,
    id: Id, eBalance: Entropy): (r: Step)
    ensures !SignedIn(user) ==> r == Step(db, Fail(Unauthorized))
    ensures SignedIn(user) && dekR.Failure? ==> r == Step(db, Fail(dekR.error))
    ensures (SignedIn(user) && dekR.Success? &&
             (id !in db.transactions || !Owns(db, user.value, db.transactions[id].wallet))) ==> r == Step(db, Pass)
    ensures r.db != db ==> id in db.transactions && r.db.transactions == db.transactions - {id}
    ensures r.db.users == db.users && r.db.assets == db.assets && r.db.wallets.Keys == db.wallets.Keys
    ensures forall x :: x in db.wallets && (id !in db.transactions || x != db.transactions[id].wallet) ==>
      r.db.wallets[x] == db.wallets[x]
  {
    if !SignedIn(user) then Step(db, Fail(Unauthorized))
    else if dekR.Failure? then Step(db, Fail(dekR.error))
    else
      var u, dek := user.value, dekR.value;
      if id !in db.transactions || !Owns(db, u, db.transactions[id].wallet) then Step(db, Pass)
      else
        var tx := db.transactions[id];
        var walletBalance := c.decrypt(db.wallets[tx.wallet].balance, dek);
        if walletBalance.Failure? then Step(db, Fail(Crypto(walletBalance.error)))
        else
          var amount := c.decrypt(tx.amount, dek);
          if amount.Failure? then Step(db, Fail(Crypto(amount.error)))
          else
            var balance := c.encrypt(walletBalance.value - amount.value, dek, eBalance);
            if balance.Failure? then Step(db, Fail(Crypto(balance.error)))
            else
              var db1 := WithBalance(db, tx.wallet, balance.value);
              Step(db1.(transactions := db1.transactions - {id}), Pass)
  }

  /** The transaction row after `editTransactionAction`'s update: every column
      but `created_at` comes from the form. */
  function EditedTransaction(tx: Transaction, data: TransactionInput, amount: string): Transaction {
    tx.(amount := Text(amount), category := data.category, description := data.description,
        kind := data.kind, date := data.date, wallet := data.wallet)
  }

  /** `editTransactionAction(id, data)`: take the old amount off the old wallet,
      rewrite the transaction, then re-read the destination wallet (by id only)
      and add the new amount to it.  `eRevert`, `eAmount` and `eBalance` feed
      the three encryptions.  A failure part-way keeps the earlier writes. */
  function EditTransaction(
    c: Codec, db: Db, user: Option<Id>, dekR: Result<seq<byte>, ActionError>,
    id: Id, data: TransactionInput, eRevert: Entropy, eAmount: Entropy, eBalance: Entropy): (r: Step)
    ensures !SignedIn(user) ==> r == Step(db, Fail(Unauthorized))
    ensures SignedIn(user) && dekR.Failure? ==> r == Step(db, Fail(dekR.error))
    ensures (SignedIn(user) && dekR.Success? &&
             (id !in db.transactions || !Owns(db, user.value, db.transactions[id].wallet))) ==> r == Step(db, Pass)
    ensures r.db.transactions.Keys == db.transactions.Keys
    ensures forall t :: t in db.transactions && t != id ==> r.db.transactions[t] == db.transactions[t]
    ensures r.db.users == db.users && r.db.assets == db.assets && r.db.wallets.Keys == db.wallets.Keys
    ensures forall x :: (x in db.wallets && x != data.wallet &&
                         (id !in db.transactions || x != db.transactions[id].wallet)) ==> r.db.wallets[x] == db.wallets[x]
    ensures forall x :: x in db.wallets ==> r.db.wallets[x].owner == db.wallets[x].owner
    ensures id in db.transactions ==>
      r.db.transactions[id] == db.transactions[id] || r.db.transactions[id].wallet == data.wallet
    ensures id in db.transactions ==> r.db.transactions == db.transactions[id := r.db.transactions[id]]
    ensures id in db.transactions && r.db.transactions[id] != db.transactions[id] ==>
      && SignedIn(user) && dekR.Success? && c.encrypt(data.amount, dekR.value, eAmount).Success?
      && r.db.transactions[id] == EditedTransaction(db.transactions[id], data, c.encrypt(data.amount, dekR.value, eAmount).value)
    ensures (SignedIn(user) && dekR.Success? && id in db.transactions &&
             Owns(db, user.value, db.transactions[id].wallet) && r.outcome.Pass?) ==>
      && c.encrypt(data.amount, dekR.value, eAmount).Success?
      && r.db.transactions[id] == EditedTransaction(db.transactions[id], data, c.encrypt(data.amount, dekR.value, eAmount).value)
  {
    if !SignedIn(user) then Step(db, Fail(Unauthorized))
    else if dekR.Failure? then Step(db, Fail(dekR.error))
    else
      var u, dek := user.value, dekR.value;
      if id !in db.transactions || !Owns(db, u, db.transactions[id].wallet) then Step(db, Pass)
      else
        var reverted := RevertTransaction(c, db, dek, id, eRevert);
        if reverted.outcome.Fail? then reverted
        else
          var rewritten := RewriteTransaction(c, reverted.db, dek, id, data, eAmount);
          if rewritten.outcome.Fail? then rewritten
          else CreditWallet(c, rewritten.db, dek, data.wallet, data.amount, eBalance)
  }

  /** Step 1 of `editTransactionAction`: read the old wallet's balance and the
      old amount, and write the balance without that amount.  Nothing is
      written when a read or the encryption fails. */
  function RevertTransaction(c: Codec, db: Db, dek: seq<byte>, id: Id, e: Entropy): (r: Step)
    requires id in db.transactions && db.transactions[id].wallet in db.wallets
    ensures r.outcome.Fail? ==> r.db == db
    ensures r.db.users == db.users && r.db.transactions == db.transactions && r.db.assets == db.assets
    ensures r.db.wallets.Keys == db.wallets.Keys
    ensures forall x :: x in db.wallets && x != db.transactions[id].wallet ==> r.db.wallets[x] == db.wallets[x]
    ensures forall x :: x in db.wallets ==> r.db.wallets[x].owner == db.wallets[x].owner
    ensures r.outcome.Pass? ==>
      var (w, tx) := (db.transactions[id].wallet, db.transactions[id]);
      && c.decrypt(db.wallets[w].balance, dek).Success? && c.decrypt(tx.amount, dek).Success?
      && var difference := c.decrypt(db.wallets[w].balance, dek).value - c.decrypt(tx.amount, dek).value;
         && c.encrypt(difference, dek, e).Success?
         && r.db.wallets[w].balance == Text(c.encrypt(difference, dek, e).value)
  {
    var tx := db.transactions[id];
    var oldBalance := c.decrypt(db.wallets[tx.wallet].balance, dek);
    if oldBalance.Failure? then Step(db, Fail(Crypto(oldBalance.error)))
    else
      var oldAmount := c.decrypt(tx.amount, dek);
      if oldAmount.Failure? then Step(db, Fail(Crypto(oldAmount.error)))
      else
        match c.encrypt(oldBalance.value - oldAmount.value, dek, e)
        case Failure(err) => Step(db, Fail(Crypto(err)))
        case Success(reverted) => Step(WithBalance(db, tx.wallet, reverted), Pass)
  }

  /** Step 2 of `editTransactionAction`: every column of row `id` but
      `created_at` from the form, the amount encrypted. */
  function RewriteTransaction(c: Codec, db: Db, dek: seq<byte>, id: Id, data: TransactionInput, e: Entropy): (r: Step)
    requires id in db.transactions
    ensures r.outcome.Fail? ==> r.db == db
    ensures r.db.users == db.users && r.db.wallets == db.wallets && r.db.assets == db.assets
    ensures id in r.db.transactions && r.db.transactions == db.transactions[id := r.db.transactions[id]]
    ensures r.outcome.Pass? ==>
      && c.encrypt(data.amount, dek, e).Success?
      && r.db.transactions[id] == EditedTransaction(db.transactions[id], data, c.encrypt(data.amount, dek, e).value)
  {
    match c.encrypt(data.amount, dek, e)
    case Failure(err) => Step(db, Fail(Crypto(err)))
    case Success(amount) => Step(db.(transactions := db.transactions[id := EditedTransaction(db.transactions[id], data, amount)]), Pass)
  }

  /** The last step of `editTransactionAction`: if wallet `w` exists, re-read
      its balance and add `amount` to it; only that balance can change. */
  function CreditWallet(c: Codec, db: Db, dek: seq<byte>, w: Id, amount: Number, e: Entropy): (r: Step)
    ensures w !in db.wallets ==> r == Step(db, Pass)
    ensures r.db.users == db.users && r.db.transactions == db.transactions && r.db.assets == db.assets
    ensures r.db.wallets.Keys == db.wallets.Keys
    ensures forall x :: x in db.wallets && x != w ==> r.db.wallets[x] == db.wallets[x]
    ensures forall x :: x in db.wallets ==> r.db.wallets[x].owner == db.wallets[x].owner
    ensures r.outcome.Pass? && w in db.wallets ==>
      && c.decrypt(db.wallets[w].balance, dek).Success?
      && c.encrypt(c.decrypt(db.wallets[w].balance, dek).value + amount, dek, e).Success?
      && r.db.wallets[w].balance == Text(c.encrypt(c.decrypt(db.wallets[w].balance, dek).value + amount, dek, e).value)
  {
    if w !in db.wallets then Step(db, Pass)
    else
      var current := c.decrypt(db.wallets[w].balance, dek);
      if current.Failure? then Step(db, Fail(Crypto(current.error)))
      else
        match c.encrypt(current.value + amount, dek, e)
        case Failure(err) => Step(db, Fail(Crypto(err)))
        case Success(updated) => Step(WithBalance(db, w, updated), Pass)
  }

  /** `editTransactionAction` with the check it leaves out: the destination
      wallet must belong to the caller too, as `addTransactionAction` demands
      of its wallet; otherwise, as for a foreign transaction, nothing happens. */
  function EditTransactionChecked(
    c: Codec, db: Db, user: Option<Id>, dekR: Result<seq<byte>, ActionError>,
    id: Id, data: TransactionInput, eRevert: Entropy, eAmount: Entropy, eBalance: Entropy): (r: Step)
    ensures SignedIn(user) && dekR.Success? && !Owns(db, user.value, data.wallet) ==> r == Step(db, Pass)
    ensures r.db != db ==> SignedIn(user) && Owns(db, user.value, data.wallet)
    ensures SignedIn(user) && dekR.Success? && Owns(db, user.value, data.wallet) ==>
      r == EditTransaction(c, db, user, dekR, id, data, eRevert, eAmount, eBalance)
  {
    if SignedIn(user) && dekR.Success? && !Owns(db, user.value, data.wallet) then Step(db, Pass)
    else EditTransaction(c, db, user, dekR, id, data, eRevert, eAmount, eBalance)
  }

  /** `editTransactionAction` against a database with a foreign key from
      `transactions.wallet_id` to `wallets`: when the destination does not
      exist, the update of step 2 is refused after its amount was encrypted,
      the action ignores the error, and step 3 finds no wallet to credit. */
  function EditTransactionKeyed(
    c: Codec, db: Db, user: Option<Id>, dekR: Result<seq<byte>, ActionError>,
    id: Id, data: TransactionInput, eRevert: Entropy, eAmount: Entropy, eBalance: Entropy): (r: Step)
    ensures data.wallet in db.wallets ==> r == EditTransaction(c, db, user, dekR, id, data, eRevert, eAmount, eBalance)
    ensures data.wallet !in db.wallets ==> r.db.transactions == db.transactions
    ensures (data.wallet !in db.wallets && SignedIn(user) && dekR.Success? && id in db.transactions &&
             Owns(db, user.value, db.transactions[id].wallet)) ==>
      r.db == RevertTransaction(c, db, dekR.value, id, eRevert).db
  {
    if data.wallet in db.wallets || !SignedIn(user) || dekR.Failure? || id !in db.transactions
       || !Owns(db, user.value, db.transactions[id].wallet)
    then EditTransaction(c, db, user, dekR, id, data, eRevert, eAmount, eBalance)
    else
      var reverted := RevertTransaction(c, db, dekR.value, id, eRevert);
      if reverted.outcome.Fail? then reverted
      else
        match c.encrypt(data.amount, dekR.value, eAmount)
        case Failure(err) => Step(reverted.db, Fail(Crypto(err)))
        case Success(_) => Step(reverted.db, Pass)
  }

  // --- Wallets ---

  /** `addWalletAction(data)`: a new złoty wallet owned by the caller whose
      balance is an encrypted 0; `eBalance` feeds that encryption. */
  function AddWallet(
    c: Codec, db: Db, user: Option<Id>, dekR: Result<seq<byte>, ActionError>,
    data: WalletInput, id: Id, createdAt: string, eBalance: Entropy): (r: Step)
    ensures !SignedIn(user) ==> r == Step(db, Fail(Unauthorized))
    ensures SignedIn(user) && dekR.Failure? ==> r == Step(db, Fail(dekR.error))
    ensures r.outcome.Pass? ==>
      && id !in db.wallets && r.db.wallets - {id} == db.wallets && id in r.db.wallets
      && var w := r.db.wallets[id];
         w.owner == user.value && w.name == data.name && w.kind == data.kind && w.color == data.color
         && w.icon == data.icon && w.currency == "PLN" && w.createdAt == createdAt
         && c.encrypt(0, dekR.value, eBalance).Success?
         && w.balance == Text(c.encrypt(0, dekR.value, eBalance).value)
    ensures SignedIn(user) && dekR.Success? ==>
      (r.outcome.Pass? <==> c.encrypt(0, dekR.value, eBalance).Success? && id !in db.wallets)
    ensures r.outcome.Fail? ==> r.db == db
    ensures r.db.users == db.users && r.db.transactions == db.transactions && r.db.assets == db.assets
  {
    if !SignedIn(user) then Step(db, Fail(Unauthorized))
    else if dekR.Failure? then Step(db, Fail(dekR.error))
    else
      var balance := c.encrypt(0, dekR.value, eBalance);
      if balance.Failure? then Step(db, Fail(Crypto(balance.error)))
      else if id in db.wallets then Step(db, Fail(InsertFailed))
      else
        var w := Wallet(user.value, data.name, data.kind, data.color, data.icon, Text(balance.value), "PLN", createdAt);
        Step(db.(wallets := db.wallets[id := w]), Pass)
  }

  /** `editWalletAction(id, data)`: only name, type, colour and icon change,
      and only on the caller's own wallet. */
  function EditWallet(db: Db, user: Option<Id>, id: Id, data: WalletInput): (r: Step)
    ensures !SignedIn(user) ==> r == Step(db, Fail(Unauthorized))
    ensures SignedIn(user) && !Owns(db, user.value, id) ==> r == Step(db, Pass)
    ensures SignedIn(user) ==> r.outcome == Pass
    ensures r.db.users == db.users && r.db.transactions == db.transactions && r.db.assets == db.assets
    ensures r.db.wallets.Keys == db.wallets.Keys
    ensures forall x :: x in db.wallets && x != id ==> r.db.wallets[x] == db.wallets[x]
    ensures id in db.wallets ==>
      var (before, after) := (db.wallets[id], r.db.wallets[id]);
      && after.owner == before.owner && after.balance == before.balance
      && after.currency == before.currency && after.createdAt == before.createdAt
    ensures SignedIn(user) && Owns(db, user.value, id) ==>
      r.db.wallets[id] == db.wallets[id].(name := data.name, kind := data.kind, color := data.color, icon := data.icon)
  {
    if !SignedIn(user) then Step(db, Fail(Unauthorized))
    else if !Owns(db, user.value, id) then Step(db, Pass)
    else
      var w := db.wallets[id].(name := data.name, kind := data.kind, color := data.color, icon := data.icon);
      Step(db.(wallets := db.wallets[id := w]), Pass)
  }

  /** `deleteWalletAction(id)`: the wallet's transactions first, then the wallet. */
  function DeleteWallet(db: Db, user: Option<Id>, id: Id): (r: Step)
    ensures !SignedIn(user) ==> r == Step(db, Fail(Unauthorized))
    ensures SignedIn(user) && !Owns(db, user.value, id) ==> r == Step(db, Pass)
    ensures SignedIn(user) ==> r.outcome == Pass
    ensures r.db.users == db.users && r.db.assets == db.assets
    ensures SignedIn(user) && Owns(db, user.value, id) ==>
      && r.db.wallets == db.wallets - {id}
      && (forall t :: t in r.db.transactions <==> t in db.transactions && db.transactions[t].wallet != id)
    ensures forall t :: t in r.db.transactions ==> t in db.transactions && r.db.transactions[t] == db.transactions[t]
  {
    if !SignedIn(user) then Step(db, Fail(Unauthorized))
    else if !Owns(db, user.value, id) then Step(db, Pass)
    else
      var kept := map t | t in db.transactions && db.transactions[t].wallet != id :: db.transactions[t];
      Step(db.(transactions := kept, wallets := db.wallets - {id}), Pass)
  }
}
