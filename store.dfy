/** The server side of `src/app/actions.ts` as a stateful store: the four
    tables, the `encryption_dek` cookie of the current browser, and one method
    per action that updates them step by step, in the order the action issues
    its reads and writes.  Each method is proved to leave the store exactly as
    the corresponding function of `Session`, `Actions` or `Migration` says, so
    that everything proved about those functions holds of the store. */
module Store {
  import opened Wrappers
  import opened Crypto
  import opened Records
  import opened Session
  import Actions
  import Migration

  class Store {
    /** The cipher and key derivation primitives. */
    const prims: Primitives
    /** `encryptNumber` / `decryptNumber` over those primitives. */
    const cipher: Codec
    /** The `COOKIE_SECRET` environment variable. */
    const cookieSecret: Option<string>

    var users: map<Id, UserRow>
    var wallets: map<Id, Wallet>
    var transactions: map<Id, Transaction>
    var assets: map<Id, Asset>
    /** The `encryption_dek` cookie the requests carry. */
    var cookie: Option<Cookie>

    /** The four tables as one value. */
    function Tables(): (db: Db)
      reads this
      ensures db.users == users && db.wallets == wallets && db.transactions == transactions && db.assets == assets
    {
      Db(users, wallets, transactions, assets)
    }

    /** An empty database and a browser without the cookie. */
    constructor (prims: Primitives, cookieSecret: Option<string>)
      ensures this.prims == prims && this.cookieSecret == cookieSecret && cipher == FieldCodec(prims)
      ensures Tables() == Db(map[], map[], map[], map[]) && cookie == None
    {
      this.prims := prims;
      this.cipher := FieldCodec(prims);
      this.cookieSecret := cookieSecret;
      users, wallets, transactions, assets := map[], map[], map[], map[];
      cookie := None;
    }

    /** `getDEK()`. */
    method GetDek() returns (r: Result<seq<byte>, ActionError>)
      ensures r == Session.GetDek(prims, cookieSecret, cookie)
      ensures cookie.None? ==> r == Failure(SessionExpired)
    {
      if cookie.None? || cookie.value.value == "" {
        return Failure(SessionExpired);
      }
      var key := DecryptFromCookie(prims, cookieSecret, cookie.value.value);
      if key.Failure? {
        return Failure(Crypto(key.error));
      }
      return Success(key.value);
    }

    /** `initEncryptionSession(password)`. */
    method InitEncryptionSession(
      user: Option<Id>, password: string,
      eSalt: Entropy, eDek: Entropy, eWrap: Entropy, eCookie: Entropy) returns (outcome: Outcome<ActionError>)
      modifies this
      ensures var s := InitSession(prims, cookieSecret, old(Tables()), old(cookie), user, password, eSalt, eDek, eWrap, eCookie);
        Tables() == s.db && cookie == s.cookie && outcome == s.outcome
    {
      if !SignedIn(user) {
        return Fail(Unauthorized);
      }
      var u := user.value;
      if u !in users {
        return Fail(UserNotFound);
      }
      var row := users[u];
      var dek: seq<byte>;
      if Provisions(row) {
        // Key material is missing: provision it on this first sign-in.
        var salt := GenerateSalt(eSalt);
        dek := GenerateDek(eDek);
        var kek := DeriveKek(prims, password, salt);
        var wrapped := EncryptDek(prims, dek, kek, eWrap);
        if wrapped.Failure? {
          return Fail(Crypto(wrapped.error));
        }
        users := users[u := UserRow(Some(Base64.Encode(salt)), Some(wrapped.value))];
      } else {
        var salt := Base64.Decode(row.encryptionSalt.value);
        var kek := DeriveKek(prims, password, salt);
        var unwrapped := DecryptDek(prims, row.encryptedDek.value, kek);
        if unwrapped.Failure? {
          return Fail(Crypto(unwrapped.error));
        }
        dek := unwrapped.value;
      }
      var sealed := EncryptForCookie(prims, cookieSecret, dek, eCookie);
      if sealed.Failure? {
        return Fail(Crypto(sealed.error));
      }
      cookie := Some(Cookie(sealed.value, CookieMaxAge));
      return Pass;
    }

    /** `signOutAction()`: the cookie is deleted; the tables are untouched. */
    method SignOut()
      modifies this
      ensures cookie == None && Tables() == old(Tables())
    {
      cookie := None;
    }

    /** `addTransactionAction(data)`. */
    method AddTransaction(
      user: Option<Id>, data: TransactionInput, id: Id, createdAt: string,
      eAmount: Entropy, eBalance: Entropy) returns (outcome: Outcome<ActionError>)
      modifies this
      ensures var s := Actions.AddTransaction(cipher, old(Tables()), user,
        Session.GetDek(prims, cookieSecret, old(cookie)), data, id, createdAt, eAmount, eBalance);
        Tables() == s.db && outcome == s.outcome
      ensures cookie == old(cookie)
    {
      if !SignedIn(user) {
        return Fail(Unauthorized);
      }
      var dekR := GetDek();
      if dekR.Failure? {
        return Fail(dekR.error);
      }
      if !(data.wallet in wallets && wallets[data.wallet].owner == user.value) {
        return Fail(WalletNotFound);
      }
      outcome := InsertTransaction(user.value, dekR.value, data, id, createdAt, eAmount, eBalance);
    }

    /** The writes of `addTransactionAction` once the caller and the wallet are
        known: insert the row, then move the wallet's balance by the amount. */
    method InsertTransaction(
      u: Id, dek: seq<byte>, data: TransactionInput, id: Id, createdAt: string,
      eAmount: Entropy, eBalance: Entropy) returns (outcome: Outcome<ActionError>)
      requires u != "" && data.wallet in wallets && wallets[data.wallet].owner == u
      modifies this
      ensures var s := Actions.AddTransaction(cipher, old(Tables()), Some(u), Success(dek),
        data, id, createdAt, eAmount, eBalance);
        Tables() == s.db && outcome == s.outcome
      ensures cookie == old(cookie)
    {
      ghost var db0 := Tables();
      var current := cipher.decrypt(wallets[data.wallet].balance, dek);
      if current.Failure? {
        return Fail(Crypto(current.error));
      }
      var amount := cipher.encrypt(data.amount, dek, eAmount);
      if amount.Failure? {
        return Fail(Crypto(amount.error));
      }
      if id in transactions {
        return Fail(InsertFailed);
      }
      transactions := transactions[id := Actions.NewTransaction(data, amount.value, createdAt)];
      ghost var db1 := db0.(transactions := transactions);
      assert Tables() == db1;
      var balance := cipher.encrypt(current.value + data.amount, dek, eBalance);
      if balance.Failure? {
        return Fail(Crypto(balance.error));
      }
      wallets := wallets[data.wallet := wallets[data.wallet].(balance := Text(balance.value))];
      assert Tables() == Actions.WithBalance(db1, data.wallet, balance.value);
      return Pass;
    }

    /** `deleteTransactionAction(id)`. */
    method DeleteTransaction(user: Option<Id>, id: Id, eBalance: Entropy) returns (outcome: Outcome<ActionError>)
      modifies this
      ensures var s := Actions.DeleteTransaction(cipher, old(Tables()), user,
        Session.GetDek(prims, cookieSecret, old(cookie)), id, eBalance);
        Tables() == s.db && outcome == s.outcome
      ensures cookie == old(cookie)
    {
      if !SignedIn(user) {
        return Fail(Unauthorized);
      }
      var dekR := GetDek();
      if dekR.Failure? {
        return Fail(dekR.error);
      }
      if !(id in transactions && transactions[id].wallet in wallets && wallets[transactions[id].wallet].owner == user.value) {
        return Pass;
      }
      outcome := RemoveTransaction(user.value, dekR.value, id, eBalance);
    }

    /** The writes of `deleteTransactionAction` on one of the caller's
        transactions: take its amount off the wallet, then remove the row. */
    method RemoveTransaction(u: Id, dek: seq<byte>, id: Id, eBalance: Entropy) returns (outcome: Outcome<ActionError>)
      requires u != "" && id in transactions && transactions[id].wallet in wallets
      requires wallets[transactions[id].wallet].owner == u
      modifies this
      ensures var s := Actions.DeleteTransaction(cipher, old(Tables()), Some(u), Success(dek), id, eBalance);
        Tables() == s.db && outcome == s.outcome
      ensures cookie == old(cookie)
    {
      var tx := transactions[id];
      var walletBalance := cipher.decrypt(wallets[tx.wallet].balance, dek);
      if walletBalance.Failure? {
        return Fail(Crypto(walletBalance.error));
      }
      var amount := cipher.decrypt(tx.amount, dek);
      if amount.Failure? {
        return Fail(Crypto(amount.error));
      }
      var balance := cipher.encrypt(walletBalance.value - amount.value, dek, eBalance);
      if balance.Failure? {
        return Fail(Crypto(balance.error));
      }
      wallets := wallets[tx.wallet := wallets[tx.wallet].(balance := Text(balance.value))];
      transactions := transactions - {id};
      return Pass;
    }

    /** `editTransactionAction(id, data)` as written: only the transaction's
        current wallet is checked to be the caller's. */
    method EditTransaction(
      user: Option<Id>, id: Id, data: TransactionInput,
      eRevert: Entropy, eAmount: Entropy, eBalance: Entropy) returns (outcome: Outcome<ActionError>)
      modifies this
      ensures var s := Actions.EditTransaction(cipher, old(Tables()), user,
        Session.GetDek(prims, cookieSecret, old(cookie)), id, data, eRevert, eAmount, eBalance);
        Tables() == s.db && outcome == s.outcome
      ensures cookie == old(cookie)
    {
      if !SignedIn(user) {
        return Fail(Unauthorized);
      }
      var dekR := GetDek();
      if dekR.Failure? {
        return Fail(dekR.error);
      }
      if !(id in transactions && transactions[id].wallet in wallets && wallets[transactions[id].wallet].owner == user.value) {
        return Pass;
      }
      outcome := MoveTransaction(user.value, dekR.value, id, data, eRevert, eAmount, eBalance);
    }

    /** `editTransactionAction(id, data)` with the destination wallet checked
        to be the caller's too (see `Actions.EditTransactionChecked`). */
    method EditTransactionChecked(
      user: Option<Id>, id: Id, data: TransactionInput,
      eRevert: Entropy, eAmount: Entropy, eBalance: Entropy) returns (outcome: Outcome<ActionError>)
      modifies this
      ensures var s := Actions.EditTransactionChecked(cipher, old(Tables()), user,
        Session.GetDek(prims, cookieSecret, old(cookie)), id, data, eRevert, eAmount, eBalance);
        Tables() == s.db && outcome == s.outcome
      ensures cookie == old(cookie)
    {
      if !SignedIn(user) {
        return Fail(Unauthorized);
      }
      var dekR := GetDek();
      if dekR.Failure? {
        return Fail(dekR.error);
      }
      if !(data.wallet in wallets && wallets[data.wallet].owner == user.value) {
        return Pass;
      }
      if !(id in transactions && transactions[id].wallet in wallets && wallets[transactions[id].wallet].owner == user.value) {
        return Pass;
      }
      outcome := MoveTransaction(user.value, dekR.value, id, data, eRevert, eAmount, eBalance);
    }

    /** The three writes of `editTransactionAction` on one of the caller's
        transactions. */
    method MoveTransaction(
      u: Id, dek: seq<byte>, id: Id, data: TransactionInput,
      eRevert: Entropy, eAmount: Entropy, eBalance: Entropy) returns (outcome: Outcome<ActionError>)
      requires u != "" && id in transactions && transactions[id].wallet in wallets
      requires wallets[transactions[id].wallet].owner == u
      modifies this
      ensures var s := Actions.EditTransaction(cipher, old(Tables()), Some(u), Success(dek), id, data, eRevert, eAmount, eBalance);
        Tables() == s.db && outcome == s.outcome
      ensures cookie == old(cookie)
    {
      outcome := RevertTransaction(dek, id, eRevert);
      if outcome.Fail? {
        return;
      }
      outcome := RewriteTransaction(dek, id, data, eAmount);
      if outcome.Fail? {
        return;
      }
      outcome := CreditWallet(dek, data.wallet, data.amount, eBalance);
    }

    /** Step 1 of `editTransactionAction`: take the old amount off the old wallet. */
    method RevertTransaction(dek: seq<byte>, id: Id, e: Entropy) returns (outcome: Outcome<ActionError>)
      requires id in transactions && transactions[id].wallet in wallets
      modifies this
      ensures var s := Actions.RevertTransaction(cipher, old(Tables()), dek, id, e);
        Tables() == s.db && outcome == s.outcome
      ensures cookie == old(cookie)
    {
      var tx := transactions[id];
      var oldBalance := cipher.decrypt(wallets[tx.wallet].balance, dek);
      if oldBalance.Failure? {
        return Fail(Crypto(oldBalance.error));
      }
      var oldAmount := cipher.decrypt(tx.amount, dek);
      if oldAmount.Failure? {
        return Fail(Crypto(oldAmount.error));
      }
      var reverted := cipher.encrypt(oldBalance.value - oldAmount.value, dek, e);
      if reverted.Failure? {
        return Fail(Crypto(reverted.error));
      }
      wallets := wallets[tx.wallet := wallets[tx.wallet].(balance := Text(reverted.value))];
      return Pass;
    }

    /** Step 2 of `editTransactionAction`: rewrite the transaction from the form. */
    method RewriteTransaction(dek: seq<byte>, id: Id, data: TransactionInput, e: Entropy) returns (outcome: Outcome<ActionError>)
      requires id in transactions
      modifies this
      ensures var s := Actions.RewriteTransaction(cipher, old(Tables()), dek, id, data, e);
        Tables() == s.db && outcome == s.outcome
      ensures cookie == old(cookie)
    {
      var amount := cipher.encrypt(data.amount, dek, e);
      if amount.Failure? {
        return Fail(Crypto(amount.error));
      }
      transactions := transactions[id := Actions.EditedTransaction(transactions[id], data, amount.value)];
      return Pass;
    }

    /** Step 3 of `editTransactionAction`: re-read wallet `w`, if there is one,
        and add `amount` to its balance. */
    method CreditWallet(dek: seq<byte>, w: Id, amount: Number, e: Entropy) returns (outcome: Outcome<ActionError>)
      modifies this
      ensures var s := Actions.CreditWallet(cipher, old(Tables()), dek, w, amount, e);
        Tables() == s.db && outcome == s.outcome
      ensures cookie == old(cookie)
    {
      if w !in wallets {
        return Pass;
      }
      var current := cipher.decrypt(wallets[w].balance, dek);
      if current.Failure? {
        return Fail(Crypto(current.error));
      }
      var updated := cipher.encrypt(current.value + amount, dek, e);
      if updated.Failure? {
        return Fail(Crypto(updated.error));
      }
      wallets := wallets[w := wallets[w].(balance := Text(updated.value))];
      return Pass;
    }

    /** `addWalletAction(data)`. */
    method AddWallet(user: Option<Id>, data: WalletInput, id: Id, createdAt: string, eBalance: Entropy)
      returns (outcome: Outcome<ActionError>)
      modifies this
      ensures var s := Actions.AddWallet(cipher, old(Tables()), user,
        Session.GetDek(prims, cookieSecret, old(cookie)), data, id, createdAt, eBalance);
        Tables() == s.db && outcome == s.outcome
      ensures cookie == old(cookie)
    {
      if !SignedIn(user) {
        return Fail(Unauthorized);
      }
      var dekR := GetDek();
      if dekR.Failure? {
        return Fail(dekR.error);
      }
      var balance := cipher.encrypt(0, dekR.value, eBalance);
      if balance.Failure? {
        return Fail(Crypto(balance.error));
      }
      if id in wallets {
        return Fail(InsertFailed);
      }
      wallets := wallets[id := Wallet(user.value, data.name, data.kind, data.color, data.icon, Text(balance.value), "PLN", createdAt)];
      return Pass;
    }

    /** `editWalletAction(id, data)`. */
    method EditWallet(user: Option<Id>, id: Id, data: WalletInput) returns (outcome: Outcome<ActionError>)
      modifies this
      ensures var s := Actions.EditWallet(old(Tables()), user, id, data);
        Tables() == s.db && outcome == s.outcome
      ensures cookie == old(cookie)
    {
      if !SignedIn(user) {
        return Fail(Unauthorized);
      }
      if id in wallets && wallets[id].owner == user.value {
        wallets := wallets[id := wallets[id].(name := data.name, kind := data.kind, color := data.color, icon := data.icon)];
      }
      return Pass;
    }

    /** `deleteWalletAction(id)`: the wallet's transactions first, then the wallet. */
    method DeleteWallet(user: Option<Id>, id: Id) returns (outcome: Outcome<ActionError>)
      modifies this
      ensures var s := Actions.DeleteWallet(old(Tables()), user, id);
        Tables() == s.db && outcome == s.outcome
      ensures cookie == old(cookie)
    {
      if !SignedIn(user) {
        return Fail(Unauthorized);
      }
      if id in wallets && wallets[id].owner == user.value {
        transactions := map t | t in transactions && transactions[t].wallet != id :: transactions[t];
        wallets := wallets - {id};
      }
      return Pass;
    }
  
    // --- migrateUserDataToEncryption ---

    /** `migrateUserDataToEncryption()`; `walletIds`, `transactionIds` and
        `assetIds` are the rows its three queries return, in that order. */
    method MigrateUserData(
      user: Option<Id>, walletIds: seq<Id>, transactionIds: seq<Id>, assetIds: seq<Id>,
      rng: Migration.Randomness) returns (outcome: Outcome<ActionError>)
      modifies this
      ensures var s := Migration.Migrate(cipher, prims, old(Tables()), user,
        Session.GetDek(prims, cookieSecret, old(cookie)), walletIds, transactionIds, assetIds, rng);
        Tables() == s.db && outcome == s.outcome
      ensures cookie == old(cookie)
    {
      if !SignedIn(user) {
        return Fail(Unauthorized);
      }
      var dekR := GetDek();
      if dekR.Failure? {
        return Fail(dekR.error);
      }
      outcome := MigrateRows(user.value, dekR.value, walletIds, transactionIds, assetIds, rng);
    }

    /** The three loops of the migration, for a signed-in caller with key `dek`. */
    method MigrateRows(
      u: Id, dek: seq<byte>, walletIds: seq<Id>, transactionIds: seq<Id>, assetIds: seq<Id>,
      rng: Migration.Randomness) returns (outcome: Outcome<ActionError>)
      requires u != ""
      modifies this
      ensures var s := Migration.Migrate(cipher, prims, old(Tables()), Some(u), Success(dek),
        walletIds, transactionIds, assetIds, rng);
        Tables() == s.db && outcome == s.outcome
      ensures cookie == old(cookie)
    {
      var swept := MigrateWallets(dek, walletIds, rng);
      if swept.Fail? {
        return Fail(Crypto(swept.error));
      }
      swept := MigrateTransactions(dek, transactionIds, rng);
      if swept.Fail? {
        return Fail(Crypto(swept.error));
      }
      swept := MigrateAssets(dek, assetIds, rng);
      if swept.Fail? {
        return Fail(Crypto(swept.error));
      }
      return Pass;
    }

    /** The wallet loop: every listed balance that is not ciphertext is encrypted. */
    method MigrateWallets(dek: seq<byte>, ids: seq<Id>, rng: Migration.Randomness) returns (outcome: Outcome<CryptoError>)
      modifies this
      ensures var s := Migration.Sweep(old(wallets), ids, Migration.WalletUpgrade(cipher, prims, dek, rng));
        wallets == s.rows && outcome == s.outcome
      ensures users == old(users) && transactions == old(transactions) && assets == old(assets)
      ensures cookie == old(cookie)
    {
      ghost var upgrade := Migration.WalletUpgrade(cipher, prims, dek, rng);
      ghost var goal := Migration.Sweep(wallets, ids, upgrade);
      var i := 0;
      while i < |ids|
        invariant 0 <= i <= |ids|
        invariant Migration.Sweep(wallets, ids[i..], upgrade) == goal
        invariant users == old(users) && transactions == old(transactions) && assets == old(assets)
        invariant cookie == old(cookie)
      {
        var k := ids[i];
        assert ids[i..][1..] == ids[i + 1..];
        if k in wallets && !IsCiphertext(wallets[k].balance) {
          var w := wallets[k];
          var balance := cipher.encrypt(LegacyValue(prims, w.balance), dek, rng(Migration.Balance(k)));
          if balance.Failure? {
            assert upgrade(k, w) == Failure(balance.error);
            return Fail(balance.error);
          }
          assert upgrade(k, w) == Success(Some(w.(balance := Text(balance.value))));
          wallets := wallets[k := w.(balance := Text(balance.value))];
        } else if k in wallets {
          assert Migration.Upgrade(cipher, prims, wallets[k].balance, dek, rng(Migration.Balance(k))) == Success(None);
          assert upgrade(k, wallets[k]) == Success(None);
        }
        i := i + 1;
      }
      return Pass;
    }

    /** The transaction loop: every listed amount that is not ciphertext is encrypted. */
    method MigrateTransactions(dek: seq<byte>, ids: seq<Id>, rng: Migration.Randomness) returns (outcome: Outcome<CryptoError>)
      modifies this
      ensures var s := Migration.Sweep(old(transactions), ids, Migration.TransactionUpgrade(cipher, prims, dek, rng));
        transactions == s.rows && outcome == s.outcome
      ensures users == old(users) && wallets == old(wallets) && assets == old(assets)
      ensures cookie == old(cookie)
    {
      ghost var upgrade := Migration.TransactionUpgrade(cipher, prims, dek, rng);
      ghost var goal := Migration.Sweep(transactions, ids, upgrade);
      var i := 0;
      while i < |ids|
        invariant 0 <= i <= |ids|
        invariant Migration.Sweep(transactions, ids[i..], upgrade) == goal
        invariant users == old(users) && wallets == old(wallets) && assets == old(assets)
        invariant cookie == old(cookie)
      {
        var k := ids[i];
        assert ids[i..][1..] == ids[i + 1..];
        if k in transactions && !IsCiphertext(transactions[k].amount) {
          var t := transactions[k];
          var amount := cipher.encrypt(LegacyValue(prims, t.amount), dek, rng(Migration.Amount(k)));
          if amount.Failure? {
            assert upgrade(k, t) == Failure(amount.error);
            return Fail(amount.error);
          }
          assert upgrade(k, t) == Success(Some(t.(amount := Text(amount.value))));
          transactions := transactions[k := t.(amount := Text(amount.value))];
        } else if k in transactions {
          assert Migration.Upgrade(cipher, prims, transactions[k].amount, dek, rng(Migration.Amount(k))) == Success(None);
          assert upgrade(k, transactions[k]) == Success(None);
        }
        i := i + 1;
      }
      return Pass;
    }

    /** The asset loop: a row is written when one of its figures needed encrypting. */
    method MigrateAssets(dek: seq<byte>, ids: seq<Id>, rng: Migration.Randomness) returns (outcome: Outcome<CryptoError>)
      modifies this
      ensures var s := Migration.Sweep(old(assets), ids, Migration.AssetUpgrade(cipher, prims, dek, rng));
        assets == s.rows && outcome == s.outcome
      ensures users == old(users) && wallets == old(wallets) && transactions == old(transactions)
      ensures cookie == old(cookie)
    {
      ghost var upgrade := Migration.AssetUpgrade(cipher, prims, dek, rng);
      ghost var goal := Migration.Sweep(assets, ids, upgrade);
      var i := 0;
      while i < |ids|
        invariant 0 <= i <= |ids|
        invariant Migration.Sweep(assets, ids[i..], upgrade) == goal
        invariant users == old(users) && wallets == old(wallets) && transactions == old(transactions)
        invariant cookie == old(cookie)
      {
        var k := ids[i];
        assert ids[i..][1..] == ids[i + 1..];
        if k in assets {
          var updated := UpgradeAssetRow(dek, rng, k, assets[k]);
          if updated.Failure? {
            return Fail(updated.error);
          }
          if updated.value.Some? {
            assets := assets[k := updated.value.value];
          }
        }
        i := i + 1;
      }
      return Pass;
    }

    /** One asset of the asset loop: the `updates` record is built column by
        column, and the first encryption that fails ends the migration. */
    method UpgradeAssetRow(dek: seq<byte>, rng: Migration.Randomness, k: Id, a: Asset)
      returns (r: Result<Option<Asset>, CryptoError>)
      ensures r == Migration.UpgradeAsset(cipher, prims, dek, rng, k, a)
    {
      var updates: map<Column, string> := map[];
      for j := 0 to |Columns|
        invariant forall col :: col in updates <==> col in Columns[..j] && !IsCiphertext(ColumnOf(a, col))
        invariant forall col :: col in Columns[..j] ==> ColumnUpgrade(cipher, prims, dek, rng, k, a, col).Success?
        invariant forall col :: col in updates ==> ColumnUpgrade(cipher, prims, dek, rng, k, a, col) == Success(Some(Text(updates[col])))
      {
        var col := Columns[j];
        var val := ColumnOf(a, col);
        if !IsCiphertext(val) {
          var encrypted := cipher.encrypt(LegacyValue(prims, val), dek, rng(SlotOf(k, col)));
          if encrypted.Failure? {
            FirstFailure(cipher, prims, dek, rng, k, a, j);
            return Failure(encrypted.error);
          }
          updates := updates[col := encrypted.value];
        }
      }
      assert Columns[..|Columns|] == Columns;
      AllColumnsSucceed(cipher, prims, dek, rng, k, a, updates);
      if |updates| > 0 {
        return Success(Some(WithUpdates(a, updates)));
      }
      return Success(None);
    }

  }

  /** The three encrypted figures of an asset row (`quantity`,
      `current_price`, `total_value`). */
  datatype Column = QuantityColumn | CurrentPriceColumn | TotalValueColumn

  /** The columns in the order the asset loop visits them. */
  const Columns: seq<Column> := [QuantityColumn, CurrentPriceColumn, TotalValueColumn]

  function ColumnOf(a: Asset, col: Column): Field {
    match col
    case QuantityColumn => a.quantity
    case CurrentPriceColumn => a.currentPrice
    case TotalValueColumn => a.totalValue
  }

  /** Which random bytes the encryption of a figure draws. */
  function SlotOf(k: Id, col: Column): Migration.Slot {
    match col
    case QuantityColumn => Migration.Quantity(k)
    case CurrentPriceColumn => Migration.CurrentPrice(k)
    case TotalValueColumn => Migration.TotalValue(k)
  }

  /** Asset `a` with the `updates` record applied. */
  function WithUpdates(a: Asset, updates: map<Column, string>): (b: Asset)
    ensures b.owner == a.owner
    ensures forall col :: ColumnOf(b, col) == if col in updates then Text(updates[col]) else ColumnOf(a, col)
  {
    a.(quantity := if QuantityColumn in updates then Text(updates[QuantityColumn]) else a.quantity,
       currentPrice := if CurrentPriceColumn in updates then Text(updates[CurrentPriceColumn]) else a.currentPrice,
       totalValue := if TotalValueColumn in updates then Text(updates[TotalValueColumn]) else a.totalValue)
  }

  /** The upgrade of one figure of asset `a`. */
  function ColumnUpgrade(
    c: Codec, p: Primitives, dek: seq<byte>, rng: Migration.Randomness, k: Id, a: Asset, col: Column)
    : Result<Option<Field>, CryptoError>
  {
    Migration.Upgrade(c, p, ColumnOf(a, col), dek, rng(SlotOf(k, col)))
  }

  /** An asset upgrade fails with the error of the first figure whose
      encryption fails. */
  lemma FirstFailure(c: Codec, p: Primitives, dek: seq<byte>, rng: Migration.Randomness, k: Id, a: Asset, j: nat)
    requires j < |Columns|
    requires forall col :: col in Columns[..j] ==> ColumnUpgrade(c, p, dek, rng, k, a, col).Success?
    requires ColumnUpgrade(c, p, dek, rng, k, a, Columns[j]).Failure?
    ensures Migration.UpgradeAsset(c, p, dek, rng, k, a) == Failure(ColumnUpgrade(c, p, dek, rng, k, a, Columns[j]).error)
  {
    if j > 0 {
      assert Columns[0] in Columns[..j];
    }
    if j > 1 {
      assert Columns[1] in Columns[..j];
    }
  }

  /** When every figure's upgrade succeeds, the asset upgrade applies the
      encrypted figures, and leaves the row alone when there are none. */
  lemma AllColumnsSucceed(
    c: Codec, p: Primitives, dek: seq<byte>, rng: Migration.Randomness, k: Id, a: Asset,
    updates: map<Column, string>)
    requires forall col :: col in updates <==> col in Columns && !IsCiphertext(ColumnOf(a, col))
    requires forall col :: col in Columns ==> ColumnUpgrade(c, p, dek, rng, k, a, col).Success?
    requires forall col :: col in updates ==> ColumnUpgrade(c, p, dek, rng, k, a, col) == Success(Some(Text(updates[col])))
    ensures Migration.UpgradeAsset(c, p, dek, rng, k, a) ==
      if |updates| > 0 then Success(Some(WithUpdates(a, updates))) else Success(None)
  {
    forall col | col in Columns
      ensures Migration.Upgraded(ColumnOf(a, col), ColumnUpgrade(c, p, dek, rng, k, a, col).value) == ColumnOf(WithUpdates(a, updates), col)
      ensures ColumnUpgrade(c, p, dek, rng, k, a, col).value.None? <==> col !in updates
    {
    }
    assert QuantityColumn in Columns && CurrentPriceColumn in Columns && TotalValueColumn in Columns;
    if |updates| == 0 {
      assert QuantityColumn !in updates && CurrentPriceColumn !in updates && TotalValueColumn !in updates;
    } else {
      var col :| col in updates;
    }
  }
}
