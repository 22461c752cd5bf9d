/** `migrateUserDataToEncryption()` of `src/app/actions.ts`: the caller's
    wallet balances, transaction amounts and asset figures that are still
    plain numbers are encrypted under the session key, one row at a time, in
    the order the queries return the rows.  The first encryption that fails
    ends the migration; the rows written before it stay written. */
module Migration {
  import opened Wrappers
  import opened Crypto
  import opened Records
  import opened Ledger

  /** The column an encryption of the migration is for; each draws its own
      random bytes. */
  datatype Slot =
    | Balance(wallet: Id)
    | Amount(transaction: Id)
    | Quantity(asset: Id)
    | CurrentPrice(asset: Id)
    | TotalValue(asset: Id)

  /** The random bytes of every encryption the migration may make. */
  type Randomness = Slot -> Entropy

  // --- One loop of the migration ---

  /** What a row upgrade says: the row is left alone (`None`), rewritten, or
      its encryption failed. */
  type Upgrader<!T> = (Id, T) -> Result<Option<T>, CryptoError>

  /** A table after one loop, and whether the loop ran to the end. */
  datatype Swept<T> = Swept(rows: map<Id, T>, outcome: Outcome<CryptoError>)

  /** One `for` loop of the migration over the rows `ids` of `rows`. */
  function Sweep<T>(rows: map<Id, T>, ids: seq<Id>, upgrade: Upgrader<T>): (r: Swept<T>)
    ensures r.rows.Keys == rows.Keys
    ensures forall k :: k in rows && k !in ids ==> r.rows[k] == rows[k]
    decreases |ids|
  {
    if ids == [] then Swept(rows, Pass)
    else
      var k := ids[0];
      if k !in rows then Sweep(rows, ids[1..], upgrade)
      else
        match upgrade(k, rows[k])
        case Failure(err) => Swept(rows, Fail(err))
        case Success(None) => Sweep(rows, ids[1..], upgrade)
        case Success(Some(row)) => Sweep(rows[k := row], ids[1..], upgrade)
  }

  /** A property of rows that every rewrite keeps. */
  ghost predicate Keeps<T(!new)>(upgrade: Upgrader<T>, inv: (Id, T) -> bool) {
    forall k, row :: inv(k, row) && upgrade(k, row).Success? && upgrade(k, row).value.Some? ==>
      inv(k, upgrade(k, row).value.value)
  }

  /** A property every row has before a loop, and every rewrite keeps, every
      row has after it, however far the loop got. */
  lemma {:induction false} SweepKeeps<T(!new)>(rows: map<Id, T>, ids: seq<Id>, upgrade: Upgrader<T>, inv: (Id, T) -> bool)
    requires Keeps(upgrade, inv)
    requires forall k :: k in rows ==> inv(k, rows[k])
    ensures forall k :: k in Sweep(rows, ids, upgrade).rows ==> inv(k, Sweep(rows, ids, upgrade).rows[k])
    decreases |ids|
  {
    if ids != [] {
      var j := ids[0];
      if j !in rows {
        SweepKeeps(rows, ids[1..], upgrade, inv);
      } else {
        match upgrade(j, rows[j])
        case Failure(_) =>
        case Success(None) =>
          SweepKeeps(rows, ids[1..], upgrade, inv);
        case Success(Some(row)) =>
          assert inv(j, row);
          SweepKeeps(rows[j := row], ids[1..], upgrade, inv);
      }
    }
  }

  /** A loop over rows that all need nothing changes nothing. */
  lemma {:induction false} SweepIdle<T>(rows: map<Id, T>, ids: seq<Id>, upgrade: Upgrader<T>)
    requires forall k :: k in ids && k in rows ==> upgrade(k, rows[k]) == Success(None)
    ensures Sweep(rows, ids, upgrade) == Swept(rows, Pass)
    decreases |ids|
  {
    if ids != [] {
      SweepIdle(rows, ids[1..], upgrade);
    }
  }

  /** When every upgrade succeeds, leaves alone only rows that are done and
      makes every row it rewrites done, the loop runs to the end and every
      listed row is done. */
  lemma {:induction false} SweepFinishes<T>(rows: map<Id, T>, ids: seq<Id>, upgrade: Upgrader<T>, done: (Id, T) -> bool)
    requires forall k, row :: upgrade(k, row).Success?
    requires forall k, row :: upgrade(k, row) == Success(None) ==> done(k, row)
    requires forall k, row :: upgrade(k, row).Success? && upgrade(k, row).value.Some? ==>
      done(k, upgrade(k, row).value.value)
    ensures var r := Sweep(rows, ids, upgrade);
      && r.outcome == Pass
      && forall k :: k in ids && k in rows ==> done(k, r.rows[k])
    decreases |ids|
  {
    if ids != [] {
      var k := ids[0];
      if k !in rows {
        SweepFinishes(rows, ids[1..], upgrade, done);
      } else {
        match upgrade(k, rows[k])
        case Success(None) =>
          SweepFinishes(rows, ids[1..], upgrade, done);
        case Success(Some(row)) =>
          SweepFinishes(rows[k := row], ids[1..], upgrade, done);
      }
    }
  }

  /** When no upgrade can rewrite a row, the loop writes nothing, and it fails
      exactly when some listed row's upgrade fails. */
  lemma {:induction false} SweepWrites<T>(rows: map<Id, T>, ids: seq<Id>, upgrade: Upgrader<T>)
    requires forall k, row :: !(upgrade(k, row).Success? && upgrade(k, row).value.Some?)
    ensures var r := Sweep(rows, ids, upgrade);
      && r.rows == rows
      && (r.outcome.Fail? <==> exists k :: k in ids && k in rows && upgrade(k, rows[k]).Failure?)
    decreases |ids|
  {
    if ids != [] {
      SweepWrites(rows, ids[1..], upgrade);
      var k := ids[0];
      if k in rows && upgrade(k, rows[k]).Failure? {
        assert k in ids;
      } else {
        assert forall j :: j in ids ==> j == k || j in ids[1..];
      }
    }
  }

  // --- The columns ---

  /** One column: ciphertext is skipped (`None`); a legacy value, a number or
      a numeric string, is parsed and encrypted. */
  function Upgrade(c: Codec, p: Primitives, f: Field, dek: seq<byte>, e: Entropy): (r: Result<Option<Field>, CryptoError>)
    ensures IsCiphertext(f) <==> r == Success(None)
    ensures r.Failure? <==> !IsCiphertext(f) && c.encrypt(LegacyValue(p, f), dek, e).Failure?
  {
    if IsCiphertext(f) then Success(None)
    else
      match c.encrypt(LegacyValue(p, f), dek, e)
      case Failure(err) => Failure(err)
      case Success(text) => Success(Some(Text(text)))
  }

  /** The column after an upgrade. */
  function Upgraded(f: Field, u: Option<Field>): Field {
    if u.Some? then u.value else f
  }

  /** Under a lawful codec an upgrade succeeds exactly under a 256-bit key,
      yields ciphertext, and reads back as the value the column stood for. */
  lemma UpgradeReadsBack(c: Codec, p: Primitives, f: Field, dek: seq<byte>, e: Entropy)
    requires Lawful(c, p) && RoundTrips(c)
    ensures var u := Upgrade(c, p, f, dek, e);
      && (u.Success? <==> IsCiphertext(f) || |dek| == KeyLength)
      && (u.Success? ==> IsCiphertext(Upgraded(f, u.value)))
      && (u.Success? ==> c.decrypt(Upgraded(f, u.value), dek) == c.decrypt(f, dek))
  {
  }

  /** The wallet loop's row upgrade. */
  function WalletUpgrade(c: Codec, p: Primitives, dek: seq<byte>, rng: Randomness): Upgrader<Wallet> {
    (k: Id, w: Wallet) =>
      match Upgrade(c, p, w.balance, dek, rng(Balance(k)))
      case Failure(err) => Failure(err)
      case Success(None) => Success(None)
      case Success(Some(f)) => Success(Some(w.(balance := f)))
  }

  /** The transaction loop's row upgrade. */
  function TransactionUpgrade(c: Codec, p: Primitives, dek: seq<byte>, rng: Randomness): Upgrader<Transaction> {
    (k: Id, t: Transaction) =>
      match Upgrade(c, p, t.amount, dek, rng(Amount(k)))
      case Failure(err) => Failure(err)
      case Success(None) => Success(None)
      case Success(Some(f)) => Success(Some(t.(amount := f)))
  }

  /** The asset loop's row upgrade: the three columns in order; the row is
      written only when one of them needed encrypting (`updates` not empty). */
  function UpgradeAsset(c: Codec, p: Primitives, dek: seq<byte>, rng: Randomness, k: Id, a: Asset): (r: Result<Option<Asset>, CryptoError>)
    ensures (r == Success(None)) <==>
      IsCiphertext(a.quantity) && IsCiphertext(a.currentPrice) && IsCiphertext(a.totalValue)
  {
    var quantity :- Upgrade(c, p, a.quantity, dek, rng(Quantity(k)));
    var price :- Upgrade(c, p, a.currentPrice, dek, rng(CurrentPrice(k)));
    var total :- Upgrade(c, p, a.totalValue, dek, rng(TotalValue(k)));
    if quantity.None? && price.None? && total.None? then Success(None)
    else
      Success(Some(a.(quantity := Upgraded(a.quantity, quantity),
                      currentPrice := Upgraded(a.currentPrice, price),
                      totalValue := Upgraded(a.totalValue, total))))
  }

  function AssetUpgrade(c: Codec, p: Primitives, dek: seq<byte>, rng: Randomness): Upgrader<Asset> {
    (k: Id, a: Asset) => UpgradeAsset(c, p, dek, rng, k, a)
  }

  // --- The action ---

  /** `migrateUserDataToEncryption()`, with the rows of its three queries in
      the order they come back. */
  function Migrate(
    c: Codec, p: Primitives, db: Db, user: Option<Id>, dekR: Result<seq<byte>, ActionError>,
    wallets: seq<Id>, transactions: seq<Id>, assets: seq<Id>, rng: Randomness): (r: Step)
    ensures !SignedIn(user) ==> r == Step(db, Fail(Unauthorized))
    ensures SignedIn(user) && dekR.Failure? ==> r == Step(db, Fail(dekR.error))
    ensures r.db.users == db.users
    ensures r.db.wallets.Keys == db.wallets.Keys && r.db.transactions.Keys == db.transactions.Keys
    ensures r.db.assets.Keys == db.assets.Keys
    ensures forall x :: x in db.wallets && x !in wallets ==> r.db.wallets[x] == db.wallets[x]
    ensures forall t :: t in db.transactions && t !in transactions ==> r.db.transactions[t] == db.transactions[t]
    ensures forall a :: a in db.assets && a !in assets ==> r.db.assets[a] == db.assets[a]
  {
    if !SignedIn(user) then Step(db, Fail(Unauthorized))
    else if dekR.Failure? then Step(db, Fail(dekR.error))
    else
      var dek := dekR.value;
      var s1 := Sweep(db.wallets, wallets, WalletUpgrade(c, p, dek, rng));
      var db1 := db.(wallets := s1.rows);
      if s1.outcome.Fail? then Step(db1, Fail(Crypto(s1.outcome.error)))
      else
        var s2 := Sweep(db.transactions, transactions, TransactionUpgrade(c, p, dek, rng));
        var db2 := db1.(transactions := s2.rows);
        if s2.outcome.Fail? then Step(db2, Fail(Crypto(s2.outcome.error)))
        else
          var s3 := Sweep(db.assets, assets, AssetUpgrade(c, p, dek, rng));
          var db3 := db2.(assets := s3.rows);
          if s3.outcome.Fail? then Step(db3, Fail(Crypto(s3.outcome.error)))
          else Step(db3, Pass)
  }

  // --- What the migration promises ---

  /** The three queries return exactly the caller's wallets, the transactions
      of those wallets and the caller's assets. */
  ghost predicate Queried(db: Db, u: Id, wallets: seq<Id>, transactions: seq<Id>, assets: seq<Id>): (b: bool)
    ensures b ==> forall t :: t in transactions ==>
      t in db.transactions && db.transactions[t].wallet in db.wallets
      && db.wallets[db.transactions[t].wallet].owner == u
    ensures b ==> forall t ::
      (t in db.transactions && db.transactions[t].wallet in db.wallets
       && db.wallets[db.transactions[t].wallet].owner == u) ==> t in transactions
  {
    && (forall w :: w in wallets <==> w in db.wallets && db.wallets[w].owner == u)
    && (forall t :: t in transactions <==>
          t in db.transactions && db.transactions[t].wallet in db.wallets
          && db.transactions[t].wallet in wallets)
    && (forall a :: a in assets <==> a in db.assets && db.assets[a].owner == u)
  }

  /** Every numeric column of the caller's rows is ciphertext. */
  ghost predicate Encrypted(db: Db, wallets: seq<Id>, transactions: seq<Id>, assets: seq<Id>) {
    && (forall w :: w in wallets && w in db.wallets ==> IsCiphertext(db.wallets[w].balance))
    && (forall t :: t in transactions && t in db.transactions ==> IsCiphertext(db.transactions[t].amount))
    && (forall a :: a in assets && a in db.assets ==>
          IsCiphertext(db.assets[a].quantity) && IsCiphertext(db.assets[a].currentPrice)
          && IsCiphertext(db.assets[a].totalValue))
  }

  /** The three loops of a signed-in migration: each table is the one its
      loop leaves, once the loops before it ran to the end, and is untouched
      otherwise. */
  lemma MigrateStages(
    c: Codec, p: Primitives, db: Db, u: Id, dek: seq<byte>,
    wallets: seq<Id>, transactions: seq<Id>, assets: seq<Id>, rng: Randomness)
    requires u != ""
    ensures var r := Migrate(c, p, db, Some(u), Success(dek), wallets, transactions, assets, rng);
      var s1 := Sweep(db.wallets, wallets, WalletUpgrade(c, p, dek, rng));
      var s2 := Sweep(db.transactions, transactions, TransactionUpgrade(c, p, dek, rng));
      var s3 := Sweep(db.assets, assets, AssetUpgrade(c, p, dek, rng));
      && r.db.wallets == s1.rows
      && r.db.transactions == (if s1.outcome.Pass? then s2.rows else db.transactions)
      && r.db.assets == (if s1.outcome.Pass? && s2.outcome.Pass? then s3.rows else db.assets)
      && (r.outcome.Pass? <==> s1.outcome.Pass? && s2.outcome.Pass? && s3.outcome.Pass?)
  {
    var r := Migrate(c, p, db, Some(u), Success(dek), wallets, transactions, assets, rng);
    var s1 := Sweep(db.wallets, wallets, WalletUpgrade(c, p, dek, rng));
    var s2 := Sweep(db.transactions, transactions, TransactionUpgrade(c, p, dek, rng));
    var s3 := Sweep(db.assets, assets, AssetUpgrade(c, p, dek, rng));
    var db1 := db.(wallets := s1.rows);
    if s1.outcome.Fail? {
      assert r == Step(db1, Fail(Crypto(s1.outcome.error)));
    } else if s2.outcome.Fail? {
      assert r == Step(db1.(transactions := s2.rows), Fail(Crypto(s2.outcome.error)));
    } else {
      assert r.db == db1.(transactions := s2.rows, assets := s3.rows);
    }
  }

  /** The wallet rows that still agree with `db`: same owner, same balance
      under `dek`. */
  function WalletKept(c: Codec, db: Db, dek: seq<byte>): (Id, Wallet) -> bool {
    (k: Id, w: Wallet) =>
      k in db.wallets && w.owner == db.wallets[k].owner
      && c.decrypt(w.balance, dek) == c.decrypt(db.wallets[k].balance, dek)
  }

  /** The transaction rows that still agree with `db`: same wallet, same
      amount under `dek`. */
  function TransactionKept(c: Codec, db: Db, dek: seq<byte>): (Id, Transaction) -> bool {
    (k: Id, t: Transaction) =>
      k in db.transactions && t.wallet == db.transactions[k].wallet
      && c.decrypt(t.amount, dek) == c.decrypt(db.transactions[k].amount, dek)
  }

  /** The asset rows that still agree with `db`: same owner, same three
      figures under `dek`. */
  function AssetKept(c: Codec, db: Db, dek: seq<byte>): (Id, Asset) -> bool {
    (k: Id, a: Asset) =>
      k in db.assets && a.owner == db.assets[k].owner
      && c.decrypt(a.quantity, dek) == c.decrypt(db.assets[k].quantity, dek)
      && c.decrypt(a.currentPrice, dek) == c.decrypt(db.assets[k].currentPrice, dek)
      && c.decrypt(a.totalValue, dek) == c.decrypt(db.assets[k].totalValue, dek)
  }

  /** A wallet upgrade only rewrites the balance, to a column that reads the same under `dek`. */
  lemma WalletUpgradeKeeps(c: Codec, p: Primitives, dek: seq<byte>, rng: Randomness, db: Db)
    requires Lawful(c, p) && RoundTrips(c)
    ensures Keeps(WalletUpgrade(c, p, dek, rng), WalletKept(c, db, dek))
  {
    forall k: Id, w: Wallet | WalletUpgrade(c, p, dek, rng)(k, w).Success?
      ensures var u := Upgrade(c, p, w.balance, dek, rng(Balance(k)));
        u.Success? && (u.value.Some? ==> c.decrypt(u.value.value, dek) == c.decrypt(w.balance, dek))
    {
      UpgradeReadsBack(c, p, w.balance, dek, rng(Balance(k)));
    }
  }

  /** A transaction upgrade only rewrites the amount, to a column that reads the same under `dek`. */
  lemma TransactionUpgradeKeeps(c: Codec, p: Primitives, dek: seq<byte>, rng: Randomness, db: Db)
    requires Lawful(c, p) && RoundTrips(c)
    ensures Keeps(TransactionUpgrade(c, p, dek, rng), TransactionKept(c, db, dek))
  {
    forall k: Id, t: Transaction | TransactionUpgrade(c, p, dek, rng)(k, t).Success?
      ensures var u := Upgrade(c, p, t.amount, dek, rng(Amount(k)));
        u.Success? && (u.value.Some? ==> c.decrypt(u.value.value, dek) == c.decrypt(t.amount, dek))
    {
      UpgradeReadsBack(c, p, t.amount, dek, rng(Amount(k)));
    }
  }

  /** Whatever the key, the migration keeps every row's owner and every
      transaction's wallet, and every column reads under the caller's key as
      it did before, however far it got. */
  lemma MigrateKeepsValues(
    c: Codec, p: Primitives, db: Db, u: Id, dek: seq<byte>,
    wallets: seq<Id>, transactions: seq<Id>, assets: seq<Id>, rng: Randomness)
    requires Lawful(c, p) && RoundTrips(c)
    ensures var r := Migrate(c, p, db, Some(u), Success(dek), wallets, transactions, assets, rng);
      && (forall x :: x in db.wallets ==> WalletKept(c, db, dek)(x, r.db.wallets[x]))
      && (forall t :: t in db.transactions ==> TransactionKept(c, db, dek)(t, r.db.transactions[t]))
      && (forall a :: a in db.assets ==> AssetKept(c, db, dek)(a, r.db.assets[a]))
  {
    if u != "" {
      MigrateStages(c, p, db, u, dek, wallets, transactions, assets, rng);
      WalletUpgradeKeeps(c, p, dek, rng, db);
      TransactionUpgradeKeeps(c, p, dek, rng, db);
      SweepKeeps(db.wallets, wallets, WalletUpgrade(c, p, dek, rng), WalletKept(c, db, dek));
      SweepKeeps(db.transactions, transactions, TransactionUpgrade(c, p, dek, rng), TransactionKept(c, db, dek));
      AssetUpgradeKeeps(c, p, dek, rng, db);
      SweepKeeps(db.assets, assets, AssetUpgrade(c, p, dek, rng), AssetKept(c, db, dek));
    }
  }

  /** An asset upgrade only rewrites the three figures, to columns that read
      the same under `dek`. */
  lemma AssetUpgradeKeeps(c: Codec, p: Primitives, dek: seq<byte>, rng: Randomness, db: Db)
    requires Lawful(c, p) && RoundTrips(c)
    ensures Keeps(AssetUpgrade(c, p, dek, rng), AssetKept(c, db, dek))
  {
    forall k: Id, a: Asset | AssetUpgrade(c, p, dek, rng)(k, a).Success?
      ensures var r := UpgradeAsset(c, p, dek, rng, k, a);
        r.value.Some? ==>
          && r.value.value.owner == a.owner
          && c.decrypt(r.value.value.quantity, dek) == c.decrypt(a.quantity, dek)
          && c.decrypt(r.value.value.currentPrice, dek) == c.decrypt(a.currentPrice, dek)
          && c.decrypt(r.value.value.totalValue, dek) == c.decrypt(a.totalValue, dek)
    {
      UpgradeReadsBack(c, p, a.quantity, dek, rng(Quantity(k)));
      UpgradeReadsBack(c, p, a.currentPrice, dek, rng(CurrentPrice(k)));
      UpgradeReadsBack(c, p, a.totalValue, dek, rng(TotalValue(k)));
    }
  }

  /** Under a lawful codec and a 256-bit key every upgrade succeeds and leaves
      its column ciphertext. */
  lemma UpgradeEncrypts(c: Codec, p: Primitives, f: Field, dek: seq<byte>, e: Entropy)
    requires Lawful(c, p) && |dek| == KeyLength
    ensures Upgrade(c, p, f, dek, e).Success?
    ensures IsCiphertext(Upgraded(f, Upgrade(c, p, f, dek, e).value))
  {
  }

  /** With a 256-bit session key the migration runs to the end and leaves
      every listed column ciphertext. */
  lemma MigrateEncrypts(
    c: Codec, p: Primitives, db: Db, u: Id, dek: seq<byte>,
    wallets: seq<Id>, transactions: seq<Id>, assets: seq<Id>, rng: Randomness)
    requires Lawful(c, p) && u != "" && |dek| == KeyLength
    ensures var r := Migrate(c, p, db, Some(u), Success(dek), wallets, transactions, assets, rng);
      r.outcome == Pass && Encrypted(r.db, wallets, transactions, assets)
  {
    MigrateStages(c, p, db, u, dek, wallets, transactions, assets, rng);
    forall k: Id, w: Wallet ensures Upgrade(c, p, w.balance, dek, rng(Balance(k))).Success?
      && IsCiphertext(Upgraded(w.balance, Upgrade(c, p, w.balance, dek, rng(Balance(k))).value))
    {
      UpgradeEncrypts(c, p, w.balance, dek, rng(Balance(k)));
    }
    SweepFinishes(db.wallets, wallets, WalletUpgrade(c, p, dek, rng),
      (k: Id, w: Wallet) => IsCiphertext(w.balance));
    forall k: Id, t: Transaction ensures Upgrade(c, p, t.amount, dek, rng(Amount(k))).Success?
      && IsCiphertext(Upgraded(t.amount, Upgrade(c, p, t.amount, dek, rng(Amount(k))).value))
    {
      UpgradeEncrypts(c, p, t.amount, dek, rng(Amount(k)));
    }
    SweepFinishes(db.transactions, transactions, TransactionUpgrade(c, p, dek, rng),
      (k: Id, t: Transaction) => IsCiphertext(t.amount));
    forall k: Id, a: Asset ensures AssetUpgrade(c, p, dek, rng)(k, a).Success?
      && (AssetUpgrade(c, p, dek, rng)(k, a).value.Some? ==>
            var b := AssetUpgrade(c, p, dek, rng)(k, a).value.value;
            IsCiphertext(b.quantity) && IsCiphertext(b.currentPrice) && IsCiphertext(b.totalValue))
    {
      UpgradeEncrypts(c, p, a.quantity, dek, rng(Quantity(k)));
      UpgradeEncrypts(c, p, a.currentPrice, dek, rng(CurrentPrice(k)));
      UpgradeEncrypts(c, p, a.totalValue, dek, rng(TotalValue(k)));
    }
    SweepFinishes(db.assets, assets, AssetUpgrade(c, p, dek, rng),
      (k: Id, a: Asset) => IsCiphertext(a.quantity) && IsCiphertext(a.currentPrice) && IsCiphertext(a.totalValue));
  }

  /** A migration over rows that are all ciphertext writes nothing and succeeds. */
  lemma MigrateIdle(
    c: Codec, p: Primitives, db: Db, u: Id, dek: seq<byte>,
    wallets: seq<Id>, transactions: seq<Id>, assets: seq<Id>, rng: Randomness)
    requires u != "" && Encrypted(db, wallets, transactions, assets)
    ensures Migrate(c, p, db, Some(u), Success(dek), wallets, transactions, assets, rng) == Step(db, Pass)
  {
    forall k | k in wallets && k in db.wallets
      ensures WalletUpgrade(c, p, dek, rng)(k, db.wallets[k]) == Success(None)
    {
      assert Upgrade(c, p, db.wallets[k].balance, dek, rng(Balance(k))) == Success(None);
    }
    forall k | k in transactions && k in db.transactions
      ensures TransactionUpgrade(c, p, dek, rng)(k, db.transactions[k]) == Success(None)
    {
      assert Upgrade(c, p, db.transactions[k].amount, dek, rng(Amount(k))) == Success(None);
    }
    SweepIdle(db.wallets, wallets, WalletUpgrade(c, p, dek, rng));
    SweepIdle(db.transactions, transactions, TransactionUpgrade(c, p, dek, rng));
    SweepIdle(db.assets, assets, AssetUpgrade(c, p, dek, rng));
  }

  /** Running the migration again, with any random bytes, changes nothing. */
  lemma MigrateIdempotent(
    c: Codec, p: Primitives, db: Db, u: Id, dek: seq<byte>,
    wallets: seq<Id>, transactions: seq<Id>, assets: seq<Id>, rng: Randomness, rng': Randomness)
    requires Lawful(c, p) && u != "" && |dek| == KeyLength
    ensures var r := Migrate(c, p, db, Some(u), Success(dek), wallets, transactions, assets, rng);
      Migrate(c, p, r.db, Some(u), Success(dek), wallets, transactions, assets, rng') == Step(r.db, Pass)
  {
    MigrateEncrypts(c, p, db, u, dek, wallets, transactions, assets, rng);
    var r := Migrate(c, p, db, Some(u), Success(dek), wallets, transactions, assets, rng);
    MigrateIdle(c, p, r.db, u, dek, wallets, transactions, assets, rng');
  }

  /** Without a 256-bit key no upgrade rewrites anything, and one fails
      exactly when its row still holds a legacy column. */
  lemma UpgradesWithoutKey(c: Codec, p: Primitives, dek: seq<byte>, rng: Randomness)
    requires Lawful(c, p) && |dek| != KeyLength
    ensures forall k, w :: var r := WalletUpgrade(c, p, dek, rng)(k, w);
      (r.Success? <==> IsCiphertext(w.balance)) && (r.Success? ==> r.value.None?)
    ensures forall k, t :: var r := TransactionUpgrade(c, p, dek, rng)(k, t);
      (r.Success? <==> IsCiphertext(t.amount)) && (r.Success? ==> r.value.None?)
    ensures forall k, a :: var r := AssetUpgrade(c, p, dek, rng)(k, a);
      && (r.Success? <==> IsCiphertext(a.quantity) && IsCiphertext(a.currentPrice) && IsCiphertext(a.totalValue))
      && (r.Success? ==> r.value.None?)
  {
    forall k: Id, w: Wallet ensures var r := Upgrade(c, p, w.balance, dek, rng(Balance(k)));
      (r.Success? <==> IsCiphertext(w.balance)) && (r.Success? ==> r.value.None?)
    {
    }
    forall k: Id, t: Transaction ensures var r := Upgrade(c, p, t.amount, dek, rng(Amount(k)));
      (r.Success? <==> IsCiphertext(t.amount)) && (r.Success? ==> r.value.None?)
    {
    }
    forall k: Id, a: Asset ensures var r := UpgradeAsset(c, p, dek, rng, k, a);
      && (r.Success? <==> IsCiphertext(a.quantity) && IsCiphertext(a.currentPrice) && IsCiphertext(a.totalValue))
      && (r.Success? ==> r.value.None?)
    {
    }
  }

  /** Without a 256-bit key the migration writes nothing, and it fails exactly
      when some listed column is not yet ciphertext. */
  lemma MigrateWithoutKey(
    c: Codec, p: Primitives, db: Db, u: Id, dek: seq<byte>,
    wallets: seq<Id>, transactions: seq<Id>, assets: seq<Id>, rng: Randomness)
    requires Lawful(c, p) && u != "" && |dek| != KeyLength
    ensures var r := Migrate(c, p, db, Some(u), Success(dek), wallets, transactions, assets, rng);
      r.db == db && (r.outcome.Fail? <==> !Encrypted(db, wallets, transactions, assets))
  {
    MigrateStages(c, p, db, u, dek, wallets, transactions, assets, rng);
    UpgradesWithoutKey(c, p, dek, rng);
    SweepWrites(db.wallets, wallets, WalletUpgrade(c, p, dek, rng));
    SweepWrites(db.transactions, transactions, TransactionUpgrade(c, p, dek, rng));
    SweepWrites(db.assets, assets, AssetUpgrade(c, p, dek, rng));
  }

  /** The migration keeps the bookkeeping invariant of every user: the
      caller's rows read as before under the caller's key, and the rows of
      other users are not touched. */
  lemma MigratePreserves(
    c: Codec, p: Primitives, db: Db, u: Id, dek: seq<byte>,
    wallets: seq<Id>, transactions: seq<Id>, assets: seq<Id>, rng: Randomness,
    v: Id, dv: seq<byte>)
    requires Lawful(c, p) && RoundTrips(c)
    requires Queried(db, u, wallets, transactions, assets)
    requires Consistent(c, db, v, dv) && (v == u ==> dv == dek)
    ensures Consistent(c, Migrate(c, p, db, Some(u), Success(dek), wallets, transactions, assets, rng).db, v, dv)
  {
    var r := Migrate(c, p, db, Some(u), Success(dek), wallets, transactions, assets, rng);
    MigrateKeepsValues(c, p, db, u, dek, wallets, transactions, assets, rng);
    assert forall t :: t in db.transactions ==> TransactionKept(c, db, dek)(t, r.db.transactions[t]);
    assert forall x :: x in db.wallets ==> WalletKept(c, db, dek)(x, r.db.wallets[x]);
    forall x | x in r.db.wallets && r.db.wallets[x].owner == v
      ensures Balanced(c, r.db, dv, x)
    {
      assert WalletKept(c, db, dek)(x, r.db.wallets[x]);
      if v == u {
        forall t | t in db.transactions
          ensures TransactionKept(c, db, dek)(t, r.db.transactions[t])
        {
        }
        BalancedAgree(c, db, r.db, dv, x);
      } else {
        assert x !in wallets;
        forall t | t in db.transactions && (db.transactions[t].wallet == x || r.db.transactions[t].wallet == x)
          ensures r.db.transactions[t] == db.transactions[t]
        {
          assert TransactionKept(c, db, dek)(t, r.db.transactions[t]);
          assert t !in transactions;
        }
        BalancedAgree(c, db, r.db, dv, x);
      }
    }
  }
}
