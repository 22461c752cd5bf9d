/** The rows the server actions of `src/app/actions.ts` read and write, the
    inputs the forms send, and the errors the actions throw. */
module Records {
  import opened Wrappers
  import opened Crypto

  /** Row identifiers (`nanoid()` strings) and user ids. */
  type Id = string

  /** `users.encryption_salt` (base64) and `users.encrypted_dek`; a column that
      is null is `None`. */
  datatype UserRow = UserRow(encryptionSalt: Option<string>, encryptedDek: Option<string>)

  /** A row of `wallets`; `kind` is the `type` column. */
  datatype Wallet = Wallet(
    owner: Id, name: string, kind: string, color: string, icon: string,
    balance: Field, currency: string, createdAt: string)

  /** A row of `transactions`; `wallet` is `wallet_id`, `kind` is `type`. */
  datatype Transaction = Transaction(
    wallet: Id, amount: Field, category: string, description: string,
    kind: string, date: string, createdAt: string)

  /** A row of `assets`, with its three encrypted numeric columns. */
  datatype Asset = Asset(owner: Id, quantity: Field, currentPrice: Field, totalValue: Field)

  /** The four tables, keyed by `id`. */
  datatype Db = Db(
    users: map<Id, UserRow>,
    wallets: map<Id, Wallet>,
    transactions: map<Id, Transaction>,
    assets: map<Id, Asset>)

  /** What the transaction form sends (`data` of the transaction actions). */
  datatype TransactionInput = TransactionInput(
    amount: Number, category: string, description: string, kind: string,
    date: string, wallet: Id)

  /** What the wallet form sends (`data` of the wallet actions). */
  datatype WalletInput = WalletInput(name: string, kind: string, color: string, icon: string)

  /** The errors the actions throw. */
  datatype ActionError =
    | Unauthorized        // no signed-in user
    | SessionExpired      // no `encryption_dek` cookie
    | UserNotFound        // the `users` row could not be read
    | WalletNotFound      // no wallet with that id belongs to the caller
    | InsertFailed        // the insert was refused (the generated id is taken)
    | Crypto(error: CryptoError)

  /** The outcome of an action together with the tables it leaves behind.  A
      failure part-way leaves the writes made before it in place. */
  datatype Step = Step(db: Db, outcome: Outcome<ActionError>)

  /** The numeric field cipher as the actions call it: `encryptNumber(value,
      dek)` with the random bytes `e` of its nonce, and `decryptNumber(field, dek)`. */
  datatype Codec = Codec(
    encrypt: (Number, seq<byte>, Entropy) -> Result<string, CryptoError>,
    decrypt: (Field, seq<byte>) -> Result<Number, CryptoError>)

  /** The cipher of `src/lib/crypto.ts` over the primitives `p`. */
  function FieldCodec(p: Primitives): Codec {
    Codec((v, dek, e) => EncryptNumber(p, v, dek, e), (f, dek) => DecryptNumber(p, f, dek))
  }

  /** Encryption succeeds exactly under a 256-bit key. */
  ghost predicate KeyedEncrypt(c: Codec) {
    forall v, dek, e :: c.encrypt(v, dek, e).Success? <==> |dek| == KeyLength
  }

  /** Encryption needs a 256-bit key and yields ciphertext; legacy values are
      read as the numbers they stand for. */
  ghost predicate Lawful(c: Codec, p: Primitives) {
    && KeyedEncrypt(c)
    && (forall v, dek, e :: c.encrypt(v, dek, e).Success? ==> IsCiphertext(Text(c.encrypt(v, dek, e).value)))
    && (forall f, dek :: !IsCiphertext(f) ==> c.decrypt(f, dek) == Success(LegacyValue(p, f)))
  }

  /** A value encrypted under a 256-bit key decrypts under that key to itself. */
  ghost predicate RoundTrips(c: Codec) {
    forall v, dek, e :: c.encrypt(v, dek, e).Success? ==>
      c.decrypt(Text(c.encrypt(v, dek, e).value), dek) == Success(v)
  }

  /** A value encrypted under one key does not decrypt under another. */
  ghost predicate SeparatesKeys(c: Codec) {
    forall v, k1, k2, e :: c.encrypt(v, k1, e).Success? && |k2| == KeyLength && k1 != k2 ==>
      c.decrypt(Text(c.encrypt(v, k1, e).value), k2).Failure?
  }

  /** The cipher of `src/lib/crypto.ts` obeys the laws, whenever the
      primitives under it do. */
  lemma FieldCodecLawful(p: Primitives)
    ensures Lawful(FieldCodec(p), p)
    ensures AeadCorrect(p) && NumberTextRoundTrip(p) ==> RoundTrips(FieldCodec(p))
    ensures AeadRejectsOtherKeys(p) ==> SeparatesKeys(FieldCodec(p))
  {
    var c := FieldCodec(p);
    if AeadCorrect(p) && NumberTextRoundTrip(p) {
      forall v, dek, e | c.encrypt(v, dek, e).Success?
        ensures c.decrypt(Text(c.encrypt(v, dek, e).value), dek) == Success(v)
      {
        DecryptNumberEncryptNumber(p, v, dek, e);
      }
    }
    if AeadRejectsOtherKeys(p) {
      forall v, k1, k2, e | c.encrypt(v, k1, e).Success? && |k2| == KeyLength && k1 != k2
        ensures c.decrypt(Text(c.encrypt(v, k1, e).value), k2).Failure?
      {
        DecryptNumberOtherKey(p, v, k1, k2, e);
      }
    }
  }

  /** `getUserId()` gave a usable id: `if (!userId)` rejects a missing or empty one. */
  predicate SignedIn(user: Option<Id>) {
    user.Some? && user.value != ""
  }

  /** A cryptographic failure, as the action rethrows it. */
  function Lift<T>(r: Result<T, CryptoError>): (l: Result<T, ActionError>)
    ensures l.Success? <==> r.Success?
    ensures r.Success? ==> l.value == r.value
    ensures r.Failure? ==> l.error == Crypto(r.error)
  {
    match r
    case Success(v) => Success(v)
    case Failure(e) => Failure(Crypto(e))
  }
}
