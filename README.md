# Encrypted wallet bookkeeping of szpont-hub, in Dafny

szpont-hub is a personal-finance web application. The user keeps wallets,
transactions and assets in a database. Every monetary figure is stored
encrypted under a per-user data key (the DEK). The user's password unlocks
the DEK through a key-encryption key (the KEK) derived with PBKDF2. While the
user is signed in, the DEK travels in an `encryption_dek` cookie, encrypted
under the server's `COOKIE_SECRET`.

This project models and verifies the following parts of the application:

- **Field cipher** (`crypto.dfy`, with `base64.dfy`, `hex.dfy` and `strings.dfy`; sample primitives in `instances.dfy`):
  - the AES-256-GCM wire format `iv:authTag:ciphertext`, each part in base 64;
  - wrapping the DEK under the KEK;
  - sealing the DEK for the cookie;
  - the numeric field codec, which still reads legacy plain numbers.
- **Session** (`session.dfy`):
  - `getDEK`;
  - `initEncryptionSession`, which provisions key material on a first sign-in and unlocks it afterwards.
- **Server actions** on the four tables (`records.dfy`, `actions.dfy`): adding,
  deleting and editing transactions, and adding, editing and deleting wallets.
- **Bookkeeping invariant** (`ledger.dfy`, `bookkeeping.dfy`): each wallet's
  decrypted balance is the sum of the decrypted amounts of its transactions.
  The lemmas prove that adding and deleting transactions, the wallet actions,
  the migration and the checked edit preserve it, for the acting user and for
  every other user. The edit as written preserves it when the destination is
  an existing wallet of the caller, and breaks it otherwise (see Findings).
- **Migration** (`migration.dfy`): `migrateUserDataToEncryption` encrypts
  the rows that still hold plain numbers.
- **Store** (`store.dfy`): a class holding the tables and the cookie, whose
  methods perform the actions step by step and are proved equal to the
  functions above. The migration's loops are `while` and `for` loops with
  their invariants.
- **Exchange rates** (`exchange_rates.dfy`): the one-hour rate cache (a class)
  and the conversion through the złoty.
- **Wallet colour** (`wallet_color.dfy`): the colour string that the wallet
  card parses and the wallet dialog builds.

**How the foreign code enters.** AES-GCM, PBKDF2 and JavaScript's
number↔text conversions are given as a `Primitives` value. The properties
the design relies on are separate predicates: `AeadCorrect`,
`AeadRejectsOtherKeys`, `KdfLength` and `NumberTextRoundTrip`. Each lemma
takes the predicates it needs as hypotheses. The actions call the cipher
through a `Codec`: a pair of functions bundling `encryptNumber` and
`decryptNumber`. `FieldCodec(p)` is the codec of the real cipher.
`instances.dfy` builds concrete primitives that meet all four predicates at
once, and shows that the codec over them meets every codec law the
bookkeeping and migration lemmas assume. So those hypotheses are consistent,
and the lemmas that take them are not vacuous.

**Numbers.** A stored figure is a `Number`, an integer: an amount or a
balance counted in the smallest unit of its currency (grosze for the złoty).
Sums and differences of such figures are exact, as the bookkeeping
invariant needs.

**Inputs that stand for the environment:**

- Random bytes are an `Entropy` stream per `randomBytes` call.
- Generated ids and timestamps are parameters.
- The rows a query returns are a sequence of ids, in the order they come back.
- The signed-in user is an `Option<Id>`.
- `COOKIE_SECRET` is an `Option<string>`.
- The result of the rates request is an `Option` value.
- The current time is a parameter.

## Model

| member | source | states |
|---|---|---|
| Strings.Split | src/lib/crypto.ts:31 | `split` gives one more part than there are delimiters, and no part contains the delimiter |
| Strings.SplitJoin | src/lib/crypto.ts:27-32 | joining delimiter-free parts and splitting again gives back the parts |
| Strings.JoinSplit | src/components/WalletCard.tsx:37 | splitting a string and joining the parts gives back the string |
| Base64.EncodeChar | src/lib/crypto.ts:27 | the decoder reads each alphabet character as the value it encodes; no character is `=` or the delimiter |
| Base64.Encode | src/lib/crypto.ts:27 | the encoding of n bytes is 4·⌈n/3⌉ characters long |
| Base64.Decode | src/lib/crypto.ts:33-35 | `Buffer.from(s, 'base64')` gives at most three bytes for every four characters, and no bytes from fewer than two characters |
| Base64.EncodeAlphabet | src/lib/crypto.ts:27 | an encoding has only alphabet characters and `=`, and never the `:` delimiter |
| Base64.DecodeEncode | src/lib/crypto.ts:33-35 | Node's lenient decoder recovers every byte string from its encoding |
| Hex.Decode | src/lib/crypto.ts:67 | `Buffer.from(s, 'hex')` gives at most half as many bytes as characters, and exactly half for an even-length string of hex digits |
| Hex.DecodeEncode | src/lib/crypto.ts:67 | decoding the hexadecimal form of a key gives back the key |
| Crypto.RandomBytes | src/lib/crypto.ts:22 | `randomBytes(n)` is n bytes, drawn from the stream |
| Crypto.DeriveKek | src/lib/crypto.ts:10-17 | the KEK is 32 bytes when PBKDF2 returns the requested length |
| Crypto.FrameSplit | src/lib/crypto.ts:27-32 | a frame of three delimiter-free segments has exactly two delimiters and splits back into its segments |
| Crypto.Encrypt | src/lib/crypto.ts:21-28 | encryption succeeds exactly under a 32-byte key, and its output contains the delimiter exactly twice |
| Crypto.Decrypt | src/lib/crypto.ts:30-39 | without exactly three segments it fails with the format error; with three segments and a key not 32 bytes long, with the key-length error |
| Crypto.EncryptWireFormat | src/lib/crypto.ts:21-27 | a ciphertext is three segments: a 16-character nonce that decodes to the 12 random bytes, a 24-character 16-byte tag, and the body |
| Crypto.EncryptSegments | src/lib/crypto.ts:27-35 | the three segments decode to the nonce, the tag and the body the cipher produced |
| Crypto.DecryptEncrypt | src/lib/crypto.ts:21-39 | decrypting under the same key gives back the plaintext |
| Crypto.DecryptOtherKey | src/lib/crypto.ts:36-38 | decrypting under another 32-byte key fails with the authentication error |
| Crypto.GenerateDek | src/lib/crypto.ts:43-45 | a DEK is 32 bytes |
| Crypto.GenerateSalt | src/lib/crypto.ts:47-49 | a salt is 32 bytes |
| Crypto.EncryptDek | src/lib/crypto.ts:53-55 | wrapping the DEK succeeds exactly under a 32-byte KEK, otherwise fails with the key-length error, and gives a three-segment ciphertext |
| Crypto.DecryptDek | src/lib/crypto.ts:57-60 | a wrapped DEK without exactly three segments fails with the format error; with three segments and a KEK not 32 bytes long, with the key-length error; unwrapping succeeds only when both hold |
| Crypto.DecryptDekEncryptDek | src/lib/crypto.ts:53-60 | a DEK wrapped under a 32-byte KEK unwraps to the same DEK |
| Crypto.DecryptDekOtherKek | src/lib/crypto.ts:57-60 | unwrapping under another KEK fails |
| Crypto.GetCookieKey | src/lib/crypto.ts:64-68 | fails exactly when the secret is unset or empty, with the missing-secret error; otherwise the key is its hex decoding |
| Crypto.CookieKeyOfHexSecret | src/lib/crypto.ts:64-68 | a secret that is the hexadecimal form of a 32-byte key loads as that key |
| Crypto.EncryptForCookie | src/lib/crypto.ts:70-73 | sealing for the cookie succeeds exactly when the secret loads as a 32-byte key |
| Crypto.DecryptFromCookie | src/lib/crypto.ts:75-79 | an unset or empty secret fails with the missing-secret error whatever the token; under a set secret a token without three segments fails with the format error; a cookie opens only with three segments and a 32-byte key |
| Crypto.DecryptFromCookieEncryptForCookie | src/lib/crypto.ts:70-79 | a cookie sealed under a usable secret opens to the same DEK |
| Crypto.EncryptNumber | src/lib/crypto.ts:83-85 | a number encrypts exactly under a 32-byte key, and the stored text counts as ciphertext |
| Crypto.DecryptNumber | src/lib/crypto.ts:87-95 | a native number or text without `:` is read without the key as its legacy value; ciphertext without exactly two delimiters fails with the format error |
| Crypto.DecryptNumberEncryptNumber | src/lib/crypto.ts:83-95 | `decryptNumber(encryptNumber(v, dek), dek)` is v, for every number v and 32-byte key |
| Crypto.DecryptNumberOtherKey | src/lib/crypto.ts:87-95 | a figure encrypted under one key does not decrypt under another |
| Crypto.StoredShapesAgree | src/lib/crypto.ts:87-94 | a value stored as a number, as its legacy string, or as ciphertext reads back as that value |
| Instances.SamplePrimitivesSound | src/lib/crypto.ts:10-39 | concrete primitives satisfy `AeadCorrect`, `AeadRejectsOtherKeys`, `KdfLength` and `NumberTextRoundTrip` together, and their text of a number never contains `:` |
| Instances.SampleCodecReliable | src/lib/crypto.ts:83-95 | the field codec over those primitives is lawful, separates keys, and is reliable: every encryption under a 32-byte key reads back |
| Records.FieldCodecLawful | src/lib/crypto.ts:83-95 | the real field codec obeys the codec laws, round-trips under sound primitives, and separates keys when AEAD rejects other keys |
| Bookkeeping.FieldCodecReliable | src/lib/crypto.ts:83-95 | under sound primitives every encryption under a 32-byte key reads back as the value encrypted |
| Session.GetDek | src/app/actions.ts:28-33 | with no cookie or an empty one, the session-expired error; otherwise the cookie's decryption |
| Session.Provisions | src/app/actions.ts:53 | a user row is not provisioned again exactly when its salt and its wrapped DEK are both present and non-empty |
| Session.InitSession | src/app/actions.ts:35-86 | errors for no user and for a missing user row leave everything as it was; only the caller's user row may change; a success sets the cookie with a seven-day lifetime; a failure that wrote nothing keeps the old cookie |
| Session.SetCookie | src/app/actions.ts:75-85 | the cookie is set exactly when sealing succeeds; otherwise the old cookie stays and the crypto error is reported |
| Session.InitSessionCookieOpens | src/app/actions.ts:35-86 | after a successful sign-in, `getDEK` returns the session's DEK |
| Session.SetCookieOpens | src/app/actions.ts:76-79 | the cookie that is set opens to the DEK it sealed |
| Session.InitSessionProvisions | src/app/actions.ts:53-67 | a first sign-in succeeds; it stores the base64 salt and the DEK wrapped under the password's KEK, and puts the fresh DEK in the cookie |
| Session.InitSessionUnlocksProvisionedKey | src/app/actions.ts:35-86 | signing in again with the same password unlocks the same DEK, writes nothing, and the new cookie opens to it |
| Session.EncryptWrappedNonempty | src/app/actions.ts:53 | the stored wrapped DEK is never empty, so a provisioned user is not provisioned again |
| Session.InitSessionWrongPassword | src/app/actions.ts:68-73 | a password whose KEK differs fails with the authentication error and leaves the tables and the cookie unchanged |
| Session.InitSessionUnlockBranch | src/app/actions.ts:68-73 | a user row holding key material is unlocked, never re-provisioned |
| Session.InitSessionUnlockFails | src/app/actions.ts:68-73 | when the stored key does not unwrap, sign-in fails with that error and writes nothing |
| Session.WrongPasswordRow | src/app/actions.ts:53-72 | a row with stored key material is not provisioned again, and under a wrong password's KEK its key does not unwrap |
| Actions.AddTransaction | src/app/actions.ts:201-250 | no user is unauthorized; a key error is passed on; a wallet the caller does not own is "wallet not found"; only the named wallet's balance and the new transaction change |
| Actions.NewTransaction | src/app/actions.ts:224-235 | the inserted row holds the encrypted amount and the insert time, and every other column comes from the form, just as an edit with the same form would write it |
| Actions.DeleteTransaction | src/app/actions.ts:252-283 | a change happens only for an existing transaction whose wallet the caller owns; the row is removed, and only that wallet's balance changes |
| Actions.EditTransaction | src/app/actions.ts:285-340 | only the edited transaction and the wallets it leaves and enters change; owners and key sets stay; the row is either untouched or rewritten with the form's wallet, category, description, type and date and the form's amount encrypted under the caller's key, and a completed edit of the caller's transaction has rewritten it |
| Actions.RevertTransaction | src/app/actions.ts:299-308 | step 1 rewrites only the old wallet's balance and keeps every owner |
| Actions.RewriteTransaction | src/app/actions.ts:310-321 | step 2 rewrites only the edited transaction row |
| Actions.CreditWallet | src/app/actions.ts:323-337 | step 3 does nothing when the wallet is missing; otherwise it rewrites only that wallet's balance |
| Actions.EditTransactionChecked | src/app/actions.ts:323-337 | the edit with the destination wallet checked like `addTransactionAction` checks its wallet: nothing changes unless the caller owns the destination |
| Actions.EditTransactionKeyed | src/app/actions.ts:310-337 | the edit against a foreign key on `wallet_id`: with an existing destination it is the edit as written; with a missing one no transaction row changes, and an edit past the ownership guard leaves the tables as step 1 left them |
| Actions.AddWallet | src/app/actions.ts:344-370 | no user is unauthorized; a key error is passed on; a failure writes nothing; only the wallet table changes |
| Actions.EditWallet | src/app/actions.ts:372-396 | another user's wallet is left alone; for its signed-in owner the wallet always gets the new name, type, colour and icon, and keeps its owner, balance, currency and creation time |
| Actions.DeleteWallet | src/app/actions.ts:398-423 | another user's wallet is left alone; for its signed-in owner the wallet always goes, with exactly its transactions; no other row changes |
| Bookkeeping.AddTransactionEffect | src/app/actions.ts:201-250 | adding succeeds exactly when the caller owns the wallet, its balance reads under a 32-byte key and the id is new; on success the balance grows by the amount and the row reads back as the amount; a failure writes nothing |
| Bookkeeping.AddTransactionPreserves | src/app/actions.ts:201-250 | adding a transaction keeps every user's wallets balanced |
| Bookkeeping.AddKeepsWallet | src/app/actions.ts:243-247 | the wallet credited by the add stays balanced |
| Bookkeeping.DeleteTransactionEffect | src/app/actions.ts:252-283 | deleting writes exactly when the caller owns the transaction's wallet, the balance and the amount read, and the key is 32 bytes; the row goes, and the balance drops by its amount |
| Bookkeeping.DeleteTransactionPreserves | src/app/actions.ts:252-283 | deleting a transaction keeps every user's wallets balanced |
| Bookkeeping.DeleteKeepsWallet | src/app/actions.ts:266-280 | the wallet debited by the delete stays balanced |
| Bookkeeping.EditTransactionMoves | src/app/actions.ts:310-321 | a successful edit points the transaction at the new wallet with the new amount |
| Bookkeeping.EditTransactionSameWallet | src/app/actions.ts:299-337 | within one wallet the balance changes by new amount minus old amount |
| Bookkeeping.EditTransactionOtherWallet | src/app/actions.ts:299-337 | across wallets the old wallet loses the old amount and the new wallet gains the new amount |
| Bookkeeping.EditStages | src/app/actions.ts:299-337 | the edit is the three steps in order, each succeeds, and each has its effect on the figures |
| Bookkeeping.RevertReadsBack | src/app/actions.ts:299-308 | the reverted balance reads as the old balance minus the old amount |
| Bookkeeping.RewriteReadsBack | src/app/actions.ts:310-321 | the rewritten row points at the form's wallet and reads as the form's amount |
| Bookkeeping.CreditReadsBack | src/app/actions.ts:330-337 | the credited balance reads as the balance plus the amount |
| Bookkeeping.EditPreservesOwn | src/app/actions.ts:285-340 | an edit between the caller's own wallets keeps the caller's wallets balanced |
| Bookkeeping.EditKeepsLinked | src/app/actions.ts:319 | an edit whose destination exists leaves every transaction pointing at an existing wallet |
| Bookkeeping.EditKeepsWallet | src/app/actions.ts:285-340 | an edit that writes keeps every balanced wallet balanced |
| Bookkeeping.EditWithoutKey | src/app/actions.ts:299-308 | with a key that is not 32 bytes the edit writes nothing |
| Bookkeeping.EditPreservesOthers | src/app/actions.ts:285-340 | an edit between the caller's own wallets keeps every other user's wallets balanced |
| Bookkeeping.EditSendsRow | src/app/actions.ts:310-321 | the rewritten row holds the form's wallet and the new ciphertext, even when the destination is not the caller's |
| Bookkeeping.EditIntoForeignWallet | src/app/actions.ts:323-337 | an edit into another user's wallet breaks that user's invariant |
| Bookkeeping.EditIntoMissingWallet | src/app/actions.ts:319-330 | without a foreign key on `wallet_id`, an edit into a missing wallet leaves a transaction pointing at no wallet |
| Bookkeeping.EditIntoMissingWalletKeyed | src/app/actions.ts:299-330 | with a foreign key on `wallet_id`, an edit into a missing wallet reports success and leaves the row where it was, but takes its amount off the old wallet, which then no longer balances |
| Bookkeeping.EditTransactionCheckedPreserves | src/app/actions.ts:323-337 | the checked edit keeps every user's wallets balanced |
| Bookkeeping.AddWalletStartsAtZero | src/app/actions.ts:344-370 | adding a wallet succeeds exactly for a signed-in user with a 32-byte key and a fresh id, and the new balance reads as 0 |
| Bookkeeping.AddWalletPreserves | src/app/actions.ts:344-370 | adding a wallet keeps every user's wallets balanced |
| Bookkeeping.EditWalletPreserves | src/app/actions.ts:372-396 | editing a wallet keeps every user's wallets balanced |
| Bookkeeping.DeleteWalletPreserves | src/app/actions.ts:398-423 | deleting a wallet keeps every user's wallets balanced, and no transaction is left pointing at the deleted wallet |
| Migration.Sweep | src/app/actions.ts:451-459 | one loop keeps the table's ids and leaves unlisted rows alone |
| Migration.SweepKeeps | src/app/actions.ts:451-459 | a row property that every rewrite keeps holds after the loop, however far it got |
| Migration.SweepIdle | src/app/actions.ts:451-459 | a loop over rows that need nothing changes nothing and succeeds |
| Migration.SweepFinishes | src/app/actions.ts:451-459 | when every upgrade succeeds the loop runs to the end, and every listed row is done |
| Migration.SweepWrites | src/app/actions.ts:451-459 | when no upgrade rewrites, the loop writes nothing, and it fails exactly when some listed row's upgrade fails |
| Migration.Upgrade | src/app/actions.ts:452-458 | ciphertext is skipped; a legacy value fails only when its encryption fails |
| Migration.UpgradeReadsBack | src/app/actions.ts:452-458 | an upgrade succeeds exactly on ciphertext or under a 32-byte key, leaves ciphertext, and reads back as the value it stood for |
| Migration.UpgradeAsset | src/app/actions.ts:482-496 | an asset needs no write exactly when its three figures are already ciphertext |
| Migration.Migrate | src/app/actions.ts:439-497 | no user is unauthorized; a key error is passed on; user rows and every table's ids are untouched; unlisted rows are untouched |
| Migration.MigrateStages | src/app/actions.ts:439-497 | the three loops run in order; a later table changes only when the loops before it ran to the end |
| Migration.WalletUpgradeKeeps | src/app/actions.ts:451-459 | a wallet rewrite keeps the owner, and the balance reads the same |
| Migration.TransactionUpgradeKeeps | src/app/actions.ts:467-474 | a transaction rewrite keeps the wallet, and the amount reads the same |
| Migration.AssetUpgradeKeeps | src/app/actions.ts:482-496 | an asset rewrite keeps the owner, and the three figures read the same |
| Migration.MigrateKeepsValues | src/app/actions.ts:439-497 | whatever the key, every owner, wallet link and figure reads as before, however far the migration got |
| Migration.UpgradeEncrypts | src/app/actions.ts:452-458 | under a 32-byte key every upgrade succeeds and leaves ciphertext |
| Migration.MigrateEncrypts | src/app/actions.ts:439-497 | with a 32-byte key the migration completes, and every listed figure is ciphertext |
| Migration.MigrateIdle | src/app/actions.ts:451-496 | on rows that are all ciphertext the migration writes nothing and succeeds |
| Migration.MigrateIdempotent | src/app/actions.ts:439-497 | running the migration again, with any random bytes, changes nothing |
| Migration.UpgradesWithoutKey | src/app/actions.ts:452-458 | without a 32-byte key no upgrade rewrites, and an upgrade fails exactly on a legacy figure |
| Migration.MigrateWithoutKey | src/app/actions.ts:439-497 | without a 32-byte key nothing is written, and the migration fails exactly when some listed figure is still legacy |
| Migration.MigratePreserves | src/app/actions.ts:439-497 | over the rows its queries return, the migration keeps every user's wallets balanced |
| Migration.Queried | src/app/actions.ts:446-480 | the transaction query returns exactly the transactions of the caller's existing wallets |
| Store.Store.constructor | src/app/actions.ts:3-7 | an empty database and no cookie, over the given primitives and secret |
| Store.Store.GetDek | src/app/actions.ts:28-33 | returns the session function's answer for the current cookie, and changes nothing |
| Store.Store.InitEncryptionSession | src/app/actions.ts:35-86 | the tables, cookie and outcome become those of `Session.InitSession` |
| Store.Store.SignOut | src/app/actions.ts:426-435 | the cookie is deleted and the tables are untouched |
| Store.Store.AddTransaction | src/app/actions.ts:201-250 | the tables and outcome become those of `Actions.AddTransaction`; the cookie is untouched |
| Store.Store.InsertTransaction | src/app/actions.ts:220-247 | the insert and the balance update, as in `Actions.AddTransaction` for an owned wallet |
| Store.Store.DeleteTransaction | src/app/actions.ts:252-283 | the tables and outcome become those of `Actions.DeleteTransaction` |
| Store.Store.RemoveTransaction | src/app/actions.ts:266-280 | the balance update, then the delete, as in `Actions.DeleteTransaction` |
| Store.Store.EditTransaction | src/app/actions.ts:285-340 | the action as written, with only the guard on the transaction's own wallet: the tables and outcome become those of `Actions.EditTransaction` |
| Store.Store.EditTransactionChecked | src/app/actions.ts:285-340 | the edit with the destination wallet also checked: the tables and outcome become those of `Actions.EditTransactionChecked` |
| Store.Store.MoveTransaction | src/app/actions.ts:299-337 | the three writes, as in `Actions.EditTransaction` |
| Store.Store.RevertTransaction | src/app/actions.ts:299-308 | as `Actions.RevertTransaction` |
| Store.Store.RewriteTransaction | src/app/actions.ts:310-321 | as `Actions.RewriteTransaction` |
| Store.Store.CreditWallet | src/app/actions.ts:323-337 | as `Actions.CreditWallet` |
| Store.Store.AddWallet | src/app/actions.ts:344-370 | the tables and outcome become those of `Actions.AddWallet` |
| Store.Store.EditWallet | src/app/actions.ts:372-396 | the tables and outcome become those of `Actions.EditWallet` |
| Store.Store.DeleteWallet | src/app/actions.ts:398-423 | the tables and outcome become those of `Actions.DeleteWallet` |
| Store.Store.MigrateUserData | src/app/actions.ts:439-497 | the tables and outcome become those of `Migration.Migrate` |
| Store.Store.MigrateRows | src/app/actions.ts:445-496 | the three loops, stopping at the first failure, as in `Migration.Migrate` |
| Store.Store.MigrateWallets | src/app/actions.ts:451-459 | the wallet loop leaves the table and outcome of `Migration.Sweep` and touches nothing else |
| Store.Store.MigrateTransactions | src/app/actions.ts:467-474 | the transaction loop leaves the table and outcome of `Migration.Sweep` |
| Store.Store.MigrateAssets | src/app/actions.ts:482-496 | the asset loop leaves the table and outcome of `Migration.Sweep` |
| Store.Store.UpgradeAssetRow | src/app/actions.ts:483-489 | the `updates` record built column by column gives exactly `Migration.UpgradeAsset`: the first failing figure's error, or the row with the updated figures |
| Store.WithUpdates | src/app/actions.ts:490-494 | applying `updates` replaces exactly the figures it names and keeps the owner |
| ExchangeRates.ConvertAmount | src/lib/exchange-rates.ts:45-61 | the same currency is the identity; from the złoty multiplies by the target rate; to the złoty gives the amount that the source rate multiplies back to the input; with positive rates a non-negative amount stays non-negative |
| ExchangeRates.ConvertAmountCases | src/lib/exchange-rates.ts:45-61 | the same currency is the identity; from the złoty multiplies by the rate; to the złoty divides; between two foreign currencies divides, then multiplies |
| ExchangeRates.ConvertAmountRoundTrip | src/lib/exchange-rates.ts:45-61 | with positive rates, converting there and back gives the amount |
| ExchangeRates.RateCache.constructor | src/lib/exchange-rates.ts:6-7 | an empty cache with timestamp 0 |
| ExchangeRates.RateCache.GetExchangeRates | src/lib/exchange-rates.ts:16-43 | a fresh cache is answered without the request and keeps the cache; a successful request caches złoty-based rates at the current time; a failed one answers the stale cache, or else the fallback rates, and keeps the cache |
| WalletColor.ParseWalletColor | src/components/WalletCard.tsx:27-41 | plasma and grainient exactly by their prefixes, otherwise gradient; only the chosen effect's fields are present; prefix plus fields rebuild the string |
| WalletColor.GrainientColourCount | src/components/WalletCard.tsx:36-38 | a grainient colour has one more part than its suffix has colons, so three parts exactly for two colons |
| WalletColor.BuildColor | src/components/WalletModal.tsx:83-89 | a plasma colour is its prefix and then the colour; a grainient one is its prefix and then the three colours joined by `:`; a gradient is kept as it is |
| WalletColor.GrainientSplit | src/components/WalletModal.tsx:86 | a built grainient of colon-free colours splits into its three colours |
| WalletColor.ParseBuildColor | src/components/WalletModal.tsx:83-89 | parsing a built colour recovers the effect and its colours |
| WalletColor.GradientOptionsParse | src/components/WalletModal.tsx:19-28 | every preset gradient parses as that gradient |
| WalletColor.LoadColor | src/components/WalletModal.tsx:61-69 | the dialog takes the effect from the parse |
| WalletColor.EditKeepsColor | src/components/WalletModal.tsx:55-89 | loading a built colour into any earlier dialog state and building again gives the same colour string |

## Findings

| source | as written | input that shows it | evidently intended | confidence | as-written member | corrected member |
|---|---|---|---|---|---|---|
| src/app/actions.ts:323-337 | step 3 of `editTransactionAction` re-reads the destination wallet by id only; it never checks the owner, unlike `addTransactionAction` (line 212) | an edit of one's own transaction whose `data.wallet` is another user's wallet: that wallet gains a transaction whose amount is encrypted under the caller's key, so its owner's ledger no longer balances | the destination wallet is checked to belong to the caller, as in `addTransactionAction` | not executed | Bookkeeping.EditIntoForeignWallet | Actions.EditTransactionChecked |
| src/app/actions.ts:319-330 | step 2 writes `wallet_id: data.wallet` before step 3 learns whether that wallet exists | an edit whose `data.wallet` names no wallet. Without a foreign key on `wallet_id`, the transaction is left pointing at no wallet and its amount is gone from every balance. With one, step 2 is refused and the refusal ignored, so the row stays in the old wallet while its amount has left that wallet's balance. Either way the action reports success and a ledger no longer balances | the edit is refused when the destination wallet is missing | not executed | Bookkeeping.EditIntoMissingWallet, Bookkeeping.EditIntoMissingWalletKeyed | Actions.EditTransactionChecked |

`Actions.EditTransaction` models the action as written.
`Bookkeeping.EditTransactionCheckedPreserves` proves that the checked edit
keeps every user's ledger balanced. The store's `EditTransaction` method
performs the edit as written, and its `EditTransactionChecked` method the
checked edit. When the check fails, the checked edit writes nothing and
returns normally, as the action's own ownership guard at line 297 does.

## Left out

- Numbers are unbounded integers of the smallest currency unit. JavaScript's IEEE-754 doubles are not modelled: fractions of a grosz, rounding in sums, the 2^53 limit, NaN and infinities. The number↔text conversions are two abstract functions. `NumberTextRoundTrip` assumes that `parseFloat` inverts `toString` on every integer, which JavaScript does for integers up to 2^53.
- AES-256-GCM, PBKDF2-HMAC-SHA256 and UTF-8 encoding are not modelled inside; they are abstract primitives. Their properties enter as the hypotheses `AeadCorrect`, `AeadRejectsOtherKeys`, `KdfLength` and `NumberTextRoundTrip`. The PBKDF2 callback error (crypto.ts line 13) is not modelled.
- Node's base 64 decoder is modelled as reading the alphabet (including `-` and `_`), skipping other characters and stopping at the first `=`. Its output-length cap and other implementation limits are not modelled.
- Randomness (`randomBytes`, `nanoid`) and the clock (`Date.now`, `new Date()`) are parameters, not effects.
- Supabase is a map per table. Query and update errors other than those the actions check (a missing user row, a refused insert, a missing or foreign row) are not modelled. The writes a failing action made before it stopped stay in place, in the order the action makes them.
- The database schema is not part of this model, so whether `transactions.wallet_id` is a foreign key is open. `Actions.EditTransaction` models tables without that key; `Actions.EditTransactionKeyed` models the update that such a key refuses.
- Nullable figure columns are not modelled: a `Field` is always a number or a text. In the source `decryptNumber(null)` throws, and the migration would encrypt `parseFloat(null)`, which is NaN.
- The migration ignores its update errors, as the source does; a failure of `encryptNumber` is the only failure that stops it.
- The migration reads the current row, not the row its query returned. The two are the same, since the loop touches each row once. Duplicate ids in a query result are read again from the table.
- The order of the migration's query results is an input. `Queried` states which rows the queries return; the order is not.
- `revalidatePath`, `auth.signOut()`, `console.error` and the other cookie attributes (`httpOnly`, `secure`, `sameSite`, `path`) are not modelled. The cookie keeps only its value and `maxAge`.
- `getUserId` is the `user` parameter: `None` or the empty id is a caller who is not signed in.
- The data loaders (`fetchWalletsAndTransactions` and the other fetch functions), the receipt-scanning route, `formatCurrency` and the React components other than the colour parsing and building are outside this model.
- The rates request (`fetch` of the rates service and its JSON decoding) is the `fetched` input of `GetExchangeRates`. A refused request, a JSON error or a body without a `rates` object reaches the catch branch; these are `None`. A body whose `rates` lacks `USD` or `EUR` is cached by the source with undefined rates; the model has no undefined number, so such responses are not among its inputs.
- ExchangeRates.ConvertAmount: requires a nonzero rate for the currency it divides by, because JavaScript would divide a zero rate to an infinity and reals have none.
- Store.Store: the cipher is `FieldCodec` over the store's primitives, fixed when the store is constructed. Concurrent requests interleaving their reads and writes are not modelled: each method runs as one uninterrupted sequence of writes.
- ExchangeRates.RateCache.GetExchangeRates: concurrent callers sharing the module-level cache are not modelled.
