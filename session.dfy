/** The encryption session of `src/app/actions.ts`: unlocking or provisioning
    the user's data key on sign-in, carrying it in the `encryption_dek` cookie,
    and reading it back in every later action. */
module Session {
  import opened Wrappers
  import opened Strings
  import opened Crypto
  import Base64
  import opened Records

  /** The cookie's `maxAge`: seven days in seconds. */
  const CookieMaxAge: int := 60 * 60 * 24 * 7

  /** The `encryption_dek` cookie (it is also `httpOnly`, `sameSite: 'lax'`
      and scoped to `/`). */
  datatype Cookie = Cookie(value: string, maxAge: int)

  /** `getDEK()`: `cookie` is the `encryption_dek` cookie, if the request has one. */
  function GetDek(p: Primitives, secret: Option<string>, cookie: Option<Cookie>): (r: Result<seq<byte>, ActionError>)
    ensures cookie.None? || cookie.value.value == "" ==> r == Failure(SessionExpired)
    ensures cookie.Some? && cookie.value.value != "" ==> r == Lift(DecryptFromCookie(p, secret, cookie.value.value))
  {
    if cookie.None? || cookie.value.value == "" then Failure(SessionExpired)
    else Lift(DecryptFromCookie(p, secret, cookie.value.value))
  }

  /** A key column that JavaScript reads as falsy: null or empty. */
  predicate Missing(column: Option<string>) {
    column.None? || column.value == ""
  }

  /** What `initEncryptionSession` leaves behind: the tables, the cookie, the
      outcome, and the data key it put in the cookie (meaningful on success). */
  datatype SessionStep = SessionStep(db: Db, cookie: Option<Cookie>, outcome: Outcome<ActionError>, dek: seq<byte>)

  /** Whether the user row lacks key material, so that sign-in provisions it. */
  predicate Provisions(row: UserRow): (b: bool)
    ensures !b <==> && row.encryptionSalt.Some? && row.encryptionSalt.value != ""
                    && row.encryptedDek.Some? && row.encryptedDek.value != ""
  {
    Missing(row.encryptionSalt) || Missing(row.encryptedDek)
  }

  /** `initEncryptionSession(password)` for the signed-in `user`, with the cookie
      `cookie` the request carries.  `eSalt`, `eDek`, `eWrap` and `eCookie` are
      the random bytes of `generateSalt`, `generateDEK` and the two `encrypt`
      calls. */
  function InitSession(
    p: Primitives, secret: Option<string>, db: Db, cookie: Option<Cookie>,
    user: Option<Id>, password: string,
    eSalt: Entropy, eDek: Entropy, eWrap: Entropy, eCookie: Entropy): (r: SessionStep)
    ensures !SignedIn(user) ==> r == SessionStep(db, cookie, Fail(Unauthorized), [])
    ensures SignedIn(user) && user.value !in db.users ==> r == SessionStep(db, cookie, Fail(UserNotFound), [])
    ensures r.db.wallets == db.wallets && r.db.transactions == db.transactions && r.db.assets == db.assets
    ensures r.db.users.Keys == db.users.Keys
    ensures forall v :: v in db.users && (user.None? || v != user.value) ==> r.db.users[v] == db.users[v]
    ensures r.outcome.Pass? ==> r.cookie.Some? && r.cookie.value.maxAge == CookieMaxAge
    ensures r.outcome.Fail? && r.db == db ==> r.cookie == cookie
  {
    if !SignedIn(user) then SessionStep(db, cookie, Fail(Unauthorized), [])
    else if user.value !in db.users then SessionStep(db, cookie, Fail(UserNotFound), [])
    else
      var u, row := user.value, db.users[user.value];
      if Provisions(row) then
        var salt := GenerateSalt(eSalt);
        var dek := GenerateDek(eDek);
        var kek := DeriveKek(p, password, salt);
        var wrapped := EncryptDek(p, dek, kek, eWrap);
        if wrapped.Failure? then SessionStep(db, cookie, Fail(Crypto(wrapped.error)), [])
        else
          var db1 := db.(users := db.users[u := UserRow(Some(Base64.Encode(salt)), Some(wrapped.value))]);
          SetCookie(p, secret, db1, cookie, dek, eCookie)
      else
        var salt := Base64.Decode(row.encryptionSalt.value);
        var kek := DeriveKek(p, password, salt);
        var dek := DecryptDek(p, row.encryptedDek.value, kek);
        if dek.Failure? then SessionStep(db, cookie, Fail(Crypto(dek.error)), [])
        else SetCookie(p, secret, db, cookie, dek.value, eCookie)
  }

  /** The last step of `initEncryptionSession`: seal the key for the cookie and
      set it.  A missing `COOKIE_SECRET` fails after the key material was stored. */
  function SetCookie(p: Primitives, secret: Option<string>, db: Db, cookie: Option<Cookie>, dek: seq<byte>, e: Entropy): (r: SessionStep)
    ensures r.db == db && r.dek == dek
    ensures r.outcome.Pass? <==> EncryptForCookie(p, secret, dek, e).Success?
    ensures r.outcome.Pass? ==> r.cookie == Some(Cookie(EncryptForCookie(p, secret, dek, e).value, CookieMaxAge))
    ensures r.outcome.Fail? ==> r.cookie == cookie && r.outcome.error == Crypto(EncryptForCookie(p, secret, dek, e).error)
  {
    var sealed := EncryptForCookie(p, secret, dek, e);
    if sealed.Failure? then SessionStep(db, cookie, Fail(Crypto(sealed.error)), dek)
    else SessionStep(db, Some(Cookie(sealed.value, CookieMaxAge)), Pass, dek)
  }

  /** A usable `COOKIE_SECRET`: set, and the hexadecimal form of a 32-byte key. */
  predicate UsableSecret(secret: Option<string>) {
    GetCookieKey(secret).Success? && |GetCookieKey(secret).value| == KeyLength
  }

  /** After a successful sign-in, every action reads back the key put in the cookie. */
  lemma InitSessionCookieOpens(
    p: Primitives, secret: Option<string>, db: Db, cookie: Option<Cookie>,
    user: Option<Id>, password: string,
    eSalt: Entropy, eDek: Entropy, eWrap: Entropy, eCookie: Entropy)
    requires AeadCorrect(p)
    ensures var r := InitSession(p, secret, db, cookie, user, password, eSalt, eDek, eWrap, eCookie);
      r.outcome.Pass? ==> GetDek(p, secret, r.cookie) == Success(r.dek)
  {
    if SignedIn(user) && user.value in db.users {
      var row := db.users[user.value];
      if Provisions(row) {
        var salt := GenerateSalt(eSalt);
        var dek := GenerateDek(eDek);
        var wrapped := EncryptDek(p, dek, DeriveKek(p, password, salt), eWrap);
        if wrapped.Success? {
          var db1 := db.(users := db.users[user.value := UserRow(Some(Base64.Encode(salt)), Some(wrapped.value))]);
          SetCookieOpens(p, secret, db1, cookie, dek, eCookie);
        }
      } else {
        var kek := DeriveKek(p, password, Base64.Decode(row.encryptionSalt.value));
        var dek := DecryptDek(p, row.encryptedDek.value, kek);
        if dek.Success? {
          SetCookieOpens(p, secret, db, cookie, dek.value, eCookie);
        }
      }
    }
  }

  /** The cookie `SetCookie` sets opens to the key it sealed. */
  lemma SetCookieOpens(p: Primitives, secret: Option<string>, db: Db, cookie: Option<Cookie>, dek: seq<byte>, e: Entropy)
    requires AeadCorrect(p)
    ensures var r := SetCookie(p, secret, db, cookie, dek, e);
      r.outcome.Pass? ==> GetDek(p, secret, r.cookie) == Success(dek)
  {
    var sealed := EncryptForCookie(p, secret, dek, e);
    if sealed.Success? {
      var key := GetCookieKey(secret).value;
      assert sealed == Encrypt(p, Base64.Encode(dek), key, e);
      assert Delimiter in sealed.value;
      DecryptFromCookieEncryptForCookie(p, secret, dek, e);
    }
  }

  /** First sign-in of a user without key material: a fresh salt and data key
      are stored (the salt as base64, the key wrapped under the password's KEK)
      and, with a usable cookie secret, the fresh key is put in the cookie. */
  lemma InitSessionProvisions(
    p: Primitives, secret: Option<string>, db: Db, cookie: Option<Cookie>,
    u: Id, password: string,
    eSalt: Entropy, eDek: Entropy, eWrap: Entropy, eCookie: Entropy)
    requires AeadCorrect(p) && KdfLength(p) && UsableSecret(secret)
    requires u != "" && u in db.users && Provisions(db.users[u])
    ensures var r := InitSession(p, secret, db, cookie, Some(u), password, eSalt, eDek, eWrap, eCookie);
      var salt := GenerateSalt(eSalt);
      && r.outcome == Pass
      && r.dek == GenerateDek(eDek)
      && r.db.users[u] == UserRow(Some(Base64.Encode(salt)),
                                  Some(EncryptDek(p, r.dek, DeriveKek(p, password, salt), eWrap).value))
      && GetDek(p, secret, r.cookie) == Success(r.dek)
  {
    var salt := GenerateSalt(eSalt);
    DecryptDekEncryptDek(p, GenerateDek(eDek), DeriveKek(p, password, salt), eWrap);
    InitSessionCookieOpens(p, secret, db, cookie, Some(u), password, eSalt, eDek, eWrap, eCookie);
  }

  /** Signing in again with the same password unlocks the very key that the
      first sign-in provisioned, whatever random bytes the second one draws. */
  lemma InitSessionUnlocksProvisionedKey(
    p: Primitives, secret: Option<string>, db: Db, cookie: Option<Cookie>,
    u: Id, password: string,
    eSalt: Entropy, eDek: Entropy, eWrap: Entropy, eCookie: Entropy,
    eSalt': Entropy, eDek': Entropy, eWrap': Entropy, eCookie': Entropy)
    requires AeadCorrect(p) && KdfLength(p) && UsableSecret(secret)
    requires u != "" && u in db.users && Provisions(db.users[u])
    ensures var r1 := InitSession(p, secret, db, cookie, Some(u), password, eSalt, eDek, eWrap, eCookie);
      var r2 := InitSession(p, secret, r1.db, r1.cookie, Some(u), password, eSalt', eDek', eWrap', eCookie');
      && r2.outcome == Pass && r2.db == r1.db && r2.dek == r1.dek
      && GetDek(p, secret, r2.cookie) == Success(r1.dek)
  {
    InitSessionProvisions(p, secret, db, cookie, u, password, eSalt, eDek, eWrap, eCookie);
    var r1 := InitSession(p, secret, db, cookie, Some(u), password, eSalt, eDek, eWrap, eCookie);
    var salt := GenerateSalt(eSalt);
    var kek := DeriveKek(p, password, salt);
    var row := r1.db.users[u];
    EncryptWrappedNonempty(p, r1.dek, kek, eWrap);
    assert !Provisions(row);
    Base64.DecodeEncode(salt);
    assert Base64.Decode(row.encryptionSalt.value) == salt;
    DecryptDekEncryptDek(p, r1.dek, kek, eWrap);
    InitSessionCookieOpens(p, secret, r1.db, r1.cookie, Some(u), password, eSalt', eDek', eWrap', eCookie');
  }

  /** The stored wrapped key and salt are not empty. */
  lemma EncryptWrappedNonempty(p: Primitives, dek: seq<byte>, kek: seq<byte>, e: Entropy)
    requires |kek| == KeyLength
    ensures EncryptDek(p, dek, kek, e).Success? && EncryptDek(p, dek, kek, e).value != ""
  {
    assert Delimiter in EncryptDek(p, dek, kek, e).value;
  }

  /** Signing in with a password whose KEK differs from the one the key was
      wrapped under fails, and leaves the tables and the cookie as they were. */
  lemma InitSessionWrongPassword(
    p: Primitives, secret: Option<string>, db: Db, cookie: Option<Cookie>,
    u: Id, password: string, dek: seq<byte>, salt: seq<byte>, kek: seq<byte>,
    eWrap: Entropy, eSalt: Entropy, eDek: Entropy, eUnwrap: Entropy, eCookie: Entropy)
    requires AeadRejectsOtherKeys(p) && KdfLength(p)
    requires |kek| == KeyLength && |salt| == KeyLength && DeriveKek(p, password, salt) != kek
    requires u != "" && u in db.users
    requires db.users[u] == UserRow(Some(Base64.Encode(salt)), Some(EncryptDek(p, dek, kek, eWrap).value))
    ensures InitSession(p, secret, db, cookie, Some(u), password, eSalt, eDek, eUnwrap, eCookie)
      == SessionStep(db, cookie, Fail(Crypto(DecryptionFailed)), [])
  {
    WrongPasswordRow(p, password, dek, salt, kek, eWrap, db.users[u]);
    InitSessionUnlockFails(p, secret, db, cookie, u, password, eSalt, eDek, eUnwrap, eCookie);
  }

  /** A row holding a salt and a key wrapped under another KEK than the
      password's is not provisioned again, and its key does not unwrap: the
      stored salt reads back, so the password's KEK is derived from it. */
  lemma WrongPasswordRow(
    p: Primitives, password: string, dek: seq<byte>, salt: seq<byte>, kek: seq<byte>, eWrap: Entropy, row: UserRow)
    requires AeadRejectsOtherKeys(p) && KdfLength(p)
    requires |kek| == KeyLength && |salt| == KeyLength && DeriveKek(p, password, salt) != kek
    requires row == UserRow(Some(Base64.Encode(salt)), Some(EncryptDek(p, dek, kek, eWrap).value))
    ensures !Provisions(row)
    ensures DecryptDek(p, row.encryptedDek.value, DeriveKek(p, password, Base64.Decode(row.encryptionSalt.value)))
      == Failure(DecryptionFailed)
  {
    EncryptWrappedNonempty(p, dek, kek, eWrap);
    Base64EncodeNonempty(salt);
    Base64.DecodeEncode(salt);
    DecryptDekOtherKek(p, dek, kek, DeriveKek(p, password, salt), eWrap);
  }

  /** A stored key that does not unwrap under the password's KEK fails the
      sign-in with the unwrapping error, and nothing is written. */
  lemma InitSessionUnlockFails(
    p: Primitives, secret: Option<string>, db: Db, cookie: Option<Cookie>,
    u: Id, password: string,
    eSalt: Entropy, eDek: Entropy, eWrap: Entropy, eCookie: Entropy)
    requires u != "" && u in db.users && !Provisions(db.users[u])
    requires DecryptDek(p, db.users[u].encryptedDek.value,
      DeriveKek(p, password, Base64.Decode(db.users[u].encryptionSalt.value))).Failure?
    ensures InitSession(p, secret, db, cookie, Some(u), password, eSalt, eDek, eWrap, eCookie)
      == SessionStep(db, cookie, Fail(Crypto(DecryptDek(p, db.users[u].encryptedDek.value,
           DeriveKek(p, password, Base64.Decode(db.users[u].encryptionSalt.value))).error)), [])
  {
    InitSessionUnlockBranch(p, secret, db, cookie, u, password, eSalt, eDek, eWrap, eCookie);
  }

  /** A user row holding key material is unlocked, never re-provisioned. */
  lemma InitSessionUnlockBranch(
    p: Primitives, secret: Option<string>, db: Db, cookie: Option<Cookie>,
    u: Id, password: string,
    eSalt: Entropy, eDek: Entropy, eWrap: Entropy, eCookie: Entropy)
    requires u != "" && u in db.users && !Provisions(db.users[u])
    ensures var row := db.users[u];
      var dek := DecryptDek(p, row.encryptedDek.value, DeriveKek(p, password, Base64.Decode(row.encryptionSalt.value)));
      InitSession(p, secret, db, cookie, Some(u), password, eSalt, eDek, eWrap, eCookie)
        == if dek.Failure? then SessionStep(db, cookie, Fail(Crypto(dek.error)), [])
           else SetCookie(p, secret, db, cookie, dek.value, eCookie)
  {
  }

  /** The base64 form of a 32-byte salt is not empty. */
  lemma Base64EncodeNonempty(salt: seq<byte>)
    requires |salt| == KeyLength
    ensures Base64.Encode(salt) != ""
  {
  }
}
