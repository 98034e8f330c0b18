/**
 * What the account handlers promise, stated over their functions: the
 * collection invariant is kept by every handler, each error answer leaves
 * the collection as it was, and each success changes exactly what the
 * handler writes.
 */
module AccountProperties {
  import opened Wrappers
  import opened Text
  import opened Crypto
  import opened UserModel
  import opened UserControllers

  lemma IssueTokensKeepsValid(db: Db, config: Config, id: Id, now: int)
    requires Valid(db)
    ensures Valid(IssueTokens(db, config, id, now).0)
  {
    if id in db.users {
      SameKeysKeepUnique(db.users, id, db.users[id].(refreshToken := Some(GenerateRefreshToken(id, config, now))));
    }
  }

  /** A second write under the same key replaces the first. */
  lemma OverwriteTwice(m: map<Id, User>, k: Id, v: User, w: User)
    ensures m[k := v][k := w] == m[k := w]
  {
  }

  /** Storing a normalized record under a fresh identifier that the unique indexes accept keeps the invariant. */
  lemma InsertKeepsValid(db: Db, u: User)
    requires Valid(db) && Normalized(u) && !ViolatesIndex(db.users, db.nextId, u)
    ensures Valid(Db(db.users[db.nextId := u], db.nextId + 1))
  {
    WriteKeepsUnique(db.users, db.nextId, u);
  }

  lemma RegisterKeepsValid(db: Db, config: Config, body: RegisterBody, now: int)
    requires Valid(db)
    ensures Valid(Register(db, config, body, now).db)
  {
    var r := Register(db, config, body, now);
    if RegisterFieldsGiven(body) && FindOne(db, RegisterFilter(body)).None? {
      var u := RegisteredRecord(body);
      if u.username != "" && !ViolatesIndex(db.users, db.nextId, u) {
        var stored := u.(refreshToken := Some(GenerateRefreshToken(db.nextId, config, now)));
        assert r.db == Db(db.users[db.nextId := stored], db.nextId + 1);
        NewDocumentNormalized(body.fullName.value, ToLower(body.username.value), body.email.value,
                              body.password.value, body.mobileNumber.value);
        assert !ViolatesIndex(db.users, db.nextId, stored);
        InsertKeepsValid(db, stored);
      } else {
        assert r.db == db;
      }
    } else {
      assert r.db == db;
    }
  }

  lemma LoginKeepsValid(db: Db, config: Config, body: LoginBody, now: int)
    requires Valid(db)
    ensures Valid(Login(db, config, body, now).db)
  {
    if LoginFieldsGiven(body) && FindOne(db, LoginFilter(body)).Some? {
      var id := FindOne(db, LoginFilter(body)).value;
      SameKeysKeepUnique(db.users, id, db.users[id].(refreshToken := Some(GenerateRefreshToken(id, config, now))));
    }
  }

  lemma LogoutKeepsValid(db: Db, caller: Option<Id>)
    requires Valid(db)
    ensures Valid(Logout(db, caller).db)
  {
    if caller.Some? && caller.value in db.users {
      SameKeysKeepUnique(db.users, caller.value, db.users[caller.value].(refreshToken := None));
    }
  }

  /** The `$set` of the profile update keeps the invariant: the setters trim what they store, and the indexes refuse a collision. */
  lemma SetProfileKeepsValid(db: Db, caller: Option<Id>, fullName: string, email: string, mobileNumber: Field)
    requires Valid(db)
    ensures Valid(SetProfile(db, caller, fullName, email, mobileNumber).db)
  {
    if caller.Some? && caller.value in db.users {
      var id := caller.value;
      var prev := db.users[id];
      var u := prev.(fullName := Trim(fullName), email := Trim(email),
                     mobileNumber := if mobileNumber.Some? then mobileNumber.value else prev.mobileNumber);
      TrimIsTrimmed(fullName);
      TrimIsTrimmed(email);
      if !ViolatesIndex(db.users, id, u) {
        WriteKeepsUnique(db.users, id, u);
      }
    }
  }

  lemma UpdateProfileKeepsValid(db: Db, caller: Option<Id>, body: ProfileBody)
    requires Valid(db)
    ensures Valid(UpdateProfile(db, caller, body).db)
  {
    if !ProfileRejected(body) {
      SetProfileKeepsValid(db, caller, body.fullName.value, body.email.value, body.mobileNumber);
    }
  }

  lemma UpdateProfileAsWrittenKeepsValid(db: Db, caller: Option<Id>, body: ProfileBody)
    requires Valid(db)
    ensures Valid(UpdateProfileAsWritten(db, caller, body).db)
  {
    if !ProfileRejectedAsWritten(body) {
      SetProfileKeepsValid(db, caller, body.fullName.value, body.email.value, body.mobileNumber);
    }
  }

  lemma ChangePasswordKeepsValid(db: Db, caller: Option<Id>, body: PasswordBody)
    requires Valid(db)
    ensures Valid(ChangePassword(db, caller, body).db)
  {
    var r := ChangePassword(db, caller, body);
    if r.out.Ok? {
      var id := caller.value;
      var u := db.users[id].(password := Hash(body.newPassword.value));
      assert r.db == db.(users := db.users[id := u]);
      SameKeysKeepUnique(db.users, id, u);
      assert Normalized(u);
    } else {
      assert r.db == db;
    }
  }

  lemma DeleteKeepsValid(db: Db, caller: Option<Id>)
    requires Valid(db)
    ensures Valid(DeleteUser(db, caller).db)
  {
  }

  /** `generateAccessTokenAndRefreshToken`: for a stored user, only its refresh token changes, to the one returned; the password digest is written back untouched. */
  lemma IssueTokensEffect(db: Db, config: Config, id: Id, now: int)
    ensures var (db', r) := IssueTokens(db, config, id, now);
      && (id !in db.users <==> r == Err(ApiError(500, TokenErrorMessage)))
      && (id !in db.users ==> db' == db)
      && (r.Ok? ==>
            && db'.nextId == db.nextId
            && db'.users == db.users[id := db.users[id].(refreshToken := Some(r.value.refreshToken))]
            && db'.users[id].password == db.users[id].password
            && Verify(r.value.accessToken, config.accessSecret)
               == Some(AccessClaims(id, db.users[id].username, db.users[id].email, db.users[id].fullName, db.users[id].mobileNumber))
            && Verify(r.value.refreshToken, config.refreshSecret) == Some(RefreshClaims(id)))
  {
  }

  /** Register with a field missing or empty answers 400 and writes nothing; no other branch answers 400. */
  lemma RegisterMissingField(db: Db, config: Config, body: RegisterBody, now: int)
    requires Bounded(db)
    ensures var r := Register(db, config, body, now);
      && (r.out == Err(ApiError(400, MissingFieldsMessage)) <==> !RegisterFieldsGiven(body))
      && (!RegisterFieldsGiven(body) ==> r.db == db)
  {
  }

  /**
   * Register answers 409, writing nothing, when a stored record has the
   * username or the email as the setters make them, or the mobile number as
   * supplied: a username differing from a stored one only in case or outer
   * white space is a conflict.
   */
  lemma RegisterConflict(db: Db, config: Config, body: RegisterBody, now: int, id: Id)
    requires Bounded(db) && RegisterFieldsGiven(body) && id in db.users
    requires || db.users[id].username == ToLower(Trim(body.username.value))
             || db.users[id].email == Trim(body.email.value)
             || db.users[id].mobileNumber == body.mobileNumber.value
    ensures Register(db, config, body, now) == Step(db, Err(ApiError(409, UserExistsMessage)))
  {
    assert Matches(db.users[id], RegisterFilter(body));
  }

  /**
   * The pre-check casts its values as the record stores them, so a record
   * that passes it collides with no stored one: the unique indexes never
   * refuse a registration that the 409 check let through.
   */
  lemma RegisterPassesIndexes(db: Db, body: RegisterBody)
    requires RegisterFieldsGiven(body) && !Taken(db.users, RegisterFilter(body))
    ensures !ViolatesIndex(db.users, db.nextId, RegisteredRecord(body))
  {
    RegisteredRecordFields(body);
    var u := RegisteredRecord(body);
    forall other | other in db.users && other != db.nextId
      ensures !Clash(db.users[other], u)
    {
      assert !Matches(db.users[other], RegisterFilter(body));
    }
  }

  /** No failed registration writes anything. */
  lemma RegisterFailureWritesNothing(db: Db, config: Config, body: RegisterBody, now: int)
    requires Bounded(db)
    ensures Register(db, config, body, now).out.Err? ==> Register(db, config, body, now).db == db
  {
  }

  /** Registration succeeds exactly when every field is given, no record has the values as cast, and the stored username is not empty. */
  lemma RegisterAcceptedIff(db: Db, config: Config, body: RegisterBody, now: int)
    requires Bounded(db)
    ensures Register(db, config, body, now).out.Ok? <==>
      && RegisterFieldsGiven(body)
      && !Taken(db.users, RegisterFilter(body))
      && ToLower(Trim(body.username.value)) != ""
  {
    if RegisterFieldsGiven(body) {
      UsernameSetterAfterLower(body.username.value);
      if !Taken(db.users, RegisterFilter(body)) {
        RegisterPassesIndexes(db, body);
      }
    }
  }

  /**
   * A successful registration adds exactly one record, under a fresh
   * identifier: username trimmed and lower-cased, email and full name
   * trimmed, the mobile number as given, a digest of the password, and the
   * refresh token just issued. The 201 answer carries that record without
   * password or refresh token, and no token.
   */
  lemma RegisterSuccess(db: Db, config: Config, body: RegisterBody, now: int)
    requires Bounded(db)
    requires Register(db, config, body, now).out.Ok?
    ensures db.nextId !in db.users && db.nextId in Register(db, config, body, now).db.users
    ensures var r := Register(db, config, body, now);
      var id := db.nextId;
      var u := r.db.users[id];
      && r.db.nextId == id + 1
      && r.db.users.Keys == db.users.Keys + {id}
      && (forall k :: k in db.users ==> r.db.users[k] == db.users[k])
      && u.username == ToLower(Trim(body.username.value))
      && u.email == Trim(body.email.value)
      && u.fullName == Trim(body.fullName.value)
      && u.mobileNumber == body.mobileNumber.value
      && IsCorrectPassword(u, body.password.value)
      && u.password.cost == SaltRounds
      && u.refreshToken.Some? && Verify(u.refreshToken.value, config.refreshSecret) == Some(RefreshClaims(id))
      && r.out == Ok(Reply(201, Created(SafeUser(id, u.username, u.email, u.fullName, u.mobileNumber)), []))
  {
    var id := db.nextId;
    var u := RegisteredRecord(body);
    RegisterStores(db, config, body, now);
    RegisteredRecordFields(body);
  }

  /** The record `User.create` builds: the setters' normal forms of the supplied values and a digest of the password. */
  lemma RegisterStores(db: Db, config: Config, body: RegisterBody, now: int)
    requires Bounded(db)
    requires Register(db, config, body, now).out.Ok?
    ensures RegisterFieldsGiven(body) && !ViolatesIndex(db.users, db.nextId, RegisteredRecord(body))
    ensures var id := db.nextId;
            var u := RegisteredRecord(body);
            Register(db, config, body, now) ==
            Step(Db(db.users[id := u.(refreshToken := Some(GenerateRefreshToken(id, config, now)))], id + 1),
                 Ok(Reply(201, Created(Sanitize(id, u)), [])))
  {
  }

  /** The same registration sent twice: the second is refused with 409, whatever the case or padding of the username and email. */
  lemma RegisterTwiceConflicts(db: Db, config: Config, body: RegisterBody, now: int, later: int)
    requires Bounded(db)
    requires Register(db, config, body, now).out.Ok?
    ensures var db' := Register(db, config, body, now).db;
            Bounded(db') && Register(db', config, body, later) == Step(db', Err(ApiError(409, UserExistsMessage)))
  {
    var db' := Register(db, config, body, now).db;
    RegisterSuccess(db, config, body, now);
    RegisterConflict(db', config, body, later, db.nextId);
  }

  /** Login's error answers, in the order the handler checks them; none of them writes anything. */
  lemma LoginErrors(db: Db, config: Config, body: LoginBody, now: int)
    requires Bounded(db)
    ensures var r := Login(db, config, body, now);
      && (!LoginFieldsGiven(body) ==> r.out == Err(ApiError(400, MissingCredentialsMessage)))
      && (LoginFieldsGiven(body) && !Taken(db.users, LoginFilter(body)) ==> r.out == Err(ApiError(404, LoginNotFoundMessage)))
      && (LoginFieldsGiven(body) && Taken(db.users, LoginFilter(body)) &&
          !IsCorrectPassword(db.users[FindOne(db, LoginFilter(body)).value], body.password.value)
          ==> r.out == Err(ApiError(401, IncorrectPasswordMessage)))
      && (r.out.Err? ==> r.db == db)
  {
  }

  /**
   * A successful login changes only the refresh token of the user found,
   * to the one returned; it answers 200 with that user without password or
   * refresh token, both tokens, and both tokens set as cookies.
   */
  lemma LoginSuccess(db: Db, config: Config, body: LoginBody, now: int)
    requires Bounded(db)
    requires Login(db, config, body, now).out.Ok?
    ensures var r := Login(db, config, body, now);
      var id := FindOne(db, LoginFilter(body)).value;
      var u := db.users[id];
      var reply := r.out.value;
      && Taken(db.users, LoginFilter(body)) && Matches(u, LoginFilter(body))
      && IsCorrectPassword(u, body.password.value)
      && reply.status == 200 && reply.data.LoggedIn?
      && r.db == db.(users := db.users[id := u.(refreshToken := Some(reply.data.refreshToken))])
      && reply.data.user == SafeUser(id, u.username, u.email, u.fullName, u.mobileNumber)
      && Verify(reply.data.accessToken, config.accessSecret) == Some(AccessClaims(id, u.username, u.email, u.fullName, u.mobileNumber))
      && Verify(reply.data.refreshToken, config.refreshSecret) == Some(RefreshClaims(id))
      && reply.cookies == [SetCookie("accessToken", reply.data.accessToken, SessionCookie),
                           SetCookie("refreshToken", reply.data.refreshToken, SessionCookie)]
      && SessionCookie.httpOnly && SessionCookie.secure
  {
  }

  /** Under the unique indexes, a login by email finds the one user with that email, once trimmed. */
  lemma LoginByEmailFinds(db: Db, body: LoginBody, id: Id)
    requires Valid(db) && body.username.None? && body.email.Some?
    requires id in db.users && db.users[id].email == Trim(body.email.value)
    ensures FindOne(db, LoginFilter(body)) == Some(id)
  {
    assert Matches(db.users[id], LoginFilter(body));
    var found := FindOne(db, LoginFilter(body)).value;
    assert db.users[found].email == Trim(body.email.value);
    assert !Clash(db.users[found], db.users[id]) || found == id;
  }

  /** A registered user logging in by email: the right password answers 200 with an access token for that user, any other password 401. */
  lemma LoginByEmail(db: Db, config: Config, body: LoginBody, now: int, id: Id)
    requires Valid(db) && body.username.None? && LoginFieldsGiven(body)
    requires id in db.users && db.users[id].email == Trim(body.email.value)
    ensures var r := Login(db, config, body, now);
      var u := db.users[id];
      && (IsCorrectPassword(u, body.password.value) ==>
            && r.out.Ok? && r.out.value.status == 200 && r.out.value.data.LoggedIn?
            && Verify(r.out.value.data.accessToken, config.accessSecret)
               == Some(AccessClaims(id, u.username, u.email, u.fullName, u.mobileNumber)))
      && (!IsCorrectPassword(u, body.password.value) ==>
            r == Step(db, Err(ApiError(401, IncorrectPasswordMessage))))
  {
    LoginByEmailFinds(db, body, id);
  }

  /** Logout: without a user 400; otherwise that user's stored refresh token is cleared, nothing else changes, and both cookies are cleared. */
  lemma LogoutEffect(db: Db, caller: Option<Id>)
    ensures var r := Logout(db, caller);
      && (caller.None? ==> r == Step(db, Err(ApiError(400, NotAuthenticatedMessage))))
      && (caller.Some? ==>
            && r.out == Ok(Reply(200, NoData, [ClearCookie("accessToken", SessionCookie), ClearCookie("refreshToken", SessionCookie)]))
            && r.db.nextId == db.nextId
            && r.db.users.Keys == db.users.Keys
            && (forall k :: k in db.users && k != caller.value ==> r.db.users[k] == db.users[k])
            && (caller.value in db.users ==>
                  r.db.users[caller.value] == db.users[caller.value].(refreshToken := None)))
  {
  }

  /** After a successful delete, the deleted user's token no longer finds a current user. */
  lemma DeletedUserIsNotCurrent(db: Db, caller: Option<Id>)
    requires DeleteUser(db, caller).out.Ok?
    ensures CurrentUser(DeleteUser(db, caller).db, caller).data.current == None
  {
  }

  /**
   * Profile update: 400 when a field is missing, nothing written; otherwise
   * only the caller's full name (trimmed), email (trimmed) and mobile number
   * change, and username, password and refresh token stay as they were.
   */
  lemma UpdateProfileEffect(db: Db, caller: Option<Id>, body: ProfileBody)
    ensures var r := UpdateProfile(db, caller, body);
      && (ProfileRejected(body) ==> r == Step(db, Err(ApiError(400, ProfileFieldsMessage))))
      && (r.out.Err? || caller.None? || caller.value !in db.users ==> r.db == db)
      && (!ProfileRejected(body) && (caller.None? || caller.value !in db.users) ==> r.out == Ok(Reply(200, Profile(None), [])))
      && (r.out.Ok? && caller.Some? && caller.value in db.users ==>
            var id := caller.value;
            var u := r.db.users[id];
            && r.db.nextId == db.nextId
            && r.db.users.Keys == db.users.Keys
            && (forall k :: k in db.users && k != id ==> r.db.users[k] == db.users[k])
            && u.fullName == Trim(body.fullName.value) && u.email == Trim(body.email.value)
            && u.mobileNumber == body.mobileNumber.value
            && u.username == db.users[id].username && u.password == db.users[id].password
            && u.refreshToken == db.users[id].refreshToken
            && r.out.value.data == Profile(Some(ProfileView(Sanitize(id, u), u.refreshToken))))
  {
  }

  /**
   * The handler as written agrees with the corrected one, except on a body
   * whose full name and email are given and whose mobile number is missing
   * or empty: there the corrected guard answers 400 and the written one
   * lets the update run.
   */
  lemma UpdateProfileAsWrittenAgrees(db: Db, caller: Option<Id>, body: ProfileBody)
    ensures UpdateProfileAsWritten(db, caller, body) == UpdateProfile(db, caller, body) <==>
      Given(body.mobileNumber) || ProfileRejectedAsWritten(body)
  {
    ProfileGuardIff(body);
  }

  /**
   * A body with full name and email but no usable mobile number, sent by a
   * stored caller: the handler as written updates the record, storing an
   * empty number as the empty string and keeping the stored number when the
   * field is absent, and answers 200 unless an index refuses; the corrected
   * handler answers 400 and writes nothing.
   */
  lemma MissingMobileUpdatedAsWritten(db: Db, id: Id, body: ProfileBody)
    requires id in db.users && Given(body.fullName) && Given(body.email) && !Given(body.mobileNumber)
    ensures var r := UpdateProfileAsWritten(db, Some(id), body);
      var prev := db.users[id];
      var u := prev.(fullName := Trim(body.fullName.value), email := Trim(body.email.value),
                     mobileNumber := if body.mobileNumber.Some? then "" else prev.mobileNumber);
      && UpdateProfile(db, Some(id), body) == Step(db, Err(ApiError(400, ProfileFieldsMessage)))
      && (ViolatesIndex(db.users, id, u) <==> r == Step(db, Err(ApiError(500, DuplicateKeyMessage))))
      && (!ViolatesIndex(db.users, id, u) ==>
            && r.db == db.(users := db.users[id := u])
            && r.out == Ok(Reply(200, Profile(Some(ProfileView(Sanitize(id, u), u.refreshToken))), [])))
  {
  }

  /** The body `{ email: "a@b.co", fullName: "Ann", mobileNumber: "" }` from the only user: the written handler answers 200 and stores the empty number, the corrected one answers 400. */
  lemma AnnClearsNumberAsWritten(u: User)
    ensures var db := Db(map[0 := u], 1);
      var body := ProfileBody(Some("a@b.co"), Some("Ann"), Some(""));
      var r := UpdateProfileAsWritten(db, Some(0), body);
      && r.out.Ok? && r.out.value.status == 200 && r.db.users[0].mobileNumber == ""
      && UpdateProfile(db, Some(0), body) == Step(db, Err(ApiError(400, ProfileFieldsMessage)))
  {
    var db := Db(map[0 := u], 1);
    var body := ProfileBody(Some("a@b.co"), Some("Ann"), Some(""));
    MissingMobileUpdatedAsWritten(db, 0, body);
    var v := u.(fullName := Trim("Ann"), email := Trim("a@b.co"), mobileNumber := "");
    assert !ViolatesIndex(db.users, 0, v);
  }

  /** A wrong old password answers 400 and leaves the stored digest as it was. */
  lemma ChangePasswordWrongOld(db: Db, caller: Option<Id>, body: PasswordBody)
    requires caller.Some? && caller.value in db.users && body.oldPassword.Some?
    requires !IsCorrectPassword(db.users[caller.value], body.oldPassword.value)
    ensures ChangePassword(db, caller, body) == Step(db, Err(ApiError(400, InvalidOldPasswordMessage)))
  {
  }

  /**
   * After a successful change the new password is correct, and so is exactly
   * every password agreeing with it on bcrypt's 72 bytes, so below that
   * length only the new one; nothing else about any record changes.
   */
  lemma ChangePasswordSuccess(db: Db, caller: Option<Id>, body: PasswordBody, q: string)
    requires ChangePassword(db, caller, body).out.Ok?
    ensures var r := ChangePassword(db, caller, body);
      var id := caller.value;
      && id in db.users && body.newPassword.Some?
      && r.out == Ok(Reply(200, NoData, []))
      && IsCorrectPassword(r.db.users[id], body.newPassword.value)
      && (IsCorrectPassword(r.db.users[id], q) <==> BcryptKey(q) == BcryptKey(body.newPassword.value))
      && (WithinKeyLimit(q) && WithinKeyLimit(body.newPassword.value) && q != body.newPassword.value ==>
            !IsCorrectPassword(r.db.users[id], q))
      && r.db == db.(users := db.users[id := db.users[id].(password := r.db.users[id].password)])
  {
    CompareHash(body.newPassword.value, q);
  }

  /** The backend accepts a new password equal to the old one. */
  lemma ChangePasswordSameAccepted(db: Db, caller: Option<Id>, p: string)
    requires caller.Some? && caller.value in db.users && IsCorrectPassword(db.users[caller.value], p)
    ensures ChangePassword(db, caller, PasswordBody(Some(p), Some(p))).out.Ok?
  {
  }

  /** Delete: 400 without a user, 404 for an unknown one, otherwise exactly that record is removed. */
  lemma DeleteEffect(db: Db, caller: Option<Id>)
    ensures var r := DeleteUser(db, caller);
      && (caller.None? ==> r == Step(db, Err(ApiError(400, NotAuthenticatedMessage))))
      && (caller.Some? && caller.value !in db.users ==> r == Step(db, Err(ApiError(404, UserNotFoundMessage))))
      && (r.out.Ok? <==> caller.Some? && caller.value in db.users)
      && (r.out.Ok? ==>
            && r.db.users.Keys == db.users.Keys - {caller.value}
            && r.db.nextId == db.nextId
            && forall k :: k in r.db.users ==> r.db.users[k] == db.users[k])
  {
  }

  /** The first registration into an empty store is accepted with 201, and the store afterwards holds the user under key 0 with the email and password sent. */
  lemma RegisterIntoEmpty(config: Config, reg: RegisterBody, now: int)
    requires RegisterFieldsGiven(reg)
    requires Trimmed(reg.username.value) && NoUpper(reg.username.value) && Trimmed(reg.email.value)
    ensures
      var s1 := Register(Db(map[], 0), config, reg, now);
      && s1.out.Ok? && s1.out.value.status == 201
      && Valid(s1.db) && 0 in s1.db.users
      && s1.db.users[0].email == reg.email.value && IsCorrectPassword(s1.db.users[0], reg.password.value)
  {
    var db0 := Db(map[], 0);
    TrimTrimmed(reg.username.value);
    NoUpperIff(reg.username.value);
    TrimTrimmed(reg.email.value);
    assert !Taken(db0.users, RegisterFilter(reg));
    RegisterAcceptedIff(db0, config, reg, now);
    RegisterSuccess(db0, config, reg, now);
    RegisterKeepsValid(db0, config, reg, now);
  }

  /** Alice's registration, with a normalised username and email, is such a first registration. */
  lemma AliceRegisters(config: Config, now: int)
    ensures
      var reg := RegisterBody(Some("Alice A"), Some("a@x.com"), Some("Secret123"), Some("alice"), Some("1234567890"));
      var s1 := Register(Db(map[], 0), config, reg, now);
      && s1.out.Ok? && s1.out.value.status == 201
      && Valid(s1.db) && 0 in s1.db.users
      && s1.db.users[0].email == "a@x.com" && IsCorrectPassword(s1.db.users[0], "Secret123")
  {
    var reg := RegisterBody(Some("Alice A"), Some("a@x.com"), Some("Secret123"), Some("alice"), Some("1234567890"));
    assert NoUpper("alice");
    RegisterIntoEmpty(config, reg, now);
  }

  /**
   * A stored user logging in by email, before and after a password change:
   * the right password answers 200 and a wrong one 401; after the change
   * the old password answers 401 and the new one 200.
   */
  lemma LoginAroundPasswordChange(db: Db, config: Config, now: int, id: Id, email: string, pw: string, wrong: string, pw2: string)
    requires Valid(db) && id in db.users && db.users[id].email == email && IsCorrectPassword(db.users[id], pw)
    requires email != "" && pw != "" && wrong != "" && pw2 != "" && wrong != pw && pw2 != pw
    requires WithinKeyLimit(pw) && WithinKeyLimit(wrong) && WithinKeyLimit(pw2)
    ensures
      var s2 := Login(db, config, LoginBody(Some(email), None, Some(pw)), now);
      var s3 := Login(s2.db, config, LoginBody(Some(email), None, Some(wrong)), now);
      var s4 := ChangePassword(s3.db, Some(id), PasswordBody(Some(pw), Some(pw2)));
      var s5 := Login(s4.db, config, LoginBody(Some(email), None, Some(pw)), now);
      var s6 := Login(s5.db, config, LoginBody(Some(email), None, Some(pw2)), now);
      && s2.out.Ok? && s2.out.value.status == 200
      && s3.out == Err(ApiError(401, IncorrectPasswordMessage))
      && s4.out.Ok? && s4.out.value.status == 200
      && s5.out == Err(ApiError(401, IncorrectPasswordMessage))
      && s6.out.Ok? && s6.out.value.status == 200
  {
    var good := LoginBody(Some(email), None, Some(pw));
    var bad := LoginBody(Some(email), None, Some(wrong));
    var renewed := LoginBody(Some(email), None, Some(pw2));
    TrimTrimmed(email);
    DistinctKeysWithinLimit(wrong, pw);
    DistinctKeysWithinLimit(pw2, pw);
    LoginByEmail(db, config, good, now, id);
    var s2 := Login(db, config, good, now);
    LoginSuccess(db, config, good, now);
    LoginKeepsValid(db, config, good, now);

    LoginByEmail(s2.db, config, bad, now, id);
    var s3 := Login(s2.db, config, bad, now);

    var change := PasswordBody(Some(pw), Some(pw2));
    var s4 := ChangePassword(s3.db, Some(id), change);
    ChangePasswordSuccess(s3.db, Some(id), change, pw);
    ChangePasswordKeepsValid(s3.db, Some(id), change);

    LoginByEmail(s4.db, config, good, now, id);
    var s5 := Login(s4.db, config, good, now);
    LoginByEmail(s5.db, config, renewed, now, id);
  }

  /**
   * A run through the account life cycle: Alice registers (201), logs in
   * (200), is refused a wrong password (401), changes her password (200),
   * and from then on the old password is refused (401) and the new one
   * accepted (200).
   */
  lemma AliceScenario(config: Config, now: int)
    ensures
      var reg := RegisterBody(Some("Alice A"), Some("a@x.com"), Some("Secret123"), Some("alice"), Some("1234567890"));
      var s1 := Register(Db(map[], 0), config, reg, now);
      var s2 := Login(s1.db, config, LoginBody(Some("a@x.com"), None, Some("Secret123")), now);
      var s3 := Login(s2.db, config, LoginBody(Some("a@x.com"), None, Some("wrong")), now);
      var s4 := ChangePassword(s3.db, Some(0), PasswordBody(Some("Secret123"), Some("NewSecret1")));
      var s5 := Login(s4.db, config, LoginBody(Some("a@x.com"), None, Some("Secret123")), now);
      var s6 := Login(s5.db, config, LoginBody(Some("a@x.com"), None, Some("NewSecret1")), now);
      && s1.out.Ok? && s1.out.value.status == 201
      && s2.out.Ok? && s2.out.value.status == 200
      && s3.out == Err(ApiError(401, IncorrectPasswordMessage))
      && s4.out.Ok? && s4.out.value.status == 200
      && s5.out == Err(ApiError(401, IncorrectPasswordMessage))
      && s6.out.Ok? && s6.out.value.status == 200
  {
    AliceRegisters(config, now);
    var s1 := Register(Db(map[], 0), config,
                       RegisterBody(Some("Alice A"), Some("a@x.com"), Some("Secret123"), Some("alice"), Some("1234567890")), now);
    LoginAroundPasswordChange(s1.db, config, now, 0, "a@x.com", "Secret123", "wrong", "NewSecret1");
  }
}
