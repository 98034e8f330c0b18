/**
 * The handlers as the controllers run them: one step after another on a
 * user collection that is changed in place. Each handler method ends in the
 * state, with the answer, that its function in `UserControllers` gives, and
 * keeps the collection invariant.
 */
module AccountStore {
  import opened Wrappers
  import opened Text
  import opened Crypto
  import opened UserModel
  import opened UserControllers
  import opened AccountProperties

  class UserStore {
    var users: map<Id, User>
    var nextId: nat
    const config: Config

    function State(): Db
      reads this
    {
      Db(users, nextId)
    }

    constructor (config: Config)
      ensures State() == Db(map[], 0) && this.config == config && Valid(State())
    {
      users := map[];
      nextId := 0;
      this.config := config;
    }

    /** `User.create(u)`: the record stored under the next identifier. */
    method Create(u: User) returns (id: Id)
      modifies this
      ensures id == old(nextId) && users == old(users)[id := u] && nextId == id + 1
    {
      id := nextId;
      users := users[id := u];
      nextId := nextId + 1;
    }

    /** `doc.save()` of a loaded document: the pre-save hook runs, then the document is written back. */
    method Save(id: Id, doc: Document)
      modifies this
      ensures users == old(users)[id := PreSave(doc)] && nextId == old(nextId)
    {
      users := users[id := PreSave(doc)];
    }

    /** `generateAccessTokenAndRefreshToken` */
    method GenerateAccessTokenAndRefreshToken(id: Id, now: int) returns (r: Result<TokenPair, ApiError>)
      modifies this
      ensures (State(), r) == IssueTokens(old(State()), config, id, now)
    {
      if id !in users {
        return Err(ApiError(500, TokenErrorMessage));
      }
      var user := Load(users[id]);
      var accessToken := GenerateAccessToken(id, users[id], config, now);
      var refreshToken := GenerateRefreshToken(id, config, now);
      SaveRefreshToken(users[id], Some(refreshToken));
      user := user.(refreshToken := Some(refreshToken));
      Save(id, user);
      r := Ok(TokenPair(accessToken, refreshToken));
    }

    /** `registerUser` */
    method RegisterUser(body: RegisterBody, now: int) returns (out: Outcome)
      requires Valid(State())
      modifies this
      ensures Step(State(), out) == Register(old(State()), config, body, now)
      ensures Valid(State())
    {
      ghost var db0 := State();
      RegisterKeepsValid(db0, config, body, now);
      if !RegisterFieldsGiven(body) {
        return Err(ApiError(400, MissingFieldsMessage));
      }
      var existed := FindOne(State(), RegisterFilter(body));
      if existed.Some? {
        return Err(ApiError(409, UserExistsMessage));
      }
      var doc := NewDocument(body.fullName.value, ToLower(body.username.value), body.email.value,
                             body.password.value, body.mobileNumber.value);
      if doc.username == "" {
        return Err(ApiError(500, UsernameRequiredMessage));
      }
      var record := PreSave(doc);
      assert record == RegisteredRecord(body);
      if ViolatesIndex(users, nextId, record) {
        return Err(ApiError(500, DuplicateKeyMessage));
      }
      var id := Create(record);
      var createdUser := Sanitize(id, users[id]);
      var tokens := GenerateAccessTokenAndRefreshToken(id, now);
      ghost var stored := record.(refreshToken := Some(GenerateRefreshToken(id, config, now)));
      OverwriteTwice(db0.users, id, record, stored);
      out := Ok(Reply(201, Created(createdUser), []));
      assert State() == Db(db0.users[id := stored], id + 1);
      assert Register(db0, config, body, now) == Step(State(), out);
    }

    /** `loginUser` */
    method LoginUser(body: LoginBody, now: int) returns (out: Outcome)
      requires Valid(State())
      modifies this
      ensures Step(State(), out) == Login(old(State()), config, body, now)
      ensures Valid(State())
    {
      LoginKeepsValid(State(), config, body, now);
      if !LoginFieldsGiven(body) {
        return Err(ApiError(400, MissingCredentialsMessage));
      }
      var found := FindOne(State(), LoginFilter(body));
      if found.None? {
        return Err(ApiError(404, LoginNotFoundMessage));
      }
      var id := found.value;
      if !IsCorrectPassword(users[id], body.password.value) {
        return Err(ApiError(401, IncorrectPasswordMessage));
      }
      var tokens := GenerateAccessTokenAndRefreshToken(id, now);
      var loggedInUser := Sanitize(id, users[id]);
      var pair := tokens.value;
      out := Ok(Reply(200, LoggedIn(loggedInUser, pair.accessToken, pair.refreshToken),
                      [SetCookie("accessToken", pair.accessToken, SessionCookie),
                       SetCookie("refreshToken", pair.refreshToken, SessionCookie)]));
    }

    /** `logoutUser` */
    method LogoutUser(caller: Option<Id>) returns (out: Outcome)
      requires Valid(State())
      modifies this
      ensures Step(State(), out) == Logout(old(State()), caller)
      ensures Valid(State())
    {
      LogoutKeepsValid(State(), caller);
      if caller.None? {
        return Err(ApiError(400, NotAuthenticatedMessage));
      }
      var id := caller.value;
      if id in users {
        users := users[id := users[id].(refreshToken := None)];
      }
      out := Ok(Reply(200, NoData, [ClearCookie("accessToken", SessionCookie), ClearCookie("refreshToken", SessionCookie)]));
    }

    /** `getCurrentUser` */
    method GetCurrentUser(caller: Option<Id>) returns (out: Reply)
      ensures out == CurrentUser(State(), caller)
    {
      var user := None;
      if caller.Some? && caller.value in users {
        user := Some(Sanitize(caller.value, users[caller.value]));
      }
      out := Reply(200, Current(user), []);
    }

    /** `updateUserProfile` (with the guard on `mobileNumber`) */
    method UpdateUserProfile(caller: Option<Id>, body: ProfileBody) returns (out: Outcome)
      requires Valid(State())
      modifies this
      ensures Step(State(), out) == UpdateProfile(old(State()), caller, body)
      ensures Valid(State())
    {
      UpdateProfileKeepsValid(State(), caller, body);
      if ProfileRejected(body) {
        return Err(ApiError(400, ProfileFieldsMessage));
      }
      if caller.None? || caller.value !in users {
        return Ok(Reply(200, Profile(None), []));
      }
      var id := caller.value;
      var updated := users[id].(fullName := Trim(body.fullName.value), email := Trim(body.email.value),
                                mobileNumber := body.mobileNumber.value);
      if ViolatesIndex(users, id, updated) {
        return Err(ApiError(500, DuplicateKeyMessage));
      }
      users := users[id := updated];
      out := Ok(Reply(200, Profile(Some(ProfileView(Sanitize(id, updated), updated.refreshToken))), []));
    }

    /** `passwordChange`: `user.password = newPassword; user.save()` */
    method PasswordChange(caller: Option<Id>, body: PasswordBody) returns (out: Outcome)
      requires Valid(State())
      modifies this
      ensures Step(State(), out) == ChangePassword(old(State()), caller, body)
      ensures Valid(State())
    {
      ChangePasswordKeepsValid(State(), caller, body);
      if caller.None? || caller.value !in users {
        return Err(ApiError(500, InternalErrorMessage));
      }
      var id := caller.value;
      if body.oldPassword.None? {
        return Err(ApiError(500, InternalErrorMessage));
      }
      if !IsCorrectPassword(users[id], body.oldPassword.value) {
        return Err(ApiError(400, InvalidOldPasswordMessage));
      }
      if body.newPassword.None? {
        return Err(ApiError(500, InternalErrorMessage));
      }
      var user := Load(users[id]);
      user := user.(password := Assigned(body.newPassword.value));
      Save(id, user);
      out := Ok(Reply(200, NoData, []));
    }

    /** `deleteUser` */
    method DeleteAccount(caller: Option<Id>) returns (out: Outcome)
      requires Valid(State())
      modifies this
      ensures Step(State(), out) == DeleteUser(old(State()), caller)
      ensures Valid(State())
    {
      DeleteKeepsValid(State(), caller);
      if caller.None? {
        return Err(ApiError(400, NotAuthenticatedMessage));
      }
      var id := caller.value;
      if id !in users {
        return Err(ApiError(404, UserNotFoundMessage));
      }
      users := users - {id};
      out := Ok(Reply(200, NoData, []));
    }
  }
}
