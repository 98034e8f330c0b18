/**
 * The account handlers of the backend as transitions of the user
 * collection. The functions say what each handler does to the collection
 * and what it answers; the class `UserStore` performs the same handlers
 * step by step, as the controllers do, and each of its methods is proved
 * to agree with its function.
 *
 * The authenticated user that the JWT middleware attaches to the request
 * is the parameter `caller`: `None` when `req.user` is absent.
 */
module UserControllers {
  import opened Wrappers
  import opened Text
  import opened Crypto
  import opened UserModel

  /** A thrown `ApiError`, or a library error that reaches the default error handler as a 500. */
  datatype ApiError = ApiError(status: int, message: string)

  const MissingFieldsMessage := "Please provide all required fields"
  const UserExistsMessage := "User already exists"
  const TokenErrorMessage := "Error generating tokens"
  const MissingCredentialsMessage := "Please provide email/Username and password"
  const LoginNotFoundMessage := "Use not found"
  const IncorrectPasswordMessage := "Incorrect Password"
  const NotAuthenticatedMessage := "User not authenticated"
  const ProfileFieldsMessage := "please enter fullName, email, mobileNumber"
  const InvalidOldPasswordMessage := "Invaild Old Password"
  const UserNotFoundMessage := "User not found"
  /** The message of a MongoDB unique-index rejection. */
  const DuplicateKeyMessage := "E11000 duplicate key error"
  /** The message of the `required` validator on `username`. */
  const UsernameRequiredMessage := "User validation failed: username: Path `username` is required."
  /** A runtime error inside a handler (a method called on `null`, bcrypt given no data). */
  const InternalErrorMessage := "Internal Server Error"

  /** A JSON body field: absent (`undefined`) or a string. */
  type Field = Option<string>

  /** JavaScript truthiness of a body field: present and not the empty string. */
  predicate Given(f: Field) {
    f.Some? && f.value != ""
  }

  datatype RegisterBody = RegisterBody(fullName: Field, email: Field, password: Field, username: Field, mobileNumber: Field)
  datatype LoginBody = LoginBody(email: Field, username: Field, password: Field)
  datatype ProfileBody = ProfileBody(email: Field, fullName: Field, mobileNumber: Field)
  datatype PasswordBody = PasswordBody(oldPassword: Field, newPassword: Field)

  datatype TokenPair = TokenPair(accessToken: SessionToken, refreshToken: SessionToken)

  datatype CookieOptions = CookieOptions(httpOnly: bool, secure: bool, sameSite: string)

  /** The options of both session cookies. */
  const SessionCookie := CookieOptions(true, true, "None")

  datatype Cookie =
    | SetCookie(name: string, value: SessionToken, options: CookieOptions)
    | ClearCookie(name: string, options: CookieOptions)

  /** The `data` of a successful `ApiResponse`. */
  datatype Payload =
    | NoData
    | Created(user: SafeUser)
    | LoggedIn(user: SafeUser, accessToken: SessionToken, refreshToken: SessionToken)
    | Profile(profile: Option<ProfileView>)
    | Current(current: Option<SafeUser>)

  datatype Reply = Reply(status: int, data: Payload, cookies: seq<Cookie>)

  type Outcome = Result<Reply, ApiError>

  /** The user collection and the next identifier to hand out. */
  datatype Db = Db(users: map<Id, User>, nextId: nat)

  /** A transition: the collection afterwards and the answer. */
  datatype Step = Step(db: Db, out: Outcome)

  ghost predicate Bounded(db: Db) {
    forall id :: id in db.users ==> id < db.nextId
  }

  /** The collection invariant: identifiers below `nextId`, the unique indexes hold, every record normalized by the setters. */
  ghost predicate Valid(db: Db) {
    && Bounded(db)
    && Unique(db.users)
    && forall id :: id in db.users ==> Normalized(db.users[id])
  }

  /**
   * The filter `{ $or: [{ username }, { email }, { mobileNumber }] }` as
   * Mongoose sends it, after casting its values through the schema; an
   * absent value matches no stored record.
   */
  datatype Filter = Filter(username: Field, email: Field, mobileNumber: Field)

  /** A `username` value cast through the schema: its setters run on it. */
  function CastUsername(f: Field): (r: Field)
    ensures r.Some? <==> f.Some?
    ensures r.Some? ==> r.value == ToLower(Trim(f.value))
  {
    if f.Some? then Some(UsernameSetter(f.value)) else None
  }

  /** An `email` or `fullName` value cast through the schema: its `trim` setter runs on it. */
  function CastTrimmed(f: Field): (r: Field)
    ensures r.Some? <==> f.Some?
    ensures r.Some? ==> Trimmed(r.value)
  {
    if f.Some? then TrimIsTrimmed(f.value); Some(Trim(f.value)) else None
  }

  predicate Matches(u: User, f: Filter) {
    || (f.username.Some? && u.username == f.username.value)
    || (f.email.Some? && u.email == f.email.value)
    || (f.mobileNumber.Some? && u.mobileNumber == f.mobileNumber.value)
  }

  ghost predicate Taken(users: map<Id, User>, f: Filter) {
    exists id :: id in users && Matches(users[id], f)
  }

  /** The first record below `n`, in identifier order, that matches `f`. */
  function FindBelow(users: map<Id, User>, f: Filter, n: nat): (r: Option<Id>)
    ensures r.Some? ==> r.value < n && r.value in users && Matches(users[r.value], f)
    ensures r.Some? ==> forall id :: id in users && id < r.value ==> !Matches(users[id], f)
    ensures r.None? ==> forall id :: id in users && id < n ==> !Matches(users[id], f)
  {
    if n == 0 then None
    else
      var earlier := FindBelow(users, f, n - 1);
      if earlier.Some? then earlier
      else if n - 1 in users && Matches(users[n - 1], f) then Some(n - 1)
      else None
  }

  /** `User.findOne(f)`: the earliest stored record that matches, if any. */
  function FindOne(db: Db, f: Filter): (r: Option<Id>)
    requires Bounded(db)
    ensures r.Some? ==> r.value in db.users && Matches(db.users[r.value], f)
    ensures r.Some? ==> forall id :: id in db.users && id < r.value ==> !Matches(db.users[id], f)
    ensures r.None? <==> !Taken(db.users, f)
  {
    FindBelow(db.users, f, db.nextId)
  }

  /** `generateAccessTokenAndRefreshToken(id)`: both tokens from the record as stored, and the refresh token written onto it. */
  function IssueTokens(db: Db, config: Config, id: Id, now: int): (r: (Db, Result<TokenPair, ApiError>))
    ensures r.0.users.Keys == db.users.Keys && r.0.nextId == db.nextId
    ensures r.1.Ok? <==> id in db.users
  {
    if id !in db.users then (db, Err(ApiError(500, TokenErrorMessage)))
    else
      var u := db.users[id];
      var refresh := GenerateRefreshToken(id, config, now);
      (db.(users := db.users[id := u.(refreshToken := Some(refresh))]),
       Ok(TokenPair(GenerateAccessToken(id, u, config, now), refresh)))
  }

  predicate RegisterFieldsGiven(body: RegisterBody) {
    Given(body.fullName) && Given(body.email) && Given(body.username) && Given(body.mobileNumber) && Given(body.password)
  }

  /** The pre-check of `registerUser`: the supplied values, cast through the schema. */
  function RegisterFilter(body: RegisterBody): Filter {
    Filter(CastUsername(body.username), CastTrimmed(body.email), body.mobileNumber)
  }

  /** The record `User.create` stores for a register body whose fields are all given. */
  function RegisteredRecord(body: RegisterBody): User
    requires RegisterFieldsGiven(body)
  {
    PreSave(NewDocument(body.fullName.value, ToLower(body.username.value), body.email.value,
                        body.password.value, body.mobileNumber.value))
  }

  /** The record `User.create` stores: the setters' output, and a digest under which the supplied password is correct. */
  lemma RegisteredRecordFields(body: RegisterBody)
    requires RegisterFieldsGiven(body)
    ensures var u := RegisteredRecord(body);
      && u.username == ToLower(Trim(body.username.value))
      && u.email == Trim(body.email.value)
      && u.fullName == Trim(body.fullName.value)
      && u.mobileNumber == body.mobileNumber.value
      && IsCorrectPassword(u, body.password.value)
      && u.password.cost == SaltRounds
  {
    UsernameSetterAfterLower(body.username.value);
  }

  /** `registerUser` */
  function Register(db: Db, config: Config, body: RegisterBody, now: int): (r: Step)
    requires Bounded(db)
    ensures Bounded(r.db)
  {
    if !RegisterFieldsGiven(body) then Step(db, Err(ApiError(400, MissingFieldsMessage)))
    else if FindOne(db, RegisterFilter(body)).Some? then Step(db, Err(ApiError(409, UserExistsMessage)))
    else
      var u := RegisteredRecord(body);
      if u.username == "" then Step(db, Err(ApiError(500, UsernameRequiredMessage)))
      else if ViolatesIndex(db.users, db.nextId, u) then Step(db, Err(ApiError(500, DuplicateKeyMessage)))
      else
        var id := db.nextId;
        var stored := u.(refreshToken := Some(GenerateRefreshToken(id, config, now)));
        Step(Db(db.users[id := stored], id + 1), Ok(Reply(201, Created(Sanitize(id, u)), [])))
  }

  predicate LoginFieldsGiven(body: LoginBody) {
    (Given(body.email) || Given(body.username)) && Given(body.password)
  }

  /** The look-up of `loginUser`: the supplied values, cast through the schema. */
  function LoginFilter(body: LoginBody): Filter {
    Filter(CastUsername(body.username), CastTrimmed(body.email), None)
  }

  /** `loginUser` */
  function Login(db: Db, config: Config, body: LoginBody, now: int): (r: Step)
    requires Bounded(db)
    ensures Bounded(r.db)
  {
    if !LoginFieldsGiven(body) then Step(db, Err(ApiError(400, MissingCredentialsMessage)))
    else match FindOne(db, LoginFilter(body))
      case None => Step(db, Err(ApiError(404, LoginNotFoundMessage)))
      case Some(id) =>
        var u := db.users[id];
        if !IsCorrectPassword(u, body.password.value) then Step(db, Err(ApiError(401, IncorrectPasswordMessage)))
        else
          var access := GenerateAccessToken(id, u, config, now);
          var refresh := GenerateRefreshToken(id, config, now);
          Step(db.(users := db.users[id := u.(refreshToken := Some(refresh))]),
               Ok(Reply(200, LoggedIn(Sanitize(id, u), access, refresh),
                        [SetCookie("accessToken", access, SessionCookie), SetCookie("refreshToken", refresh, SessionCookie)])))
  }

  /** `logoutUser` */
  function Logout(db: Db, caller: Option<Id>): (r: Step)
    ensures r.db.users.Keys == db.users.Keys && r.db.nextId == db.nextId
    ensures r.out.Ok? <==> caller.Some?
  {
    if caller.None? then Step(db, Err(ApiError(400, NotAuthenticatedMessage)))
    else
      var id := caller.value;
      var users := if id in db.users then db.users[id := db.users[id].(refreshToken := None)] else db.users;
      Step(db.(users := users),
           Ok(Reply(200, NoData, [ClearCookie("accessToken", SessionCookie), ClearCookie("refreshToken", SessionCookie)])))
  }

  /** `getCurrentUser`: answers with the user the middleware attached. */
  function CurrentUser(db: Db, caller: Option<Id>): (r: Reply)
    ensures r.status == 200 && r.cookies == [] && r.data.Current?
    ensures r.data.current.Some? <==> caller.Some? && caller.value in db.users
    ensures r.data.current.Some? ==> r.data.current.value == Sanitize(caller.value, db.users[caller.value])
  {
    var user := if caller.Some? && caller.value in db.users then Some(Sanitize(caller.value, db.users[caller.value])) else None;
    Reply(200, Current(user), [])
  }

  /** The guard of `updateUserProfile` as written: `!fullName || !email || !email`. */
  predicate ProfileRejectedAsWritten(body: ProfileBody) {
    !Given(body.fullName) || !Given(body.email) || !Given(body.email)
  }

  /** The guard its message asks for: `!fullName || !email || !mobileNumber`. */
  predicate ProfileRejected(body: ProfileBody) {
    !Given(body.fullName) || !Given(body.email) || !Given(body.mobileNumber)
  }

  /** The guard as written lets a body without `mobileNumber` through; the intended guard stops it. */
  lemma ProfileGuardMissesMobile()
    ensures var body := ProfileBody(Some("a@b.co"), Some("Ann"), None);
            !ProfileRejectedAsWritten(body) && ProfileRejected(body)
  {
  }

  /** The intended guard rejects exactly the bodies where one of the three fields is missing or empty. */
  lemma ProfileGuardIff(body: ProfileBody)
    ensures !ProfileRejected(body) <==> Given(body.fullName) && Given(body.email) && Given(body.mobileNumber)
    ensures ProfileRejectedAsWritten(body) ==> ProfileRejected(body)
  {
  }

  /**
   * The `$set` of `updateUserProfile` on the caller's record, followed by
   * `.select("-password")`. The schema's `trim` setters run on email and
   * full name; an absent `mobileNumber` leaves the stored one as it was.
   */
  function SetProfile(db: Db, caller: Option<Id>, fullName: string, email: string, mobileNumber: Field): (r: Step)
    ensures r.db.users.Keys == db.users.Keys && r.db.nextId == db.nextId
    ensures r.out.Err? ==> r.db == db && r.out.error == ApiError(500, DuplicateKeyMessage)
  {
    if caller.None? || caller.value !in db.users then Step(db, Ok(Reply(200, Profile(None), [])))
    else
      var id := caller.value;
      var prev := db.users[id];
      var u := prev.(fullName := Trim(fullName), email := Trim(email),
                     mobileNumber := if mobileNumber.Some? then mobileNumber.value else prev.mobileNumber);
      if ViolatesIndex(db.users, id, u) then Step(db, Err(ApiError(500, DuplicateKeyMessage)))
      else Step(db.(users := db.users[id := u]), Ok(Reply(200, Profile(Some(ProfileView(Sanitize(id, u), u.refreshToken))), [])))
  }

  /** `updateUserProfile` with the corrected guard: 400 exactly when a field is missing or empty. */
  function UpdateProfile(db: Db, caller: Option<Id>, body: ProfileBody): (r: Step)
    ensures r.db.users.Keys == db.users.Keys && r.db.nextId == db.nextId
    ensures r.out == Err(ApiError(400, ProfileFieldsMessage)) <==> ProfileRejected(body)
  {
    if ProfileRejected(body) then Step(db, Err(ApiError(400, ProfileFieldsMessage)))
    else SetProfile(db, caller, body.fullName.value, body.email.value, body.mobileNumber)
  }

  /** `updateUserProfile` as written: the guard tests `email` twice and never `mobileNumber`. */
  function UpdateProfileAsWritten(db: Db, caller: Option<Id>, body: ProfileBody): (r: Step)
    ensures r.db.users.Keys == db.users.Keys && r.db.nextId == db.nextId
    ensures r.out == Err(ApiError(400, ProfileFieldsMessage)) <==> ProfileRejectedAsWritten(body)
  {
    if ProfileRejectedAsWritten(body) then Step(db, Err(ApiError(400, ProfileFieldsMessage)))
    else SetProfile(db, caller, body.fullName.value, body.email.value, body.mobileNumber)
  }

  /** `passwordChange` */
  function ChangePassword(db: Db, caller: Option<Id>, body: PasswordBody): (r: Step)
    ensures r.db.users.Keys == db.users.Keys && r.db.nextId == db.nextId
  {
    if caller.None? || caller.value !in db.users then Step(db, Err(ApiError(500, InternalErrorMessage)))
    else if body.oldPassword.None? then Step(db, Err(ApiError(500, InternalErrorMessage)))
    else
      var id := caller.value;
      if !IsCorrectPassword(db.users[id], body.oldPassword.value) then Step(db, Err(ApiError(400, InvalidOldPasswordMessage)))
      else if body.newPassword.None? then Step(db, Err(ApiError(500, InternalErrorMessage)))
      else Step(db.(users := db.users[id := db.users[id].(password := Hash(body.newPassword.value))]), Ok(Reply(200, NoData, [])))
  }

  /** `deleteUser` */
  function DeleteUser(db: Db, caller: Option<Id>): (r: Step)
    ensures r.out.Ok? <==> caller.Some? && caller.value in db.users
    ensures r.db.nextId == db.nextId
    ensures r.db.users.Keys == if r.out.Ok? then db.users.Keys - {caller.value} else db.users.Keys
  {
    if caller.None? then Step(db, Err(ApiError(400, NotAuthenticatedMessage)))
    else if caller.value !in db.users then Step(db, Err(ApiError(404, UserNotFoundMessage)))
    else Step(db.(users := db.users - {caller.value}), Ok(Reply(200, NoData, [])))
  }
}
