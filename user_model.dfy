/**
 * The `User` schema: the stored record, the setters the schema declares,
 * the unique indexes, the pre-save hook that hashes a modified password,
 * and the instance methods `isCorrectPassword`, `generateAccessToken` and
 * `generateRefreshToken`.
 */
module UserModel {
  import opened Wrappers
  import opened Text
  import opened Encoding
  import opened Crypto

  /** A document identifier (`_id`). */
  type Id = nat

  /** JWT payloads: the access token carries the profile, the refresh token only the identifier. */
  datatype Claims =
    | AccessClaims(id: Id, username: string, email: string, fullName: string, mobileNumber: string)
    | RefreshClaims(id: Id)

  type SessionToken = Token<Claims>

  /** The four token settings read from the environment. */
  datatype Config = Config(accessSecret: string, accessExpiry: string, refreshSecret: string, refreshExpiry: string)

  /** A stored user. `password` is always a digest; `refreshToken` is the last one issued, if any. */
  datatype User = User(
    username: string,
    email: string,
    fullName: string,
    mobileNumber: string,
    password: Digest,
    refreshToken: Option<SessionToken>)

  /** The setters of `username` (`lowercase: true`, then `trim: true`, in declaration order). */
  function UsernameSetter(s: string): (r: string)
    ensures r == ToLower(Trim(s))
  {
    TrimToLower(s);
    Trim(ToLower(s))
  }

  /** Applying the username setters to a stored username changes nothing. */
  lemma UsernameSetterIdempotent(s: string)
    ensures UsernameSetter(UsernameSetter(s)) == UsernameSetter(s)
  {
    var t := Trim(s);
    TrimIdempotent(s);
    TrimToLower(t);
    ToLowerIdempotent(t);
  }

  /** Lower-casing before the setters, as `registerUser` does, gives the same stored username. */
  lemma UsernameSetterAfterLower(s: string)
    ensures UsernameSetter(ToLower(s)) == UsernameSetter(s)
  {
    TrimToLower(s);
    ToLowerIdempotent(Trim(s));
  }

  /** What the setters guarantee of every stored record: username lower-case, and username, email and full name without white space at either end. */
  predicate Normalized(u: User) {
    Trimmed(u.username) && NoUpper(u.username) && Trimmed(u.email) && Trimmed(u.fullName)
  }

  /** A record is normalized exactly when running the setters again on it changes nothing. */
  lemma NormalizedIff(u: User)
    ensures Normalized(u) <==>
      UsernameSetter(u.username) == u.username && Trim(u.email) == u.email && Trim(u.fullName) == u.fullName
  {
    TrimmedIff(u.email);
    TrimmedIff(u.fullName);
    var x := u.username;
    TrimmedIff(x);
    NoUpperIff(x);
    if UsernameSetter(x) == x {
      NoUpperIff(Trim(x));
      TrimToLower(x);
      TrimIsTrimmed(ToLower(x));
    }
  }

  /** Two records that may not coexist under the unique indexes on username, email and mobile number. */
  predicate Clash(u: User, v: User) {
    u.username == v.username || u.email == v.email || u.mobileNumber == v.mobileNumber
  }

  /** The unique indexes hold: no two records share a username, an email or a mobile number. */
  ghost predicate Unique(users: map<Id, User>) {
    forall a, b :: a in users && b in users && a != b ==> !Clash(users[a], users[b])
  }

  /** Writing `u` under `id` would be rejected by a unique index (MongoDB error E11000). */
  predicate ViolatesIndex(users: map<Id, User>, id: Id, u: User) {
    exists other :: other in users && other != id && Clash(users[other], u)
  }

  /** A write the unique indexes accept keeps them holding. */
  lemma WriteKeepsUnique(users: map<Id, User>, id: Id, u: User)
    requires Unique(users) && !ViolatesIndex(users, id, u)
    ensures Unique(users[id := u])
  {
  }

  /** A write that leaves the three indexed fields as they were keeps the indexes holding. */
  lemma SameKeysKeepUnique(users: map<Id, User>, id: Id, u: User)
    requires Unique(users) && id in users
    requires u.username == users[id].username && u.email == users[id].email
    requires u.mobileNumber == users[id].mobileNumber
    ensures Unique(users[id := u])
  {
    assert !ViolatesIndex(users, id, u);
  }

  /** The `password` path of a loaded document: the stored digest, or a plaintext assigned since loading (`isModified("password")`). */
  datatype PasswordPath = Stored(digest: Digest) | Assigned(plain: string)

  /** A Mongoose document in memory, between loading or construction and `save()`. */
  datatype Document = Document(
    username: string,
    email: string,
    fullName: string,
    mobileNumber: string,
    password: PasswordPath,
    refreshToken: Option<SessionToken>)

  /** A document as `findById` returns it: nothing modified. */
  function Load(u: User): (d: Document)
    ensures !d.password.Assigned?
  {
    Document(u.username, u.email, u.fullName, u.mobileNumber, Stored(u.password), u.refreshToken)
  }

  /** `new User({...})` for `User.create`: the setters run on every field and every path counts as modified. */
  function NewDocument(fullName: string, username: string, email: string, password: string, mobileNumber: string): (d: Document)
    ensures d.password == Assigned(password)
  {
    Document(UsernameSetter(username), Trim(email), Trim(fullName), mobileNumber, Assigned(password), None)
  }

  /** The `pre('save')` hook followed by the write: the password is hashed if, and only if, it was modified. */
  function PreSave(d: Document): (u: User)
    ensures Load(u).(password := d.password) == d
    ensures d.password.Stored? ==> u.password == d.password.digest
    ensures d.password.Assigned? ==> u.password.cost == SaltRounds && IsCorrectPassword(u, d.password.plain)
  {
    var digest := match d.password
      case Stored(h) => h
      case Assigned(p) => Hash(p);
    User(d.username, d.email, d.fullName, d.mobileNumber, digest, d.refreshToken)
  }

  /**
   * `isCorrectPassword(p)`: `bcrypt.compare` of `p` against the stored
   * digest. The password the digest was made from passes, and when both are
   * within bcrypt's 72 bytes no other does.
   */
  predicate IsCorrectPassword(u: User, p: string): (b: bool)
    ensures u.password == Hash(p) ==> b
    ensures b && WithinKeyLimit(p) && WithinKeyLimit(u.password.preimage) ==> p == u.password.preimage
  {
    CompareHash(u.password.preimage, p);
    Compare(p, u.password)
  }

  /** Saving a document whose password was not modified writes back the same digest and every field as the document has it. */
  lemma PreSaveUnmodified(d: Document)
    requires d.password.Stored?
    ensures PreSave(d).password == d.password.digest
    ensures Load(PreSave(d)) == d
  {
  }

  /** A loaded record saved with only its refresh token changed (`user.refreshToken = t; user.save()`) is that record with the new token. */
  lemma SaveRefreshToken(u: User, t: Option<SessionToken>)
    ensures PreSave(Load(u).(refreshToken := t)) == u.(refreshToken := t)
  {
  }

  /**
   * Saving after `user.password = p` stores a digest under which `p` is the
   * correct password, and so is exactly every password that agrees with `p`
   * on its first 72 bytes; below that length, only `p`.
   */
  lemma PreSaveAssigned(d: Document, p: string, q: string)
    requires d.password == Assigned(p)
    ensures IsCorrectPassword(PreSave(d), p)
    ensures IsCorrectPassword(PreSave(d), q) <==> BcryptKey(q) == BcryptKey(p)
    ensures WithinKeyLimit(p) && WithinKeyLimit(q) && q != p ==> !IsCorrectPassword(PreSave(d), q)
    ensures PreSave(d).username == d.username && PreSave(d).email == d.email
    ensures PreSave(d).mobileNumber == d.mobileNumber && PreSave(d).refreshToken == d.refreshToken
  {
    CompareHash(p, q);
  }

  /** A new document saved by `User.create` is normalized whatever the input. */
  lemma NewDocumentNormalized(fullName: string, username: string, email: string, password: string, mobileNumber: string)
    ensures Normalized(PreSave(NewDocument(fullName, username, email, password, mobileNumber)))
  {
    TrimIsTrimmed(ToLower(username));
    NoUpperIff(Trim(username));
    TrimIsTrimmed(email);
    TrimIsTrimmed(fullName);
  }

  /** `generateAccessToken()`: signed with the access secret and expiry; its payload is the record's identifier and profile. */
  function GenerateAccessToken(id: Id, u: User, config: Config, now: int): (t: SessionToken)
    ensures Verify(t, config.accessSecret) == Some(AccessClaims(id, u.username, u.email, u.fullName, u.mobileNumber))
    ensures t.expiresIn == config.accessExpiry && t.issuedAt == now
  {
    Sign(AccessClaims(id, u.username, u.email, u.fullName, u.mobileNumber), config.accessSecret, config.accessExpiry, now)
  }

  /** `generateRefreshToken()`: signed with the refresh secret and expiry; its payload is the identifier only. */
  function GenerateRefreshToken(id: Id, config: Config, now: int): (t: SessionToken)
    ensures Verify(t, config.refreshSecret) == Some(RefreshClaims(id))
    ensures t.expiresIn == config.refreshExpiry && t.issuedAt == now
  {
    Sign(RefreshClaims(id), config.refreshSecret, config.refreshExpiry, now)
  }

  /** With distinct secrets, neither token passes for the other. */
  lemma TokensNotInterchangeable(id: Id, u: User, config: Config, now: int)
    requires config.accessSecret != config.refreshSecret
    ensures Verify(GenerateAccessToken(id, u, config, now), config.refreshSecret) == None
    ensures Verify(GenerateRefreshToken(id, config, now), config.accessSecret) == None
  {
  }

  /** A user projection without password and refresh token (`.select("-password -refreshToken")`). */
  datatype SafeUser = SafeUser(id: Id, username: string, email: string, fullName: string, mobileNumber: string)

  function Sanitize(id: Id, u: User): (s: SafeUser)
    ensures s.id == id && s.username == u.username && s.email == u.email
    ensures s.fullName == u.fullName && s.mobileNumber == u.mobileNumber
  {
    SafeUser(id, u.username, u.email, u.fullName, u.mobileNumber)
  }

  /** A user projection without the password only (`.select("-password")`): the refresh token is still there. */
  datatype ProfileView = ProfileView(user: SafeUser, refreshToken: Option<SessionToken>)
}
