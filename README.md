# Account management: a verified model

This project models the two pieces of logic in a small sign-up and login application.

**The backend account handlers.** These are register, login, logout, current user, profile update, password change and account deletion.
- They are transitions of the user collection.
- The collection is held together by the `User` schema with its setters and unique indexes, its pre-save hook that hashes a modified password, and its token methods.

**The front-end form logic.** This covers the sign-up, login, password-change and profile forms:
- each `validateForm` chain and which error it reports first;
- the cleaning of the email and mobile number before each POST;
- the mapping from a refused request to the message the form shows.

## Structure

**Library modules**
- `Wrappers` (`Option`, `Result`).
- `Encoding`: how strings are measured and encoded. JavaScript's `length` counts UTF-16 code units, and bcrypt reads a password as UTF-8 bytes; UTF-8 is proved injective.
- `Text`: the JavaScript string built-ins the code uses:
  - `trim`, `trimStart`, `trimEnd`;
  - ASCII `toLowerCase`;
  - `replace` with a character class;
  - `includes`;
  - `slice(-n)`;
  - the `\s` and `\d` classes.
- `Patterns`: the regular expressions, as predicates.
- `Crypto`: bcrypt and jsonwebtoken as symbolic terms. A digest records its cost and preimage. `Compare` accepts a password that agrees with the preimage on the first 72 UTF-8 bytes, which is all bcrypt reads; a token records its payload, secret, expiry and issue time, with `Verify` as its checker.

**Backend modules**
- `UserModel`: the schema. It contains the stored record, the setters, the unique indexes, the Mongoose document with its `isModified("password")` state, the pre-save hook, `isCorrectPassword` and the payloads of the two tokens.
- `UserControllers`: each handler as a function from the collection (`Db`) and the request to the new collection and the answer (`Step`). The authenticated user that the JWT middleware attaches is the parameter `caller`. Query filters are cast through the schema's setters, as Mongoose does. The profile update comes twice: `UpdateProfileAsWritten` with the guard as written, and `UpdateProfile` with the corrected guard (see Findings).
- `AccountProperties`: what the handlers promise, stated over those functions. It covers the collection invariant `Valid` (identifiers bounded, unique indexes holding, every record normalised), error precedence, frame conditions, and a scenario run.
- `AccountStore`: the class `UserStore`, which runs each handler step by step on a collection held in its fields. Each method there is proved to end in the state and answer its function gives, and to keep `Valid`.

**Front-end modules**
- `SignupForm`:
  - the field validators and the `validateForm` method that fills the `errors` object;
  - the mobile-number typing filter;
  - the body `handleSignup` posts, and how the backend stores it;
  - the status-and-keyword mapping of its `catch`.
- `LoginForm`: the same parts for the login form.
- `PasswordChangeForm`: the same parts, plus the class `PasswordChangeState`, the component's state with its validate, submit, success and failure handlers.
- `EditProfileForm`: the same parts for the profile form.
- `ClientErrors`: the rejected request as the `catch` handlers see it.

**Behaviours of the code that a reader might not expect, which the model follows as written:**
- Register issues tokens but its 201 answer carries only the user record.
- The backend does not require a new password that differs from the old one (`ChangePasswordSameAccepted`).
- Password change for a missing caller answers 500, not an authentication error.
- The profile update answers with the record minus only its password, so the refresh token is still there (`ProfileView`).
- Deleting without a user answers 400.

## Model

| member | source | states |
|---|---|---|
| Crypto.Hash | backend/src/models/user.models.js:45 | `bcrypt.hash(p, 10)` gives a digest of cost 10 |
| Crypto.Compare | backend/src/models/user.models.js:50 | `bcrypt.compare(p, d)`: the two agree on what bcrypt reads; its properties are stated by `CompareHash` |
| Crypto.CompareHash | backend/src/models/user.models.js:45-51 | Hash-then-compare accepts the original plaintext, and exactly the plaintexts that agree with it on the first 72 UTF-8 bytes; between passwords of at most 72 bytes, only the original |
| Crypto.BcryptKey | backend/src/models/user.models.js:45-50 | What bcrypt reads is at most 72 bytes: the whole UTF-8 encoding when it fits, else its first 72 bytes |
| Crypto.DistinctKeysWithinLimit | backend/src/models/user.models.js:45-50 | Two different passwords of at most 72 bytes give different keys |
| Crypto.ShortWithinKeyLimit | backend/src/models/user.models.js:45-50 | A password of at most 18 characters fits within bcrypt's 72 bytes |
| Crypto.TruncationCollides | backend/src/models/user.models.js:45-50 | Two passwords that share their first 72 characters pass for each other |
| Crypto.Sign | backend/src/models/user.models.js:54-74 | `jwt.sign(payload, secret, { expiresIn })` at time `now`, a token recording all four; stated by `VerifySign` |
| Crypto.Verify | backend/src/models/user.models.js:53-75 | The checker `jwt.verify` stands for: the payload under the signing secret, nothing otherwise; stated by `VerifySign` |
| Encoding.Utf16Length | frontend/src/components/Signup.jsx:65 | `length` counts at least one and at most two code units per character |
| Encoding.Utf16LengthBmp | frontend/src/components/Signup.jsx:65 | `length` equals the number of characters exactly when none lies beyond U+FFFF |
| Encoding.Utf8Char | backend/src/models/user.models.js:45 | One character encodes to one to four bytes |
| Encoding.Utf8CharLength | backend/src/models/user.models.js:45 | The first byte of an encoded character gives its byte count |
| Encoding.DecodeUtf8Char | backend/src/models/user.models.js:45 | Decoding a character's bytes gives back its code point |
| Encoding.Utf8CharInjective | backend/src/models/user.models.js:45 | Two characters with the same bytes are equal |
| Encoding.Utf8 | backend/src/models/user.models.js:45 | A string's encoding has between one and four bytes per character |
| Encoding.Utf8Append | backend/src/models/user.models.js:45 | Encoding distributes over concatenation |
| Encoding.Utf8Injective | backend/src/models/user.models.js:45 | Two strings with the same encoding are equal |
| Crypto.VerifySign | backend/src/models/user.models.js:54-74 | A signed token verifies to its payload under the signing secret and to nothing under any other secret |
| UserModel.UsernameSetter | backend/src/models/user.models.js:7-13 | The `lowercase` and `trim` setters of `username` give the trimmed lower-case form |
| UserModel.UsernameSetterIdempotent | backend/src/models/user.models.js:7-13 | Running the username setters on a stored username changes nothing |
| UserModel.UsernameSetterAfterLower | backend/src/controllers/user.controllers.js:44 | Lower-casing before the setters, as `registerUser` does, stores the same username |
| UserModel.NormalizedIff | backend/src/models/user.models.js:7-25 | A record is normalised (username lower-case; username, email and full name trimmed) exactly when the setters leave it unchanged |
| UserModel.Normalized | backend/src/models/user.models.js:7-25 | A record the setters would leave alone: username lower-case and trimmed, email and full name trimmed; stated by `NormalizedIff` |
| UserModel.Unique | backend/src/models/user.models.js:10-29 | The unique indexes on username, email and mobile number hold: no two records clash; kept by `WriteKeepsUnique` and `SameKeysKeepUnique` |
| UserModel.ViolatesIndex | backend/src/models/user.models.js:10-29 | A write whose record clashes with another stored one, which the unique indexes refuse; `WriteKeepsUnique` and `RegisterPassesIndexes` |
| UserModel.WriteKeepsUnique | backend/src/models/user.models.js:10-29 | A write the unique indexes on username, email and mobile number accept keeps them holding |
| UserModel.SameKeysKeepUnique | backend/src/models/user.models.js:10-29 | A write that keeps the three indexed fields keeps the indexes holding |
| UserModel.Load | backend/src/controllers/user.controllers.js:11 | A document loaded by `findById` has its password path unmodified |
| UserModel.NewDocument | backend/src/controllers/user.controllers.js:42-48 | A document built by `User.create` has its password path assigned to the plaintext |
| UserModel.PreSaveUnmodified | backend/src/models/user.models.js:42-43 | A save with the password unmodified writes back the same digest and every field of the document |
| UserModel.SaveRefreshToken | backend/src/controllers/user.controllers.js:16-17 | The token-writing save stores the record with only its refresh token replaced; the hook does not rehash |
| UserModel.PreSaveAssigned | backend/src/models/user.models.js:42-51 | A save after assigning `p` stores a cost-10 digest under which exactly the passwords agreeing with `p` on bcrypt's 72 bytes are correct, so within 72 bytes only `p`; the other fields are as in the document |
| UserModel.PreSave | backend/src/models/user.models.js:42-47 | The saved record has the document's fields; an unmodified password keeps its digest, an assigned one is hashed at cost 10 and then passes `isCorrectPassword` |
| UserModel.IsCorrectPassword | backend/src/models/user.models.js:49-51 | The password a digest was made from is correct; a correct password within 72 bytes, against a preimage within 72 bytes, is that preimage |
| UserModel.NewDocumentNormalized | backend/src/models/user.models.js:7-25 | Every record `User.create` stores is normalised, whatever the input |
| UserModel.GenerateAccessToken | backend/src/models/user.models.js:53-64 | The access token verifies under the access secret to exactly {id, username, email, fullName, mobileNumber}, with the access expiry |
| UserModel.GenerateRefreshToken | backend/src/models/user.models.js:66-75 | The refresh token verifies under the refresh secret to exactly {id}, with the refresh expiry |
| UserModel.TokensNotInterchangeable | backend/src/models/user.models.js:53-75 | With distinct secrets, neither token verifies under the other's secret |
| UserModel.Sanitize | backend/src/controllers/user.controllers.js:50-52 | `.select("-password -refreshToken")` keeps the identifier and the four profile fields |
| UserControllers.FindBelow | backend/src/controllers/user.controllers.js:34-36 | Finds the first matching record below a bound, or reports that none below it matches |
| UserControllers.FindOne | backend/src/controllers/user.controllers.js:34-36 | `findOne` returns a matching record, the earliest one, and returns nothing exactly when no record matches the `$or` filter |
| UserControllers.CastUsername | backend/src/models/user.models.js:7-13 | A `username` filter value is cast through the setters: present exactly when given, and then trimmed and lower-cased |
| UserControllers.CastTrimmed | backend/src/models/user.models.js:14-19 | An `email` filter value is cast through the `trim` setter: present exactly when given, and then trimmed |
| UserControllers.RegisterFilter | backend/src/controllers/user.controllers.js:34-36 | The `$or` of `registerUser` cast through the setters; stated by `RegisterConflict`, `RegisterPassesIndexes` and `RegisterAcceptedIff` |
| UserControllers.LoginFilter | backend/src/controllers/user.controllers.js:82-84 | The `$or` of `loginUser` cast through the setters, with no mobile entry; stated by `LoginByEmailFinds` and `CapitalisedEmailNotFound` |
| UserControllers.RegisteredRecord | backend/src/controllers/user.controllers.js:42-48 | The record `User.create` stores after its setters; stated by `RegisteredRecordFields` |
| UserControllers.Valid | backend/src/models/user.models.js:7-29 | The collection invariant: identifiers below `nextId`, unique indexes holding, every record normalised; kept by the `AccountProperties` `*KeepsValid` lemmas |
| UserControllers.IssueTokens | backend/src/controllers/user.controllers.js:9-23 | Keeps every identifier and the next one; succeeds exactly when the id is stored |
| UserControllers.RegisteredRecordFields | backend/src/controllers/user.controllers.js:42-48 | The created record has the username trimmed and lower-cased, the email and full name trimmed, the mobile number as sent, and a cost-10 digest of the sent password |
| UserControllers.Register | backend/src/controllers/user.controllers.js:25-71 | `registerUser` keeps every stored identifier below the next one |
| UserControllers.Login | backend/src/controllers/user.controllers.js:73-129 | `loginUser` keeps every stored identifier below the next one |
| UserControllers.CurrentUser | backend/src/controllers/user.controllers.js:164-168 | 200 with no cookies; it carries a user exactly when the caller is stored, and then the caller's sanitised record |
| UserControllers.Logout | backend/src/controllers/user.controllers.js:131-162 | Keeps every identifier and the next one; succeeds exactly when a caller is attached |
| UserControllers.SetProfile | backend/src/controllers/user.controllers.js:176-193 | The `$set` keeps every identifier; it fails only with the duplicate-key 500, and then writes nothing |
| UserControllers.UpdateProfile | backend/src/controllers/user.controllers.js:170-194 | With the corrected guard: keeps every identifier, and answers 400 exactly when full name, email or mobile number is missing or empty |
| UserControllers.UpdateProfileAsWritten | backend/src/controllers/user.controllers.js:170-194 | With the guard as written: keeps every identifier, and answers 400 exactly when full name or email is missing or empty |
| UserControllers.ProfileGuardMissesMobile | backend/src/controllers/user.controllers.js:173-175 | The guard as written passes a body without `mobileNumber`, which the intended guard rejects |
| UserControllers.ProfileGuardIff | backend/src/controllers/user.controllers.js:173-175 | The intended guard passes exactly the bodies with all three fields given; the written guard rejects only bodies the intended one also rejects |
| UserControllers.ProfileRejectedAsWritten | backend/src/controllers/user.controllers.js:173 | The guard as written, `!fullName \|\| !email \|\| !email`; related to the intended one by `ProfileGuardIff` and `ProfileGuardMissesMobile` |
| UserControllers.ProfileRejected | backend/src/controllers/user.controllers.js:173-174 | The guard the message names, `!fullName \|\| !email \|\| !mobileNumber`; stated by `ProfileGuardIff` |
| UserControllers.ChangePassword | backend/src/controllers/user.controllers.js:196-214 | `passwordChange` neither adds nor removes a record |
| UserControllers.DeleteUser | backend/src/controllers/user.controllers.js:216-239 | Succeeds exactly when the caller is stored, and then removes exactly that identifier; otherwise keeps every identifier |
| AccountProperties.IssueTokensKeepsValid | backend/src/controllers/user.controllers.js:9-23 | Issuing tokens keeps the collection invariant |
| AccountProperties.InsertKeepsValid | backend/src/controllers/user.controllers.js:42-48 | Inserting a normalised record that the indexes accept, under a fresh identifier, keeps the invariant |
| AccountProperties.RegisterKeepsValid | backend/src/controllers/user.controllers.js:25-71 | Register keeps the invariant |
| AccountProperties.LoginKeepsValid | backend/src/controllers/user.controllers.js:73-129 | Login keeps the invariant |
| AccountProperties.LogoutKeepsValid | backend/src/controllers/user.controllers.js:131-162 | Logout keeps the invariant |
| AccountProperties.SetProfileKeepsValid | backend/src/controllers/user.controllers.js:176-193 | The profile `$set` keeps the invariant |
| AccountProperties.UpdateProfileKeepsValid | backend/src/controllers/user.controllers.js:170-194 | Profile update with the corrected guard keeps the invariant |
| AccountProperties.UpdateProfileAsWrittenKeepsValid | backend/src/controllers/user.controllers.js:170-194 | Profile update as written keeps the invariant |
| AccountProperties.ChangePasswordKeepsValid | backend/src/controllers/user.controllers.js:196-214 | Password change keeps the invariant |
| AccountProperties.DeleteKeepsValid | backend/src/controllers/user.controllers.js:216-239 | Delete keeps the invariant |
| AccountProperties.IssueTokensEffect | backend/src/controllers/user.controllers.js:9-23 | 500 exactly for an unknown id, with nothing written; otherwise only that record's refresh token changes, to the one returned, the digest stays, and the two tokens carry the documented payloads |
| AccountProperties.RegisterMissingField | backend/src/controllers/user.controllers.js:30-32 | 400 exactly when a field is missing or empty, and then nothing is written |
| AccountProperties.RegisterConflict | backend/src/controllers/user.controllers.js:34-40 | A stored record with the username trimmed and lower-cased, the email trimmed, or the mobile number as supplied gives 409, with nothing written: the filter is cast through the setters |
| AccountProperties.RegisterPassesIndexes | backend/src/controllers/user.controllers.js:34-48 | A registration that passes the 409 check collides with no stored record, so the unique indexes never refuse it |
| AccountProperties.RegisterFailureWritesNothing | backend/src/controllers/user.controllers.js:25-71 | No failed registration writes anything |
| AccountProperties.RegisterAcceptedIff | backend/src/controllers/user.controllers.js:25-71 | Register succeeds exactly when all fields are given, nothing matches the cast values, the stored username is non-empty and the indexes accept the record |
| AccountProperties.RegisterSuccess | backend/src/controllers/user.controllers.js:42-70 | Success adds exactly one record, under a fresh identifier, and leaves the others unchanged. The record holds the normalised fields, a digest of the password and the refresh token just issued. The 201 answer carries only the sanitised user |
| AccountProperties.RegisterStores | backend/src/controllers/user.controllers.js:42-70 | The successful step is the created record plus its refresh token under the next identifier, answered with 201 and the sanitised record |
| AccountProperties.RegisterTwiceConflicts | backend/src/controllers/user.controllers.js:34-40 | The same registration sent again is refused with 409 and writes nothing |
| AccountProperties.LoginErrors | backend/src/controllers/user.controllers.js:78-96 | 400 without credentials, then 404 without a match, then 401 for a wrong password; no error writes anything |
| AccountProperties.LoginSuccess | backend/src/controllers/user.controllers.js:90-128 | Success changes only the found user's refresh token, to the one returned, and answers 200 with the sanitised user, both tokens and both cookies |
| AccountProperties.LoginByEmailFinds | backend/src/controllers/user.controllers.js:82-84 | Under the unique indexes, a login by a stored (trimmed) email finds the one user with that email |
| AccountProperties.LoginByEmail | backend/src/controllers/user.controllers.js:82-99 | A stored user with the right password gets 200 and an access token naming them; a wrong password gets 401 with nothing written |
| AccountProperties.LogoutEffect | backend/src/controllers/user.controllers.js:134-161 | 400 without a user. Otherwise, in the caller's record only the refresh token is cleared, every other record stays, and both cookies are cleared |
| AccountProperties.DeletedUserIsNotCurrent | backend/src/controllers/user.controllers.js:164-168 | After a successful delete the former caller is no longer a current user |
| AccountProperties.UpdateProfileEffect | backend/src/controllers/user.controllers.js:170-194 | With the corrected guard: 400 for a missing field, with nothing written. On success only the caller's full name and email (trimmed) and mobile number change; username, password and refresh token stay |
| AccountProperties.UpdateProfileAsWrittenAgrees | backend/src/controllers/user.controllers.js:173-175 | The handler as written gives the same step as the corrected one exactly when the mobile number is given or the written guard rejects the body |
| AccountProperties.MissingMobileUpdatedAsWritten | backend/src/controllers/user.controllers.js:173-193 | Full name and email given, mobile number missing or empty: the corrected handler answers 400; the written one updates the record, keeping an absent number and storing an empty one, and answers 200 unless an index refuses |
| AccountProperties.AnnClearsNumberAsWritten | backend/src/controllers/user.controllers.js:173-193 | The body with `mobileNumber: ""` is answered 200 by the written handler, which stores the empty number, and 400 by the corrected one |
| AccountProperties.ChangePasswordWrongOld | backend/src/controllers/user.controllers.js:201-205 | A wrong old password gives 400 and leaves the collection unchanged |
| AccountProperties.ChangePasswordSuccess | backend/src/controllers/user.controllers.js:207-213 | After success the new password is correct, any other password is correct exactly when it agrees with the new one on bcrypt's 72 bytes (so within 72 bytes, only the new one), and nothing but that digest changes |
| AccountProperties.ChangePasswordSameAccepted | backend/src/controllers/user.controllers.js:199-213 | The backend accepts a new password equal to the old one |
| AccountProperties.DeleteEffect | backend/src/controllers/user.controllers.js:216-239 | 400 without a user, 404 for an unknown one; success exactly when the caller is stored, and then exactly that record is removed and the others stay |
| AccountProperties.RegisterIntoEmpty | backend/src/controllers/user.controllers.js:25-71 | A first registration of normalised values into an empty collection gives 201 and stores the user under identifier 0, with the sent email and password |
| AccountProperties.AliceRegisters | backend/src/controllers/user.controllers.js:25-71 | Alice's registration into an empty collection gives 201 and stores her email and password |
| AccountProperties.LoginAroundPasswordChange | backend/src/controllers/user.controllers.js:73-214 | For passwords within 72 bytes, around a password change: the right password logs in (200), a wrong one is refused (401), the change succeeds (200), then the old password is refused and the new one accepted |
| AccountProperties.AliceScenario | backend/src/controllers/user.controllers.js:25-214 | The whole run: register 201, login 200, wrong password 401, change 200, old password 401, new password 200 |
| AccountStore.UserStore.constructor | backend/src/models/user.models.js:78 | An empty collection, which satisfies the invariant |
| AccountStore.UserStore.Create | backend/src/controllers/user.controllers.js:42-48 | `User.create` stores the record under the next identifier and advances it |
| AccountStore.UserStore.Save | backend/src/controllers/user.controllers.js:16-17 | `save()` writes the document after the pre-save hook, under its identifier |
| AccountStore.UserStore.GenerateAccessTokenAndRefreshToken | backend/src/controllers/user.controllers.js:9-23 | Ends in the state and tokens `IssueTokens` gives |
| AccountStore.UserStore.RegisterUser | backend/src/controllers/user.controllers.js:25-71 | Ends in the state and answer `Register` gives, and keeps the invariant |
| AccountStore.UserStore.LoginUser | backend/src/controllers/user.controllers.js:73-129 | Ends in the state and answer `Login` gives, and keeps the invariant |
| AccountStore.UserStore.LogoutUser | backend/src/controllers/user.controllers.js:131-162 | Ends in the state and answer `Logout` gives, and keeps the invariant |
| AccountStore.UserStore.GetCurrentUser | backend/src/controllers/user.controllers.js:164-168 | Answers what `CurrentUser` gives |
| AccountStore.UserStore.UpdateUserProfile | backend/src/controllers/user.controllers.js:170-194 | Ends in the state and answer `UpdateProfile` (the corrected guard) gives, and keeps the invariant |
| AccountStore.UserStore.PasswordChange | backend/src/controllers/user.controllers.js:196-214 | Ends in the state and answer `ChangePassword` gives, and keeps the invariant |
| AccountStore.UserStore.DeleteAccount | backend/src/controllers/user.controllers.js:216-239 | Ends in the state and answer `DeleteUser` gives, and keeps the invariant |
| Text.TrimStart | frontend/src/components/Signup.jsx:29 | `trimStart` never lengthens its argument |
| Text.IsSpace | frontend/src/components/Signup.jsx:29 | The `\s` class and what `trim` strips: ECMAScript WhiteSpace (TAB, VT, FF, U+FEFF and every Space_Separator) and LineTerminator; used by `TrimEmptyIff` and `LowerCharSpace` |
| Text.Trim | frontend/src/components/Signup.jsx:29 | `trim`: both ends stripped of white space; stated by `TrimSlice`, `TrimIsTrimmed`, `TrimIdempotent` and `TrimmedIff` |
| Text.TrimStartSuffix | frontend/src/components/Signup.jsx:29 | `trimStart` returns a suffix of its argument that does not start with white space |
| Text.TrimEnd | frontend/src/components/Signup.jsx:29 | `trimEnd` never lengthens its argument |
| Text.TrimEndPrefix | frontend/src/components/Signup.jsx:29 | `trimEnd` returns a prefix that does not end with white space |
| Text.TrimStartSpace | frontend/src/components/Signup.jsx:29 | What `trimStart` drops is white space |
| Text.TrimEndSpace | frontend/src/components/Signup.jsx:29 | What `trimEnd` drops is white space |
| Text.TrimSlice | frontend/src/components/Signup.jsx:29 | `trim` returns a slice whose cut-off ends are all white space |
| Text.TrimEmptyIff | frontend/src/components/Signup.jsx:29 | `!s.trim()` holds exactly for all-white-space strings |
| Text.TrimNoSpace | frontend/src/components/EditProfile.jsx:42 | A string without white space is its own trim |
| Text.TrimIdempotent | frontend/src/components/Signup.jsx:103 | Trimming twice is trimming once |
| Text.TrimTrimmed | backend/src/models/user.models.js:12 | A string with no white space at either end is its own trim |
| Text.TrimIsTrimmed | backend/src/models/user.models.js:12 | Every result of `trim` has no white space at either end |
| Text.TrimmedIff | backend/src/models/user.models.js:12 | `trim` leaves exactly those strings alone |
| Text.LowerChar | frontend/src/components/Signup.jsx:101 | An upper-case letter becomes lower-case; every other character is kept |
| Text.ToLower | frontend/src/components/Signup.jsx:101 | `toLowerCase` keeps the length |
| Text.ToLowerAt | frontend/src/components/Signup.jsx:101 | `toLowerCase` works character by character |
| Text.ToLowerIdempotent | backend/src/models/user.models.js:11 | Lower-casing twice is lower-casing once |
| Text.NoUpperIff | backend/src/models/user.models.js:11 | `toLowerCase` leaves exactly the strings without capitals alone, and its results are among them |
| Text.NotInToLower | frontend/src/components/Login.jsx:97 | A lower-case letter absent in both cases stays absent after lower-casing |
| Text.LowerCharSpace | frontend/src/components/Signup.jsx:101 | Lower-casing maps white space to white space and nothing else to it |
| Text.TrimStartToLower | frontend/src/components/Signup.jsx:102 | `trimStart` commutes with lower-casing |
| Text.TrimEndToLower | frontend/src/components/Signup.jsx:102 | `trimEnd` commutes with lower-casing |
| Text.TrimToLower | frontend/src/components/Signup.jsx:102 | `s.trim().toLowerCase()` equals `s.toLowerCase().trim()` |
| Text.Filter | frontend/src/components/Signup.jsx:98 | `replace(/[^K]/g, '')` keeps only characters of K, drawn from the input, and leaves a string already in K alone |
| Text.FilterAppend | frontend/src/components/Signup.jsx:98 | Filtering distributes over concatenation |
| Text.DigitsOnly | frontend/src/components/Signup.jsx:98 | `replace(/\D/g, '')` leaves only digits |
| Text.SpacesHaveNoDigits | frontend/src/components/Signup.jsx:58 | White space has no digits to keep |
| Text.FilterMiddle | frontend/src/components/Signup.jsx:58 | Ends that filter to nothing do not change the filter of the whole |
| Text.DigitsOnlyTrim | frontend/src/components/Signup.jsx:58 | With non-digits stripped, trimming first makes no difference |
| Text.Last | frontend/src/components/EditProfile.jsx:37 | `slice(-n)`: the last n characters, or all of a shorter string |
| Text.ContainsAt | frontend/src/components/Login.jsx:100-105 | `includes` finds a substring at any position |
| Text.ContainsWitness | frontend/src/components/Login.jsx:100-105 | A substring `includes` finds sits at some position |
| Text.ContainsHasChars | frontend/src/components/Signup.jsx:143-147 | A string that includes `sub` contains every character of `sub` |
| Text.FilterFilter | frontend/src/components/Signup.jsx:191 | Filtering first by a wider class changes nothing for a narrower one |
| Patterns.StrengthHasClasses | frontend/src/components/Signup.jsx:67 | A password passing the three look-aheads has a lower-case letter, an upper-case letter and a digit |
| Patterns.ReachesInLine | frontend/src/components/Signup.jsx:67 | A look-ahead `(?=.*[K])` from a position: a character of K before any line terminator; stated by `StrengthHasClasses`, `SingleLineStrength` and `LineBreakDefeatsStrength` |
| Patterns.HasEmailShape | frontend/src/components/Signup.jsx:51 | `/\S+@\S+\.\S+/` matches somewhere; stated by `EmailShapeTrim`, `EmailShapeToLower` and `EmailErrorMeaning` |
| Patterns.IsWholeEmail | frontend/src/components/EditProfile.jsx:21 | `/^\S+@\S+\.\S+$/` matches the whole string; stated by `WholeEmailHasShape` |
| Patterns.IsTenDigits | frontend/src/components/Signup.jsx:58 | `/^\d{10}$/`: exactly ten ASCII digits; stated by `MobileErrorMeaning`, `CleanAcceptedMobile` and `EditProfileAccepted` |
| Patterns.IsLettersAndSpaces | frontend/src/components/Signup.jsx:33 | `/^[a-zA-Z\s]+$/`: non-empty, letters and white space only; stated by `FullNameErrorMeaning` |
| Patterns.IsWord | frontend/src/components/Signup.jsx:44 | `/^[a-zA-Z0-9_]+$/`: non-empty, word characters only; stated by `UsernameErrorMeaning` and `WordToLower` |
| Patterns.SingleLineStrength | frontend/src/components/Signup.jsx:67 | On one line, having all three classes is enough to pass |
| Patterns.LineBreakDefeatsStrength | frontend/src/components/Signup.jsx:67 | "aB\n1" has all three classes but fails the look-aheads, because `.` stops at the line break |
| Patterns.WholeEmailHasShape | frontend/src/components/EditProfile.jsx:21 | An address matching the anchored pattern matches the unanchored one and contains no white space |
| Patterns.EmailShapeFromTrim | frontend/src/components/Signup.jsx:51 | A match in the trimmed email is a match in the raw one |
| Patterns.EmailShapeToTrim | frontend/src/components/Signup.jsx:51 | A match in the raw email survives trimming |
| Patterns.EmailShapeTrim | frontend/src/components/Signup.jsx:49-51 | Trimming neither creates nor destroys a match of `\S+@\S+\.\S+` |
| Patterns.EmailShapeToLower | frontend/src/components/Signup.jsx:101 | Lower-casing keeps a match |
| ClientErrors.BaseMessage | frontend/src/components/Signup.jsx:133-136 | `data.message \|\| data.error \|\| error.message \|\| fallback`: never empty with a non-empty fallback, the data message when it is truthy, the fallback when nothing is |
| ClientErrors.FromApiError | backend/src/controllers/user.controllers.js:31 | A backend refusal reaches the client with its status, and with its message as `data.message` when that message is not empty |
| SignupForm.ValidateForm | frontend/src/components/Signup.jsx:23-84 | Each field's entry is that field's first failing check; the form is accepted exactly when no entry is set |
| SignupForm.Accepted | frontend/src/components/Signup.jsx:78-83 | `Object.keys(errors).length === 0`: no field check fails; `ValidateForm` returns exactly it |
| SignupForm.FullNameError | frontend/src/components/Signup.jsx:29-35 | Only full-name messages; an accepted name is, trimmed, at least two UTF-16 units of letters and white space |
| SignupForm.UsernameError | frontend/src/components/Signup.jsx:38-46 | Only username messages; an accepted username is, trimmed, a word of 3 to 20 UTF-16 units |
| SignupForm.EmailError | frontend/src/components/Signup.jsx:49-53 | Only email messages; an accepted email has, trimmed, the shape `\S+@\S+\.\S+` |
| SignupForm.MobileError | frontend/src/components/Signup.jsx:56-60 | Only mobile messages; an accepted number has ten digits once stripped of everything else |
| SignupForm.PasswordError | frontend/src/components/Signup.jsx:63-69 | Only password messages; an accepted password has at least 8 UTF-16 units and passes the strength pattern |
| SignupForm.ConfirmError | frontend/src/components/Signup.jsx:72-76 | Only confirmation messages; it passes exactly on a non-empty copy of the password |
| SignupForm.SignupBody | frontend/src/components/Signup.jsx:98-105 | The body has all five fields, the password as typed and a mobile number of digits only |
| SignupForm.HandleSignup | frontend/src/components/Signup.jsx:86-106 | A request is sent exactly when the form is accepted: email and username trimmed and lower-cased, full name trimmed, mobile digits only, password as typed |
| SignupForm.FullNameErrorMeaning | frontend/src/components/Signup.jsx:29-35 | "Required" exactly for a blank name; an accepted name is, trimmed, at least two letters or spaces, beginning and ending with a letter |
| SignupForm.UsernameErrorMeaning | frontend/src/components/Signup.jsx:38-46 | "Required" exactly for a blank username; accepted exactly when, trimmed, it is 3 to 20 word characters, so it has no white space |
| SignupForm.EmailErrorMeaning | frontend/src/components/Signup.jsx:49-53 | Accepted exactly when `\S+@\S+\.\S+` matches somewhere; "required" exactly for a blank email |
| SignupForm.MobileErrorMeaning | frontend/src/components/Signup.jsx:56-60 | Accepted exactly when deleting the non-digits leaves ten digits; "required" exactly for a blank input |
| SignupForm.PasswordErrorMeaning | frontend/src/components/Signup.jsx:63-69 | An accepted password has at least 8 UTF-16 code units, including a lower-case letter, an upper-case letter and a digit; on one line these are also enough |
| SignupForm.AstralPasswordLongEnough | frontend/src/components/Signup.jsx:65 | "aB1" followed by three emoji, six characters but nine code units, passes the length check and is accepted |
| SignupForm.LettersInBmp | frontend/src/components/Signup.jsx:32-44 | On letters, white space and word characters, `length` counts characters |
| SignupForm.FullNameSent | frontend/src/components/Signup.jsx:103 | An accepted full name is sent non-empty, and the backend's trim leaves it alone |
| SignupForm.UsernameSent | frontend/src/components/Signup.jsx:102 | An accepted username is sent as a non-empty word that the backend's lower-casing and setters leave alone |
| SignupForm.EmailSent | frontend/src/components/Signup.jsx:101 | An accepted email is sent non-empty, and the backend's trim leaves it alone |
| SignupForm.AcceptedBodyGiven | frontend/src/components/Signup.jsx:98-105 | An accepted form's body passes the backend's missing-field check, with a ten-digit mobile number and a word as the username |
| SignupForm.AcceptedBodyStoredAsSent | frontend/src/components/Signup.jsx:98-105 | The backend stores an accepted form's body exactly as sent, with a digest under which the typed password is correct |
| SignupForm.WordToLower | frontend/src/components/Signup.jsx:102 | Lower-casing keeps a word a word |
| SignupForm.KeepPhoneChars | frontend/src/components/Signup.jsx:189-193 | The typing filter leaves only digits, white space and `- ( ) +` |
| SignupForm.IsPhoneChar | frontend/src/components/Signup.jsx:191 | The class `[\d\s\-\(\)\+]` of the typing filter; stated by `KeepPhoneChars` and `PhoneFilterKeepsDigits` |
| SignupForm.PhoneFilterKeepsDigits | frontend/src/components/Signup.jsx:189-193 | The filter removes no digit, so the mobile check's verdict is unchanged; filtering twice is filtering once |
| SignupForm.ConflictNotice | frontend/src/components/Signup.jsx:142-151 | A 409 always gives one of the four conflict messages |
| SignupForm.SignupErrorMessage | frontend/src/components/Signup.jsx:130-160 | The `catch`'s message: a 409 gives a conflict message; when it passes the error's text, that text is the never-empty base message |
| SignupForm.SignupConflictMessage | frontend/src/components/Signup.jsx:142-151 | A 409, and only a 409, gives a conflict message, chosen from the lower-cased message |
| SignupForm.ConflictKeywordOrder | frontend/src/components/Signup.jsx:143-150 | The first keyword found, in the order email, username, mobile or phone, decides the message; with none of them, the generic message |
| SignupForm.SignupOtherMessage | frontend/src/components/Signup.jsx:152-160 | 400, 429 and any status from 500 each get exactly their fixed message; any other non-409 status shows the never-empty text of the error |
| SignupForm.ConflictWithoutKeywords | frontend/src/components/Signup.jsx:142-151 | A 409 whose message has no m, n or p in either case gives the generic conflict message |
| SignupForm.UserExistsLetters | backend/src/controllers/user.controllers.js:39 | "User already exists" has no m, n or p |
| SignupForm.BackendConflictMessage | frontend/src/components/Signup.jsx:142-151 | The backend's 409 "User already exists" shows as the generic conflict message |
| LoginForm.ShapedEmailNotBlank | frontend/src/components/Login.jsx:21-34 | An email with the shape is not blank |
| LoginForm.LoginError | frontend/src/components/Login.jsx:18-42 | An accepted form has an email of the right shape and a non-blank password of at least 6 UTF-16 units; a password refused as short has under 6 characters |
| LoginForm.LoginAccepted | frontend/src/components/Login.jsx:18-42 | Accepted exactly when the email has the shape, the password is not blank, and the password has at least 6 UTF-16 code units, white space counted |
| LoginForm.LoginErrorOrder | frontend/src/components/Login.jsx:21-39 | Each message is reported exactly when the checks before it pass and its own check fails |
| LoginForm.LoginRequest | frontend/src/components/Login.jsx:55-58 | The body sends no username |
| LoginForm.AcceptedLoginRequest | frontend/src/components/Login.jsx:55-58 | An accepted form's body passes the backend's credential check, with the password as typed and a trimmed email that still has the shape |
| LoginForm.CapitalisedEmailNotFound | frontend/src/components/Login.jsx:56 | The email is not lower-cased, so with every stored email lower-case, an accepted login whose email has a capital gets 404 and writes nothing |
| LoginForm.BadCredentialsFirst | frontend/src/components/Login.jsx:99-106 | 401 or a bad-credentials keyword gives "Incorrect password", ahead of every other rule including 404; nothing else gives it |
| LoginForm.LoginOtherMessage | frontend/src/components/Login.jsx:107-115 | After that rule: 404 or "user not found", then 429, then any status from 500 each get their message; anything else keeps the never-empty text of the error |
| LoginForm.LowerPrefixContains | frontend/src/components/Login.jsx:97-105 | A string whose first characters lower-case to a keyword includes that keyword once lower-cased |
| LoginForm.FallbackNamesLoginFailed | frontend/src/components/Login.jsx:93-105 | The fallback "Login failed. Please try again." contains the keyword "login failed" once lower-cased |
| LoginForm.SilentFailureShowsIncorrectPassword | frontend/src/components/Login.jsx:90-106 | A failure without any text shows "Incorrect password", whatever its status |
| LoginForm.NotFoundWithoutKeywords | frontend/src/components/Login.jsx:99-108 | A 404 whose message has no i or w gives the no-account message |
| LoginForm.NotFoundLetters | backend/src/controllers/user.controllers.js:87 | "Use not found" has no i or w |
| LoginForm.BackendNotFoundMessage | frontend/src/components/Login.jsx:107-108 | The backend's 404 for an unknown email shows as the no-account message |
| LoginForm.BackendWrongPasswordMessage | frontend/src/components/Login.jsx:99-106 | The backend's 401 shows as "Incorrect password" |
| LoginForm.LoginErrorMessage | frontend/src/components/Login.jsx:87-115 | A 401 always shows "Incorrect password"; when the error's own text is shown, it is the never-empty base message |
| PasswordChangeForm.PasswordChangeAccepted | frontend/src/components/PasswordChange.jsx:21-40 | Accepted exactly when the old password is given, the new one differs from it and has at least 8 UTF-16 code units, and the confirmation equals it |
| PasswordChangeForm.PasswordChangeError | frontend/src/components/PasswordChange.jsx:21-40 | An accepted form has the old password given, a different new password of at least 8 UTF-16 units and a matching confirmation; one refused as short has under 8 characters |
| PasswordChangeForm.FourEmojiLongEnough | frontend/src/components/PasswordChange.jsx:30 | A new password of four emoji, eight code units, passes the length check |
| PasswordChangeForm.PasswordChangeOrder | frontend/src/components/PasswordChange.jsx:22-37 | "All fields" first, then same-password ahead of the length check, then length ahead of mismatch; each exactly when the earlier checks pass |
| PasswordChangeForm.SevenCharactersRefused | frontend/src/components/PasswordChange.jsx:30-33 | A 7-character new password is refused as too short, although the message asks for 6 |
| PasswordChangeForm.ChangeRequest | frontend/src/components/PasswordChange.jsx:47-50 | The body sends the old and new passwords as typed |
| PasswordChangeForm.AcceptedChangeAtBackend | backend/src/controllers/user.controllers.js:199-213 | For an accepted form: 400 exactly when the old password is wrong; otherwise success, the new password is correct, and the old one is correct exactly when it agrees with the new one on bcrypt's 72 bytes, so never when both fit |
| PasswordChangeForm.SharedPrefixKeepsOldPassword | backend/src/controllers/user.controllers.js:199-213 | When old and new passwords share their first 72 characters, the form accepts the change, the backend answers 200, and the old password still passes |
| PasswordChangeForm.RefusalText | frontend/src/components/PasswordChange.jsx:60-63 | The refusal shows `data.message` when truthy, else "Failed to change password."; never empty |
| PasswordChangeForm.PasswordChangeState.constructor | frontend/src/components/PasswordChange.jsx:8-12 | Three empty fields, no notice, no success |
| PasswordChangeForm.PasswordChangeState.Validate | frontend/src/components/PasswordChange.jsx:21-40 | Answers whether the form is accepted; records the first failure or clears the error; touches no field |
| PasswordChangeForm.PasswordChangeState.Submit | frontend/src/components/PasswordChange.jsx:42-50 | Sends exactly when the form is accepted, and then the old and new passwords as typed |
| PasswordChangeForm.PasswordChangeState.OnSuccess | frontend/src/components/PasswordChange.jsx:51-55 | Marks success and empties the three fields |
| PasswordChangeForm.PasswordChangeState.OnFailure | frontend/src/components/PasswordChange.jsx:60-63 | Shows the refusal text and keeps the fields |
| PasswordChangeForm.ResubmitAfterSuccess | frontend/src/components/PasswordChange.jsx:22-25 | After the success handler empties the fields, a second submit sends nothing and reports that every field is required |
| EditProfileForm.EditProfileAccepted | frontend/src/components/EditProfile.jsx:16-31 | Accepted exactly when the full name is not empty, the whole email matches `^\S+@\S+\.\S+$` and the mobile number is exactly ten digits; such an email has no white space |
| EditProfileForm.EditProfileOrder | frontend/src/components/EditProfile.jsx:17-28 | An empty field is reported first, then a malformed email, then a malformed number |
| EditProfileForm.EditProfileError | frontend/src/components/EditProfile.jsx:16-31 | An accepted form has a non-empty full name, a whole-string email and a ten-digit number; "All fields" exactly when a field is empty |
| EditProfileForm.CleanMobile | frontend/src/components/EditProfile.jsx:37 | The cleaned number has at most ten characters, all digits |
| EditProfileForm.CleanAcceptedMobile | frontend/src/components/EditProfile.jsx:25-37 | On an accepted number the cleaning changes nothing |
| EditProfileForm.NoSpaceToLower | frontend/src/components/EditProfile.jsx:42 | Lower-casing a string without white space keeps it without |
| EditProfileForm.ProfileRequest | frontend/src/components/EditProfile.jsx:37-45 | The body has all three fields, a trimmed full name and a number of at most ten digits |
| EditProfileForm.AcceptedProfileRequest | frontend/src/components/EditProfile.jsx:41-45 | An accepted form sends its email lower-cased, with no white space and unaffected by the trim, and its number exactly as typed |
| EditProfileForm.BlankNameRefusedByBackend | frontend/src/components/EditProfile.jsx:17-44 | A full name of only white space passes the form but is sent trimmed to empty, and the backend answers 400, with the corrected guard and with the guard as written |
| EditProfileForm.AcceptedProfileStored | frontend/src/components/EditProfile.jsx:41-45 | Any other accepted form passes the backend's check. The updated record holds the email lower-cased, the number as typed and the name trimmed; username and password stay |

## Left out

- The UI layer is not modelled. This covers React rendering, the loading flags, `setTimeout` navigation, `localStorage` and the global axios `Authorization` header. The front-end forms appear only through their decision logic, the bodies they send and the messages they show. `Home.jsx`, `App.jsx` and `main.jsx` have no logic to model.
- The `console` logs in the `then` and `catch` handlers are left out.
- Success handlers are not modelled, except the field reset of the password-change form. This includes the success flags of the sign-up, login and profile forms.
- EditProfile's fixed failure message "Failed to update profile. Please try again." is a constant with nothing to prove, so it is left out.
- The field-error clearing in Signup's `handleInputChange` and the error clearing on typing in Login are UI state. Only the character filter of the mobile field is modelled.
- The JWT middleware (`verifyJWT`) is not part of this model. The user it attaches is the `caller` parameter, and the routes with that middleware are the handlers that take one.
- bcrypt's salt and timing are not modelled. A digest is its cost and preimage. `Compare` models the 72-byte truncation; how native bcrypt treats a NUL byte in a password is not modelled.
- JWT signature algorithm and expiry checking are not modelled. A token records its secret, expiry and issue time, and `Verify` checks only the secret. The issue time is the `now` parameter.
- `Text.ToLower` lower-cases ASCII letters only; JavaScript's `toLowerCase` also maps non-ASCII letters.
- `Text.LowerChar` maps `A`–`Z` to the same letter in lower case and keeps every other character, so non-ASCII capitals such as `É` are kept where JavaScript lower-cases them.
- `Text.IsSpace` is exactly the set `\s` matches and `trim` strips: ECMAScript WhiteSpace (TAB, VT, FF, U+FEFF and every Space_Separator) plus LineTerminator. Nothing is left out there.
- `UserControllers.FindOne`: with several matches it returns the smallest identifier, standing for insertion order. MongoDB's natural order is not otherwise modelled.
- MongoDB `ObjectId` generation is modelled as a counter `nextId`.
- Operations are atomic, so the check-then-insert race of `registerUser` between concurrent requests is not modelled.
- The schema declares no `refreshToken`, so Mongoose's strict mode may drop the token writes. The model stores the token as the code intends. This is not settled by the files modelled here.
- `require: true` on email, fullName, mobileNumber and password is not the `required` validator. The model gives those fields no required check; `username`'s real `required` is modelled as a 500.
- `mobileNumber` is declared `Number`, so Mongoose would cast it. The model keeps the string the request sends.
- `logoutUser` passes `$set: { refreshToken: undefined, accessToken: undefined }` to `findOneAndUpdate` with a bare identifier. The model clears the caller's refresh token, as intended. It does not settle how Mongoose treats `undefined` or a bare-id filter.
- Query filters are cast through the schema setters: `username` trimmed and lower-cased, `email` trimmed. A filter entry whose value is absent, such as `{ username: undefined }` in the `$or`, is read as matching no record; how Mongoose casts it is not settled by the files modelled here.
- `mobileNumber` in a filter is compared as the string sent, without the `Number` cast.
- Request body values are modelled as absent or strings (`Field`). `express.json()` and `express.urlencoded({ extended: true })` also yield numbers, `null`, arrays and objects, which the model does not represent. Examples: an operator object such as `{ "email": { "$gt": "" } }` in login's filter, which Mongoose reads as a query, so it matches any record with a non-empty email; a numeric `username`, which passes register's guard and then throws at `username.toLowerCase()` (500); and `mobileNumber: null`, which passes the written profile guard and stores null.
- `timestamps` are not modelled.
- The `ApiResponse` message strings and the `{statusCode, message, success}` error envelope are not modelled. Answers carry the status, the data and the cookies; errors carry the status and the thrown message.
- The register branch "Error creating user" (500) is unreachable in the model: a record just created is always found again. A token failure after creation cannot occur in the model either.
- Errors from the unique indexes and the `required` validator surface as 500 with a fixed message standing for MongoDB's text. The real message, which the front end may show, is not modelled.
- `ClientErrors.FromApiError` assumes the backend's error body carries `message` and no `error` field, and that no transport message is involved.
- The transport's own `error.message` is an arbitrary optional string in `HttpError`.
- The network failure case is not distinguished from a response without a body.
- Login's success handler, which stores `res.data.data.token` when present, is not modelled: the backend never sends such a field.
- `UserControllers.Register` and `UserControllers.Login`: their own ensures state only the identifier bound. Their behaviour is stated by the `AccountProperties` lemmas about them.
- `UserControllers.ChangePassword`: its own ensures states only that the key set is kept. Its behaviour is stated by `ChangePasswordWrongOld`, `ChangePasswordSuccess` and `ChangePasswordSameAccepted`.
- `UserControllers.UpdateProfile` uses the corrected guard of the finding below; `UpdateProfileAsWritten` is the handler as written, and `AccountStore.UserStore.UpdateUserProfile` runs the corrected one.
- An absent `mobileNumber` in the written handler's `$set` keeps the stored number: this is a modelling choice for `undefined` in `$set`, not settled by the files modelled here. An empty one is stored as the empty string, with no `Number` cast.

## Findings

| source | as written | input that shows it | evidently intended | confidence | as-written member | corrected member |
|---|---|---|---|---|---|---|
| backend/src/controllers/user.controllers.js:173 | `if (!fullName \|\| !email \|\| !email)` checks `email` twice and never checks `mobileNumber` | body `{ email: "a@b.co", fullName: "Ann" }` with no `mobileNumber` passes the guard, and `$set` then receives `mobileNumber: undefined` | `!fullName \|\| !email \|\| !mobileNumber`, as the error message "please enter fullName, email, mobileNumber" says | high; not executed | UserControllers.UpdateProfileAsWritten (shown by AccountProperties.MissingMobileUpdatedAsWritten and AccountProperties.AnnClearsNumberAsWritten) | UserControllers.UpdateProfile (ProfileGuardIff, UpdateProfileEffect) |

Other behaviours the model brings out are stated as lemmas, not findings, since nothing shows they are unintended:
- PasswordChange refuses a 7-character new password while its message asks for 6 (`SevenCharactersRefused`).
- Login's fallback message itself contains "login failed", so a failure without text shows "Incorrect password" (`SilentFailureShowsIncorrectPassword`).
- Login does not lower-case the email that sign-up lower-cases (`CapitalisedEmailNotFound`).
- EditProfile checks the raw full name, sends it trimmed, and a blank name is then refused by the backend (`BlankNameRefusedByBackend`).
- bcrypt reads only the first 72 bytes of a password, so a change to a new password that shares its first 72 characters with the old one leaves the old one working (`SharedPrefixKeepsOldPassword`).
- The forms count lengths in UTF-16 code units, so a password of emoji needs only half as many characters (`AstralPasswordLongEnough`, `FourEmojiLongEnough`).
