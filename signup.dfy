/**
 * The sign-up form: its field checks, the filter on what may be typed into
 * the mobile-number field, the body it posts, and the message it shows when
 * the request is refused.
 */
module SignupForm {
  import opened Wrappers
  import opened Text
  import opened Encoding
  import opened Patterns
  import opened Crypto
  import opened UserModel
  import opened ClientErrors
  import UserControllers

  /** The six fields of the form's state. */
  datatype SignupFields = SignupFields(
    fullName: string, username: string, email: string,
    mobileNumber: string, password: string, confirmPassword: string)

  /** The messages the form can record against a field. */
  datatype FieldMessage =
    | FullNameRequired
    | FullNameTooShort
    | FullNameLetters
    | UsernameRequired
    | UsernameTooShort
    | UsernameTooLong
    | UsernameChars
    | EmailRequired
    | EmailInvalid
    | MobileRequired
    | MobileInvalid
    | PasswordRequired
    | PasswordTooShort
    | PasswordWeak
    | ConfirmRequired
    | ConfirmMismatch

  /** The wording of each message. */
  function FieldText(m: FieldMessage): string {
    match m
    case FullNameRequired => "Full name is required"
    case FullNameTooShort => "Full name must be at least 2 characters"
    case FullNameLetters => "Full name can only contain letters and spaces"
    case UsernameRequired => "Username is required"
    case UsernameTooShort => "Username must be at least 3 characters"
    case UsernameTooLong => "Username must not exceed 20 characters"
    case UsernameChars => "Username can only contain letters, numbers, and underscores"
    case EmailRequired => "Email is required"
    case EmailInvalid => "Please enter a valid email address"
    case MobileRequired => "Mobile number is required"
    case MobileInvalid => "Please enter a valid 10-digit mobile number"
    case PasswordRequired => "Password is required"
    case PasswordTooShort => "Password must be at least 8 characters"
    case PasswordWeak => "Password must contain at least one uppercase letter, one lowercase letter, and one number"
    case ConfirmRequired => "Please confirm your password"
    case ConfirmMismatch => "Passwords do not match"
  }

  // The check of each field, as a function of its value: the first failing test gives the message.
  // Lengths are JavaScript's `length`, in UTF-16 code units.

  /** The full-name chain: only full-name messages, and an accepted name is, trimmed, two or more units of letters and white space. */
  function FullNameError(s: string): (r: Option<FieldMessage>)
    ensures r.Some? ==> r.value in {FullNameRequired, FullNameTooShort, FullNameLetters}
    ensures r.None? ==> Utf16Length(Trim(s)) >= 2 && IsLettersAndSpaces(Trim(s))
  {
    var t := Trim(s);
    if t == "" then Some(FullNameRequired)
    else if Utf16Length(t) < 2 then Some(FullNameTooShort)
    else if !IsLettersAndSpaces(t) then Some(FullNameLetters)
    else None
  }

  /** The username chain: only username messages, and an accepted username is, trimmed, a word of 3 to 20 units. */
  function UsernameError(s: string): (r: Option<FieldMessage>)
    ensures r.Some? ==> r.value in {UsernameRequired, UsernameTooShort, UsernameTooLong, UsernameChars}
    ensures r.None? ==> 3 <= Utf16Length(Trim(s)) <= 20 && IsWord(Trim(s))
  {
    var t := Trim(s);
    if t == "" then Some(UsernameRequired)
    else if Utf16Length(t) < 3 then Some(UsernameTooShort)
    else if Utf16Length(t) > 20 then Some(UsernameTooLong)
    else if !IsWord(t) then Some(UsernameChars)
    else None
  }

  /** The email chain: only email messages, and an accepted email has, trimmed, the shape `\S+@\S+\.\S+` somewhere. */
  function EmailError(s: string): (r: Option<FieldMessage>)
    ensures r.Some? ==> r.value in {EmailRequired, EmailInvalid}
    ensures r.None? ==> HasEmailShape(Trim(s))
  {
    var t := Trim(s);
    if t == "" then Some(EmailRequired)
    else if !HasEmailShape(t) then Some(EmailInvalid)
    else None
  }

  /** The mobile chain: only mobile messages, and an accepted number has ten digits once trimmed and stripped of everything else. */
  function MobileError(s: string): (r: Option<FieldMessage>)
    ensures r.Some? ==> r.value in {MobileRequired, MobileInvalid}
    ensures r.None? ==> IsTenDigits(DigitsOnly(Trim(s)))
  {
    if Trim(s) == "" then Some(MobileRequired)
    else if !IsTenDigits(DigitsOnly(Trim(s))) then Some(MobileInvalid)
    else None
  }

  /** The password chain: only password messages, and an accepted password has eight or more units and passes the strength pattern. */
  function PasswordError(p: string): (r: Option<FieldMessage>)
    ensures r.Some? ==> r.value in {PasswordRequired, PasswordTooShort, PasswordWeak}
    ensures r.None? ==> Utf16Length(p) >= 8 && HasLowerUpperDigit(p)
  {
    if p == "" then Some(PasswordRequired)
    else if Utf16Length(p) < 8 then Some(PasswordTooShort)
    else if !HasLowerUpperDigit(p) then Some(PasswordWeak)
    else None
  }

  /** The confirmation check: only confirmation messages, and it passes exactly on a non-empty copy of the password. */
  function ConfirmError(p: string, c: string): (r: Option<FieldMessage>)
    ensures r.Some? ==> r.value in {ConfirmRequired, ConfirmMismatch}
    ensures r.None? <==> c != "" && c == p
  {
    if c == "" then Some(ConfirmRequired)
    else if p != c then Some(ConfirmMismatch)
    else None
  }

  /** The form passes `validateForm`: no field records an error. */
  predicate Accepted(f: SignupFields) {
    && FullNameError(f.fullName).None?
    && UsernameError(f.username).None?
    && EmailError(f.email).None?
    && MobileError(f.mobileNumber).None?
    && PasswordError(f.password).None?
    && ConfirmError(f.password, f.confirmPassword).None?
  }

  /** The `errors` object: each key holds the message recorded against that field, if any. */
  datatype FormErrors = FormErrors(
    fullName: Option<FieldMessage>, username: Option<FieldMessage>, email: Option<FieldMessage>,
    mobileNumber: Option<FieldMessage>, password: Option<FieldMessage>, confirmPassword: Option<FieldMessage>)

  /** An object with no keys. */
  const NoErrors := FormErrors(None, None, None, None, None, None)

  /**
   * `validateForm`: each field's chain runs in turn and records its first
   * failure under the field's key; the form is accepted exactly when no key
   * was set.
   */
  method ValidateForm(f: SignupFields) returns (ok: bool, errors: FormErrors)
    ensures errors.fullName == FullNameError(f.fullName)
    ensures errors.username == UsernameError(f.username)
    ensures errors.email == EmailError(f.email)
    ensures errors.mobileNumber == MobileError(f.mobileNumber)
    ensures errors.password == PasswordError(f.password)
    ensures errors.confirmPassword == ConfirmError(f.password, f.confirmPassword)
    ensures ok <==> errors == NoErrors
    ensures ok <==> Accepted(f)
  {
    errors := NoErrors;
    var fullName := FullNameError(f.fullName);
    if fullName.Some? {
      errors := errors.(fullName := fullName);
    }
    var username := UsernameError(f.username);
    if username.Some? {
      errors := errors.(username := username);
    }
    var email := EmailError(f.email);
    if email.Some? {
      errors := errors.(email := email);
    }
    var mobileNumber := MobileError(f.mobileNumber);
    if mobileNumber.Some? {
      errors := errors.(mobileNumber := mobileNumber);
    }
    var password := PasswordError(f.password);
    if password.Some? {
      errors := errors.(password := password);
    }
    var confirmPassword := ConfirmError(f.password, f.confirmPassword);
    if confirmPassword.Some? {
      errors := errors.(confirmPassword := confirmPassword);
    }
    ok := errors == NoErrors;
  }

  /** The body `handleSignup` posts: email and username trimmed and lower-cased, full name trimmed, mobile number reduced to its digits, password as typed. */
  function SignupBody(f: SignupFields): (body: UserControllers.RegisterBody)
    ensures body.fullName.Some? && body.email.Some? && body.username.Some? && body.mobileNumber.Some?
    ensures body.password == Some(f.password)
    ensures forall i :: 0 <= i < |body.mobileNumber.value| ==> IsDigit(body.mobileNumber.value[i])
  {
    UserControllers.RegisterBody(
      Some(Trim(f.fullName)), Some(ToLower(Trim(f.email))), Some(f.password),
      Some(ToLower(Trim(f.username))), Some(DigitsOnly(f.mobileNumber)))
  }

  /** `handleSignup`: nothing is sent unless the form is accepted. */
  method HandleSignup(f: SignupFields) returns (request: Option<UserControllers.RegisterBody>)
    ensures request.Some? <==> Accepted(f)
    ensures request.Some? ==> request.value == SignupBody(f)
  {
    var ok, errors := ValidateForm(f);
    if !ok {
      return None;
    }
    request := Some(SignupBody(f));
  }

  // What each field's check accepts, stated without the chain.

  /** Letters and white space lie in the Basic Multilingual Plane, and so do word characters: on those, `length` counts characters. */
  lemma LettersInBmp(t: string)
    ensures IsLettersAndSpaces(t) ==> Utf16Length(t) == |t|
    ensures IsWord(t) ==> Utf16Length(t) == |t|
  {
    Utf16LengthBmp(t);
  }

  /** "Full name is required" exactly for a blank name; an accepted name is, trimmed, at least two letters or spaces that begin and end with a letter. */
  lemma FullNameErrorMeaning(s: string)
    ensures FullNameError(s) == Some(FullNameRequired) <==> AllSpace(s)
    ensures FullNameError(s).None? ==>
      var t := Trim(s);
      && |t| >= 2 && IsLettersAndSpaces(t)
      && IsAsciiLetter(t[0]) && IsAsciiLetter(t[|t| - 1])
  {
    TrimEmptyIff(s);
    var a, b := TrimSlice(s);
    LettersInBmp(Trim(s));
  }

  /** An accepted username is, trimmed, 3 to 20 letters, digits or underscores; so it has no white space. */
  lemma UsernameErrorMeaning(s: string)
    ensures UsernameError(s) == Some(UsernameRequired) <==> AllSpace(s)
    ensures UsernameError(s).None? <==> 3 <= |Trim(s)| <= 20 && IsWord(Trim(s))
    ensures UsernameError(s).None? ==> NoSpace(Trim(s))
  {
    TrimEmptyIff(s);
    LettersInBmp(Trim(s));
  }

  /** The email check accepts exactly the addresses in which `\S+@\S+\.\S+` matches; trimming first makes no difference. */
  lemma EmailErrorMeaning(s: string)
    ensures EmailError(s).None? <==> HasEmailShape(s)
    ensures EmailError(s) == Some(EmailRequired) <==> AllSpace(s)
  {
    EmailShapeTrim(s);
    TrimEmptyIff(s);
  }

  /** The mobile check accepts exactly the inputs with ten digits among their characters. */
  lemma MobileErrorMeaning(s: string)
    ensures MobileError(s).None? <==> IsTenDigits(DigitsOnly(s))
    ensures MobileError(s) == Some(MobileRequired) <==> AllSpace(s)
  {
    TrimEmptyIff(s);
    DigitsOnlyTrim(s);
    if AllSpace(s) {
      SpacesHaveNoDigits(s);
    }
  }

  /**
   * An accepted password has at least eight UTF-16 code units, among them a
   * lower-case letter, an upper-case letter and a digit; on one line, that is
   * also enough.
   */
  lemma PasswordErrorMeaning(p: string)
    ensures PasswordError(p).None? ==>
      Utf16Length(p) >= 8 && Occurs(p, IsAsciiLower) && Occurs(p, IsAsciiUpper) && Occurs(p, IsDigit)
    ensures (forall i :: 0 <= i < |p| ==> !IsLineTerminator(p[i])) ==>
      (PasswordError(p).None? <==> Utf16Length(p) >= 8 && Occurs(p, IsAsciiLower) && Occurs(p, IsAsciiUpper) && Occurs(p, IsDigit))
  {
    if PasswordError(p).None? {
      StrengthHasClasses(p);
    }
    if (forall i :: 0 <= i < |p| ==> !IsLineTerminator(p[i])) && Utf16Length(p) >= 8 && Occurs(p, IsAsciiLower) && Occurs(p, IsAsciiUpper) && Occurs(p, IsDigit) {
      SingleLineStrength(p);
    }
  }

  /** Three emoji count six code units: with "aB1" before them the password is long enough, though it has six characters. */
  lemma AstralPasswordLongEnough()
    ensures PasswordError("aB1\U{1F600}\U{1F600}\U{1F600}").None?
  {
    var p := "aB1\U{1F600}\U{1F600}\U{1F600}";
    assert Utf16Length(p) == 9;
    assert ReachesInLine(p, 0, IsAsciiLower) && ReachesInLine(p, 0, IsAsciiUpper) && ReachesInLine(p, 0, IsDigit) by {
      assert IsAsciiLower(p[0]) && IsAsciiUpper(p[1]) && IsDigit(p[2]);
    }
  }

  /** An accepted full name is sent trimmed, and the setter's trim leaves it alone. */
  lemma FullNameSent(s: string)
    requires FullNameError(s).None?
    ensures Trim(Trim(s)) == Trim(s) && Trim(s) != ""
  {
    TrimIdempotent(s);
  }

  /** An accepted username is sent trimmed and lower-cased: a word, which the backend's lower-casing and setters leave alone. */
  lemma UsernameSent(s: string)
    requires UsernameError(s).None?
    ensures var u := ToLower(Trim(s));
      UsernameSetter(ToLower(u)) == u && u != "" && IsWord(u)
  {
    var t := Trim(s);
    TrimIdempotent(s);
    TrimToLower(t);
    ToLowerIdempotent(t);
    UsernameSetterAfterLower(ToLower(t));
    WordToLower(t);
  }

  /** An accepted email is sent trimmed and lower-cased, non-empty, and the setter's trim leaves it alone. */
  lemma EmailSent(s: string)
    requires EmailError(s).None?
    ensures var e := ToLower(Trim(s));
      Trim(e) == e && e != ""
  {
    TrimToLower(Trim(s));
    TrimIdempotent(s);
  }

  /** An accepted form's body gets past the backend's check for missing fields, with a ten-digit mobile number and a word for the username. */
  lemma AcceptedBodyGiven(f: SignupFields)
    requires Accepted(f)
    ensures var body := SignupBody(f);
      && UserControllers.RegisterFieldsGiven(body)
      && IsTenDigits(body.mobileNumber.value) && IsWord(body.username.value)
  {
    FullNameSent(f.fullName);
    UsernameSent(f.username);
    EmailSent(f.email);
    MobileErrorMeaning(f.mobileNumber);
  }

  /** The record the backend builds from an accepted form's body holds the values exactly as sent, with a digest of the password. */
  lemma AcceptedBodyStoredAsSent(f: SignupFields)
    requires Accepted(f)
    ensures UserControllers.RegisterFieldsGiven(SignupBody(f))
    ensures var body := SignupBody(f);
      var u := UserControllers.RegisteredRecord(body);
      && u.username == body.username.value
      && u.email == body.email.value
      && u.fullName == body.fullName.value
      && u.mobileNumber == body.mobileNumber.value
      && IsCorrectPassword(u, f.password)
  {
    AcceptedBodyGiven(f);
    FullNameSent(f.fullName);
    UsernameSent(f.username);
    EmailSent(f.email);
    UserControllers.RegisteredRecordFields(SignupBody(f));
  }

  /** Lower-casing keeps a word a word. */
  lemma WordToLower(s: string)
    requires IsWord(s)
    ensures IsWord(ToLower(s))
  {
    ToLowerAt(s);
  }

  /** The characters the mobile-number field lets through: digits, white space and `- ( ) +`. */
  predicate IsPhoneChar(c: char) {
    IsDigit(c) || IsSpace(c) || c == '-' || c == '(' || c == ')' || c == '+'
  }

  /** `value.replace(/[^\d\s\-\(\)\+]/g, '')` in `handleInputChange`. */
  function KeepPhoneChars(s: string): (r: string)
    ensures forall i :: 0 <= i < |r| ==> IsPhoneChar(r[i])
  {
    Filter(s, IsPhoneChar)
  }

  /** The typing filter removes no digit, so it never changes what the mobile check sees; and filtering twice is filtering once. */
  lemma PhoneFilterKeepsDigits(s: string)
    ensures DigitsOnly(KeepPhoneChars(s)) == DigitsOnly(s)
    ensures KeepPhoneChars(KeepPhoneChars(s)) == KeepPhoneChars(s)
    ensures MobileError(KeepPhoneChars(s)).None? <==> MobileError(s).None?
  {
    FilterFilter(s, IsPhoneChar, IsDigit);
    MobileErrorMeaning(s);
    MobileErrorMeaning(KeepPhoneChars(s));
  }

  // The `catch` of `handleSignup`.

  /** What the `catch` shows: one of its own seven messages, or the text of the error itself. */
  datatype SignupNotice =
    | EmailTaken | UsernameTaken | MobileTaken | AccountExists
    | InvalidInformation | TooManySignups | ServerTrouble
    | Passed(text: string)

  function NoticeText(n: SignupNotice): string {
    match n
    case EmailTaken => "An account with this email already exists. Please use a different email or try logging in."
    case UsernameTaken => "This username is already taken. Please choose a different username."
    case MobileTaken => "An account with this mobile number already exists."
    case AccountExists => "Account already exists with the provided information."
    case InvalidInformation => "Invalid information provided. Please check your details and try again."
    case TooManySignups => "Too many signup attempts. Please try again later."
    case ServerTrouble => "Server error. Please try again later."
    case Passed(text) => text
  }

  /** The fallback when the error carries no text. */
  const SignupFailed := "Signup failed. Please try again."

  /** Which conflict message a 409 shows, by the first keyword its lower-cased message contains. */
  function ConflictNotice(lower: string): (n: SignupNotice)
    ensures n in {EmailTaken, UsernameTaken, MobileTaken, AccountExists}
  {
    if Contains(lower, "email") then EmailTaken
    else if Contains(lower, "username") then UsernameTaken
    else if Contains(lower, "mobile") || Contains(lower, "phone") then MobileTaken
    else AccountExists
  }

  /** The `catch` of `handleSignup`: a 409 gives a conflict message, and when the error's own text is shown it is the never-empty base message. */
  function SignupErrorMessage(e: HttpError): (n: SignupNotice)
    ensures StatusIs(e, 409) ==> n in {EmailTaken, UsernameTaken, MobileTaken, AccountExists}
    ensures n.Passed? ==> n.text == BaseMessage(e, SignupFailed) && n.text != ""
  {
    var base := BaseMessage(e, SignupFailed);
    var lower := ToLower(base);
    if StatusIs(e, 409) then ConflictNotice(lower)
    else if StatusIs(e, 400) then InvalidInformation
    else if StatusIs(e, 429) then TooManySignups
    else if ServerStatus(e) then ServerTrouble
    else Passed(base)
  }

  /** A 409, and only a 409, gives one of the four conflict messages, chosen from its lower-cased message. */
  lemma SignupConflictMessage(e: HttpError)
    ensures StatusIs(e, 409) <==> SignupErrorMessage(e) in {EmailTaken, UsernameTaken, MobileTaken, AccountExists}
    ensures StatusIs(e, 409) ==> SignupErrorMessage(e) == ConflictNotice(ToLower(BaseMessage(e, SignupFailed)))
  {
  }

  /** The keyword found first, in the order email, username, mobile or phone, decides the conflict message. */
  lemma ConflictKeywordOrder(lower: string)
    ensures ConflictNotice(lower) == EmailTaken <==> Contains(lower, "email")
    ensures ConflictNotice(lower) == UsernameTaken <==> !Contains(lower, "email") && Contains(lower, "username")
    ensures ConflictNotice(lower) == MobileTaken <==>
      !Contains(lower, "email") && !Contains(lower, "username") && (Contains(lower, "mobile") || Contains(lower, "phone"))
    ensures ConflictNotice(lower) == AccountExists <==>
      !Contains(lower, "email") && !Contains(lower, "username") && !Contains(lower, "mobile") && !Contains(lower, "phone")
  {
  }

  /** 400, 429 and any status from 500 have their own messages; any other status shows the message from the response or the transport, which is never empty. */
  lemma SignupOtherMessage(e: HttpError)
    ensures StatusIs(e, 400) <==> SignupErrorMessage(e) == InvalidInformation
    ensures StatusIs(e, 429) <==> SignupErrorMessage(e) == TooManySignups
    ensures ServerStatus(e) <==> SignupErrorMessage(e) == ServerTrouble
    ensures !StatusIs(e, 409) && !StatusIs(e, 400) && !StatusIs(e, 429) && !ServerStatus(e) <==>
      SignupErrorMessage(e) == Passed(BaseMessage(e, SignupFailed))
    ensures SignupErrorMessage(e).Passed? ==> SignupErrorMessage(e).text != ""
  {
    var n := SignupErrorMessage(e);
    if StatusIs(e, 409) {
      assert n == ConflictNotice(ToLower(BaseMessage(e, SignupFailed)));
    } else {
      assert n == if StatusIs(e, 400) then InvalidInformation
                 else if StatusIs(e, 429) then TooManySignups
                 else if ServerStatus(e) then ServerTrouble
                 else Passed(BaseMessage(e, SignupFailed));
    }
  }

  /** No 'm', 'n' or 'p' in either case: the letters that every one of the keywords "email", "username", "mobile" and "phone" needs one of. */
  predicate NoKeywordLetter(s: string) {
    forall i | 0 <= i < |s| :: s[i] != 'm' && s[i] != 'M' && s[i] != 'n' && s[i] != 'N' && s[i] != 'p' && s[i] != 'P'
  }

  /** A conflict whose message has no 'm', 'n' or 'p' in either case names none of the fields, so the form shows the generic conflict message. */
  lemma ConflictWithoutKeywords(e: HttpError)
    requires StatusIs(e, 409)
    requires NoKeywordLetter(BaseMessage(e, SignupFailed))
    ensures SignupErrorMessage(e) == AccountExists
  {
    var message := BaseMessage(e, SignupFailed);
    var lower := ToLower(message);
    assert 'm' !in message && 'M' !in message && 'n' !in message;
    assert 'N' !in message && 'p' !in message && 'P' !in message;
    NotInToLower(message, 'm');
    NotInToLower(message, 'n');
    NotInToLower(message, 'p');
    if Contains(lower, "email") { ContainsHasChars(lower, "email", 'm'); }
    if Contains(lower, "username") { ContainsHasChars(lower, "username", 'n'); }
    if Contains(lower, "mobile") { ContainsHasChars(lower, "mobile", 'm'); }
    if Contains(lower, "phone") { ContainsHasChars(lower, "phone", 'p'); }
  }

  /** "User already exists" has none of those letters. */
  lemma UserExistsLetters()
    ensures NoKeywordLetter(UserControllers.UserExistsMessage)
  {
  }

  /** The backend's conflict answer is such a message. */
  lemma BackendConflictMessage(e: HttpError)
    requires e == FromApiError(UserControllers.ApiError(409, UserControllers.UserExistsMessage))
    ensures SignupErrorMessage(e) == AccountExists
  {
    UserExistsLetters();
    assert BaseMessage(e, SignupFailed) == UserControllers.UserExistsMessage;
    ConflictWithoutKeywords(e);
  }
}
