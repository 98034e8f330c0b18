/**
 * The login form: its check of the two fields, the body it posts, and the
 * message it shows when the request is refused.
 */
module LoginForm {
  import opened Wrappers
  import opened Text
  import opened Encoding
  import opened Patterns
  import opened UserModel
  import opened ClientErrors
  import opened UserControllers

  /** The messages `validateForm` can set. */
  datatype LoginMessage = EmailMissing | PasswordMissing | EmailMalformed | PasswordTooShort

  function LoginText(m: LoginMessage): string {
    match m
    case EmailMissing => "Email is required"
    case PasswordMissing => "Password is required"
    case EmailMalformed => "Please enter a valid email address"
    case PasswordTooShort => "Password must be at least 6 characters long"
  }

  /**
   * `validateForm`: the first failing check, or `None` when it returns
   * true. Blankness is judged after trimming, the shape of the email and
   * the length of the password, in UTF-16 code units, on the values as typed.
   */
  function LoginError(email: string, password: string): (r: Option<LoginMessage>)
    ensures r.None? ==> HasEmailShape(email) && Trim(password) != "" && Utf16Length(password) >= 6
    ensures r == Some(PasswordTooShort) ==> |password| < 6
  {
    if Trim(email) == "" then Some(EmailMissing)
    else if Trim(password) == "" then Some(PasswordMissing)
    else if !HasEmailShape(email) then Some(EmailMalformed)
    else if Utf16Length(password) < 6 then Some(PasswordTooShort)
    else None
  }

  /** A match of the email pattern has characters, so an address of that shape is not blank. */
  lemma ShapedEmailNotBlank(email: string)
    requires HasEmailShape(email)
    ensures !AllSpace(email)
  {
    var at, dot :| 0 < at < |email| && 0 < dot < |email| && EmailMatchAt(email, at, dot);
    assert !IsSpace(email[at]);
  }

  /** The form is accepted exactly when the email has the shape `\S+@\S+\.\S+` somewhere, the password is not all white space, and it has at least six UTF-16 code units, counting any white space around it. */
  lemma LoginAccepted(email: string, password: string)
    ensures LoginError(email, password).None? <==>
      HasEmailShape(email) && !AllSpace(password) && Utf16Length(password) >= 6
  {
    TrimEmptyIff(email);
    TrimEmptyIff(password);
    if HasEmailShape(email) {
      ShapedEmailNotBlank(email);
    }
  }

  /** Each message, stated by the checks before it passing and its own failing: only the first failure is reported. */
  lemma LoginErrorOrder(email: string, password: string)
    ensures LoginError(email, password) == Some(EmailMissing) <==> AllSpace(email)
    ensures LoginError(email, password) == Some(PasswordMissing) <==> !AllSpace(email) && AllSpace(password)
    ensures LoginError(email, password) == Some(EmailMalformed) <==>
      !AllSpace(email) && !AllSpace(password) && !HasEmailShape(email)
    ensures LoginError(email, password) == Some(PasswordTooShort) <==>
      HasEmailShape(email) && !AllSpace(password) && Utf16Length(password) < 6
  {
    TrimEmptyIff(email);
    TrimEmptyIff(password);
    if HasEmailShape(email) {
      ShapedEmailNotBlank(email);
    }
  }

  /** The body `handleLogin` posts: the email trimmed, the password as typed, no username. */
  function LoginRequest(email: string, password: string): (body: LoginBody)
    ensures body.username.None?
  {
    LoginBody(Some(Trim(email)), None, Some(password))
  }

  /** An accepted form's body gets past the backend's check for missing credentials, with the password exactly as typed and a trimmed email that still has the shape. */
  lemma AcceptedLoginRequest(email: string, password: string)
    requires LoginError(email, password).None?
    ensures var body := LoginRequest(email, password);
      && LoginFieldsGiven(body)
      && body.password == Some(password)
      && HasEmailShape(body.email.value) && Trimmed(body.email.value)
  {
    LoginAccepted(email, password);
    EmailShapeTrim(email);
    ShapedEmailNotBlank(Trim(email));
    TrimIsTrimmed(email);
  }

  /**
   * The backend looks the email up exactly as sent: when every stored email
   * is lower-case, as sign-up makes it, an accepted login typed with a
   * capital letter in its email is answered 404.
   */
  lemma CapitalisedEmailNotFound(db: Db, config: Config, email: string, password: string, now: int)
    requires Bounded(db)
    requires forall id :: id in db.users ==> NoUpper(db.users[id].email)
    requires LoginError(email, password).None? && !NoUpper(Trim(email))
    ensures Login(db, config, LoginRequest(email, password), now) == Step(db, Err(ApiError(404, LoginNotFoundMessage)))
  {
    AcceptedLoginRequest(email, password);
    var body := LoginRequest(email, password);
    assert forall id :: id in db.users ==> !Matches(db.users[id], LoginFilter(body));
  }

  // The `catch` of `handleLogin`.

  /** What the `catch` shows: one of its own four messages, or the text of the error itself. */
  datatype LoginNotice = IncorrectPassword | NoAccount | TooManyLogins | ServerTrouble | Passed(text: string)

  function NoticeText(n: LoginNotice): string {
    match n
    case IncorrectPassword => "Incorrect password. Please try again."
    case NoAccount => "No account found with this email address."
    case TooManyLogins => "Too many login attempts. Please try again later."
    case ServerTrouble => "Server error. Please try again later."
    case Passed(text) => text
  }

  /** The fallback when the error carries no text. */
  const LoginFailed := "Login failed. Please try again."

  /** The keywords that the `catch` reads as a refused password. */
  predicate NamesBadCredentials(lower: string) {
    || Contains(lower, "invalid")
    || Contains(lower, "incorrect")
    || Contains(lower, "wrong")
    || Contains(lower, "unauthorized")
    || Contains(lower, "authentication failed")
    || Contains(lower, "login failed")
  }

  /** The `catch` of `handleLogin`: a message of its own, or the error's text, which is then never empty. */
  function LoginErrorMessage(e: HttpError): (n: LoginNotice)
    ensures n.Passed? ==> n.text == BaseMessage(e, LoginFailed) && n.text != ""
    ensures StatusIs(e, 401) ==> n == IncorrectPassword
  {
    var base := BaseMessage(e, LoginFailed);
    var lower := ToLower(base);
    if StatusIs(e, 401) || NamesBadCredentials(lower) then IncorrectPassword
    else if StatusIs(e, 404) || Contains(lower, "user not found") then NoAccount
    else if StatusIs(e, 429) then TooManyLogins
    else if ServerStatus(e) then ServerTrouble
    else Passed(base)
  }

  /** A 401, or a message naming bad credentials, shows "Incorrect password" whatever else holds, a 404 included; nothing else does. */
  lemma BadCredentialsFirst(e: HttpError)
    ensures StatusIs(e, 401) || NamesBadCredentials(ToLower(BaseMessage(e, LoginFailed))) <==>
      LoginErrorMessage(e) == IncorrectPassword
  {
  }

  /** Without those, a 404 or a message saying "user not found" shows the no-account message; then 429 and any status from 500 have their own messages, and anything else shows the message from the response or the transport, which is never empty. */
  lemma LoginOtherMessage(e: HttpError)
    requires !StatusIs(e, 401) && !NamesBadCredentials(ToLower(BaseMessage(e, LoginFailed)))
    ensures var lower := ToLower(BaseMessage(e, LoginFailed));
      && (StatusIs(e, 404) || Contains(lower, "user not found") <==> LoginErrorMessage(e) == NoAccount)
      && (!StatusIs(e, 404) && !Contains(lower, "user not found") && StatusIs(e, 429) <==> LoginErrorMessage(e) == TooManyLogins)
      && (!StatusIs(e, 404) && !Contains(lower, "user not found") && !StatusIs(e, 429) && ServerStatus(e) <==>
            LoginErrorMessage(e) == ServerTrouble)
      && (!StatusIs(e, 404) && !Contains(lower, "user not found") && !StatusIs(e, 429) && !ServerStatus(e) <==>
            LoginErrorMessage(e) == Passed(BaseMessage(e, LoginFailed)))
      && (LoginErrorMessage(e).Passed? ==> LoginErrorMessage(e).text != "")
  {
  }

  /** A string whose first characters lower-case to `p` contains `p` once lower-cased. */
  lemma LowerPrefixContains(s: string, p: string)
    requires |p| <= |s| && forall i :: 0 <= i < |p| ==> LowerChar(s[i]) == p[i]
    ensures Contains(ToLower(s), p)
  {
    ToLowerAt(s);
    assert ToLower(s)[..|p|] == p;
    ContainsAt(ToLower(s), p, 0);
  }

  /** "login failed" is where the fallback message starts, once lower-cased. */
  lemma FallbackNamesLoginFailed()
    ensures NamesBadCredentials(ToLower(LoginFailed))
  {
    LowerPrefixContains(LoginFailed, "login failed");
  }

  /** A failure that carries no text falls back to "Login failed", which itself names bad credentials: it shows as an incorrect password, whatever its status. */
  lemma SilentFailureShowsIncorrectPassword(e: HttpError)
    requires !Truthy(e.dataMessage) && !Truthy(e.dataError) && !Truthy(e.message)
    ensures LoginErrorMessage(e) == IncorrectPassword
  {
    assert BaseMessage(e, LoginFailed) == LoginFailed;
    FallbackNamesLoginFailed();
  }

  /** No 'i' and no 'w' in either case: every bad-credentials keyword needs one of them. */
  predicate NoKeywordLetter(s: string) {
    forall i | 0 <= i < |s| :: s[i] != 'i' && s[i] != 'I' && s[i] != 'w' && s[i] != 'W'
  }

  /** A 404 whose message has none of those letters shows the no-account message. */
  lemma NotFoundWithoutKeywords(e: HttpError)
    requires StatusIs(e, 404) && NoKeywordLetter(BaseMessage(e, LoginFailed))
    ensures LoginErrorMessage(e) == NoAccount
  {
    var message := BaseMessage(e, LoginFailed);
    var lower := ToLower(message);
    assert 'i' !in message && 'I' !in message && 'w' !in message && 'W' !in message;
    NotInToLower(message, 'i');
    NotInToLower(message, 'w');
    if Contains(lower, "invalid") { ContainsHasChars(lower, "invalid", 'i'); }
    if Contains(lower, "incorrect") { ContainsHasChars(lower, "incorrect", 'i'); }
    if Contains(lower, "wrong") { ContainsHasChars(lower, "wrong", 'w'); }
    if Contains(lower, "unauthorized") { ContainsHasChars(lower, "unauthorized", 'i'); }
    if Contains(lower, "authentication failed") { ContainsHasChars(lower, "authentication failed", 'i'); }
    if Contains(lower, "login failed") { ContainsHasChars(lower, "login failed", 'i'); }
  }

  /** The backend's "Use not found" has none of those letters. */
  lemma NotFoundLetters()
    ensures NoKeywordLetter(LoginNotFoundMessage)
  {
  }

  /** The backend's 404 for an unknown email is shown as the no-account message. */
  lemma BackendNotFoundMessage(e: HttpError)
    requires e == FromApiError(ApiError(404, LoginNotFoundMessage))
    ensures LoginErrorMessage(e) == NoAccount
  {
    NotFoundLetters();
    assert BaseMessage(e, LoginFailed) == LoginNotFoundMessage;
    NotFoundWithoutKeywords(e);
  }

  /** The backend's 401 for a wrong password is shown as "Incorrect password". */
  lemma BackendWrongPasswordMessage(e: HttpError)
    requires e == FromApiError(ApiError(401, IncorrectPasswordMessage))
    ensures LoginErrorMessage(e) == IncorrectPassword
  {
  }
}
