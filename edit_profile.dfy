/**
 * The profile form: the check of its three fields, the cleaning of the
 * mobile number and the email before the request, and what the backend
 * makes of the body.
 */
module EditProfileForm {
  import opened Wrappers
  import opened Text
  import opened Patterns
  import opened UserModel
  import opened UserControllers
  import AccountProperties

  /** The messages `validateForm` can set. */
  datatype ProfileMessage = AllRequired | EmailMalformed | MobileMalformed

  function ProfileText(m: ProfileMessage): string {
    match m
    case AllRequired => "All fields are required."
    case EmailMalformed => "Please enter a valid email address."
    case MobileMalformed => "Mobile number must be 10 digits."
  }

  /** `validateForm` as a function of the three fields: emptiness is judged without trimming, and both patterns are anchored. */
  function EditProfileError(email: string, mobileNumber: string, fullName: string): (r: Option<ProfileMessage>)
    ensures r.None? ==> fullName != "" && IsWholeEmail(email) && IsTenDigits(mobileNumber)
    ensures r == Some(AllRequired) <==> email == "" || mobileNumber == "" || fullName == ""
  {
    if email == "" || mobileNumber == "" || fullName == "" then Some(AllRequired)
    else if !IsWholeEmail(email) then Some(EmailMalformed)
    else if !IsTenDigits(mobileNumber) then Some(MobileMalformed)
    else None
  }

  /** The form is accepted exactly when the full name is not empty, the whole email matches `^\S+@\S+\.\S+$` and the mobile number is exactly ten digits; such an email has no white space at all. */
  lemma EditProfileAccepted(email: string, mobileNumber: string, fullName: string)
    ensures EditProfileError(email, mobileNumber, fullName).None? <==>
      fullName != "" && IsWholeEmail(email) && IsTenDigits(mobileNumber)
    ensures EditProfileError(email, mobileNumber, fullName).None? ==> NoSpace(email)
  {
  }

  /** Only the first failure is reported: an empty field hides a malformed one, and a malformed email hides a malformed number. */
  lemma EditProfileOrder(email: string, mobileNumber: string, fullName: string)
    ensures EditProfileError(email, mobileNumber, fullName) == Some(AllRequired) <==>
      email == "" || mobileNumber == "" || fullName == ""
    ensures EditProfileError(email, mobileNumber, fullName) == Some(EmailMalformed) <==>
      email != "" && mobileNumber != "" && fullName != "" && !IsWholeEmail(email)
    ensures EditProfileError(email, mobileNumber, fullName) == Some(MobileMalformed) <==>
      mobileNumber != "" && fullName != "" && IsWholeEmail(email) && !IsTenDigits(mobileNumber)
  {
  }

  /** `mobileNumber.replace(/\D/g, '').slice(-10)`: at most ten characters, all digits, the last ones of the number. */
  function CleanMobile(mobileNumber: string): (r: string)
    ensures |r| <= 10
    ensures forall i :: 0 <= i < |r| ==> IsDigit(r[i])
  {
    Last(DigitsOnly(mobileNumber), 10)
  }

  /** On a number the form accepted, the cleaning changes nothing. */
  lemma CleanAcceptedMobile(mobileNumber: string)
    requires IsTenDigits(mobileNumber)
    ensures CleanMobile(mobileNumber) == mobileNumber
  {
    assert DigitsOnly(mobileNumber) == mobileNumber;
  }

  /** The body `handleSubmit` posts: the email trimmed and lower-cased, the cleaned number, the full name trimmed. */
  function ProfileRequest(email: string, mobileNumber: string, fullName: string): (body: ProfileBody)
    ensures body.email.Some? && body.fullName.Some? && body.mobileNumber.Some?
    ensures Trimmed(body.fullName.value)
    ensures |body.mobileNumber.value| <= 10 && forall i :: 0 <= i < |body.mobileNumber.value| ==> IsDigit(body.mobileNumber.value[i])
  {
    TrimIsTrimmed(fullName);
    ProfileBody(Some(ToLower(Trim(email))), Some(Trim(fullName)), Some(CleanMobile(mobileNumber)))
  }

  /** Lower-casing keeps white space where it is, so a string without any stays without. */
  lemma NoSpaceToLower(s: string)
    requires NoSpace(s)
    ensures NoSpace(ToLower(s))
  {
    ToLowerAt(s);
    forall i | 0 <= i < |s| ensures !IsSpace(ToLower(s)[i]) {
      LowerCharSpace(s[i]);
    }
  }

  /** For an accepted form the trim of the email does nothing: the body carries the email lower-cased, without white space, and the number exactly as typed. */
  lemma AcceptedProfileRequest(email: string, mobileNumber: string, fullName: string)
    requires EditProfileError(email, mobileNumber, fullName).None?
    ensures var body := ProfileRequest(email, mobileNumber, fullName);
      && body.email == Some(ToLower(email)) && NoSpace(ToLower(email)) && Trim(ToLower(email)) == ToLower(email)
      && body.mobileNumber == Some(mobileNumber) && Given(body.email) && Given(body.mobileNumber)
  {
    WholeEmailHasShape(email);
    CleanAcceptedMobile(mobileNumber);
    NoSpaceToLower(email);
    TrimNoSpace(ToLower(email));
  }

  /** A full name of only white space passes the form, which does not trim before its check, but is sent trimmed, as an empty string: the backend answers 400, with the guard as written as well as with the corrected one. */
  lemma BlankNameRefusedByBackend(db: Db, caller: Option<Id>, email: string, mobileNumber: string, fullName: string)
    requires EditProfileError(email, mobileNumber, fullName).None? && AllSpace(fullName)
    ensures UpdateProfile(db, caller, ProfileRequest(email, mobileNumber, fullName)) == Step(db, Err(ApiError(400, ProfileFieldsMessage)))
    ensures UpdateProfileAsWritten(db, caller, ProfileRequest(email, mobileNumber, fullName)) == Step(db, Err(ApiError(400, ProfileFieldsMessage)))
  {
    TrimEmptyIff(fullName);
  }

  /** Any other accepted form gets past the backend's check, and the record it updates holds the email lower-cased, the number as typed and the full name trimmed. */
  lemma AcceptedProfileStored(db: Db, caller: Id, email: string, mobileNumber: string, fullName: string)
    requires EditProfileError(email, mobileNumber, fullName).None? && !AllSpace(fullName)
    requires caller in db.users
    requires UpdateProfile(db, Some(caller), ProfileRequest(email, mobileNumber, fullName)).out.Ok?
    ensures !ProfileRejected(ProfileRequest(email, mobileNumber, fullName))
    ensures var u := UpdateProfile(db, Some(caller), ProfileRequest(email, mobileNumber, fullName)).db.users[caller];
      && u.email == ToLower(email) && u.mobileNumber == mobileNumber && u.fullName == Trim(fullName)
      && u.username == db.users[caller].username && u.password == db.users[caller].password
  {
    AcceptedProfileRequest(email, mobileNumber, fullName);
    TrimEmptyIff(fullName);
    TrimIdempotent(fullName);
    AccountProperties.UpdateProfileEffect(db, Some(caller), ProfileRequest(email, mobileNumber, fullName));
  }
}
