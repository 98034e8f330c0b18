/**
 * The password-change form: the check of its three fields, the body it
 * posts, and what its state becomes when the request succeeds or fails.
 */
module PasswordChangeForm {
  import opened Wrappers
  import opened Encoding
  import opened Crypto
  import opened UserModel
  import opened ClientErrors
  import opened UserControllers
  import AccountProperties

  /** The messages `validateForm` can set. */
  datatype ChangeMessage = AllRequired | SamePassword | NewTooShort | ConfirmMismatch

  function ChangeText(m: ChangeMessage): string {
    match m
    case AllRequired => "All fields are required."
    case SamePassword => "Please provide new password!"
    case NewTooShort => "New password must be at least 6 characters long."
    case ConfirmMismatch => "New password and confirm password do not match."
  }

  /** The minimum length `validateForm` enforces (its message says 6). */
  const MinNewLength := 8

  /**
   * `validateForm` as a function of the three fields: the first failing
   * check, or `None` when it returns true. The length is JavaScript's
   * `length`, in UTF-16 code units.
   */
  function PasswordChangeError(oldPassword: string, newPassword: string, confirmPassword: string): (r: Option<ChangeMessage>)
    ensures r.None? ==> oldPassword != "" && newPassword != oldPassword && confirmPassword == newPassword
    ensures r.None? ==> Utf16Length(newPassword) >= MinNewLength
    ensures r == Some(NewTooShort) ==> |newPassword| < MinNewLength
  {
    if oldPassword == "" || newPassword == "" || confirmPassword == "" then Some(AllRequired)
    else if oldPassword == newPassword then Some(SamePassword)
    else if Utf16Length(newPassword) < MinNewLength then Some(NewTooShort)
    else if newPassword != confirmPassword then Some(ConfirmMismatch)
    else None
  }

  /** The form is accepted exactly when the old password is given, the new one differs from it, has at least eight UTF-16 code units, and is confirmed. */
  lemma PasswordChangeAccepted(oldPassword: string, newPassword: string, confirmPassword: string)
    ensures PasswordChangeError(oldPassword, newPassword, confirmPassword).None? <==>
      oldPassword != "" && newPassword != oldPassword && Utf16Length(newPassword) >= 8 && confirmPassword == newPassword
  {
  }

  /** Only the first failure is reported: an empty field hides every other problem, an unchanged password hides the length, and the length hides a mismatch. */
  lemma PasswordChangeOrder(oldPassword: string, newPassword: string, confirmPassword: string)
    ensures PasswordChangeError(oldPassword, newPassword, confirmPassword) == Some(AllRequired) <==>
      oldPassword == "" || newPassword == "" || confirmPassword == ""
    ensures PasswordChangeError(oldPassword, newPassword, confirmPassword) == Some(SamePassword) <==>
      oldPassword != "" && confirmPassword != "" && newPassword == oldPassword
    ensures PasswordChangeError(oldPassword, newPassword, confirmPassword) == Some(NewTooShort) <==>
      oldPassword != "" && confirmPassword != "" && newPassword != "" && newPassword != oldPassword && Utf16Length(newPassword) < 8
    ensures PasswordChangeError(oldPassword, newPassword, confirmPassword) == Some(ConfirmMismatch) <==>
      oldPassword != "" && confirmPassword != "" && newPassword != oldPassword && Utf16Length(newPassword) >= 8 && confirmPassword != newPassword
  {
  }

  /** A seven-character new password is refused as too short, although the message asks for six. */
  lemma SevenCharactersRefused()
    ensures PasswordChangeError("old-secret", "1234567", "1234567") == Some(NewTooShort)
  {
    assert Utf16Length("1234567") == 7;
  }

  /** Four emoji are eight code units: a new password of four characters is long enough. */
  lemma FourEmojiLongEnough()
    ensures PasswordChangeError("old-secret", "\U{1F600}\U{1F601}\U{1F602}\U{1F603}", "\U{1F600}\U{1F601}\U{1F602}\U{1F603}").None?
  {
    assert Utf16Length("\U{1F600}\U{1F601}\U{1F602}\U{1F603}") == 8;
  }

  /** The body `handleSubmit` posts. */
  function ChangeRequest(oldPassword: string, newPassword: string): (body: PasswordBody)
    ensures body.oldPassword == Some(oldPassword) && body.newPassword == Some(newPassword)
  {
    PasswordBody(Some(oldPassword), Some(newPassword))
  }

  /**
   * What the backend does with an accepted form's body: answers 400 when
   * the old password is wrong, and otherwise stores a digest of the new
   * password. The old one then passes only if bcrypt reads the same first
   * 72 bytes from it, which cannot happen when both fit within those bytes.
   */
  lemma AcceptedChangeAtBackend(db: Db, caller: Id, oldPassword: string, newPassword: string, confirmPassword: string)
    requires PasswordChangeError(oldPassword, newPassword, confirmPassword).None?
    requires caller in db.users
    ensures var r := ChangePassword(db, Some(caller), ChangeRequest(oldPassword, newPassword));
      && (!IsCorrectPassword(db.users[caller], oldPassword) <==> r.out == Err(ApiError(400, InvalidOldPasswordMessage)))
      && (IsCorrectPassword(db.users[caller], oldPassword) ==>
            && r.out.Ok?
            && IsCorrectPassword(r.db.users[caller], newPassword)
            && (IsCorrectPassword(r.db.users[caller], oldPassword) <==> BcryptKey(oldPassword) == BcryptKey(newPassword))
            && (WithinKeyLimit(oldPassword) && WithinKeyLimit(newPassword) ==>
                  !IsCorrectPassword(r.db.users[caller], oldPassword)))
  {
    var body := ChangeRequest(oldPassword, newPassword);
    if IsCorrectPassword(db.users[caller], oldPassword) {
      AccountProperties.ChangePasswordSuccess(db, Some(caller), body, oldPassword);
    }
  }

  /**
   * A change the form accepts can leave the old password working: when the
   * two passwords agree on their first 72 characters, bcrypt reads the same
   * key from both.
   */
  lemma {:induction false} SharedPrefixKeepsOldPassword(db: Db, caller: Id, p: string, x: string, y: string)
    requires |p| >= KeyBytes && x != y
    requires caller in db.users && IsCorrectPassword(db.users[caller], p + x)
    ensures PasswordChangeError(p + x, p + y, p + y).None?
    ensures var r := ChangePassword(db, Some(caller), ChangeRequest(p + x, p + y));
      r.out.Ok? && IsCorrectPassword(r.db.users[caller], p + x)
  {
    assert (p + x)[|p|..] == x && (p + y)[|p|..] == y;
    TruncationCollides(p, x, y);
    AcceptedChangeAtBackend(db, caller, p + x, p + y, p + y);
  }

  /** What the form shows in its error line. */
  datatype Notice = Clear | Invalid(reason: ChangeMessage) | Refused(text: string)

  /** The fallback when the response carries no message. */
  const ChangeFailed := "Failed to change password."

  /** The `catch`: `err.response?.data?.message || 'Failed to change password.'`; unlike the other forms it ignores `data.error` and the transport message. */
  function RefusalText(e: HttpError): (r: string)
    ensures r != ""
    ensures Truthy(e.dataMessage) ==> r == e.dataMessage.value
    ensures !Truthy(e.dataMessage) ==> r == ChangeFailed
  {
    if Truthy(e.dataMessage) then e.dataMessage.value else ChangeFailed
  }

  /** The component's state. */
  class PasswordChangeState {
    var oldPassword: string
    var newPassword: string
    var confirmPassword: string
    var error: Notice
    var succeeded: bool

    /** The three `useState('')` fields and no notice. */
    constructor ()
      ensures oldPassword == "" && newPassword == "" && confirmPassword == ""
      ensures error == Clear && !succeeded
    {
      oldPassword := "";
      newPassword := "";
      confirmPassword := "";
      error := Clear;
      succeeded := false;
    }

    /** `validateForm`: records the first failure, or clears the error line, and answers whether the form may be sent. */
    method Validate() returns (ok: bool)
      modifies this
      ensures ok <==> PasswordChangeError(oldPassword, newPassword, confirmPassword).None?
      ensures error == if ok then Clear else Invalid(PasswordChangeError(oldPassword, newPassword, confirmPassword).value)
      ensures oldPassword == old(oldPassword) && newPassword == old(newPassword)
      ensures confirmPassword == old(confirmPassword) && succeeded == old(succeeded)
    {
      if oldPassword == "" || newPassword == "" || confirmPassword == "" {
        error := Invalid(AllRequired);
        return false;
      }
      if oldPassword == newPassword {
        error := Invalid(SamePassword);
        return false;
      }
      if Utf16Length(newPassword) < MinNewLength {
        error := Invalid(NewTooShort);
        return false;
      }
      if newPassword != confirmPassword {
        error := Invalid(ConfirmMismatch);
        return false;
      }
      error := Clear;
      return true;
    }

    /** `handleSubmit` up to the request: nothing is sent unless the form is accepted, and then the old and new passwords as typed. */
    method Submit() returns (request: Option<PasswordBody>)
      modifies this
      ensures request.Some? <==> PasswordChangeError(oldPassword, newPassword, confirmPassword).None?
      ensures request.Some? ==> request.value == ChangeRequest(oldPassword, newPassword) && error == Clear
      ensures request.None? ==> error == Invalid(PasswordChangeError(oldPassword, newPassword, confirmPassword).value)
      ensures oldPassword == old(oldPassword) && newPassword == old(newPassword)
      ensures confirmPassword == old(confirmPassword) && succeeded == old(succeeded)
    {
      var ok := Validate();
      if !ok {
        return None;
      }
      request := Some(ChangeRequest(oldPassword, newPassword));
    }

    /** The success handler: the success message is shown and the three fields are emptied. */
    method OnSuccess()
      modifies this
      ensures succeeded
      ensures oldPassword == "" && newPassword == "" && confirmPassword == ""
      ensures error == old(error)
    {
      succeeded := true;
      oldPassword := "";
      newPassword := "";
      confirmPassword := "";
    }

    /** The failure handler: the refusal is shown and the fields are kept. */
    method OnFailure(e: HttpError)
      modifies this
      ensures error == Refused(RefusalText(e))
      ensures oldPassword == old(oldPassword) && newPassword == old(newPassword)
      ensures confirmPassword == old(confirmPassword) && succeeded == old(succeeded)
    {
      error := Refused(RefusalText(e));
    }
  }

  /** After a success the form refuses to send again until the fields are filled in anew: a second submit sends nothing and asks for every field. */
  method ResubmitAfterSuccess(form: PasswordChangeState) returns (request: Option<PasswordBody>)
    modifies form
    ensures request.None?
    ensures form.error == Invalid(AllRequired) && form.succeeded
    ensures form.oldPassword == "" && form.newPassword == "" && form.confirmPassword == ""
  {
    form.OnSuccess();
    request := form.Submit();
  }
}
