/** The change-password dialog: five checks in a fixed order, of which only
    the first failing one is reported, then the call to the auth hook, whose
    answer is a parameter. The delayed clean-up after a success is not part
    of this model. */
module ChangePasswordDialog {
  import opened Wrappers
  import Text
  import Auth

  datatype Dialog = Dialog(current: string, next: string, confirm: string, error: string, success: string, submitting: bool)

  /** The first check that fails, in the order the dialog runs them. */
  function FirstFailure(current: string, next: string, confirm: string): (r: Option<string>)
    ensures Text.IsBlank(current) ==> r == Some("Please enter your current password")
    ensures !Text.IsBlank(current) && Text.IsBlank(next) ==> r == Some("Please enter a new password")
    ensures !Text.IsBlank(current) && !Text.IsBlank(next) && |next| < 4 ==>
      r == Some("New password must be at least 4 characters long")
    ensures !Text.IsBlank(current) && !Text.IsBlank(next) && |next| >= 4 && next != confirm ==>
      r == Some("Passwords do not match")
    ensures !Text.IsBlank(current) && !Text.IsBlank(next) && |next| >= 4 && next == confirm && current == next ==>
      r == Some("New password must be different from current password")
    ensures r.None? <==> !Text.IsBlank(current) && !Text.IsBlank(next) && |next| >= 4 && next == confirm && current != next
  {
    Text.TrimEmptyIffBlank(current);
    Text.TrimEmptyIffBlank(next);
    if Text.Trim(current) == "" then Some("Please enter your current password")
    else if Text.Trim(next) == "" then Some("Please enter a new password")
    else if |next| < 4 then Some("New password must be at least 4 characters long")
    else if next != confirm then Some("Passwords do not match")
    else if current == next then Some("New password must be different from current password")
    else None
  }

  /** What pressing submit did: the dialog afterwards and the pair handed to
      `onChangePassword`, if it was called. */
  datatype Submitted = Submitted(dialog: Dialog, called: Option<(string, string)>)

  /** The branches of `handleSubmit` once the checks gave `failure`. */
  function Respond(d: Dialog, failure: Option<string>, answer: Result<bool, string>): (r: Submitted)
    ensures r.called.Some? <==> failure.None?
    ensures r.called.Some? ==> r.called.value == (d.current, d.next)
    ensures (r.dialog.current, r.dialog.next, r.dialog.confirm) == (d.current, d.next, d.confirm)
    ensures r.called.None? ==>
      (r.dialog.error == failure.value && r.dialog.success == "" && r.dialog.submitting == d.submitting)
    ensures r.called.Some? ==> !r.dialog.submitting
    ensures r.called.Some? && answer == Success(true) ==>
      r.dialog.success == "Password changed successfully!" && r.dialog.error == ""
    ensures r.called.Some? && answer == Success(false) ==>
      r.dialog.error == "Failed to change password. Please check your current password." && r.dialog.success == ""
    ensures r.called.Some? && answer.Failure? ==>
      r.dialog.error == "An error occurred while changing password. Please try again." && r.dialog.success == ""
  {
    match failure
    case Some(message) => Submitted(d.(error := message, success := ""), None)
    case None =>
      var after := match answer
        case Success(true) => d.(error := "", success := "Password changed successfully!", submitting := false)
        case Success(false) =>
          d.(error := "Failed to change password. Please check your current password.", success := "", submitting := false)
        case Failure(_) =>
          d.(error := "An error occurred while changing password. Please try again.", success := "", submitting := false)
      ;
      Submitted(after, Some((d.current, d.next)))
  }

  /** `handleSubmit`: `answer` is the callback's answer, `Failure` when it
      throws. The fields are never cleared here. */
  function Submit(d: Dialog, answer: Result<bool, string>): (r: Submitted)
    ensures r.called.Some? <==> FirstFailure(d.current, d.next, d.confirm).None?
    ensures r.called.Some? ==> r.called.value == (d.current, d.next)
    ensures (r.dialog.current, r.dialog.next, r.dialog.confirm) == (d.current, d.next, d.confirm)
    ensures r.called.None? ==>
      (r.dialog.error == FirstFailure(d.current, d.next, d.confirm).value
       && r.dialog.success == "" && r.dialog.submitting == d.submitting)
    ensures r.called.Some? ==> !r.dialog.submitting
    ensures r.called.Some? && answer == Success(true) ==>
      r.dialog.success == "Password changed successfully!" && r.dialog.error == ""
    ensures r.called.Some? && answer == Success(false) ==>
      r.dialog.error == "Failed to change password. Please check your current password." && r.dialog.success == ""
    ensures r.called.Some? && answer.Failure? ==>
      r.dialog.error == "An error occurred while changing password. Please try again." && r.dialog.success == ""
  {
    Respond(d, FirstFailure(d.current, d.next, d.confirm), answer)
  }

  /** `handleClose`: every field and message cleared. */
  function Close(d: Dialog): (r: Dialog)
    ensures r.current == "" && r.next == "" && r.confirm == ""
    ensures r.error == "" && r.success == ""
    ensures r.submitting == d.submitting
  {
    Dialog("", "", "", "", "", d.submitting)
  }

  /** Wired to the auth hook, a change the dialog reports as successful
      always replaces the stored password by a different one, which then
      opens edit mode while the old one no longer does. */
  lemma DialogWithHook(auth: Auth.State, d: Dialog, write: Outcome<string>)
    requires FirstFailure(d.current, d.next, d.confirm).None?
    requires Auth.ChangePassword(auth, d.current, d.next, true, write).1
    ensures Submit(d, Success(true)).dialog.success == "Password changed successfully!"
    ensures Auth.ChangePassword(auth, d.current, d.next, true, write).0.stored != auth.stored
    ensures Auth.VerifyPassword(Auth.ChangePassword(auth, d.current, d.next, true, write).0, d.next, true).1
    ensures !Auth.VerifyPassword(Auth.ChangePassword(auth, d.current, d.next, true, write).0, d.current, true).1
  {
    Auth.ChangeThenVerify(auth, d.current, d.next, write);
  }
}
