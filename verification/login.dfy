/** The login screen's edit-mode button (and the Enter key, which runs the
    same handler): a blank password is refused on the spot; otherwise the
    password is handed to the verifier, whose answer is a parameter. */
module LoginScreen {
  import opened Wrappers
  import Text
  import Auth

  /** The screen's state: the password box, the error line and the busy flag. */
  datatype Screen = Screen(password: string, error: string, loading: bool)

  /** What pressing the button did: the screen afterwards and the password
      passed to the verifier, if it was called. */
  datatype Attempt = Attempt(screen: Screen, verified: Option<string>)

  /** `handleEditMode`: `answer` is the verifier's answer, `Failure` when it
      throws. */
  function HandleEditMode(s: Screen, answer: Result<bool, string>): (r: Attempt)
    ensures r.verified.None? <==> Text.IsBlank(s.password)
    ensures r.verified.None? ==> r.screen == s.(error := "Please enter a password")
    ensures r.verified.Some? ==> r.verified.value == s.password
    ensures r.verified.Some? && answer == Success(true) ==> r.screen == Screen(s.password, "", false)
    ensures r.verified.Some? && answer == Success(false) ==> r.screen == Screen("", "Invalid password. Please try again.", false)
    ensures r.verified.Some? && answer.Failure? ==> r.screen == Screen(s.password, "An error occurred. Please try again.", false)
  {
    Text.TrimEmptyIffBlank(s.password);
    if Text.Trim(s.password) == "" then Attempt(s.(error := "Please enter a password"), None)
    else
      var after := match answer
        case Success(true) => Screen(s.password, "", false)
        case Success(false) => Screen("", "Invalid password. Please try again.", false)
        case Failure(_) => Screen(s.password, "An error occurred. Please try again.", false)
      ;
      Attempt(after, Some(s.password))
  }

  /** `handleKeyPress`: Enter presses the button; other keys do nothing. */
  function HandleKeyPress(s: Screen, isEnter: bool, answer: Result<bool, string>): (r: Attempt)
    ensures isEnter ==> r == HandleEditMode(s, answer)
    ensures !isEnter ==> r == Attempt(s, None)
  {
    if isEnter then HandleEditMode(s, answer) else Attempt(s, None)
  }

  /** Wired to the auth hook, the button opens edit mode exactly when the
      typed password is not blank and equals the stored one; a wrong password
      is cleared from the box. The verifier never throws, since the hook
      answers `false` on every failure. */
  lemma LoginWithHook(auth: Auth.State, s: Screen, readable: bool)
    requires !Text.IsBlank(s.password)
    ensures var answer := Success(Auth.VerifyPassword(auth, s.password, readable).1);
      var r := HandleEditMode(s, answer);
      (Auth.VerifyPassword(auth, s.password, readable).0.mode == Auth.Edit <==>
         auth.mode == Auth.Edit || (readable && auth.stored == Some(s.password)))
      && (r.screen.password == "" <==> !(readable && auth.stored == Some(s.password)))
  {
  }
}
