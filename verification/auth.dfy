/** The access-mode hook: no mode until the user picks one, view mode on
    request, edit mode only after the master password is verified; the
    password can be changed on proof of the current one. The stored password
    is one opaque string held by the remote store; whether the store can be
    reached, and whether a write succeeds, are parameters. */
module Auth {
  import opened Wrappers

  datatype Mode = Unset | View | Edit

  /** The session's mode and the store's password (`None` when the store
      holds no password row). */
  datatype State = State(mode: Mode, stored: Option<string>)

  /** The mode a session starts in. */
  function Initial(stored: Option<string>): (s: State)
    ensures s.mode == Unset && s.stored == stored
  {
    State(Unset, stored)
  }

  /** `verifyPassword`: `true`, and edit mode, exactly when the store can be
      read and holds exactly `password`; otherwise `false` and the mode stays. */
  function VerifyPassword(s: State, password: string, readable: bool): (r: (State, bool))
    ensures r.1 <==> readable && s.stored == Some(password)
    ensures r.1 ==> r.0 == s.(mode := Edit)
    ensures !r.1 ==> r.0 == s
  {
    if !readable then (s, false)
    else match s.stored
      case None => (s, false)
      case Some(p) => if p == password then (s.(mode := Edit), true) else (s, false)
  }

  /** `changePassword`: when the store can be read and holds `current`, and
      the write succeeds, the stored password becomes `next` and the answer is
      `true`; in every other case nothing is written and the answer is
      `false`. The mode never changes. */
  function ChangePassword(s: State, current: string, next: string, readable: bool, write: Outcome<string>): (r: (State, bool))
    ensures r.0.mode == s.mode
    ensures r.1 <==> readable && s.stored == Some(current) && write.Pass?
    ensures r.1 ==> r.0.stored == Some(next)
    ensures !r.1 ==> r.0 == s
  {
    if !readable || s.stored != Some(current) then (s, false)
    else match write
      case Fail(_) => (s, false)
      case Pass => (s.(stored := Some(next)), true)
  }

  /** `logout`: back to no mode from any mode. */
  function Logout(s: State): (r: State)
    ensures r.mode == Unset && r.stored == s.stored
  {
    s.(mode := Unset)
  }

  /** After a change the new password opens edit mode and the old one no
      longer does. */
  lemma ChangeThenVerify(s: State, current: string, next: string, write: Outcome<string>)
    requires ChangePassword(s, current, next, true, write).1
    requires current != next
    ensures VerifyPassword(ChangePassword(s, current, next, true, write).0, next, true).1
    ensures !VerifyPassword(ChangePassword(s, current, next, true, write).0, current, true).1
  {
  }

  /** A password that fails to verify leaves the session where it was, so
      retrying cannot lose a mode already held. */
  lemma FailedVerifyKeepsMode(s: State, password: string, readable: bool)
    requires !VerifyPassword(s, password, readable).1
    ensures VerifyPassword(s, password, readable).0.mode == s.mode
  {
  }

  /** Logging out after verifying returns to the start, the password kept. */
  lemma VerifyThenLogout(stored: Option<string>, password: string, readable: bool)
    ensures Logout(VerifyPassword(Initial(stored), password, readable).0) == Initial(stored)
  {
  }
}
