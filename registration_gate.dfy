/** The dialog's result converter: what the submit button hands on, and the
    password checks that apply only while registering. */
module RegistrationGate {
  import opened Collaborators

  const StrongLabel := "Strong password"
  const MediumLabel := "Medium password"

  /** The strength labels registration accepts. */
  predicate StrongEnough(strength: string)
  {
    strength == StrongLabel || strength == MediumLabel
  }

  /** What the dialog yields: the (username, password) pair, an error dialog
      and no pair, or no pair because another button closed it. */
  datatype Submission = Submitted(username: string, password: string) | Rejected(alert: Alert) | Dismissed

  /** The result converter for a dialog in login mode (`login`) or register
      mode, when the submit button was (`submitPressed`) or was not pressed. */
  function ConvertResult(c: Crypto, submitPressed: bool, login: bool, username: string, password: string): (r: Submission)
    ensures !submitPressed ==> r == Dismissed
    ensures r.Submitted? ==> r.username == username && r.password == password
    ensures r.Submitted? <==> submitPressed && (login || (password != "" && StrongEnough(c.passwordComplexity(password))))
    ensures submitPressed && login ==> r == Submitted(username, password)
    ensures submitPressed && !login && password == "" ==> r == Rejected(EmptyPasswordAlert)
    ensures submitPressed && !login && password != "" && !StrongEnough(c.passwordComplexity(password)) ==> r == Rejected(WeakPasswordAlert)
  {
    if !submitPressed then Dismissed
    else
      var strength := c.passwordComplexity(password);
      if password == "" && !login then Rejected(EmptyPasswordAlert)
      else if !StrongEnough(strength) && !login then Rejected(WeakPasswordAlert)
      else Submitted(username, password)
  }

  /** The empty-password check comes first: whatever label the checker gives
      the empty string, registering with it shows the empty-password error,
      never the strength error. A corollary of the contract of `ConvertResult`,
      stated on its own. */
  lemma EmptyCheckedBeforeStrength(c: Crypto, username: string)
    ensures ConvertResult(c, true, false, username, "") == Rejected(EmptyPasswordAlert)
    ensures ConvertResult(c, true, false, username, "") != Rejected(WeakPasswordAlert)
  {
  }

  /** Login mode never consults the checker: two checkers disagreeing on
      every label let the same submissions through. A corollary of the
      contract of `ConvertResult`, stated on its own. */
  lemma LoginIgnoresStrength(c: Crypto, c': Crypto, username: string, password: string)
    ensures ConvertResult(c, true, true, username, password) == ConvertResult(c', true, true, username, password)
  {
  }
}
