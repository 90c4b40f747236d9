/** The registration form: its validation chain, the call it makes and how
    a failed call is reported. */
module Register {
  import opened Wrappers
  import opened Text

  const UsernameRequired: string := "Username is required"
  const EmailRequired: string := "Email is required"
  const PasswordRequired: string := "Password is required"
  const PasswordsDiffer: string := "Passwords do not match"
  const PasswordTooShort: string := "Password must be at least 6 characters long"
  const MinPasswordLength: nat := 6

  const CheckInputs: string := "Please check your input fields. Make sure all required fields are filled correctly."
  const UsernameExists: string := "Username already exists"
  const RegistrationFailed: string := "Registration failed. Please try again."

  /** A field is blank when nothing is left after trimming. */
  predicate Blank(s: string) {
    Trim(s) == ""
  }

  /** The checks that `submit` runs, in order; the first failure is the
      message shown, `None` means the form is accepted. */
  function Validate(username: string, email: string, password: string, confirm: string): (r: Option<string>)
    ensures r.None? <==>
      !Blank(username) && !Blank(email) && !Blank(password) && password == confirm && |password| >= MinPasswordLength
    ensures r.Some? ==>
      r.value in {UsernameRequired, EmailRequired, PasswordRequired, PasswordsDiffer, PasswordTooShort}
  {
    if Blank(username) then Some(UsernameRequired)
    else if Blank(email) then Some(EmailRequired)
    else if Blank(password) then Some(PasswordRequired)
    else if password != confirm then Some(PasswordsDiffer)
    else if |password| < MinPasswordLength then Some(PasswordTooShort)
    else None
  }

  /** Each message is reported exactly when its check fails and every
      earlier check passes. */
  lemma FirstFailureWins(username: string, email: string, password: string, confirm: string)
    ensures Validate(username, email, password, confirm) == Some(UsernameRequired) <==> Blank(username)
    ensures Validate(username, email, password, confirm) == Some(EmailRequired) <==>
      !Blank(username) && Blank(email)
    ensures Validate(username, email, password, confirm) == Some(PasswordRequired) <==>
      !Blank(username) && !Blank(email) && Blank(password)
    ensures Validate(username, email, password, confirm) == Some(PasswordsDiffer) <==>
      !Blank(username) && !Blank(email) && !Blank(password) && password != confirm
    ensures Validate(username, email, password, confirm) == Some(PasswordTooShort) <==>
      !Blank(username) && !Blank(email) && !Blank(password) && password == confirm && |password| < MinPasswordLength
  {
  }

  /** A password of spaces only is reported as missing, however long. */
  lemma WhitespacePasswordIsRequired(username: string, email: string, password: string)
    requires !Blank(username) && !Blank(email)
    requires forall i :: 0 <= i < |password| ==> IsSpace(password[i])
    ensures Validate(username, email, password, password) == Some(PasswordRequired)
  {
    TrimEmptyIffBlank(password);
  }

  /** The mismatch is reported before the length. */
  lemma ShortMismatchReportsMismatch(username: string, email: string, password: string, confirm: string)
    requires !Blank(username) && !Blank(email) && !Blank(password)
    requires password != confirm && |password| < MinPasswordLength
    ensures Validate(username, email, password, confirm) == Some(PasswordsDiffer)
  {
  }

  /** The length counts the untrimmed password: six characters are enough
      even with surrounding spaces, five are not. */
  lemma LengthBoundary()
    ensures Validate("ann", "a@b.c", " abcd ", " abcd ") == None
    ensures Validate("ann", "a@b.c", "abcde", "abcde") == Some(PasswordTooShort)
  {
    assert !IsSpace('a') && !IsSpace('n');
    TrimEmptyIffBlank("ann");
    TrimEmptyIffBlank("a@b.c");
    TrimEmptyIffBlank(" abcd ");
    TrimEmptyIffBlank("abcde");
    assert " abcd "[1] == 'a';
  }

  /** What a rejected `register` call carries: the HTTP status and detail of
      the response when there is one, and the error's own message. */
  datatype Failure = Failure(status: Option<int>, detail: string, message: string)

  /** The error mapping of the `catch` block; an empty string is falsy. */
  function ErrorMessage(f: Failure): (m: string)
    ensures m != ""
    ensures f.status == Some(422) ==> m == CheckInputs
    ensures f.status == Some(400) ==> m == (if f.detail != "" then f.detail else UsernameExists)
    ensures f.status != Some(422) && f.status != Some(400) ==>
      m == (if f.detail != "" then f.detail else if f.message != "" then f.message else RegistrationFailed)
  {
    if f.status == Some(422) then CheckInputs
    else if f.status == Some(400) then (if f.detail != "" then f.detail else UsernameExists)
    else if f.detail != "" then f.detail
    else if f.message != "" then f.message
    else RegistrationFailed
  }

  /** A server detail is shown as is unless the status is 422; the
      fallbacks are used only when there is no detail. */
  lemma DetailShownUnless422(f: Failure)
    ensures f.status != Some(422) && f.detail != "" ==> ErrorMessage(f) == f.detail
    ensures f.status == Some(422) ==> ErrorMessage(f) == CheckInputs
    ensures ErrorMessage(f) in {CheckInputs, UsernameExists, RegistrationFailed, f.detail, f.message}
  {
  }

  /** The state after `submit`: whether `register` was called, the error
      shown and whether the page moved to the login page. */
  datatype Submitted = Submitted(called: bool, error: string, toLogin: bool)

  /** `submit`; `response` is what `register` does when it is called:
      `None` for success, a failure otherwise. */
  function Submit(username: string, email: string, password: string, confirm: string,
                  response: Option<Failure>): (r: Submitted)
    ensures r.called <==> Validate(username, email, password, confirm).None?
    ensures r.toLogin <==> r.called && response.None?
    ensures r.error == "" <==> r.toLogin
    ensures !r.called ==> Some(r.error) == Validate(username, email, password, confirm)
    ensures r.called && response.Some? ==> r.error == ErrorMessage(response.value)
  {
    match Validate(username, email, password, confirm)
    case Some(msg) => Submitted(false, msg, false)
    case None =>
      match response
      case None => Submitted(true, "", true)
      case Some(f) => Submitted(true, ErrorMessage(f), false)
  }
}
