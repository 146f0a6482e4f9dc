/**
 * The registration page's own checks before it sends the account details:
 * the two password fields must agree and the password must be at least six
 * characters long, where "characters" are JavaScript string units.
 */
module Registration {
  import opened Wrappers
  import opened JsText

  /** The four inputs of the page. */
  datatype RegisterForm = RegisterForm(name: string, email: string, password: string, confirmPassword: string)

  /** What is sent to the account service. */
  datatype Credentials = Credentials(name: string, email: string, password: string)

  datatype RegisterError = PasswordsDiffer | PasswordTooShort

  const MinPasswordLength: nat := 6

  /** The message the page shows for each error. */
  function Message(e: RegisterError): (r: string)
    ensures e == PasswordsDiffer ==> r == "Passwords do not match"
    ensures e == PasswordTooShort ==> r == "Password must be at least 6 characters long"
  {
    match e
    case PasswordsDiffer => "Passwords do not match"
    case PasswordTooShort => "Password must be at least 6 characters long"
  }

  /**
   * The submit handler: a mismatch is reported first, then a short password;
   * otherwise the name, email and password go out and the confirmation
   * stays behind.
   */
  function Check(f: RegisterForm): (r: Result<Credentials, RegisterError>)
    ensures r == Failure(PasswordsDiffer) <==> f.password != f.confirmPassword
    ensures r == Failure(PasswordTooShort) <==>
              f.password == f.confirmPassword && Utf16Length(f.password) < MinPasswordLength
    ensures r.Success? <==> f.password == f.confirmPassword && Utf16Length(f.password) >= MinPasswordLength
    ensures r.Success? ==> r.value == Credentials(f.name, f.email, f.password)
  {
    if f.password != f.confirmPassword then Failure(PasswordsDiffer)
    else if Utf16Length(f.password) < MinPasswordLength then Failure(PasswordTooShort)
    else Success(Credentials(f.name, f.email, f.password))
  }

  /** Six or more code points always pass the length check, whatever they are. */
  lemma LongPasswordsPass(f: RegisterForm)
    requires f.password == f.confirmPassword && |f.password| >= MinPasswordLength
    ensures Check(f).Success?
  {
  }

  /** For text inside the Basic Multilingual Plane the length check counts code points. */
  lemma BmpLengthIsCodePoints(f: RegisterForm)
    requires f.password == f.confirmPassword
    requires forall k :: 0 <= k < |f.password| ==> f.password[k] as int <= 0xFFFF
    ensures Check(f).Success? <==> |f.password| >= MinPasswordLength
  {
  }

  /** Three characters outside the Basic Multilingual Plane are six units and pass. */
  lemma AstralPasswordPasses()
    ensures var p := "\U{1F600}\U{1F601}\U{1F602}";
            |p| == 3 && Check(RegisterForm("Ann", "ann@example.com", p, p)).Success?
  {
    var p := "\U{1F600}\U{1F601}\U{1F602}";
    assert p[1..][1..][1..] == [];
    assert Utf16Length(p) == 6;
  }
}
