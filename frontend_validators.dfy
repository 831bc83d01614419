/** The browser-side copies of the e-mail, password and username checks, run on
    form input before a request is sent. */
module FrontendValidators {
  import opened Text
  import Validators

  const PasswordTooShort := "Password must be at least 4 characters"

  /** `validateEmail`: the same regular expression as the backend's, so the two
      accept exactly the same strings. */
  function ValidateEmail(email: string): (ok: bool)
    ensures ok == Validators.ValidateEmail(email)
  {
    Validators.ValidateEmailIsPattern(email);
    Validators.MatchesEmailPattern(email)
  }

  /** `validatePassword`: the backend's policy, with a message of its own. */
  method ValidatePassword(password: string) returns (r: Validators.PasswordCheck)
    ensures r.valid <==> |password| >= Validators.MinPasswordLength
    ensures r.errors == if r.valid then [] else [PasswordTooShort]
  {
    var errors: seq<string> := [];
    if |password| < Validators.MinPasswordLength {
      errors := errors + [PasswordTooShort];
    }
    r := Validators.PasswordCheck(|errors| == 0, errors);
  }

  /** `validateUsername`: a non-empty trimmed string, as on the server. */
  function ValidateUsername(username: string): (ok: bool)
    ensures ok == Validators.ValidateUsername(username)
    ensures ok <==> exists i :: 0 <= i < |username| && !IsWhitespace(username[i])
  {
    |Trim(username)| > 0
  }
}
