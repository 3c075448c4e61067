/** The login screen's validation (NewsApp/src/screens/LoginScreen.tsx):
    the error record it fills field by field and the guard that keeps an
    invalid form from reaching `signIn`. */
module LoginScreen {
  import opened Wrappers
  import opened FormChecks

  /** The screen's error record; an absent field is None. */
  datatype LoginErrors = LoginErrors(email: Option<string>, password: Option<string>)

  const NoErrors: LoginErrors := LoginErrors(None, None)

  /** The form is acceptable: a non-blank e-mail the pattern matches and a
      password of at least six characters. */
  ghost predicate AcceptableLogin(email: string, password: string) {
    !Strings.IsBlank(email) && MatchesEmailPattern(email) && |password| >= MinPasswordLength
  }

  /** The screen's state: the two fields, the errors shown, and the
      `signIn` calls made (e-mail, password). */
  class LoginForm {
    var email: string
    var password: string
    var errors: LoginErrors
    var signInCalls: seq<(string, string)>

    /** The screen as it opens, with its prefilled credentials. */
    constructor ()
      ensures email == "user@example.com" && password == "password123"
      ensures errors == NoErrors && signInCalls == []
    {
      email := "user@example.com";
      password := "password123";
      errors := NoErrors;
      signInCalls := [];
    }

    /** `validateInputs`: both fields are checked independently, the record
        replaces the errors shown, and the form is valid exactly when the
        record is empty. */
    method ValidateInputs() returns (valid: bool)
      modifies this
      ensures errors == LoginErrors(EmailError(email), PasswordError(password))
      ensures valid <==> errors == NoErrors
      ensures valid <==> AcceptableLogin(email, password)
      ensures email == old(email) && password == old(password) && signInCalls == old(signInCalls)
    {
      var newErrors := NoErrors;
      if Strings.Trim(email) == [] {
        newErrors := newErrors.(email := Some(EmailRequired));
      } else if !HasEmailShape(email) {
        newErrors := newErrors.(email := Some(EmailInvalid));
      }
      if password == [] {
        newErrors := newErrors.(password := Some(PasswordRequired));
      } else if |password| < MinPasswordLength {
        newErrors := newErrors.(password := Some(PasswordTooShort));
      }
      HasEmailShapeIsPattern(email);
      errors := newErrors;
      valid := errors.email.None? && errors.password.None?;
    }

    /** `handleLogin`: `signIn` is called, with the fields as they are,
        only when the form is valid. */
    method HandleLogin() returns (called: bool)
      modifies this
      ensures called <==> AcceptableLogin(email, password)
      ensures signInCalls == if called then old(signInCalls) + [(email, password)] else old(signInCalls)
      ensures errors == LoginErrors(EmailError(email), PasswordError(password))
      ensures email == old(email) && password == old(password)
    {
      var valid := ValidateInputs();
      if !valid {
        return false;
      }
      signInCalls := signInCalls + [(email, password)];
      called := true;
    }
  }

  /** The prefilled credentials pass the checks. */
  lemma PrefilledIsAcceptable()
    ensures AcceptableLogin("user@example.com", "password123")
  {
    var s := "user@example.com";
    assert ShapeAt(s, 4, 12);
    HasEmailShapeIsPattern(s);
    assert !Strings.IsSpace(s[0]);
  }

  /** A blank e-mail and an empty password are both reported at once. */
  lemma BothErrorsReported(email: string)
    requires Strings.IsBlank(email)
    ensures LoginErrors(EmailError(email), PasswordError("")) == LoginErrors(Some(EmailRequired), Some(PasswordRequired))
  {
  }
}
