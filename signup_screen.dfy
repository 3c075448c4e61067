/** The sign-up screen's validation
    (app/NewsNuggets/src/screens/SignUpScreen.tsx): four fields checked
    independently into one error record, and the guard in front of
    `signUp`. */
module SignUpScreen {
  import opened Wrappers
  import opened Strings
  import opened FormChecks

  const NameRequired: string := "Name is required"
  const ConfirmRequired: string := "Confirm password is required"
  const PasswordsDiffer: string := "Passwords do not match"

  /** The screen's error record; an absent field is None. */
  datatype SignUpErrors = SignUpErrors(
    name: Option<string>,
    email: Option<string>,
    password: Option<string>,
    confirmPassword: Option<string>)

  const NoErrors: SignUpErrors := SignUpErrors(None, None, None, None)

  /** The name check: blank after trimming is "required". */
  function NameError(name: string): (e: Option<string>)
    ensures e.Some? <==> IsBlank(name)
    ensures e.Some? ==> e.value == NameRequired
  {
    if Trim(name) == [] then Some(NameRequired) else None
  }

  /** The confirmation check: empty is "required"; otherwise it must equal
      the password, whether or not the password itself is acceptable. */
  function ConfirmError(confirm: string, password: string): (e: Option<string>)
    ensures e == Some(ConfirmRequired) <==> confirm == []
    ensures e == Some(PasswordsDiffer) <==> confirm != [] && confirm != password
    ensures e.None? <==> confirm != [] && confirm == password
  {
    if confirm == [] then Some(ConfirmRequired)
    else if confirm != password then Some(PasswordsDiffer)
    else None
  }

  /** The errors the four fields give. */
  function ErrorsOf(name: string, email: string, password: string, confirm: string): SignUpErrors {
    SignUpErrors(NameError(name), EmailError(email), PasswordError(password), ConfirmError(confirm, password))
  }

  /** The form is acceptable: a non-blank name, a non-blank e-mail the
      pattern matches, a password of at least six characters (not trimmed)
      and a confirmation equal to it. */
  ghost predicate AcceptableSignUp(name: string, email: string, password: string, confirm: string) {
    && !IsBlank(name)
    && !IsBlank(email) && MatchesEmailPattern(email)
    && |password| >= MinPasswordLength
    && confirm == password
  }

  /** The four checks all pass exactly when the form is acceptable. */
  lemma NoErrorsIffAcceptable(name: string, email: string, password: string, confirm: string)
    ensures ErrorsOf(name, email, password, confirm) == NoErrors <==> AcceptableSignUp(name, email, password, confirm)
  {
  }

  /** The screen's state: the four fields, the errors shown and the
      `signUp` calls made (e-mail, password, name). */
  class SignUpForm {
    var name: string
    var email: string
    var password: string
    var confirmPassword: string
    var errors: SignUpErrors
    var signUpCalls: seq<(string, string, string)>

    /** The screen as it opens: every field empty. */
    constructor ()
      ensures name == [] && email == [] && password == [] && confirmPassword == []
      ensures errors == NoErrors && signUpCalls == []
    {
      name, email, password, confirmPassword := [], [], [], [];
      errors := NoErrors;
      signUpCalls := [];
    }

    /** `validateInputs`: every field is checked, the record replaces the
        errors shown, and the form is valid exactly when it is empty. */
    method ValidateInputs() returns (valid: bool)
      modifies this
      ensures errors == ErrorsOf(name, email, password, confirmPassword)
      ensures valid <==> errors == NoErrors
      ensures valid <==> AcceptableSignUp(name, email, password, confirmPassword)
      ensures name == old(name) && email == old(email) && password == old(password)
      ensures confirmPassword == old(confirmPassword) && signUpCalls == old(signUpCalls)
    {
      var newErrors := NoErrors;
      if Trim(name) == [] {
        newErrors := newErrors.(name := Some(NameRequired));
      }
      assert newErrors == NoErrors.(name := NameError(name));
      if Trim(email) == [] {
        newErrors := newErrors.(email := Some(EmailRequired));
      } else if !HasEmailShape(email) {
        newErrors := newErrors.(email := Some(EmailInvalid));
      }
      assert newErrors == NoErrors.(name := NameError(name), email := EmailError(email));
      if password == [] {
        newErrors := newErrors.(password := Some(PasswordRequired));
      } else if |password| < MinPasswordLength {
        newErrors := newErrors.(password := Some(PasswordTooShort));
      }
      assert newErrors == NoErrors.(name := NameError(name), email := EmailError(email), password := PasswordError(password));
      if confirmPassword == [] {
        newErrors := newErrors.(confirmPassword := Some(ConfirmRequired));
      } else if confirmPassword != password {
        newErrors := newErrors.(confirmPassword := Some(PasswordsDiffer));
      }
      assert newErrors == ErrorsOf(name, email, password, confirmPassword);
      NoErrorsIffAcceptable(name, email, password, confirmPassword);
      errors := newErrors;
      valid := errors == NoErrors;
    }

    /** `handleSignUp`: `signUp` is called only when the form is valid. */
    method HandleSignUp() returns (called: bool)
      modifies this
      ensures called <==> AcceptableSignUp(name, email, password, confirmPassword)
      ensures signUpCalls == if called then old(signUpCalls) + [(email, password, name)] else old(signUpCalls)
      ensures errors == ErrorsOf(name, email, password, confirmPassword)
      ensures name == old(name) && email == old(email) && password == old(password)
      ensures confirmPassword == old(confirmPassword)
    {
      var valid := ValidateInputs();
      if !valid {
        return false;
      }
      signUpCalls := signUpCalls + [(email, password, name)];
      called := true;
    }
  }

  /** A mismatch is reported next to a too-short password. */
  lemma ShortAndMismatched()
    ensures ErrorsOf("n", "a@b.c", "abc", "abd").password == Some(PasswordTooShort)
    ensures ErrorsOf("n", "a@b.c", "abc", "abd").confirmPassword == Some(PasswordsDiffer)
  {
  }

  /** Six spaces, confirmed, are an acceptable password. */
  lemma SpacesAcceptedAsPassword(name: string, email: string)
    requires !IsBlank(name) && !IsBlank(email) && MatchesEmailPattern(email)
    ensures AcceptableSignUp(name, email, "      ", "      ")
  {
  }
}
