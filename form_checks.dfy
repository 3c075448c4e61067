/** The field checks the login and sign-up screens share
    (NewsApp/src/screens/LoginScreen.tsx and
    app/NewsNuggets/src/screens/SignUpScreen.tsx): the e-mail pattern
    `/\S+@\S+\.\S+/`, which is not anchored, and the required and
    minimum-length rules. */
module FormChecks {
  import opened Wrappers
  import opened Strings

  const EmailRequired: string := "Email is required"
  const EmailInvalid: string := "Email is invalid"
  const PasswordRequired: string := "Password is required"
  const PasswordTooShort: string := "Password must be at least 6 characters"
  const MinPasswordLength: nat := 6

  /** `s[i..j]` is one or more non-space characters (`\S+`). */
  ghost predicate NonSpaceRun(s: string, i: int, j: int) {
    0 <= i < j <= |s| && forall k :: i <= k < j ==> !IsSpace(s[k])
  }

  /** The pattern matches `s[a..d]`, with '@' at `b` and '.' at `c`. */
  ghost predicate EmailPatternAt(s: string, a: int, b: int, c: int, d: int) {
    && NonSpaceRun(s, a, b) && b < |s| && s[b] == '@'
    && NonSpaceRun(s, b + 1, c) && c < |s| && s[c] == '.'
    && NonSpaceRun(s, c + 1, d)
  }

  /** `/\S+@\S+\.\S+/.test(s)`: the pattern matches somewhere in `s`. */
  ghost predicate MatchesEmailPattern(s: string) {
    exists a: int, b: int, c: int, d: int :: EmailPatternAt(s, a, b, c, d)
  }

  /** The shortest match the pattern can have: a '@' with a non-space
      character right before it, a '.' later with only non-space characters
      (at least one) in between, and a non-space character right after. */
  predicate ShapeAt(s: string, p: int, q: int) {
    && 1 <= p && p + 2 <= q && q + 2 <= |s| && s[p] == '@' && s[q] == '.'
    && !IsSpace(s[p - 1]) && !IsSpace(s[q + 1])
    && forall k :: p < k < q ==> !IsSpace(s[k])
  }

  predicate HasEmailShape(s: string) {
    exists p: int, q: int | 0 <= p < q < |s| :: ShapeAt(s, p, q)
  }

  /** The shortest-match test accepts exactly what the pattern matches. */
  lemma HasEmailShapeIsPattern(s: string)
    ensures HasEmailShape(s) <==> MatchesEmailPattern(s)
  {
    if HasEmailShape(s) {
      var p: int, q: int :| ShapeAt(s, p, q);
      assert ShapeAt(s, p, q);
      assert EmailPatternAt(s, p - 1, p, q, q + 2);
    }
    if MatchesEmailPattern(s) {
      var a: int, b: int, c: int, d: int :| EmailPatternAt(s, a, b, c, d);
      assert EmailPatternAt(s, a, b, c, d);
      assert !IsSpace(s[b - 1]) && !IsSpace(s[c + 1]);
      assert 1 <= b && b + 2 <= c && c + 2 <= |s|;
      assert ShapeAt(s, b, c);
    }
  }

  /** Surrounding text does not stop the pattern from matching. */
  lemma PatternUnanchored(s: string, before: string, after: string)
    requires HasEmailShape(s)
    ensures HasEmailShape(before + s + after)
  {
    var p: int, q: int :| ShapeAt(s, p, q);
      assert ShapeAt(s, p, q);
    var t := before + s + after;
    var n := |before|;
    assert t[n + p] == '@' && t[n + q] == '.' && t[n + p - 1] == s[p - 1] && t[n + q + 1] == s[q + 1];
    forall k | n + p < k < n + q ensures !IsSpace(t[k]) {
      assert t[k] == s[k - n];
    }
    assert ShapeAt(t, n + p, n + q);
  }

  /** The e-mail check: blank after trimming is "required"; otherwise it
      must match the pattern. */
  function EmailError(email: string): (e: Option<string>)
    ensures e == Some(EmailRequired) <==> IsBlank(email)
    ensures e == Some(EmailInvalid) <==> !IsBlank(email) && !MatchesEmailPattern(email)
    ensures e.None? <==> !IsBlank(email) && MatchesEmailPattern(email)
  {
    HasEmailShapeIsPattern(email);
    if Trim(email) == [] then Some(EmailRequired)
    else if !HasEmailShape(email) then Some(EmailInvalid)
    else None
  }

  /** The password check: empty is "required", under six characters too
      short. The password is not trimmed. */
  function PasswordError(password: string): (e: Option<string>)
    ensures e == Some(PasswordRequired) <==> password == []
    ensures e == Some(PasswordTooShort) <==> 0 < |password| < MinPasswordLength
    ensures e.None? <==> |password| >= MinPasswordLength
  {
    if password == [] then Some(PasswordRequired)
    else if |password| < MinPasswordLength then Some(PasswordTooShort)
    else None
  }

  /** Six spaces are an acceptable password, while an all-space e-mail is
      reported as missing. */
  lemma SpacesPassButBlankEmailDoesNot()
    ensures PasswordError("      ").None?
    ensures EmailError("      ") == Some(EmailRequired)
  {
    var s := "      ";
    assert IsBlank(s) by {
      assert forall i :: 0 <= i < |s| ==> IsSpace(s[i]);
    }
  }
}
