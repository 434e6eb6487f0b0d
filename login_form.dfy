/** The login form's validation (src/components/auth/LoginForm.tsx): the
    e-mail must match the unanchored pattern `\S+@\S+\.\S+`, the password
    must have at least six characters, and the login callback runs only
    when both checks pass. */
module LoginForm {
  import opened Types
  import opened Text

  const EmptyEmailMessage := "E-Mail darf nicht leer sein."
  const InvalidEmailMessage := "Ungültige E-Mail."
  const EmptyPasswordMessage := "Passwort darf nicht leer sein."
  const ShortPasswordMessage := "Passwort muss mindestens 6 Zeichen lang sein."
  const MinPasswordLength := 6

  /** No white space in s[lo..hi]. */
  ghost predicate NonSpace(s: string, lo: int, hi: int)
    requires 0 <= lo && hi <= |s|
  {
    forall t :: lo <= t < hi ==> !IsSpace(s[t])
  }

  /** s[a..e] is a match of `\S+@\S+\.\S+` with the `@` at `at` and the
      `.` at `d`: each `\S+` is a non-empty run without white space. */
  ghost predicate PatternAt(s: string, a: int, at: int, d: int, e: int)
  {
    0 <= a < at && at + 1 < d && d + 1 < e <= |s| &&
    NonSpace(s, a, at) && s[at] == '@' && NonSpace(s, at + 1, d) && s[d] == '.' && NonSpace(s, d + 1, e)
  }

  /** `/\S+@\S+\.\S+/.test(s)`: the pattern matches somewhere in `s`. */
  ghost predicate EmailPattern(s: string)
  {
    exists a, at, d, e :: PatternAt(s, a, at, d, e)
  }

  /** The end of the white-space-free run that starts at `i`. */
  function RunEnd(s: string, i: nat): (r: nat)
    requires i <= |s|
    ensures i <= r <= |s|
    ensures forall t :: i <= t < r ==> !IsSpace(s[t])
    ensures r == |s| || IsSpace(s[r])
    decreases |s| - i
  {
    if i == |s| || IsSpace(s[i]) then i else RunEnd(s, i + 1)
  }

  /** Some `.` lies in s[lo..hi]. */
  function HasDot(s: string, lo: nat, hi: nat): (r: bool)
    requires hi <= |s|
    ensures r <==> exists d :: lo <= d < hi && s[d] == '.'
    decreases hi - lo
  {
    if lo >= hi then false else s[lo] == '.' || HasDot(s, lo + 1, hi)
  }

  /** The pattern matches with its `@` at `at`: one non-space character
      before it suffices, and after it the run of non-space characters must
      hold a `.` that is neither its first nor its last character. */
  predicate MatchesAt(s: string, at: nat)
    requires at < |s|
  {
    0 < at && s[at] == '@' && !IsSpace(s[at - 1]) &&
    var e := RunEnd(s, at + 1);
    e >= 1 && HasDot(s, at + 2, e - 1)
  }

  /** The regex engine's search from position `i` onwards for an `@` at
      which the pattern matches. */
  function MatchesFrom(s: string, i: nat): (r: bool)
    requires i <= |s|
    ensures r <==> exists at :: i <= at < |s| && MatchesAt(s, at)
    decreases |s| - i
  {
    if i == |s| then false else MatchesAt(s, i) || MatchesFrom(s, i + 1)
  }

  /** `/\S+@\S+\.\S+/.test(s)`, computed. */
  function EmailMatches(s: string): (r: bool)
    ensures r <==> EmailPattern(s)
  {
    SearchIffPattern(s);
    MatchesFrom(s, 0)
  }

  lemma MatchesAtIffPattern(s: string, at: nat)
    requires at < |s|
    ensures MatchesAt(s, at) <==> exists a, d, e :: PatternAt(s, a, at, d, e)
  {
    if MatchesAt(s, at) {
      var e := RunEnd(s, at + 1);
      var d :| at + 2 <= d < e - 1 && s[d] == '.';
      assert PatternAt(s, at - 1, at, d, d + 2);
    }
    if exists a, d, e :: PatternAt(s, a, at, d, e) {
      var a, d, e :| PatternAt(s, a, at, d, e);
      var r := RunEnd(s, at + 1);
      assert !IsSpace(s[at - 1]);
      assert NonSpace(s, at + 1, e) by {
        assert !IsSpace('.');
      }
      assert HasDot(s, at + 2, r - 1) by {
        assert at + 2 <= d < r - 1 && s[d] == '.';
      }
    }
  }

  /** The executable search and the regex's meaning agree on every string. */
  lemma SearchIffPattern(s: string)
    ensures MatchesFrom(s, 0) <==> EmailPattern(s)
  {
    if MatchesFrom(s, 0) {
      var at :| 0 <= at < |s| && MatchesAt(s, at);
      MatchesAtIffPattern(s, at);
    }
    if EmailPattern(s) {
      var a, at, d, e :| PatternAt(s, a, at, d, e);
      MatchesAtIffPattern(s, at);
    }
  }

  /** The empty string and a string without `@` never match. */
  lemma NoAtNoMatch(s: string)
    requires forall i :: 0 <= i < |s| ==> s[i] != '@'
    ensures !EmailMatches(s)
  {
  }

  /** The pattern is searched for, not anchored: text around a match does
      not matter, but the characters next to `@` and `.` do. */
  lemma EmailExamples()
    ensures EmailPattern("a@b.c")
    ensures EmailPattern("x y@b.c z")
    ensures !EmailPattern("a @b.c")
    ensures !EmailPattern("a@b.")
    ensures !EmailPattern("a@.c")
  {
    SearchIffPattern("a@b.c");
    assert MatchesAt("a@b.c", 1);
    SearchIffPattern("x y@b.c z");
    assert MatchesAt("x y@b.c z", 3);
    SearchIffPattern("a @b.c");
    SearchIffPattern("a@b.");
    SearchIffPattern("a@.c");
  }

  /** The e-mail field's message. */
  function EmailError(email: string): (r: string)
    ensures r == "" <==> EmailPattern(email)
    ensures email == "" ==> r == EmptyEmailMessage
    ensures email != "" && !EmailPattern(email) ==> r == InvalidEmailMessage
  {
    if email == "" then EmptyEmailMessage
    else if !EmailMatches(email) then InvalidEmailMessage
    else ""
  }

  /** The password field's message. */
  function PasswordError(password: string): (r: string)
    ensures r == "" <==> |password| >= MinPasswordLength
    ensures password == "" ==> r == EmptyPasswordMessage
    ensures 0 < |password| < MinPasswordLength ==> r == ShortPasswordMessage
  {
    if password == "" then EmptyPasswordMessage
    else if |password| < MinPasswordLength then ShortPasswordMessage
    else ""
  }

  /** What one call of validateForm decides: the flag and both messages. */
  datatype Validation = Validation(isValid: bool, emailError: string, passwordError: string)

  function Validate(email: string, password: string): (v: Validation)
    ensures v.isValid <==> EmailPattern(email) && |password| >= MinPasswordLength
    ensures v.isValid <==> v.emailError == "" && v.passwordError == ""
    ensures email == "" ==> v.emailError == EmptyEmailMessage
    ensures email != "" && !EmailPattern(email) ==> v.emailError == InvalidEmailMessage
    ensures EmailPattern(email) ==> v.emailError == ""
    ensures password == "" ==> v.passwordError == EmptyPasswordMessage
    ensures 0 < |password| < MinPasswordLength ==> v.passwordError == ShortPasswordMessage
    ensures |password| >= MinPasswordLength ==> v.passwordError == ""
  {
    var ee := EmailError(email);
    var pe := PasswordError(password);
    Validation(ee == "" && pe == "", ee, pe)
  }

  /** Both fields are checked on every call: with both fields empty, both
      messages are set at once. */
  lemma BothErrorsAtOnce()
    ensures Validate("", "").emailError == EmptyEmailMessage
    ensures Validate("", "").passwordError == EmptyPasswordMessage
  {
  }

  datatype Credentials = Credentials(email: string, password: string)

  /** The form's state: the two inputs and the two messages shown under them. */
  class LoginForm {
    var email: string
    var password: string
    var emailError: string
    var passwordError: string

    constructor ()
      ensures email == "" && password == "" && emailError == "" && passwordError == ""
    {
      email, password, emailError, passwordError := "", "", "", "";
    }

    /** validateForm: both checks run in turn, each one sets its message
        (clearing it when its field passes) and may lower the flag. */
    method ValidateForm() returns (isValid: bool)
      modifies this`emailError, this`passwordError
      ensures isValid == Validate(email, password).isValid
      ensures emailError == Validate(email, password).emailError
      ensures passwordError == Validate(email, password).passwordError
    {
      isValid := true;
      if email == "" {
        emailError := EmptyEmailMessage;
        isValid := false;
      } else if !EmailMatches(email) {
        emailError := InvalidEmailMessage;
        isValid := false;
      } else {
        emailError := "";
      }
      if password == "" {
        passwordError := EmptyPasswordMessage;
        isValid := false;
      } else if |password| < MinPasswordLength {
        passwordError := ShortPasswordMessage;
        isValid := false;
      } else {
        passwordError := "";
      }
    }

    /** handleSubmit: the login callback receives the inputs exactly when
        validation passes; `None` stands for "not called". */
    method HandleSubmit() returns (login: Option<Credentials>)
      modifies this`emailError, this`passwordError
      ensures login.Some? <==> EmailPattern(email) && |password| >= MinPasswordLength
      ensures login.Some? ==> login.value == Credentials(email, password)
      ensures emailError == Validate(email, password).emailError
      ensures passwordError == Validate(email, password).passwordError
    {
      var ok := ValidateForm();
      if ok {
        login := Some(Credentials(email, password));
      } else {
        login := None;
      }
    }
  }
}
