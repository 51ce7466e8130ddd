/** The login and sign-up forms: the e-mail and password rules, the sign-up error record, and
    the display name derived from an e-mail address after a successful login. */
module AuthPage {
  import opened Text

  /* ---------------- e-mail shape ---------------- */

  /** Every character is in the class `[^\s@]`. */
  predicate Plain(t: string)
  {
    forall i :: 0 <= i < |t| ==> !IsWhitespace(t[i]) && t[i] != '@'
  }

  /** What `/^[^\s@]+@[^\s@]+\.[^\s@]+$/` accepts: L "@" X "." Y with L, X and Y non-empty and plain. */
  ghost predicate EmailShape(s: string)
  {
    exists a: nat, b: nat :: a < b <= |s| && IsEmailSplit(s, a, b)
  }

  /** `s` splits at an '@' at `a` and a '.' at `b` into three non-empty plain parts. */
  ghost predicate IsEmailSplit(s: string, a: nat, b: nat)
  {
    0 < a && a + 1 < b && b + 1 < |s| && s[a] == '@' && s[b] == '.' &&
    Plain(s[..a]) && Plain(s[a + 1..b]) && Plain(s[b + 1..])
  }

  /** The check the page runs: no white space, one '@' after a non-empty prefix, and a '.' in
      the part after it that is neither that part's first nor its last character. */
  predicate MatchesEmail(s: string)
  {
    NoWhitespace(s) && '@' in s &&
    var a := IndexOf(s, '@');
    a > 0 && '@' !in s[a + 1..] && a + 3 < |s| && '.' in s[a + 2..|s| - 1]
  }

  lemma PlainSlices(s: string, a: nat, b: nat)
    requires IsEmailSplit(s, a, b)
    ensures NoWhitespace(s) && '@' !in s[..a] && '@' !in s[a + 1..]
  {
    forall i | 0 <= i < |s| ensures !IsWhitespace(s[i]) && (i != a ==> s[i] != '@') {
      if i < a {
        assert s[..a][i] == s[i];
      } else if a < i < b {
        assert s[a + 1..b][i - a - 1] == s[i];
      } else if b < i {
        assert s[b + 1..][i - b - 1] == s[i];
      }
    }
  }

  /** The scanning check accepts exactly the strings of the regular expression. */
  lemma MatchesEmailIff(s: string)
    ensures MatchesEmail(s) <==> EmailShape(s)
  {
    if EmailShape(s) {
      var a: nat, b: nat :| a < b <= |s| && IsEmailSplit(s, a, b);
      PlainSlices(s, a, b);
      var i := IndexOf(s, '@');
      forall k | 0 <= k < a ensures s[k] != '@' {
        assert s[..a][k] == s[k];
      }
      forall k | 0 <= k < i ensures s[k] != '@' {
        assert s[..i][k] == s[k];
      }
      assert i == a;
      assert s[a + 2..|s| - 1][b - a - 2] == '.';
    }
    if MatchesEmail(s) {
      var a := IndexOf(s, '@');
      var d := s[a + 2..|s| - 1];
      var j := IndexOf(d, '.');
      var b := a + 2 + j;
      assert s[b] == '.';
      forall i | 0 <= i < |s| && i != a ensures s[i] != '@' {
        if i < a {
          assert s[..a][i] == s[i];
        } else {
          assert s[a + 1..][i - a - 1] == s[i];
        }
      }
      assert IsEmailSplit(s, a, b);
    }
  }

  /* ---------------- the validators ---------------- */

  const EmailRequired := "Email is required"
  const InvalidEmail := "Invalid email address"
  const PasswordRequired := "Password is required"
  const PasswordTooShort := "Password must be at least 3 characters"

  /** `validateEmail`. */
  function ValidateEmail(email: string): string
  {
    if email == "" then EmailRequired
    else if !MatchesEmail(email) then InvalidEmail
    else ""
  }

  const MinPasswordLength := 3

  /** `validatePassword`. */
  function ValidatePassword(password: string): string
  {
    if password == "" then PasswordRequired
    else if |password| < MinPasswordLength then PasswordTooShort
    else ""
  }

  /** An e-mail passes exactly when it has the L@X.Y shape; an empty one is reported as missing. */
  lemma EmailValidIff(email: string)
    ensures ValidateEmail(email) == "" <==> EmailShape(email)
    ensures email == "" ==> ValidateEmail(email) == EmailRequired
    ensures email != "" && !EmailShape(email) ==> ValidateEmail(email) == InvalidEmail
  {
    MatchesEmailIff(email);
    if EmailShape(email) {
      var a: nat, b: nat :| a < b <= |email| && IsEmailSplit(email, a, b);
    }
  }

  /** A password passes exactly when it has at least three characters. */
  lemma PasswordValidIff(password: string)
    ensures ValidatePassword(password) == "" <==> |password| >= MinPasswordLength
    ensures password == "" ==> ValidatePassword(password) == PasswordRequired
    ensures password != "" && |password| < MinPasswordLength ==> ValidatePassword(password) == PasswordTooShort
  {
  }

  /* ---------------- login ---------------- */

  datatype LoginErrors = LoginErrors(email: string, password: string)

  function LoginErrorsOf(email: string, password: string): LoginErrors
  {
    LoginErrors(ValidateEmail(email), ValidatePassword(password))
  }

  /** `errors.email || errors.password`: the login request is not sent. */
  predicate LoginBlocked(errors: LoginErrors)
  {
    errors.email != "" || errors.password != ""
  }

  /** A login request is sent exactly for an L@X.Y e-mail and a password of at least three characters. */
  lemma LoginSentIff(email: string, password: string)
    ensures !LoginBlocked(LoginErrorsOf(email, password)) <==> EmailShape(email) && |password| >= MinPasswordLength
  {
    EmailValidIff(email);
  }

  /* ---------------- sign-up ---------------- */

  datatype SignupValues = SignupValues(firstName: string, lastName: string, institution: string, email: string, password: string)
  datatype SignupErrors = SignupErrors(firstName: string, lastName: string, institution: string, email: string, password: string)

  /** The inline e-mail rule of the sign-up form. */
  function SignupEmailError(email: string): string
  {
    if email == "" then EmailRequired else if MatchesEmail(email) then "" else InvalidEmail
  }

  /** The inline password rule of the sign-up form. */
  function SignupPasswordError(password: string): string
  {
    if password == "" then PasswordRequired else if |password| >= 3 then "" else PasswordTooShort
  }

  const FirstNameRequired := "First name is required"
  const LastNameRequired := "Last name is required"
  const InstitutionRequired := "Institution is required"

  /** `!value.trim()` reports the field as missing. */
  function NameError(value: string, message: string): string
  {
    if IsBlank(value) then message else ""
  }

  /** A name field passes exactly when it is not all white space. */
  lemma NameErrorIff(value: string, message: string)
    requires message != ""
    ensures NameError(value, message) == "" <==> !AllWhitespace(value)
  {
    BlankIffAllWhitespace(value);
  }

  function SignupErrorsOf(v: SignupValues): SignupErrors
  {
    SignupErrors(
      NameError(v.firstName, FirstNameRequired),
      NameError(v.lastName, LastNameRequired),
      NameError(v.institution, InstitutionRequired),
      SignupEmailError(v.email),
      SignupPasswordError(v.password))
  }

  /** `Object.values(errors).some(Boolean)`. */
  predicate SignupBlocked(errors: SignupErrors)
  {
    errors.firstName != "" || errors.lastName != "" || errors.institution != "" || errors.email != "" || errors.password != ""
  }

  /** The sign-up form's own rules for the e-mail and the password give the same messages as the login validators. */
  lemma SignupUsesLoginRules(v: SignupValues)
    ensures SignupErrorsOf(v).email == ValidateEmail(v.email)
    ensures SignupErrorsOf(v).password == ValidatePassword(v.password)
  {
  }

  /** Sign-up goes ahead exactly when first name, last name and institution are not blank, the
      e-mail has the L@X.Y shape and the password has at least three characters. */
  lemma SignupSentIff(v: SignupValues)
    ensures !SignupBlocked(SignupErrorsOf(v)) <==>
      !AllWhitespace(v.firstName) && !AllWhitespace(v.lastName) && !AllWhitespace(v.institution) &&
      EmailShape(v.email) && |v.password| >= MinPasswordLength
  {
    NameErrorIff(v.firstName, FirstNameRequired);
    NameErrorIff(v.lastName, LastNameRequired);
    NameErrorIff(v.institution, InstitutionRequired);
    SignupUsesLoginRules(v);
    EmailValidIff(v.email);
    PasswordValidIff(v.password);
  }

  /* ---------------- the display name ---------------- */

  /** `replace(/\./g, " ")`. */
  function DotsToSpaces(t: string): (r: string)
    ensures |r| == |t|
    ensures forall i :: 0 <= i < |t| ==> r[i] == (if t[i] == '.' then ' ' else t[i])
  {
    if t == [] then [] else [if t[0] == '.' then ' ' else t[0]] + DotsToSpaces(t[1..])
  }

  /** A `\b\w` match at `i`: a word character not preceded by one. */
  predicate WordStart(t: string, i: nat)
    requires i < |t|
  {
    IsWordChar(t[i]) && (i == 0 || !IsWordChar(t[i - 1]))
  }

  /** `replace(/\b\w/g, c => c.toUpperCase())`, scanning left to right; `afterWord` says whether the previous character was a word character. */
  function CapitalizeFrom(t: string, afterWord: bool): string
  {
    if t == [] then []
    else [if IsWordChar(t[0]) && !afterWord then ToUpperChar(t[0]) else t[0]] + CapitalizeFrom(t[1..], IsWordChar(t[0]))
  }

  function CapitalizeWords(t: string): string
  {
    CapitalizeFrom(t, false)
  }

  /** A word start at `i` when the character before `t` was a word character exactly when `afterWord`. */
  predicate WordStartAfter(t: string, afterWord: bool, i: nat)
    requires i < |t|
  {
    IsWordChar(t[i]) && (if i == 0 then !afterWord else !IsWordChar(t[i - 1]))
  }

  lemma {:induction false} CapitalizeFromExact(t: string, afterWord: bool)
    ensures |CapitalizeFrom(t, afterWord)| == |t|
    ensures forall i: nat :: i < |t| ==>
      CapitalizeFrom(t, afterWord)[i] == (if WordStartAfter(t, afterWord, i) then ToUpperChar(t[i]) else t[i])
  {
    if t != [] {
      CapitalizeFromExact(t[1..], IsWordChar(t[0]));
      var r := CapitalizeFrom(t, afterWord);
      forall i: nat | 1 <= i < |t| ensures r[i] == (if WordStartAfter(t, afterWord, i) then ToUpperChar(t[i]) else t[i]) {
        assert r[i] == CapitalizeFrom(t[1..], IsWordChar(t[0]))[i - 1];
        assert t[1..][i - 1] == t[i];
        assert WordStartAfter(t, afterWord, i) == WordStartAfter(t[1..], IsWordChar(t[0]), i - 1);
      }
    }
  }

  /** Upper-casing the start of each word changes exactly the characters at a `\b\w` position and nothing else. */
  lemma CapitalizeWordsExact(t: string)
    ensures |CapitalizeWords(t)| == |t|
    ensures forall i :: 0 <= i < |t| ==> CapitalizeWords(t)[i] == (if WordStart(t, i) then ToUpperChar(t[i]) else t[i])
  {
    CapitalizeFromExact(t, false);
    forall i: nat | i < |t| ensures WordStart(t, i) == WordStartAfter(t, false, i) {
    }
  }

  /** `generatedName`: the part before the first '@', dots turned into spaces, each word capitalised. */
  function GeneratedName(email: string): string
  {
    CapitalizeWords(DotsToSpaces(Split(email, '@')[0]))
  }

  /** The display name is as long as the part of the e-mail before its first '@', holds no '.'
      and no '@', and differs from that part only by dots turned into spaces and word starts upper-cased. */
  lemma GeneratedNameShape(email: string)
    ensures var local := Split(email, '@')[0];
            var name := GeneratedName(email);
            |name| == |local| && '.' !in name && '@' !in name &&
            (forall i :: 0 <= i < |local| ==> name[i] == (if local[i] == '.' then ' ' else if WordStart(DotsToSpaces(local), i) then ToUpperChar(local[i]) else local[i]))
  {
    var local := Split(email, '@')[0];
    var spaced := DotsToSpaces(local);
    CapitalizeWordsExact(spaced);
    var name := GeneratedName(email);
    assert '@' !in local;
    forall i | 0 <= i < |name| ensures name[i] != '.' && name[i] != '@' {
      assert local[i] != '@';
    }
  }

  /** The local part is the text before the first '@', or all of the e-mail without one. */
  lemma LocalPart(email: string)
    ensures '@' in email ==> Split(email, '@')[0] == email[..IndexOf(email, '@')]
    ensures '@' !in email ==> Split(email, '@')[0] == email
  {
    SplitHead(email, '@');
  }
}
