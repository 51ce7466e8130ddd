/** The settings page: the profile form is filled from the stored user, splitting a full name
    at spaces when first and last name are not stored; the profile and password forms are
    checked field by field before anything is sent. Absent fields are the empty string. */
module SettingsPage {
  import opened Wrappers
  import opened Text

  datatype ProfileFields = ProfileFields(firstName: string, lastName: string, email: string)
  datatype ProfileErrors = ProfileErrors(firstName: string, lastName: string)
  datatype PasswordFields = PasswordFields(currentPassword: string, newPassword: string, confirmPassword: string)
  datatype PasswordErrors = PasswordErrors(currentPassword: string, newPassword: string, confirmPassword: string)

  /** The user record kept by the browser after login. */
  datatype StoredUser = StoredUser(name: string, firstName: string, lastName: string, email: string)

  /* ---------------- loading the profile ---------------- */

  /** `a || b` on strings. */
  function Or(a: string, b: string): string
  {
    if a != "" then a else b
  }

  /** The profile form after the stored user is read; without a stored user it is left alone. */
  function LoadProfile(current: ProfileFields, stored: Option<StoredUser>): ProfileFields
  {
    if stored.None? then current
    else
      var user := stored.value;
      var nameParts := if user.name != "" then Split(user.name, ' ') else ["", ""];
      ProfileFields(Or(Or(user.firstName, nameParts[0]), ""),
                    Or(Or(user.lastName, Join(nameParts[1..], " ")), ""),
                    Or(user.email, ""))
  }

  /** A stored first name wins; otherwise the first name is the full name up to its first space
      (all of it when there is none). A stored last name wins; otherwise the last name is
      everything after the first space, runs of spaces kept as they were (nothing when there is no space). */
  lemma LoadedNames(current: ProfileFields, user: StoredUser)
    ensures user.firstName != "" ==> LoadProfile(current, Some(user)).firstName == user.firstName
    ensures user.lastName != "" ==> LoadProfile(current, Some(user)).lastName == user.lastName
    ensures user.firstName == "" && ' ' !in user.name ==> LoadProfile(current, Some(user)).firstName == user.name
    ensures user.firstName == "" && ' ' in user.name ==>
      LoadProfile(current, Some(user)).firstName == user.name[..IndexOf(user.name, ' ')]
    ensures user.lastName == "" && ' ' !in user.name ==> LoadProfile(current, Some(user)).lastName == ""
    ensures user.lastName == "" && ' ' in user.name ==>
      LoadProfile(current, Some(user)).lastName == user.name[IndexOf(user.name, ' ') + 1..]
    ensures LoadProfile(current, Some(user)).email == user.email
  {
    if user.name != "" {
      SplitHead(user.name, ' ');
    } else {
      assert ["", ""][1..] == [""];
    }
  }

  /** Without stored first and last names, the loaded first name, a space and the loaded last
      name give back the stored full name, whenever it contains a space and does not start with one. */
  lemma LoadedNamesRejoin(current: ProfileFields, user: StoredUser)
    requires user.firstName == "" && user.lastName == "" && ' ' in user.name && user.name[0] != ' '
    ensures LoadProfile(current, Some(user)).firstName + " " + LoadProfile(current, Some(user)).lastName == user.name
  {
    LoadedNames(current, user);
    var i := IndexOf(user.name, ' ');
    assert user.name == user.name[..i] + [' '] + user.name[i + 1..];
  }

  /* ---------------- the profile form ---------------- */

  /** The error of one required text field. */
  function Required(value: string, message: string): string
  {
    if IsBlank(value) then message else ""
  }

  function ProfileErrorsOf(fields: ProfileFields): ProfileErrors
  {
    ProfileErrors(Required(fields.firstName, "First name is required"), Required(fields.lastName, "Last name is required"))
  }

  predicate NoProfileErrors(errors: ProfileErrors)
  {
    errors.firstName == "" && errors.lastName == ""
  }

  /** `validateProfileForm`: the errors shown, and whether the form may be sent. */
  method ValidateProfileForm(fields: ProfileFields) returns (errors: ProfileErrors, isValid: bool)
    ensures errors == ProfileErrorsOf(fields)
    ensures isValid <==> NoProfileErrors(errors)
    ensures isValid <==> !AllWhitespace(fields.firstName) && !AllWhitespace(fields.lastName)
  {
    errors := ProfileErrors("", "");
    isValid := true;
    if IsBlank(fields.firstName) {
      errors := errors.(firstName := "First name is required");
      isValid := false;
    }
    if IsBlank(fields.lastName) {
      errors := errors.(lastName := "Last name is required");
      isValid := false;
    }
    BlankIffAllWhitespace(fields.firstName);
    BlankIffAllWhitespace(fields.lastName);
  }

  /* ---------------- the password form ---------------- */

  const MinPasswordLength := 6

  const CurrentRequired := "Current password is required"
  const NewRequired := "New password is required"
  const TooShort := "Password must be at least 6 characters"
  const SameAsCurrent := "New password must be different from current password"
  const ConfirmRequired := "Please confirm your password"
  const Mismatch := "Passwords do not match"

  /** The new-password error before the check against the current password. */
  function NewPasswordRule(password: string): string
  {
    if IsBlank(password) then NewRequired
    else if |password| < MinPasswordLength then TooShort
    else ""
  }

  function ConfirmRule(newPassword: string, confirmPassword: string): string
  {
    if IsBlank(confirmPassword) then ConfirmRequired
    else if newPassword != confirmPassword then Mismatch
    else ""
  }

  function PasswordErrorsOf(fields: PasswordFields): PasswordErrors
  {
    var newer :=
      if fields.newPassword == fields.currentPassword && fields.newPassword != "" then SameAsCurrent
      else NewPasswordRule(fields.newPassword);
    PasswordErrors(Required(fields.currentPassword, CurrentRequired), newer, ConfirmRule(fields.newPassword, fields.confirmPassword))
  }

  predicate NoPasswordErrors(errors: PasswordErrors)
  {
    errors.currentPassword == "" && errors.newPassword == "" && errors.confirmPassword == ""
  }

  /** The password change is allowed exactly when the current password is not blank, the new
      one is not blank, has at least six characters and differs from the current one, and the
      confirmation repeats it. */
  lemma PasswordAcceptedIff(fields: PasswordFields)
    ensures NoPasswordErrors(PasswordErrorsOf(fields)) <==>
      !AllWhitespace(fields.currentPassword) && !AllWhitespace(fields.newPassword) &&
      |fields.newPassword| >= MinPasswordLength && fields.newPassword != fields.currentPassword &&
      fields.confirmPassword == fields.newPassword
  {
    var c, n, k := fields.currentPassword, fields.newPassword, fields.confirmPassword;
    var e := PasswordErrorsOf(fields);
    assert e.currentPassword == "" <==> !IsBlank(c);
    assert NewPasswordRule(n) == "" <==> !IsBlank(n) && |n| >= MinPasswordLength;
    assert e.newPassword == "" <==> !(n == c && n != "") && NewPasswordRule(n) == "";
    assert e.confirmPassword == "" <==> !IsBlank(k) && n == k;
    BlankIffAllWhitespace(c);
    BlankIffAllWhitespace(n);
  }

  /** A new password equal to a non-empty current one always reports the difference, whatever else is wrong with it. */
  lemma SamePasswordOverrides(fields: PasswordFields)
    requires fields.newPassword == fields.currentPassword && fields.newPassword != ""
    ensures PasswordErrorsOf(fields).newPassword == SameAsCurrent
  {
  }

  /** `validatePasswordForm`: each field's error is set in turn, the last check overriding the new-password error. */
  method ValidatePasswordForm(fields: PasswordFields) returns (errors: PasswordErrors, isValid: bool)
    ensures errors == PasswordErrorsOf(fields)
    ensures isValid <==> NoPasswordErrors(errors)
  {
    var current, newer, confirm := fields.currentPassword, fields.newPassword, fields.confirmPassword;
    errors := PasswordErrors("", "", "");
    isValid := true;
    if IsBlank(current) {
      errors := errors.(currentPassword := CurrentRequired);
      isValid := false;
    }
    assert errors.currentPassword == Required(current, CurrentRequired);
    if IsBlank(newer) {
      errors := errors.(newPassword := NewRequired);
      isValid := false;
    } else if |newer| < MinPasswordLength {
      errors := errors.(newPassword := TooShort);
      isValid := false;
    }
    assert errors.newPassword == NewPasswordRule(newer);
    if IsBlank(confirm) {
      errors := errors.(confirmPassword := ConfirmRequired);
      isValid := false;
    } else if newer != confirm {
      errors := errors.(confirmPassword := Mismatch);
      isValid := false;
    }
    assert errors == PasswordErrors(Required(current, CurrentRequired), NewPasswordRule(newer), ConfirmRule(newer, confirm));
    assert isValid <==> NoPasswordErrors(errors);
    if newer == current && newer != "" {
      errors := errors.(newPassword := SameAsCurrent);
      isValid := false;
    }
  }

  /** `handlePasswordSubmit` and `handleProfileSubmit`: the body that would be sent, if the form is valid. */
  method SubmitPassword(fields: PasswordFields) returns (sent: Option<PasswordFields>)
    ensures sent.Some? <==> NoPasswordErrors(PasswordErrorsOf(fields))
    ensures sent.Some? ==> sent.value == fields
  {
    var errors, isValid := ValidatePasswordForm(fields);
    if !isValid {
      return None;
    }
    sent := Some(fields);
  }

  method SubmitProfile(fields: ProfileFields) returns (sent: Option<(string, string)>)
    ensures sent.Some? <==> NoProfileErrors(ProfileErrorsOf(fields))
    ensures sent.Some? ==> sent.value == (fields.firstName, fields.lastName)
  {
    var errors, isValid := ValidateProfileForm(fields);
    if !isValid {
      return None;
    }
    sent := Some((fields.firstName, fields.lastName));
  }
}
