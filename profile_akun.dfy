/** The account-profile form (`ProfileAkun`): its `validateForm`, which checks the
    username, the email and the full name before the profile is sent, each field
    through an `if`/`else if` chain. */
module AccountProfileForm {
  import opened Wrappers
  import opened Text
  import opened FormErrors
  import UserModel

  /** The form's state. */
  datatype AccountForm = AccountForm(username: string, email: string, fullName: string)

  /** The keys `validateForm` records messages under. */
  datatype Field = UsernameField | EmailField | FullNameField

  const USERNAME_REQUIRED := "Username harus diisi"
  const USERNAME_TOO_SHORT := "Username minimal 3 karakter"
  const EMAIL_REQUIRED := "Email harus diisi"
  const EMAIL_MALFORMED := "Format email tidak valid"
  const FULL_NAME_REQUIRED := "Nama lengkap harus diisi"

  /** No white space in `s[from..to]`. */
  predicate NoSpaceIn(s: string, from: int, to: int)
  {
    forall k :: from <= k < to && 0 <= k < |s| ==> !IsSpace(s[k])
  }

  /** `/\S+@\S+\.\S+/.test(s)`, a search anywhere in `s`. A match exists exactly
      when one exists with a single character before the `'@'` and a single one
      after the `'.'`, which is the form written here: an `'@'` at `at` and a `'.'`
      at `dot`, a non-space character before the `'@'`, a non-empty run of
      non-space characters between them, and a non-space character after the `'.'`. */
  predicate EmailShape(s: string)
  {
    exists at, dot ::
      && 0 < at && at + 1 < dot && dot + 1 < |s|
      && s[at] == '@' && s[dot] == '.'
      && !IsSpace(s[at - 1]) && NoSpaceIn(s, at + 1, dot) && !IsSpace(s[dot + 1])
  }

  /** What the form accepts: a username with something other than white space and
      at least three characters counted before trimming, an email with something
      other than white space that contains the pattern, and a full name with
      something other than white space. */
  predicate Acceptable(f: AccountForm)
  {
    UsernameAcceptable(f.username) && !Blank(f.email) && EmailShape(f.email) && !Blank(f.fullName)
  }

  predicate UsernameAcceptable(username: string)
  {
    !Blank(username) && |username| >= 3
  }

  /** The username's `if`/`else if` chain: "required" for a blank username, else
      "too short" below three characters counted before trimming. */
  method CheckUsername(username: string) returns (r: Option<string>)
    ensures r.None? <==> !Blank(username) && |username| >= 3
    ensures r.Some? ==> r.value == if Blank(username) then USERNAME_REQUIRED else USERNAME_TOO_SHORT
  {
    TrimEmptyIffBlank(username);
    if Trim(username) == "" {
      r := Some(USERNAME_REQUIRED);
    } else if |username| < 3 {
      r := Some(USERNAME_TOO_SHORT);
    } else {
      r := None;
    }
  }

  /** The email's `if`/`else if` chain: "required" for a blank email, else
      "malformed" when the pattern is not found. */
  method CheckEmail(email: string) returns (r: Option<string>)
    ensures r.None? <==> !Blank(email) && EmailShape(email)
    ensures r.Some? ==> r.value == if Blank(email) then EMAIL_REQUIRED else EMAIL_MALFORMED
  {
    TrimEmptyIffBlank(email);
    if Trim(email) == "" {
      r := Some(EMAIL_REQUIRED);
    } else if !EmailShape(email) {
      r := Some(EMAIL_MALFORMED);
    } else {
      r := None;
    }
  }

  /** The full name's check: "required" for a blank full name. */
  method CheckFullName(fullName: string) returns (r: Option<string>)
    ensures r.None? <==> !Blank(fullName)
    ensures r.Some? ==> r.value == FULL_NAME_REQUIRED
  {
    TrimEmptyIffBlank(fullName);
    if Trim(fullName) == "" {
      r := Some(FULL_NAME_REQUIRED);
    } else {
      r := None;
    }
  }

  /** `validateForm`: at most one message per field, the "required" message taking
      precedence; valid exactly when no message was recorded. */
  method ValidateForm(f: AccountForm) returns (errors: map<Field, string>, valid: bool)
    ensures UsernameField in errors <==> Blank(f.username) || |f.username| < 3
    ensures EmailField in errors <==> Blank(f.email) || !EmailShape(f.email)
    ensures FullNameField in errors <==> Blank(f.fullName)
    ensures UsernameField in errors ==>
              errors[UsernameField] == if Blank(f.username) then USERNAME_REQUIRED else USERNAME_TOO_SHORT
    ensures EmailField in errors ==>
              errors[EmailField] == if Blank(f.email) then EMAIL_REQUIRED else EMAIL_MALFORMED
    ensures FullNameField in errors ==> errors[FullNameField] == FULL_NAME_REQUIRED
    ensures valid <==> errors == map[]
    ensures valid <==> Acceptable(f)
  {
    errors := map[];
    var username := CheckUsername(f.username);
    if username.Some? {
      errors := errors[UsernameField := username.value];
    }
    var email := CheckEmail(f.email);
    if email.Some? {
      errors := errors[EmailField := email.value];
    }
    var fullName := CheckFullName(f.fullName);
    if fullName.Some? {
      errors := errors[FullNameField := fullName.value];
    }
    valid := |errors| == 0;
    NoKeysIffEmpty(errors);
    assert errors == map[] <==> UsernameField !in errors && EmailField !in errors && FullNameField !in errors;
  }

  /** Every address on the domain the `User` model requires passes the pattern
      when its local part ends in a non-space character. */
  lemma GmailAddressHasShape(local: string)
    requires |local| > 0 && !IsSpace(local[|local| - 1])
    ensures EmailShape(local + "@gmail.com")
  {
    var s := local + "@gmail.com";
    var at, dot := |local|, |local| + 6;
    assert s[at] == '@' && s[dot] == '.' && s[at - 1] == local[|local| - 1] && s[dot + 1] == 'c';
    assert NoSpaceIn(s, at + 1, dot) by {
      forall k | at + 1 <= k < dot
        ensures !IsSpace(s[k])
      {
        assert s[k] == "@gmail.com"[k - |local|];
      }
    }
  }

  /** Text without an `'@'` never passes the pattern. */
  lemma NoAtNoShape(s: string)
    requires forall i :: 0 <= i < |s| ==> s[i] != '@'
    ensures !EmailShape(s)
  {
  }

  /** The form's username rule is far weaker than the `User` model's: a
      three-character username with a capital letter passes the form, and the
      length is measured before trimming, so two letters after a space pass too. */
  lemma UsernameRuleWeakerThanModel()
    ensures UsernameAcceptable("Bob") && !UserModel.UsernameValid("Bob")
    ensures UsernameAcceptable(" ab") && Trim(" ab") == "ab"
  {
    assert !IsSpace("Bob"[0]);
    assert !IsSpace(" ab"[1]);
  }
}
