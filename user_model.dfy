/** The `User` model of the accounts database: the field validators that run
    before a row is created or a changed field is saved, the defaults, the
    password hashing hooks and the two token generators. */
module UserModel {
  import opened Wrappers
  import opened Text

  /** `business_type`: `ENUM('personal', 'business', 'enterprise')`. */
  datatype BusinessType = Personal | Business | Enterprise

  /** The string the database stores for each member of the enumeration. */
  function BusinessTypeName(t: BusinessType): string
  {
    match t
    case Personal => "personal"
    case Business => "business"
    case Enterprise => "enterprise"
  }

  /** The enumeration check: the member a string names, or `None` when the string
      is not one of the three allowed values. */
  function ParseBusinessType(s: string): (r: Option<BusinessType>)
    ensures r.Some? ==> BusinessTypeName(r.value) == s
  {
    if s == "personal" then Some(Personal)
    else if s == "business" then Some(Business)
    else if s == "enterprise" then Some(Enterprise)
    else None
  }

  /** Every member of the enumeration is accepted under its own name, and only
      its own name maps back to it. */
  lemma BusinessTypeRoundTrip(t: BusinessType, s: string)
    ensures ParseBusinessType(BusinessTypeName(t)) == Some(t)
    ensures ParseBusinessType(s) == Some(t) ==> s == BusinessTypeName(t)
  {
  }

  /** The business type a new row receives: the default `'personal'` when the
      field is omitted, the named member otherwise, and `None` (a validation
      error) for any other string. */
  function BusinessTypeOnCreate(given: Option<string>): (r: Option<BusinessType>)
    ensures given.None? ==> r == Some(Personal)
    ensures given.Some? ==> (r.Some? <==> given.value in {"personal", "business", "enterprise"})
  {
    if given.None? then Some(Personal) else ParseBusinessType(given.value)
  }

  /** `username`: `notEmpty`, `len: [6, 50]` and `/^[a-z]+$/`. */
  predicate UsernameValid(u: string)
  {
    6 <= |u| <= 50 && forall i :: 0 <= i < |u| ==> IsLowerLetter(u[i])
  }

  /** `email`: the library's `isEmail` check, which is not part of this model and
      is passed in, and the `'@gmail.com'` suffix. */
  predicate EmailValid(e: string, isEmail: string -> bool)
  {
    isEmail(e) && EndsWith(e, "@gmail.com")
  }

  /** `password`: `notEmpty`, `len: [8, 255]`, at least one ASCII letter and at
      least one digit; checked on the plain text, before hashing. */
  predicate PasswordValid(p: string)
  {
    && 8 <= |p| <= 255
    && (exists i :: 0 <= i < |p| && IsLetter(p[i]))
    && (exists i :: 0 <= i < |p| && IsDigit(p[i]))
  }

  /** `full_name`: `notEmpty`, which refuses a string of white space only. */
  predicate FullNameValid(n: string)
  {
    !Blank(n)
  }

  /** `/^[\+]?[1-9][\d]{0,15}$/`: an optional plus sign, a digit from 1 to 9,
      then at most fifteen more digits. */
  predicate PhoneFormat(s: string)
  {
    var digits := if |s| > 0 && s[0] == '+' then s[1..] else s;
    && 1 <= |digits| <= 16
    && '1' <= digits[0] <= '9'
    && forall i :: 1 <= i < |digits| ==> IsDigit(digits[i])
  }

  /** `phone` allows null, which skips the pattern; any string, the empty one
      included, must match it. */
  predicate PhoneValid(phone: Option<string>)
  {
    phone.None? || PhoneFormat(phone.value)
  }

  /** A number in the national format, with its leading zero, never matches. */
  lemma LeadingZeroRejected(s: string)
    requires |s| > 0 && s[0] == '0'
    ensures !PhoneFormat(s)
  {
  }

  /** A phone number that matches is one to seventeen characters long, all of
      them digits except a leading plus sign. */
  lemma PhoneFormatShape(s: string)
    requires PhoneFormat(s)
    ensures 1 <= |s| <= 17
    ensures forall i :: 0 <= i < |s| ==> IsDigit(s[i]) || (i == 0 && s[i] == '+')
  {
    if s[0] == '+' {
      assert forall i :: 1 <= i < |s| ==> s[i] == s[1..][i - 1];
    }
  }

  /** A valid username is never an address on the required domain, since it has
      no `'@'`: the login lookup by username or email cannot match one user's
      username and another user's email. */
  lemma UsernameIsNoEmail(u: string, e: string)
    requires UsernameValid(u) && EndsWith(e, "@gmail.com")
    ensures u != e
  {
    assert e[|e| - 10] == "@gmail.com"[0];
  }

  /** The stored password: what the `beforeCreate`/`beforeUpdate` hook makes of
      the plain text. The hash is taken to be exact, so `checkPassword` holds
      exactly for the plain text the digest was made from. */
  datatype Digest = Hashed(secret: string)

  function Hash(plain: string): Digest
  {
    Hashed(plain)
  }

  /** `checkPassword` */
  predicate CheckPassword(stored: Digest, attempt: string)
  {
    Hash(attempt) == stored
  }

  /** One `users` row (the `id` is its key in the table). */
  datatype User = User(
    username: string,
    email: string,
    password: Digest,
    fullName: string,
    businessName: Option<string>,
    businessType: BusinessType,
    phone: Option<string>,
    address: Option<string>,
    isVerified: bool,
    verificationToken: Option<string>,
    resetToken: Option<string>,
    resetExpiresMs: Option<int>)

  /** Every validated field of a row passes its validator (the business type is
      valid by construction); the password was valid as plain text. */
  predicate UserValid(u: User, isEmail: string -> bool)
  {
    && UsernameValid(u.username)
    && EmailValid(u.email, isEmail)
    && PasswordValid(u.password.secret)
    && FullNameValid(u.fullName)
    && PhoneValid(u.phone)
  }

  /** Ten minutes, the lifetime of a reset token. */
  const RESET_TOKEN_LIFETIME_MS: int := 10 * 60 * 1000

  /** `generateVerificationToken`, the random token being `token`. */
  function GenerateVerificationToken(u: User, token: string): (r: User)
    ensures r.verificationToken == Some(token)
    ensures r == u.(verificationToken := r.verificationToken)
  {
    u.(verificationToken := Some(token))
  }

  /** `generateResetToken`, the random token being `token` and the clock reading
      `nowMs`. */
  function GenerateResetToken(u: User, token: string, nowMs: int): (r: User)
    ensures r.resetToken == Some(token)
    ensures r.resetExpiresMs == Some(nowMs + 600000)
    ensures r == u.(resetToken := r.resetToken, resetExpiresMs := r.resetExpiresMs)
  {
    u.(resetToken := Some(token), resetExpiresMs := Some(nowMs + RESET_TOKEN_LIFETIME_MS))
  }

  /** A reset token is accepted while the clock is strictly before its expiry:
      for the ten minutes after it is issued, and never again afterwards. */
  lemma ResetTokenWindow(u: User, token: string, issuedMs: int, nowMs: int)
    ensures var r := GenerateResetToken(u, token, issuedMs);
      r.resetExpiresMs.value > nowMs <==> nowMs < issuedMs + 600000
  {
  }
}
