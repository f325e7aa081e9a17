/** The account handlers (`register`, `login`, `verifyEmail`,
    `requestPasswordReset`, `resetPassword` and `updateProfile`) as transitions of
    the `users` table, which is a map from row id to row. */
module UserController {
  import opened Wrappers
  import opened UserModel

  /** Equality of two nullable columns as a `findOne` on a non-null value sees it. */
  predicate SameToken(a: Option<string>, b: Option<string>)
  {
    a.Some? && a == b
  }

  /** Two different rows share no username, no email and no live token: the
      `unique` columns, and tokens drawn fresh at random. */
  predicate Apart(u: User, v: User)
  {
    && u.username != v.username
    && u.email != v.email
    && !SameToken(u.verificationToken, v.verificationToken)
    && !SameToken(u.resetToken, v.resetToken)
  }

  /** A stored row passes its validators, and holds a verification token exactly
      while it is unverified. */
  predicate RowInvariant(u: User, isEmail: string -> bool)
  {
    UserValid(u, isEmail) && (u.isVerified <==> u.verificationToken.None?)
  }

  /** The table: ids below the next auto-increment value, every row sound, and
      every two rows apart. */
  predicate TableInvariant(users: map<nat, User>, nextId: nat, isEmail: string -> bool)
  {
    && (forall id :: id in users ==> id < nextId && RowInvariant(users[id], isEmail))
    && (forall i, j :: i in users && j in users && i != j ==> Apart(users[i], users[j]))
  }

  /** A new row that is sound and apart from every row keeps the invariant. */
  lemma InsertKeepsInvariant(users: map<nat, User>, nextId: nat, isEmail: string -> bool, u: User)
    requires TableInvariant(users, nextId, isEmail)
    requires RowInvariant(u, isEmail)
    requires forall j :: j in users ==> Apart(u, users[j])
    ensures TableInvariant(users[nextId := u], nextId + 1, isEmail)
  {
  }

  /** A row replaced by a sound one apart from every other row keeps the invariant. */
  lemma ReplaceKeepsInvariant(users: map<nat, User>, nextId: nat, isEmail: string -> bool, id: nat, u: User)
    requires TableInvariant(users, nextId, isEmail) && id in users
    requires RowInvariant(u, isEmail)
    requires forall j :: j in users && j != id ==> Apart(u, users[j])
    ensures TableInvariant(users[id := u], nextId, isEmail)
  {
  }

  /** The login lookup `username = x OR email = x`. */
  predicate Identifies(u: User, identifier: string)
  {
    u.username == identifier || u.email == identifier
  }

  /** At most one row matches a login identifier: usernames and emails are each
      unique, and no username is an email. */
  lemma IdentifierUnique(users: map<nat, User>, nextId: nat, isEmail: string -> bool,
                         identifier: string, i: nat, j: nat)
    requires TableInvariant(users, nextId, isEmail)
    requires i in users && j in users
    requires Identifies(users[i], identifier) && Identifies(users[j], identifier)
    ensures i == j
  {
    if i != j {
      assert Apart(users[i], users[j]);
      if users[i].username == identifier {
        UsernameIsNoEmail(users[i].username, users[j].email);
      } else {
        UsernameIsNoEmail(users[j].username, users[i].email);
      }
    }
  }

  /** The body of a `register` request. An omitted optional field is `None`. */
  datatype Registration = Registration(
    username: string,
    email: string,
    password: string,
    fullName: string,
    businessName: Option<string>,
    businessType: Option<string>,
    phone: Option<string>,
    address: Option<string>)

  /** Some row already holds the requested email or username. */
  predicate RegistrationClash(users: map<nat, User>, r: Registration)
  {
    exists id :: id in users && (users[id].email == r.email || users[id].username == r.username)
  }

  /** `User.create`'s validation of the request. */
  predicate RegistrationValid(r: Registration, isEmail: string -> bool)
  {
    && UsernameValid(r.username)
    && EmailValid(r.email, isEmail)
    && PasswordValid(r.password)
    && FullNameValid(r.fullName)
    && PhoneValid(r.phone)
    && BusinessTypeOnCreate(r.businessType).Some?
  }

  /** The row `register` leaves in the table: created with the defaults and the
      hashed password, then given its verification token. */
  function NewAccount(r: Registration, token: string): (u: User)
    requires BusinessTypeOnCreate(r.businessType).Some?
    ensures !u.isVerified && u.verificationToken == Some(token)
    ensures u.resetToken.None? && u.resetExpiresMs.None?
    ensures CheckPassword(u.password, r.password)
    ensures u.username == r.username && u.email == r.email && u.fullName == r.fullName
    ensures u.businessName == r.businessName && u.phone == r.phone && u.address == r.address
    ensures r.businessType.None? ==> u.businessType == Personal
    ensures r.businessType.Some? ==> BusinessTypeName(u.businessType) == r.businessType.value
  {
    var created := User(r.username, r.email, Hash(r.password), r.fullName, r.businessName,
                        BusinessTypeOnCreate(r.businessType).value, r.phone, r.address,
                        false, None, None, None);
    GenerateVerificationToken(created, token)
  }

  /** The new account accepts its own password and no other. */
  lemma NewAccountPassword(r: Registration, token: string, attempt: string)
    requires BusinessTypeOnCreate(r.businessType).Some?
    ensures CheckPassword(NewAccount(r, token).password, attempt) <==> attempt == r.password
  {
  }

  /** `verifyEmail`'s change to the row holding the token. */
  function MarkVerified(u: User): (v: User)
    ensures v.isVerified && v.verificationToken.None?
    ensures v == u.(isVerified := true, verificationToken := None)
  {
    u.(isVerified := true, verificationToken := None)
  }

  /** The row `resetPassword` finds: the token matches and its expiry is strictly
      later than now. */
  predicate ResetAllowed(u: User, token: string, nowMs: int)
  {
    u.resetToken == Some(token) && u.resetExpiresMs.Some? && u.resetExpiresMs.value > nowMs
  }

  /** `resetPassword`'s change to the row: the new password, hashed by the
      `beforeUpdate` hook, and the reset token and expiry cleared. */
  function WithNewPassword(u: User, newPassword: string): (v: User)
    ensures CheckPassword(v.password, newPassword)
    ensures v.resetToken.None? && v.resetExpiresMs.None?
    ensures v == u.(password := v.password, resetToken := None, resetExpiresMs := None)
  {
    u.(password := Hash(newPassword), resetToken := None, resetExpiresMs := None)
  }

  /** A reset token is good for ten minutes after it is issued, and once used it
      is no longer found. */
  lemma ResetTokenLifecycle(u: User, token: string, issuedMs: int, nowMs: int, newPassword: string)
    ensures ResetAllowed(GenerateResetToken(u, token, issuedMs), token, nowMs) <==> nowMs < issuedMs + 600000
    ensures !ResetAllowed(WithNewPassword(u, newPassword), token, nowMs)
  {
  }

  /** A field of an `updateProfile` body that is set from the request as it
      comes, `null` included: omitted (`Keep`) or given. */
  datatype Patch<T> = Keep | Put(value: T)

  function Apply<T>(p: Patch<T>, current: T): T
  {
    if p.Put? then p.value else current
  }

  /** `value || current` on a string field: the empty (or omitted) value keeps the
      current one. */
  function OrCurrent(value: string, current: string): (r: string)
    ensures r == current || r == value
    ensures value != "" ==> r == value
  {
    if value != "" then value else current
  }

  /** The body of an `updateProfile` request; an omitted username, email or full
      name is `""`. */
  datatype ProfileChange = ProfileChange(
    username: string,
    email: string,
    fullName: string,
    businessName: Patch<Option<string>>,
    businessType: Patch<string>,
    phone: Patch<Option<string>>,
    address: Patch<Option<string>>)

  /** A username change that the uniqueness check refuses. */
  predicate UsernameTakenBy(users: map<nat, User>, u: User, p: ProfileChange)
  {
    p.username != "" && p.username != u.username && exists j :: j in users && users[j].username == p.username
  }

  /** An email change that the uniqueness check refuses. */
  predicate EmailTakenBy(users: map<nat, User>, u: User, p: ProfileChange)
  {
    p.email != "" && p.email != u.email && exists j :: j in users && users[j].email == p.email
  }

  /** A business type that the enumeration refuses. */
  predicate BusinessTypeRefused(p: ProfileChange)
  {
    p.businessType.Put? && ParseBusinessType(p.businessType.value).None?
  }

  /** The row after `user.update`, for a business type the enumeration accepts. */
  function Updated(u: User, p: ProfileChange): (v: User)
    requires !BusinessTypeRefused(p)
    ensures v.password == u.password && v.isVerified == u.isVerified
    ensures v.verificationToken == u.verificationToken
    ensures v.resetToken == u.resetToken && v.resetExpiresMs == u.resetExpiresMs
    ensures p.username != "" ==> v.username == p.username
    ensures p.username == "" ==> v.username == u.username
    ensures p.email != "" ==> v.email == p.email
    ensures p.email == "" ==> v.email == u.email
    ensures p.fullName != "" ==> v.fullName == p.fullName
    ensures p.fullName == "" ==> v.fullName == u.fullName
    ensures p.businessName.Put? ==> v.businessName == p.businessName.value
    ensures p.businessName.Keep? ==> v.businessName == u.businessName
    ensures p.businessType.Put? ==> BusinessTypeName(v.businessType) == p.businessType.value
    ensures p.businessType.Keep? ==> v.businessType == u.businessType
    ensures p.phone.Put? ==> v.phone == p.phone.value
    ensures p.phone.Keep? ==> v.phone == u.phone
    ensures p.address.Put? ==> v.address == p.address.value
    ensures p.address.Keep? ==> v.address == u.address
  {
    u.(username := OrCurrent(p.username, u.username),
       email := OrCurrent(p.email, u.email),
       fullName := OrCurrent(p.fullName, u.fullName),
       businessName := Apply(p.businessName, u.businessName),
       businessType := if p.businessType.Put? then ParseBusinessType(p.businessType.value).value else u.businessType,
       phone := Apply(p.phone, u.phone),
       address := Apply(p.address, u.address))
  }

  /** `save` validates only the fields that changed. */
  predicate ChangedFieldsValid(u: User, v: User, isEmail: string -> bool)
  {
    && (v.username != u.username ==> UsernameValid(v.username))
    && (v.email != u.email ==> EmailValid(v.email, isEmail))
    && (v.fullName != u.fullName ==> FullNameValid(v.fullName))
    && (v.phone != u.phone ==> PhoneValid(v.phone))
  }

  /** For a stored row that is sound, validating only the changed fields decides
      exactly what validating the whole updated row would. */
  lemma ChangedFieldsSuffice(u: User, p: ProfileChange, isEmail: string -> bool)
    requires RowInvariant(u, isEmail) && !BusinessTypeRefused(p)
    ensures ChangedFieldsValid(u, Updated(u, p), isEmail) <==> RowInvariant(Updated(u, p), isEmail)
  {
  }

  /** An update that passes both uniqueness checks leaves the row apart from
      every other row. */
  lemma UpdatedApart(users: map<nat, User>, nextId: nat, isEmail: string -> bool, id: nat, p: ProfileChange)
    requires TableInvariant(users, nextId, isEmail) && id in users
    requires !UsernameTakenBy(users, users[id], p) && !EmailTakenBy(users, users[id], p)
    requires !BusinessTypeRefused(p)
    ensures forall j :: j in users && j != id ==> Apart(Updated(users[id], p), users[j])
  {
    var v := Updated(users[id], p);
    forall j | j in users && j != id
      ensures Apart(v, users[j])
    {
      assert Apart(users[id], users[j]);
    }
  }

  datatype RegisterOutcome = AlreadyExists | RegistrationFailed | Registered(id: nat)
  datatype LoginOutcome = InvalidCredentials | NotVerified(verificationToken: Option<string>) | LoggedIn(id: nat)
  datatype VerifyOutcome = InvalidVerificationToken | EmailVerified
  datatype ResetRequestOutcome = UserNotFound | ResetTokenIssued(token: string)
  datatype ResetOutcome = InvalidOrExpiredToken | ResetFailed | PasswordReset
  datatype UpdateOutcome = UsernameTaken | EmailTaken | UpdateFailed | ProfileUpdated

  /** The `users` table and the handlers that read and change it. */
  class UserStore {
    var users: map<nat, User>
    var nextId: nat
    /** The library's email syntax check, which is not part of this model. */
    const isEmail: string -> bool

    ghost predicate Valid()
      reads this
    {
      TableInvariant(users, nextId, isEmail)
    }

    /** An empty table; SQLite's auto-increment starts at 1. */
    constructor (isEmail: string -> bool)
      ensures Valid() && users == map[] && nextId == 1 && this.isEmail == isEmail
    {
      users := map[];
      nextId := 1;
      this.isEmail := isEmail;
    }

    /** `register`: refused when a row holds the email or the username; a failing
        validator is a server error; otherwise one new unverified row holding the
        fresh verification token `token`. */
    method Register(r: Registration, token: string) returns (outcome: RegisterOutcome)
      requires Valid()
      requires forall id :: id in users ==> users[id].verificationToken != Some(token)
      modifies this
      ensures Valid()
      ensures outcome.AlreadyExists? <==> RegistrationClash(old(users), r)
      ensures outcome.RegistrationFailed? <==> !RegistrationClash(old(users), r) && !RegistrationValid(r, isEmail)
      ensures !outcome.Registered? ==> users == old(users) && nextId == old(nextId)
      ensures outcome.Registered? ==>
                && outcome.id == old(nextId) && nextId == old(nextId) + 1
                && users == old(users)[outcome.id := NewAccount(r, token)]
    {
      if id :| id in users && (users[id].email == r.email || users[id].username == r.username) {
        outcome := AlreadyExists;
        return;
      }
      if !RegistrationValid(r, isEmail) {
        outcome := RegistrationFailed;
        return;
      }
      var u := NewAccount(r, token);
      InsertKeepsInvariant(users, nextId, isEmail, u);
      users := users[nextId := u];
      outcome := Registered(nextId);
      nextId := nextId + 1;
    }

    /** `login`: an unknown identifier and a wrong password give the same answer;
        an unverified row is told so, with its token, only after its password
        checks out; only a verified row with the right password logs in. */
    method Login(identifier: string, password: string) returns (outcome: LoginOutcome)
      requires Valid()
      ensures outcome.InvalidCredentials? <==>
                !exists id :: id in users && Identifies(users[id], identifier) && CheckPassword(users[id].password, password)
      ensures forall id :: id in users && Identifies(users[id], identifier) && CheckPassword(users[id].password, password) ==>
                outcome == if users[id].isVerified then LoggedIn(id) else NotVerified(users[id].verificationToken)
    {
      if id :| id in users && Identifies(users[id], identifier) {
        forall j | j in users && Identifies(users[j], identifier)
          ensures j == id
        {
          IdentifierUnique(users, nextId, isEmail, identifier, id, j);
        }
        var u := users[id];
        if !CheckPassword(u.password, password) {
          outcome := InvalidCredentials;
        } else if !u.isVerified {
          outcome := NotVerified(u.verificationToken);
        } else {
          outcome := LoggedIn(id);
        }
      } else {
        outcome := InvalidCredentials;
      }
    }

    /** `verifyEmail`: the row holding the token becomes verified and loses the
        token, so the same token is refused the next time. */
    method VerifyEmail(token: string) returns (outcome: VerifyOutcome)
      requires Valid()
      modifies this
      ensures Valid() && nextId == old(nextId)
      ensures outcome.InvalidVerificationToken? <==>
                !exists id :: id in old(users) && old(users)[id].verificationToken == Some(token)
      ensures outcome.InvalidVerificationToken? ==> users == old(users)
      ensures forall id :: id in old(users) && old(users)[id].verificationToken == Some(token) ==>
                users == old(users)[id := MarkVerified(old(users)[id])]
      ensures forall id :: id in users ==> users[id].verificationToken != Some(token)
    {
      if id :| id in users && users[id].verificationToken == Some(token) {
        forall j | j in users && users[j].verificationToken == Some(token)
          ensures j == id
        {
          assert j != id ==> Apart(users[j], users[id]);
        }
        var u := MarkVerified(users[id]);
        ReplaceKeepsInvariant(users, nextId, isEmail, id, u);
        users := users[id := u];
        outcome := EmailVerified;
      } else {
        outcome := InvalidVerificationToken;
      }
    }

    /** `requestPasswordReset`: an unknown email is not found; otherwise the row
        receives the fresh reset token `token`, good for ten minutes from `nowMs`. */
    method RequestPasswordReset(email: string, token: string, nowMs: int) returns (outcome: ResetRequestOutcome)
      requires Valid()
      requires forall id :: id in users ==> users[id].resetToken != Some(token)
      modifies this
      ensures Valid() && nextId == old(nextId)
      ensures outcome.UserNotFound? <==> !exists id :: id in old(users) && old(users)[id].email == email
      ensures outcome.UserNotFound? ==> users == old(users)
      ensures forall id :: id in old(users) && old(users)[id].email == email ==>
                outcome == ResetTokenIssued(token) && users == old(users)[id := GenerateResetToken(old(users)[id], token, nowMs)]
    {
      if id :| id in users && users[id].email == email {
        forall j | j in users && users[j].email == email
          ensures j == id
        {
          assert j != id ==> Apart(users[j], users[id]);
        }
        var u := GenerateResetToken(users[id], token, nowMs);
        ReplaceKeepsInvariant(users, nextId, isEmail, id, u);
        users := users[id := u];
        outcome := ResetTokenIssued(token);
      } else {
        outcome := UserNotFound;
      }
    }

    /** `resetPassword`: only a matching token that has not expired is found; a
        new password that fails its validator is a server error that saves
        nothing; otherwise the password is replaced and the token used up. */
    method ResetPassword(token: string, newPassword: string, nowMs: int) returns (outcome: ResetOutcome)
      requires Valid()
      modifies this
      ensures Valid() && nextId == old(nextId)
      ensures outcome.InvalidOrExpiredToken? <==>
                !exists id :: id in old(users) && ResetAllowed(old(users)[id], token, nowMs)
      ensures outcome.ResetFailed? <==>
                (exists id :: id in old(users) && ResetAllowed(old(users)[id], token, nowMs)) && !PasswordValid(newPassword)
      ensures !outcome.PasswordReset? ==> users == old(users)
      ensures forall id :: id in old(users) && ResetAllowed(old(users)[id], token, nowMs) && PasswordValid(newPassword) ==>
                users == old(users)[id := WithNewPassword(old(users)[id], newPassword)]
      ensures outcome.PasswordReset? ==> forall id :: id in users ==> users[id].resetToken != Some(token)
    {
      if id :| id in users && ResetAllowed(users[id], token, nowMs) {
        forall j | j in users && ResetAllowed(users[j], token, nowMs)
          ensures j == id
        {
          assert j != id ==> Apart(users[j], users[id]);
        }
        if !PasswordValid(newPassword) {
          outcome := ResetFailed;
          return;
        }
        var u := WithNewPassword(users[id], newPassword);
        ReplaceKeepsInvariant(users, nextId, isEmail, id, u);
        users := users[id := u];
        outcome := PasswordReset;
      } else {
        outcome := InvalidOrExpiredToken;
      }
    }

    /** `updateProfile` for the signed-in row `id`: a changed username or email
        already in the table is refused, checked in that order; a refused field
        is a server error that saves nothing; otherwise the row is updated, an
        omitted username, email or full name keeping its current value. */
    method UpdateProfile(id: nat, p: ProfileChange) returns (outcome: UpdateOutcome)
      requires Valid() && id in users
      modifies this
      ensures Valid() && nextId == old(nextId)
      ensures outcome.UsernameTaken? <==> UsernameTakenBy(old(users), old(users)[id], p)
      ensures outcome.EmailTaken? <==>
                !UsernameTakenBy(old(users), old(users)[id], p) && EmailTakenBy(old(users), old(users)[id], p)
      ensures outcome.UpdateFailed? <==>
                && !UsernameTakenBy(old(users), old(users)[id], p) && !EmailTakenBy(old(users), old(users)[id], p)
                && (BusinessTypeRefused(p) || !UserValid(Updated(old(users)[id], p), isEmail))
      ensures !outcome.ProfileUpdated? ==> users == old(users)
      ensures outcome.ProfileUpdated? ==> users == old(users)[id := Updated(old(users)[id], p)]
    {
      var u := users[id];
      if UsernameTakenBy(users, u, p) {
        outcome := UsernameTaken;
        return;
      }
      if EmailTakenBy(users, u, p) {
        outcome := EmailTaken;
        return;
      }
      if BusinessTypeRefused(p) {
        outcome := UpdateFailed;
        return;
      }
      var v := Updated(u, p);
      ChangedFieldsSuffice(u, p, isEmail);
      if !ChangedFieldsValid(u, v, isEmail) {
        outcome := UpdateFailed;
        return;
      }
      UpdatedApart(users, nextId, isEmail, id, p);
      ReplaceKeepsInvariant(users, nextId, isEmail, id, v);
      users := users[id := v];
      outcome := ProfileUpdated;
    }
  }
}
