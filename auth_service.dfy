/**
 * The account lifecycle of the API's authentication service: registration
 * with a six-digit e-mail verification code, login, a password-reset token,
 * e-mail verification and re-sending of the code, and reading the current
 * profile.
 *
 * The user table is a map from id to account held by an `AuthService`
 * object whose methods update it in place. The service's collaborators are
 * parameters: the clock (`now`, in milliseconds), `Math.random` (a real in
 * [0, 1)), `randomBytes(32)` (32 bytes), the bcrypt hash of a new password
 * (a value), bcrypt's compare (`passwordMatches`), JWT signing (`sign`) and
 * the id the database assigns to a new row (`freshId`). Thrown exceptions are
 * the `Err` side of a `Result`.
 */
module AuthService {
  import opened Common
  import opened Strings

  type Id = string

  /** Both tokens are valid for one hour. */
  const TokenLifetime: int := 3600000

  datatype Account = Account(
    id: Id,
    email: string,
    passwordHash: string,
    name: string,
    emailVerified: bool,
    emailToken: Option<string>,
    emailTokenExpires: Option<int>,
    resetToken: Option<string>,
    resetTokenExpires: Option<int>,
    theme: string,
    fontSize: string,
    createdAt: int,
    updatedAt: int)

  datatype AuthError =
    | Conflict(message: string)
    | Unauthorized(message: string)
    | BadRequest(message: string)
    | NotFound(message: string)

  const UserExists := "User with this email already exists"
  const Registered := "User registered successfully. Please verify your email."
  const InvalidCredentials := "Invalid email or password"
  const EmailNotVerified := "Please verify your email before logging in"
  const ResetLinkSent := "If the email exists, a password reset link has been sent."
  const PasswordsDiffer := "Passwords do not match"
  const InvalidResetToken := "Invalid or expired reset token"
  const PasswordReset := "Password has been reset successfully"
  const InvalidCode := "Invalid verification code"
  const AlreadyVerified := "Email is already verified"
  const EmailVerified := "Email verified successfully"
  const CodeResent := "If the email exists and is not verified, a new verification code has been sent."
  const UserNotFound := "User not found"

  /** The selections the service returns. */
  datatype NewUser = NewUser(id: Id, email: string, name: string, emailVerified: bool, createdAt: int)
  datatype SessionUser = SessionUser(id: Id, email: string, name: string, emailVerified: bool, theme: string, fontSize: string)
  datatype VerifiedUser = VerifiedUser(id: Id, email: string, name: string, emailVerified: bool)
  datatype Profile = Profile(
    id: Id, email: string, name: string, emailVerified: bool,
    theme: string, fontSize: string, createdAt: int, updatedAt: int)

  datatype RegisterReply = RegisterReply(message: string, user: NewUser, verificationToken: string)
  datatype LoginReply = LoginReply(accessToken: string, user: SessionUser)
  /** A message, and the token the development build hands back when one was issued. */
  datatype NoticeReply = NoticeReply(message: string, token: Option<string>)
  datatype VerifyReply = VerifyReply(message: string, user: VerifiedUser)

  // ---------------------------------------------------------------------
  // The store

  /** Every account is filed under its own id, and e-mail addresses are unique. */
  predicate WellFormedStore(users: map<Id, Account>) {
    (forall id :: id in users ==> users[id].id == id)
    && (forall i, j :: i in users && j in users && users[i].email == users[j].email ==> i == j)
  }

  /** A verified account holds no verification code. */
  predicate VerifiedHasNoToken(users: map<Id, Account>) {
    forall id :: id in users && users[id].emailVerified ==> users[id].emailToken.None?
  }

  /** `findUnique({ where: { email } })`. */
  function FindByEmail(users: map<Id, Account>, email: string): (r: Option<Id>)
    requires WellFormedStore(users)
    ensures r.Some? ==> r.value in users && users[r.value].email == email
    ensures r.None? ==> forall id :: id in users ==> users[id].email != email
  {
    if exists id :: id in users && users[id].email == email then
      var id :| id in users && users[id].email == email;
      Some(id)
    else None
  }

  /** The `findFirst` filter: the stored token equals the given one and expires strictly after `now`. */
  predicate Live(token: Option<string>, expires: Option<int>, given: string, now: int) {
    token == Some(given) && expires.Some? && expires.value > now
  }

  predicate LiveResetToken(a: Account, token: string, now: int) {
    Live(a.resetToken, a.resetTokenExpires, token, now)
  }

  predicate LiveEmailCode(a: Account, code: string, now: int) {
    Live(a.emailToken, a.emailTokenExpires, code, now)
  }

  // ---------------------------------------------------------------------
  // Generated secrets

  /** `Math.floor(100000 + Math.random() * 900000)`. */
  function CodeNumber(random: real): int {
    (100000.0 + random * 900000.0).Floor
  }

  /** Its decimal rendering, the verification code. */
  function VerificationCode(random: real): string
    requires 0.0 <= random < 1.0
  {
    NatToDecimal(if CodeNumber(random) < 0 then 0 else CodeNumber(random))
  }

  /** The code is a six-digit number between 100000 and 999999, and reads back as that number. */
  lemma VerificationCodeIsSixDigits(random: real)
    requires 0.0 <= random < 1.0
    ensures 100000 <= CodeNumber(random) <= 999999
    ensures |VerificationCode(random)| == 6 && AllDigits(VerificationCode(random))
    ensures DecimalValue(VerificationCode(random)) == CodeNumber(random)
  {
    var x := 100000.0 + random * 900000.0;
    assert 100000.0 <= x < 1000000.0;
    var n := CodeNumber(random);
    assert n as real <= x < n as real + 1.0;
    assert Pow10(5) == 100000 && Pow10(6) == 1000000;
    DecimalLength(n, 6);
    DecimalRoundTrip(n);
  }

  /** `randomBytes(32).toString('hex')`: 64 lower-case hex digits that determine the bytes. */
  function ResetTokenOf(bytes: seq<byte>): (t: string)
    requires |bytes| == 32
    ensures |t| == 64 && forall i :: 0 <= i < |t| ==> IsLowerHex(t[i])
  {
    Hex(bytes)
  }

  // ---------------------------------------------------------------------
  // The service

  class AuthService {
    var users: map<Id, Account>
    /** Column defaults the database fills in on creation. */
    const defaultTheme: string
    const defaultFontSize: string

    constructor (store: map<Id, Account>, theme: string, fontSize: string)
      requires WellFormedStore(store)
      ensures users == store && defaultTheme == theme && defaultFontSize == fontSize
    {
      users := store;
      defaultTheme := theme;
      defaultFontSize := fontSize;
    }

    /**
     * `register`: a Conflict for a taken address, else one new unverified
     * account holding a fresh code that expires an hour from now.
     */
    method Register(email: string, name: string, passwordHash: string, random: real, freshId: Id, now: int)
      returns (r: Result<RegisterReply, AuthError>)
      requires WellFormedStore(users)
      requires 0.0 <= random < 1.0 && freshId !in users
      modifies this
      ensures WellFormedStore(users)
      ensures VerifiedHasNoToken(old(users)) ==> VerifiedHasNoToken(users)
      ensures FindByEmail(old(users), email).Some? ==>
                r == Err(Conflict(UserExists)) && users == old(users)
      ensures FindByEmail(old(users), email).None? ==>
                var code := VerificationCode(random);
                && r == Ok(RegisterReply(Registered, NewUser(freshId, email, name, false, now), code))
                && users == old(users)[freshId := Account(freshId, email, passwordHash, name, false,
                                                          Some(code), Some(now + TokenLifetime), None, None,
                                                          defaultTheme, defaultFontSize, now, now)]
    {
      if FindByEmail(users, email).Some? {
        return Err(Conflict(UserExists));
      }
      var code := VerificationCode(random);
      var account := Account(freshId, email, passwordHash, name, false,
                             Some(code), Some(now + TokenLifetime), None, None,
                             defaultTheme, defaultFontSize, now, now);
      users := users[freshId := account];
      r := Ok(RegisterReply(Registered, NewUser(freshId, email, name, false, now), code));
    }

    /**
     * `login`: an unknown address and a wrong password get the same error; an
     * unverified address is refused only once the password matched. It only reads.
     */
    method Login(email: string, password: string,
                 passwordMatches: (string, string) -> bool, sign: (Id, string) -> string)
      returns (r: Result<LoginReply, AuthError>)
      requires WellFormedStore(users)
      ensures FindByEmail(users, email).None? ==> r == Err(Unauthorized(InvalidCredentials))
      ensures FindByEmail(users, email).Some? ==>
                var a := users[FindByEmail(users, email).value];
                if !passwordMatches(password, a.passwordHash) then r == Err(Unauthorized(InvalidCredentials))
                else if !a.emailVerified then r == Err(Unauthorized(EmailNotVerified))
                else r == Ok(LoginReply(sign(a.id, a.email),
                                        SessionUser(a.id, a.email, a.name, true, a.theme, a.fontSize)))
      ensures r.Ok? <==> exists id :: id in users && users[id].email == email
                                      && passwordMatches(password, users[id].passwordHash)
                                      && users[id].emailVerified
    {
      var found := FindByEmail(users, email);
      if found.None? {
        return Err(Unauthorized(InvalidCredentials));
      }
      var a := users[found.value];
      if !passwordMatches(password, a.passwordHash) {
        return Err(Unauthorized(InvalidCredentials));
      }
      if !a.emailVerified {
        return Err(Unauthorized(EmailNotVerified));
      }
      r := Ok(LoginReply(sign(a.id, a.email), SessionUser(a.id, a.email, a.name, a.emailVerified, a.theme, a.fontSize)));
    }

    /**
     * `forgotPassword`: the same message whether or not the address is known;
     * a known address gets a new reset token on its account only.
     */
    method ForgotPassword(email: string, bytes: seq<byte>, now: int) returns (r: NoticeReply)
      requires WellFormedStore(users)
      requires |bytes| == 32
      modifies this
      ensures WellFormedStore(users)
      ensures VerifiedHasNoToken(old(users)) ==> VerifiedHasNoToken(users)
      ensures r.message == ResetLinkSent
      ensures FindByEmail(old(users), email).None? ==> r.token == None && users == old(users)
      ensures FindByEmail(old(users), email).Some? ==>
                var id := FindByEmail(old(users), email).value;
                && r.token == Some(ResetTokenOf(bytes))
                && users == old(users)[id := old(users)[id].(resetToken := Some(ResetTokenOf(bytes)),
                                                             resetTokenExpires := Some(now + TokenLifetime))]
    {
      var found := FindByEmail(users, email);
      if found.None? {
        return NoticeReply(ResetLinkSent, None);
      }
      var id := found.value;
      var token := ResetTokenOf(bytes);
      users := users[id := users[id].(resetToken := Some(token), resetTokenExpires := Some(now + TokenLifetime))];
      r := NoticeReply(ResetLinkSent, Some(token));
    }

    /**
     * `resetPassword`: mismatched passwords are refused before any lookup; then
     * some account holding the token, unexpired, gets the new hash and loses its token.
     */
    method ResetPassword(token: string, password: string, confirmPassword: string, passwordHash: string, now: int)
      returns (r: Result<string, AuthError>)
      requires WellFormedStore(users)
      modifies this
      ensures WellFormedStore(users)
      ensures VerifiedHasNoToken(old(users)) ==> VerifiedHasNoToken(users)
      ensures password != confirmPassword ==> r == Err(BadRequest(PasswordsDiffer)) && users == old(users)
      ensures password == confirmPassword && (forall id :: id in old(users) ==> !LiveResetToken(old(users)[id], token, now)) ==>
                r == Err(BadRequest(InvalidResetToken)) && users == old(users)
      ensures r.Ok? <==> password == confirmPassword && exists id :: id in old(users) && LiveResetToken(old(users)[id], token, now)
      ensures r.Ok? ==>
                r.value == PasswordReset
                && exists id :: id in old(users) && LiveResetToken(old(users)[id], token, now)
                                && users == old(users)[id := old(users)[id].(passwordHash := passwordHash,
                                                                             resetToken := None,
                                                                             resetTokenExpires := None)]
    {
      if password != confirmPassword {
        return Err(BadRequest(PasswordsDiffer));
      }
      if !exists id :: id in users && LiveResetToken(users[id], token, now) {
        return Err(BadRequest(InvalidResetToken));
      }
      var id :| id in users && LiveResetToken(users[id], token, now);
      users := users[id := users[id].(passwordHash := passwordHash, resetToken := None, resetTokenExpires := None)];
      r := Ok(PasswordReset);
    }

    /**
     * `verifyEmail`: some account holding the code, unexpired, is marked verified
     * and loses its code; an account that is already verified is refused, which
     * cannot happen while verified accounts hold no code.
     */
    method VerifyEmail(code: string, now: int) returns (r: Result<VerifyReply, AuthError>)
      requires WellFormedStore(users)
      requires |code| == 6
      modifies this
      ensures WellFormedStore(users)
      ensures VerifiedHasNoToken(old(users)) ==> VerifiedHasNoToken(users)
      ensures r.Ok? || r == Err(BadRequest(InvalidCode)) || r == Err(BadRequest(AlreadyVerified))
      ensures r == Err(BadRequest(InvalidCode)) <==> forall id :: id in old(users) ==> !LiveEmailCode(old(users)[id], code, now)
      ensures r.Err? ==> users == old(users)
      ensures r == Err(BadRequest(AlreadyVerified)) ==>
                exists id :: id in old(users) && LiveEmailCode(old(users)[id], code, now) && old(users)[id].emailVerified
      ensures VerifiedHasNoToken(old(users)) ==> r != Err(BadRequest(AlreadyVerified))
      ensures r.Ok? ==>
                exists id :: id in old(users) && LiveEmailCode(old(users)[id], code, now) && !old(users)[id].emailVerified
                             && users == old(users)[id := old(users)[id].(emailVerified := true,
                                                                          emailToken := None,
                                                                          emailTokenExpires := None)]
                             && r.value == VerifyReply(EmailVerified, VerifiedUser(id, old(users)[id].email, old(users)[id].name, true))
    {
      if !exists id :: id in users && LiveEmailCode(users[id], code, now) {
        return Err(BadRequest(InvalidCode));
      }
      var id :| id in users && LiveEmailCode(users[id], code, now);
      var a := users[id];
      if a.emailVerified {
        return Err(BadRequest(AlreadyVerified));
      }
      users := users[id := a.(emailVerified := true, emailToken := None, emailTokenExpires := None)];
      r := Ok(VerifyReply(EmailVerified, VerifiedUser(a.id, a.email, a.name, true)));
    }

    /**
     * `resendVerification`: the generic message for an unknown address, a
     * BadRequest for a verified one, else a new code for that account only.
     */
    method ResendVerification(email: string, random: real, now: int) returns (r: Result<NoticeReply, AuthError>)
      requires WellFormedStore(users)
      requires 0.0 <= random < 1.0
      modifies this
      ensures WellFormedStore(users)
      ensures VerifiedHasNoToken(old(users)) ==> VerifiedHasNoToken(users)
      ensures FindByEmail(old(users), email).None? ==> r == Ok(NoticeReply(CodeResent, None)) && users == old(users)
      ensures FindByEmail(old(users), email).Some? ==>
                var id := FindByEmail(old(users), email).value;
                if old(users)[id].emailVerified then
                  r == Err(BadRequest(AlreadyVerified)) && users == old(users)
                else
                  var code := VerificationCode(random);
                  && r == Ok(NoticeReply(CodeResent, Some(code)))
                  && users == old(users)[id := old(users)[id].(emailToken := Some(code),
                                                               emailTokenExpires := Some(now + TokenLifetime))]
    {
      var found := FindByEmail(users, email);
      if found.None? {
        return Ok(NoticeReply(CodeResent, None));
      }
      var id := found.value;
      if users[id].emailVerified {
        return Err(BadRequest(AlreadyVerified));
      }
      var code := VerificationCode(random);
      users := users[id := users[id].(emailToken := Some(code), emailTokenExpires := Some(now + TokenLifetime))];
      r := Ok(NoticeReply(CodeResent, Some(code)));
    }

    /** `getCurrentUser`: the profile of the account with that id, or NotFound. */
    method GetCurrentUser(userId: Id) returns (r: Result<Profile, AuthError>)
      requires WellFormedStore(users)
      ensures userId !in users <==> r == Err(NotFound(UserNotFound))
      ensures userId in users ==>
                r.Ok? && r.value.id == userId
                && var a := users[userId];
                   r.value == Profile(a.id, a.email, a.name, a.emailVerified, a.theme, a.fontSize, a.createdAt, a.updatedAt)
    {
      if userId !in users {
        return Err(NotFound(UserNotFound));
      }
      var a := users[userId];
      r := Ok(Profile(a.id, a.email, a.name, a.emailVerified, a.theme, a.fontSize, a.createdAt, a.updatedAt));
    }
  }

  // ---------------------------------------------------------------------
  // Lifecycles across several calls

  /** An account added with a code no stored account holds is the only live holder of that code. */
  lemma OnlyHolderOfCode(store: map<Id, Account>, users: map<Id, Account>, freshId: Id, code: string, now: int)
    requires forall id :: id in store ==> store[id].emailToken != Some(code)
    requires freshId in users && users == store[freshId := users[freshId]]
    ensures forall id :: id in users && LiveEmailCode(users[id], code, now) ==> id == freshId
  {
  }

  /**
   * A new user who registers, enters the code before it expires and logs in
   * with the matching password gets a session, provided no other account
   * happens to hold the same code.
   */
  method SignUpThenLogIn(store: map<Id, Account>, theme: string, fontSize: string,
                         email: string, name: string, password: string, passwordHash: string,
                         random: real, freshId: Id, now: int, later: int,
                         passwordMatches: (string, string) -> bool, sign: (Id, string) -> string)
    returns (session: Result<LoginReply, AuthError>)
    requires WellFormedStore(store) && freshId !in store
    requires 0.0 <= random < 1.0
    requires forall id :: id in store ==> store[id].email != email
    requires forall id :: id in store ==> store[id].emailToken != Some(VerificationCode(random))
    requires now <= later < now + TokenLifetime
    requires passwordMatches(password, passwordHash)
    ensures session == Ok(LoginReply(sign(freshId, email), SessionUser(freshId, email, name, true, theme, fontSize)))
  {
    var service := new AuthService(store, theme, fontSize);
    assert FindByEmail(store, email).None?;
    var registered := service.Register(email, name, passwordHash, random, freshId, now);
    var code := VerificationCode(random);
    VerificationCodeIsSixDigits(random);
    ghost var before := service.users;
    ghost var account := before[freshId];
    assert account.email == email && !account.emailVerified && account.passwordHash == passwordHash;
    assert LiveEmailCode(account, code, later);
    OnlyHolderOfCode(store, before, freshId, code, later);
    var verified := service.VerifyEmail(code, later);
    assert verified != Err(BadRequest(InvalidCode));
    assert verified != Err(BadRequest(AlreadyVerified));
    ghost var id :| id in before && LiveEmailCode(before[id], code, later) && !before[id].emailVerified
                    && service.users == before[id := before[id].(emailVerified := true, emailToken := None, emailTokenExpires := None)];
    assert id == freshId;
    assert service.users[freshId] == account.(emailVerified := true, emailToken := None, emailTokenExpires := None);
    assert FindByEmail(service.users, email) == Some(freshId);
    session := service.Login(email, password, passwordMatches, sign);
  }

  /**
   * A verification code works once: after it verified an account, the same
   * code is refused, when no other account holds it.
   */
  method VerificationCodeIsSingleUse(store: map<Id, Account>, code: string, now: int, later: int)
    returns (first: Result<VerifyReply, AuthError>, second: Result<VerifyReply, AuthError>)
    requires WellFormedStore(store) && |code| == 6
    requires forall i, j ::
               (i in store && j in store && store[i].emailToken == Some(code) && store[j].emailToken == Some(code)) ==> i == j
    ensures first.Ok? ==> second == Err(BadRequest(InvalidCode))
  {
    var service := new AuthService(store, "", "");
    first := service.VerifyEmail(code, now);
    second := service.VerifyEmail(code, later);
  }

  /**
   * A reset token works once: after it reset a password, the same token is
   * refused, when no other account holds it.
   */
  method ResetTokenIsSingleUse(store: map<Id, Account>, token: string, password: string,
                               hash1: string, hash2: string, now: int, later: int)
    returns (first: Result<string, AuthError>, second: Result<string, AuthError>)
    requires WellFormedStore(store)
    requires forall i, j ::
               (i in store && j in store && store[i].resetToken == Some(token) && store[j].resetToken == Some(token)) ==> i == j
    ensures first.Ok? ==> second == Err(BadRequest(InvalidResetToken))
  {
    var service := new AuthService(store, "", "");
    first := service.ResetPassword(token, password, password, hash1, now);
    second := service.ResetPassword(token, password, password, hash2, later);
  }
}
