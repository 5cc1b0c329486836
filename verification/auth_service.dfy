/** The account lifecycle of the `AuthService` class: login with lockout,
    registration, the three single-use token flows with their disambiguation
    when nothing matched, the token rollbacks and the checks made on an access
    token after its signature has been verified. The clock, the password
    hash, the password comparison, fresh identifiers and tokens, and the JWT
    library's verdict are parameters. */
module AuthService {
  import opened Common
  import opened Users
  import opened Errors
  import opened UserRepository
  import Roles
  import Mapper

  /** A transition: what the caller gets back and the collection afterwards. */
  datatype Step<T> = Step(result: Result<T>, users: seq<User>)

  datatype Credentials = Credentials(email: string, password: string)

  /** The role part of a token payload; a payload signed elsewhere may lack
      the role or its authorities. */
  datatype RoleClaim = RoleClaim(name: string, authorities: Option<seq<Roles.Authority>>)

  datatype TokenPayload = TokenPayload(userId: Id, email: string, role: Option<RoleClaim>)

  /** What is handed to the signer: the payload and the `sub` claim, if any. */
  datatype SignRequest = SignRequest(payload: TokenPayload, subject: Option<Id>)

  /** The JWT library's verdict on a presented token: a valid signature with
      its payload and `iat` claim (seconds), an expired token, or any other
      verification error with its message. */
  datatype JwtVerdict = Valid(payload: TokenPayload, iat: Option<int>) | Expired | Malformed(message: string)

  /** The number of consecutive failures at which the next login disables the account. */
  const MaxConsecutiveFailures := 3

  /** Lifetime of a verification token: 24 hours, in milliseconds. */
  const VerificationTtl := 24 * 60 * 60 * 1000

  /** Lifetime of a reset or unlock token: 10 minutes, in milliseconds. */
  const ShortTtl := 10 * 60 * 1000

  function BadCredentials(): Thrown {
    NotAuthorizedError("User", "Bad credentials")
  }

  function Unverified(): Thrown {
    NotAuthorizedError("User", "User must be verified")
  }

  function Disabled(): Thrown {
    NotAuthorizedError("User", "User is disabled")
  }

  function LockedOut(): Thrown {
    NotAuthorizedError("User", "User is disabled after three consecutive failures")
  }

  /** The update written when the lockout triggers. */
  const LockoutSet := NoChange.(enabled := Some(false), loginConsecutiveFailures := Some(0))

  function RoleClaimOf(v: Mapper.RoleView): RoleClaim {
    RoleClaim(v.name, Some(v.authorities))
  }

  /** A user who passes the checks made before the password is compared. */
  predicate MayAttempt(u: User) {
    u.verified && u.enabled && u.loginConsecutiveFailures != MaxConsecutiveFailures
  }

  /** `loginUser`. The class signs with `sub` set to the user id
      (`withSubject`); the legacy module does not. */
  function Authenticate(users: seq<User>, roles: seq<Roles.Role>, dto: Credentials, compare: (string, string) -> bool,
                 withSubject: bool): (r: Step<SignRequest>)
    ensures FindByEmail(users, dto.email).None? ==> r == Step(Err(BadCredentials()), users)
    ensures var found := FindByEmail(users, dto.email);
      found.Some? && !found.value.verified ==> r == Step(Err(Unverified()), users)
    ensures var found := FindByEmail(users, dto.email);
      found.Some? && found.value.verified && !found.value.enabled ==> r == Step(Err(Disabled()), users)
    ensures var found := FindByEmail(users, dto.email);
      found.Some? && found.value.verified && found.value.enabled
        && found.value.loginConsecutiveFailures == MaxConsecutiveFailures
      ==> r == Step(Err(LockedOut()), UpdateUserByEmail(users, dto.email, LockoutSet).users)
    ensures var found := FindByEmail(users, dto.email);
      found.Some? && MayAttempt(found.value) && !compare(dto.password, found.value.password)
      ==> r == Step(Err(BadCredentials()),
                    UpdateUserByEmail(users, dto.email,
                      NoChange.(loginConsecutiveFailures := Some(found.value.loginConsecutiveFailures + 1))).users)
    ensures r.result.Ok? <==>
      var found := FindByEmail(users, dto.email);
      found.Some? && MayAttempt(found.value) && compare(dto.password, found.value.password)
      && FindRoleById(roles, found.value.role).Some?
    ensures r.result.Ok? ==>
      var u := FindByEmail(users, dto.email).value;
      var role := FindRoleById(roles, u.role).value;
      r.result.value.payload == TokenPayload(u.id, u.email, Some(RoleClaim(role.name, Some(role.authorities))))
      && r.result.value.subject == (if withSubject then Some(u.id) else None)
      && FindByEmail(r.users, dto.email) == Some(u.(loginConsecutiveFailures := 0))
  {
    match FindByEmail(users, dto.email)
    case None => Step(Err(BadCredentials()), users)
    case Some(u) =>
      if !u.verified then Step(Err(Unverified()), users)
      else if !u.enabled then Step(Err(Disabled()), users)
      else if u.loginConsecutiveFailures == MaxConsecutiveFailures then
        Step(Err(LockedOut()), UpdateUserByEmail(users, dto.email, LockoutSet).users)
      else if !compare(dto.password, u.password) then
        Step(Err(BadCredentials()),
             UpdateUserByEmail(users, dto.email, NoChange.(loginConsecutiveFailures := Some(u.loginConsecutiveFailures + 1))).users)
      else
        var after := if u.loginConsecutiveFailures != 0
          then UpdateUserByEmail(users, dto.email, NoChange.(loginConsecutiveFailures := Some(0))).users
          else users;
        FindAfterUpdate(users, dto.email, NoChange.(loginConsecutiveFailures := Some(0)));
        assert u.(loginConsecutiveFailures := 0) == Apply(u, NoChange.(loginConsecutiveFailures := Some(0)));
        match Mapper.PopulatedRole(u, roles)
        case Err(e) => Step(Err(e), after)
        case Ok(role) =>
          var payload := TokenPayload(u.id, u.email, Some(RoleClaimOf(Mapper.ToRoleView(role))));
          Step(Ok(SignRequest(payload, if withSubject then Some(u.id) else None)), after)
  }

  /** Once the counter stands at three, the outcome does not depend on the
      password presented: the password is never compared. */
  lemma {:induction false} LockoutIgnoresPassword(users: seq<User>, roles: seq<Roles.Role>, email: string, p1: string, p2: string,
                               compare: (string, string) -> bool, withSubject: bool)
    requires FindByEmail(users, email).Some? && FindByEmail(users, email).value.loginConsecutiveFailures == MaxConsecutiveFailures
    ensures Authenticate(users, roles, Credentials(email, p1), compare, withSubject)
         == Authenticate(users, roles, Credentials(email, p2), compare, withSubject)
  {
  }

  /** After three wrong passwords in a row, the fourth attempt fails even with
      the right password, and leaves the account disabled with the counter reset. */
  lemma {:induction false} FourthAttemptLockedOut(users: seq<User>, roles: seq<Roles.Role>, email: string, u: User,
                               wrong: string, right: string,
                               compare: (string, string) -> bool, withSubject: bool)
    returns (s1: Step<SignRequest>, s2: Step<SignRequest>, s3: Step<SignRequest>, s4: Step<SignRequest>)
    requires FindByEmail(users, email) == Some(u)
    requires u.verified && u.enabled && u.loginConsecutiveFailures == 0
    requires !compare(wrong, u.password) && compare(right, u.password)
    ensures s1 == Authenticate(users, roles, Credentials(email, wrong), compare, withSubject)
    ensures s2 == Authenticate(s1.users, roles, Credentials(email, wrong), compare, withSubject)
    ensures s3 == Authenticate(s2.users, roles, Credentials(email, wrong), compare, withSubject)
    ensures s4 == Authenticate(s3.users, roles, Credentials(email, right), compare, withSubject)
    ensures s1.result == Err(BadCredentials()) && s2.result == Err(BadCredentials()) && s3.result == Err(BadCredentials())
    ensures s4.result == Err(LockedOut())
    ensures FindByEmail(s4.users, email) == Some(u.(enabled := false))
  {
    s1, s2, s3 := ThreeWrongPasswords(users, roles, email, u, wrong, compare, withSubject);
    s4 := LockoutStep(s3.users, roles, email, right, compare, withSubject, u.(loginConsecutiveFailures := 3));
  }

  /** Three wrong passwords in a row from a fresh counter: three "Bad
      credentials", and the stored counter stands at three. */
  lemma {:induction false} ThreeWrongPasswords(users: seq<User>, roles: seq<Roles.Role>, email: string, u: User, wrong: string,
                                               compare: (string, string) -> bool, withSubject: bool)
    returns (s1: Step<SignRequest>, s2: Step<SignRequest>, s3: Step<SignRequest>)
    requires FindByEmail(users, email) == Some(u)
    requires u.verified && u.enabled && u.loginConsecutiveFailures == 0
    requires !compare(wrong, u.password)
    ensures s1 == Authenticate(users, roles, Credentials(email, wrong), compare, withSubject)
    ensures s2 == Authenticate(s1.users, roles, Credentials(email, wrong), compare, withSubject)
    ensures s3 == Authenticate(s2.users, roles, Credentials(email, wrong), compare, withSubject)
    ensures s1.result == Err(BadCredentials()) && s2.result == Err(BadCredentials()) && s3.result == Err(BadCredentials())
    ensures FindByEmail(s3.users, email) == Some(u.(loginConsecutiveFailures := 3))
  {
    s1 := WrongPasswordStep(users, roles, email, wrong, compare, withSubject, u);
    var u1 := u.(loginConsecutiveFailures := u.loginConsecutiveFailures + 1);
    s2 := WrongPasswordStep(s1.users, roles, email, wrong, compare, withSubject, u1);
    var u2 := u1.(loginConsecutiveFailures := u1.loginConsecutiveFailures + 1);
    s3 := WrongPasswordStep(s2.users, roles, email, wrong, compare, withSubject, u2);
    assert u2.(loginConsecutiveFailures := u2.loginConsecutiveFailures + 1) == u.(loginConsecutiveFailures := 3);
  }

  /** One wrong password: "Bad credentials", and the stored counter goes up by one. */
  lemma {:induction false} WrongPasswordStep(users: seq<User>, roles: seq<Roles.Role>, email: string, wrong: string,
                          compare: (string, string) -> bool, withSubject: bool, u: User)
    returns (s: Step<SignRequest>)
    requires FindByEmail(users, email) == Some(u) && MayAttempt(u) && !compare(wrong, u.password)
    ensures s == Authenticate(users, roles, Credentials(email, wrong), compare, withSubject)
    ensures s.result == Err(BadCredentials())
    ensures FindByEmail(s.users, email) == Some(u.(loginConsecutiveFailures := u.loginConsecutiveFailures + 1))
  {
    s := Authenticate(users, roles, Credentials(email, wrong), compare, withSubject);
    FindAfterUpdate(users, email, NoChange.(loginConsecutiveFailures := Some(u.loginConsecutiveFailures + 1)));
  }

  /** A login at counter three: the lockout error, and the stored user is
      disabled with the counter back at zero. */
  lemma {:induction false} LockoutStep(users: seq<User>, roles: seq<Roles.Role>, email: string, password: string,
                    compare: (string, string) -> bool, withSubject: bool, u: User)
    returns (s: Step<SignRequest>)
    requires FindByEmail(users, email) == Some(u) && u.verified && u.enabled
    requires u.loginConsecutiveFailures == MaxConsecutiveFailures
    ensures s == Authenticate(users, roles, Credentials(email, password), compare, withSubject)
    ensures s.result == Err(LockedOut())
    ensures FindByEmail(s.users, email) == Some(u.(enabled := false, loginConsecutiveFailures := 0))
  {
    s := Authenticate(users, roles, Credentials(email, password), compare, withSubject);
    FindAfterUpdate(users, email, LockoutSet);
  }

  /** The registration body after validation. */
  datatype Registration = Registration(email: string, vat: string, password: string, profile: Option<Profile>)

  /** The role every self-registered user receives. */
  const ClientRole := "CLIENT"

  /** The document `registerUser` stores. */
  function Registered(dto: Registration, hash: string -> string, id: Id, role: Id, token: string, now: int): (u: User)
    ensures u.verification == TokenPair(Some(token), Some(now + VerificationTtl))
    ensures u.password == hash(dto.password) && u.passwordChangedAt == now
    ensures u.email == dto.email && u.vat == dto.vat && u.role == role && !u.enabled && !u.verified
  {
    NewUser(id, dto.email, dto.vat, hash(dto.password), role, dto.profile, now,
            TokenPair(Some(token), Some(now + VerificationTtl)))
  }

  /** `registerUser`: email uniqueness, then VAT uniqueness, then the CLIENT
      role; `missingRole` is what the version at hand throws when that role
      is absent. Nothing is stored unless every check passes. */
  function RegisterWith(users: seq<User>, roles: seq<Roles.Role>, dto: Registration, hash: string -> string,
                    id: Id, token: string, now: int, missingRole: Thrown): (r: Step<Mapper.BaseUserWithVerification>)
    ensures r.result.Err? ==> r.users == users
    ensures !IsValidEmail(users, dto.email) ==>
      r.result == Err(AlreadyExistsError("User", "User with email " + dto.email + " already exists"))
    ensures IsValidEmail(users, dto.email) && !IsValidVat(users, dto.vat) ==>
      r.result == Err(AlreadyExistsError("User", "User with vat " + dto.vat + " already exists"))
    ensures IsValidEmail(users, dto.email) && IsValidVat(users, dto.vat) && FindRoleByName(roles, ClientRole).None? ==>
      r.result == Err(missingRole)
    ensures r.result.Ok? ==>
      FindRoleByName(roles, ClientRole).Some?
      && var u := Registered(dto, hash, id, FindRoleByName(roles, ClientRole).value.id, token, now);
      r.users == users + [u]
      && r.result.value == Mapper.BaseUserWithVerification(id, dto.email, false, false, token)
    ensures r.result.Ok? ==> forall i :: 0 <= i < |users| ==> users[i].id != id
  {
    if !IsValidEmail(users, dto.email) then
      Step(Err(AlreadyExistsError("User", "User with email " + dto.email + " already exists")), users)
    else if !IsValidVat(users, dto.vat) then
      Step(Err(AlreadyExistsError("User", "User with vat " + dto.vat + " already exists")), users)
    else
      match FindRoleByName(roles, ClientRole)
      case None => Step(Err(missingRole), users)
      case Some(role) =>
        var u := Registered(dto, hash, id, role.id, token, now);
        match Create(users, u)
        case Err(e) => Step(Err(e), users)
        case Ok(after) => Step(Ok(Mapper.ToBaseUserWithVerification(u)), after)
  }

  /** With fresh email, VAT and id and the CLIENT role present, registration
      succeeds, and the new user can be found by email in its initial state. */
  lemma {:induction false} RegisterFresh(users: seq<User>, roles: seq<Roles.Role>, dto: Registration, hash: string -> string,
                      id: Id, token: string, now: int, missingRole: Thrown)
    requires IsValidEmail(users, dto.email) && IsValidVat(users, dto.vat)
    requires forall i :: 0 <= i < |users| ==> users[i].id != id
    requires FindRoleByName(roles, ClientRole).Some?
    ensures var r := RegisterWith(users, roles, dto, hash, id, token, now, missingRole);
      r.result.Ok?
      && var u := FindByEmail(r.users, dto.email);
      u.Some? && !u.value.enabled && !u.value.verified && u.value.loginConsecutiveFailures == 0
      && u.value.verification == TokenPair(Some(token), Some(now + VerificationTtl))
  {
    var r := RegisterWith(users, roles, dto, hash, id, token, now, missingRole);
    var u := Registered(dto, hash, id, FindRoleByName(roles, ClientRole).value.id, token, now);
    assert !Collides(users, u);
    var p := (x: User) => x.email == dto.email;
    assert r.users == users + [u];
    assert p(r.users[|users|]);
    assert forall j :: 0 <= j < |users| ==> !p(r.users[j]);
    assert IndexOfEmail(r.users, dto.email) == Some(|users|);
  }

  /** The body of a verify, reset or unlock request. */
  datatype Redemption = Redemption(email: string, token: string)

  /** What happens to the account when its token turned out to be expired. */
  datatype OnExpiry = DeleteAccount | ClearToken

  function TokenNotFound(): Thrown {
    NotFoundError("Token", "Token not found")
  }

  function UserNotFound(email: string): Thrown {
    NotFoundError("User", "User with email " + email + " not found")
  }

  /** True when some user with this email holds this live token of `kind`. */
  /** The messages of the three expired-token refusals. */
  const VerificationExpired := "Verification token expired. Please register again."
  const ResetExpired := "Password reset token expired. Please start the recovery process again."
  const UnlockExpired := "Enable user reset token expired. Please start the recovery process again."

  predicate Redeemable(users: seq<User>, kind: TokenKind, dto: Redemption, now: int) {
    exists i :: 0 <= i < |users| && users[i].email == dto.email && TokenLive(users[i], kind, dto.token, now)
  }

  /** The pattern shared by `verifyAccount`, `resetPasswordAfterRecovery` and
      `unlockAccount`: an atomic conditional update and, when it matched
      nothing, a second look at the user to say why. */
  function Redeem(users: seq<User>, kind: TokenKind, dto: Redemption, now: int, s: UserSet,
                  onExpiry: OnExpiry, expired: string): (r: Step<()>)
    ensures r.result.Ok? <==> Redeemable(users, kind, dto, now)
    ensures r.result.Ok? ==> r.users == ConsumeToken(users, kind, dto.email, dto.token, now, s).users
    ensures onExpiry == ClearToken ==> |r.users| == |users|
    ensures !Redeemable(users, kind, dto, now) ==>
      var found := FindByEmail(users, dto.email);
      if found.Some? && found.value.Pair(kind).token != Some(dto.token) then
        r == Step(Err(TokenNotFound()), users)
      else if found.Some? && found.value.Pair(kind).expires.Some? && found.value.Pair(kind).expires.value < now then
        r.result == Err(NotAuthorizedError("Token", expired))
        && r.users == (match onExpiry
                       case DeleteAccount => DeleteByEmail(users, dto.email).0
                       case ClearToken => UpdateUserByEmail(users, dto.email, SetPair(kind, NoToken)).users)
      else
        r == Step(Err(UserNotFound(dto.email)), users)
  {
    var attempt := ConsumeToken(users, kind, dto.email, dto.token, now, s);
    if attempt.doc.Some? then Step(Ok(()), attempt.users)
    else
      match FindByEmail(users, dto.email)
      case Some(u) =>
        if u.Pair(kind).token != Some(dto.token) then Step(Err(TokenNotFound()), users)
        else if u.Pair(kind).expires.Some? && u.Pair(kind).expires.value < now then
          var after := match onExpiry
            case DeleteAccount => DeleteByEmail(users, dto.email).0
            case ClearToken => UpdateUserByEmail(users, dto.email, SetPair(kind, NoToken)).users;
          Step(Err(NotAuthorizedError("Token", expired)), after)
        else Step(Err(UserNotFound(dto.email)), users)
      case None => Step(Err(UserNotFound(dto.email)), users)
  }

  /** `verifyAccount`: a match enables and verifies the user and clears the
      verification pair; an expired token deletes the account. */
  function VerifyAccount(users: seq<User>, dto: Redemption, now: int): (r: Step<()>)
    ensures r.result.Ok? <==> Redeemable(users, Verification, dto, now)
    ensures r.result.Ok? ==>
      exists k :: 0 <= k < |users| && users[k].email == dto.email
        && r.users == users[k := users[k].(enabled := true, verified := true, verification := NoToken)]
    ensures r.result == Err(NotAuthorizedError("Token", VerificationExpired)) ==>
      r.users == DeleteByEmail(users, dto.email).0 && FindByEmail(users, dto.email).Some?
  {
    var r := Redeem(users, Verification, dto, now, VerifiedSet, DeleteAccount,
                    VerificationExpired);
    ConsumeTokenFrame(users, Verification, dto.email, dto.token, now, VerifiedSet);
    r
  }

  /** Why a verification fails, read off the first user with the email: a
      different token is "Token not found" and changes nothing; an expired
      one deletes that user; otherwise (no such user, or a token expiring
      exactly now) the user is reported missing and nothing changes. */
  lemma {:induction false} VerifyAccountRefusals(users: seq<User>, dto: Redemption, now: int)
    ensures (forall i :: 0 <= i < |users| ==> users[i].email != dto.email) ==>
      VerifyAccount(users, dto, now) == Step(Err(UserNotFound(dto.email)), users)
    ensures forall k: nat {:trigger EmailFirstAt(users, dto.email, k)} ::
      EmailFirstAt(users, dto.email, k) && !Redeemable(users, Verification, dto, now) ==>
        var u := users[k];
        VerifyAccount(users, dto, now) ==
          if u.verification.token != Some(dto.token) then Step(Err(TokenNotFound()), users)
          else if u.verification.expires.Some? && u.verification.expires.value < now then
            Step(Err(NotAuthorizedError("Token", VerificationExpired)), RemoveAt(users, k))
          else Step(Err(UserNotFound(dto.email)), users)
  {
    forall k: nat | EmailFirstAt(users, dto.email, k) && !Redeemable(users, Verification, dto, now)
      ensures var u := users[k];
        VerifyAccount(users, dto, now) ==
          if u.verification.token != Some(dto.token) then Step(Err(TokenNotFound()), users)
          else if u.verification.expires.Some? && u.verification.expires.value < now then
            Step(Err(NotAuthorizedError("Token", VerificationExpired)), RemoveAt(users, k))
          else Step(Err(UserNotFound(dto.email)), users)
    {
      assert FindByEmail(users, dto.email) == Some(users[k]);
    }
  }

  /** A verification token works once: with unique emails, presenting it a
      second time fails with "Token not found" and changes nothing. */
  lemma {:induction false} VerifyAccountSingleUse(users: seq<User>, dto: Redemption, now: int, later: int)
    requires UniqueEmails(users)
    requires VerifyAccount(users, dto, now).result.Ok?
    ensures var r1 := VerifyAccount(users, dto, now);
      VerifyAccount(r1.users, dto, later) == Step(Err(TokenNotFound()), r1.users)
  {
    var r1 := VerifyAccount(users, dto, now);
    var k :| 0 <= k < |users| && users[k].email == dto.email
      && r1.users == users[k := users[k].(enabled := true, verified := true, verification := NoToken)];
    SingleUseAfterConsume(users, r1.users, k, Verification, dto, later);
  }

  /** Helper: once the only user with this email holds no token of `kind`,
      the token cannot be redeemed and the lookup reports a token mismatch. */
  lemma {:induction false} SingleUseAfterConsume(users: seq<User>, after: seq<User>, k: nat, kind: TokenKind, dto: Redemption, later: int)
    requires UniqueEmails(users) && k < |users| && users[k].email == dto.email
    requires |after| == |users| && after[k].email == dto.email && after[k].Pair(kind) == NoToken
    requires forall j :: 0 <= j < |users| && j != k ==> after[j] == users[j]
    ensures !Redeemable(after, kind, dto, later)
    ensures FindByEmail(after, dto.email) == Some(after[k])
  {
    var p := (x: User) => x.email == dto.email;
    assert forall j :: 0 <= j < k ==> !p(after[j]);
    assert IndexOfEmail(after, dto.email) == Some(k);
  }

  /** No two users share an email (the unique index of the collection). */
  predicate UniqueEmails(users: seq<User>) {
    forall i, j :: 0 <= i < j < |users| ==> users[i].email != users[j].email
  }

  /** A token whose expiry equals the clock is neither accepted nor reported
      as expired: the caller is told the user does not exist. */
  lemma {:induction false} ExpiryAtClockReportsMissingUser(users: seq<User>, dto: Redemption, now: int)
    requires UniqueEmails(users)
    requires FindByEmail(users, dto.email).Some?
    requires FindByEmail(users, dto.email).value.verification == TokenPair(Some(dto.token), Some(now))
    ensures VerifyAccount(users, dto, now) == Step(Err(UserNotFound(dto.email)), users)
  {
    var u := FindByEmail(users, dto.email).value;
    forall i | 0 <= i < |users| && users[i].email == dto.email
      ensures !TokenLive(users[i], Verification, dto.token, now)
    {
      assert users[i] == u;
    }
  }

  /** An expired verification token removes the account: afterwards the
      email is free for a new registration. */
  lemma {:induction false} ExpiredVerificationFreesEmail(users: seq<User>, dto: Redemption, now: int)
    requires UniqueEmails(users)
    requires FindByEmail(users, dto.email).Some?
    requires var p := FindByEmail(users, dto.email).value.verification;
      p.token == Some(dto.token) && p.expires.Some? && p.expires.value < now
    ensures var r := VerifyAccount(users, dto, now);
      r.result.Err? && IsValidEmail(r.users, dto.email)
  {
    var u := FindByEmail(users, dto.email).value;
    var k := IndexOfEmail(users, dto.email).value;
    forall i | 0 <= i < |users| && users[i].email == dto.email
      ensures !TokenLive(users[i], Verification, dto.token, now) && i == k
    {
    }
    var r := VerifyAccount(users, dto, now);
    assert r.users == RemoveAt(users, k);
    forall i | 0 <= i < |r.users| ensures r.users[i].email != dto.email {
      if i < k { assert r.users[i] == users[i]; } else { assert r.users[i] == users[i + 1]; }
    }
  }

  /** The body of a password reset request. */
  datatype NewPassword = NewPassword(email: string, token: string, newPassword: string)

  /** `resetPasswordAfterRecovery`: a match stores the new hash, stamps the
      change time and clears the reset pair; an expired token only clears the pair. */
  function ResetPassword(users: seq<User>, dto: NewPassword, hash: string -> string, now: int): (r: Step<()>)
    ensures r.result.Ok? <==> Redeemable(users, PasswordReset, Redemption(dto.email, dto.token), now)
    ensures r.result.Ok? ==>
      exists k :: 0 <= k < |users| && users[k].email == dto.email
        && r.users == users[k := users[k].(password := hash(dto.newPassword), passwordChangedAt := now, passwordReset := NoToken)]
    ensures |r.users| == |users|
  {
    var s := NoChange.(password := Some(hash(dto.newPassword)), passwordChangedAt := Some(now));
    var r := Redeem(users, PasswordReset, Redemption(dto.email, dto.token), now, s, ClearToken,
                    ResetExpired);
    ConsumeTokenFrame(users, PasswordReset, dto.email, dto.token, now, s);
    r
  }

  /** `unlockAccount`: a match enables the user and clears the unlock pair;
      an expired token only clears the pair. */
  function UnlockAccount(users: seq<User>, dto: Redemption, now: int): (r: Step<()>)
    ensures r.result.Ok? <==> Redeemable(users, EnableUser, dto, now)
    ensures r.result.Ok? ==>
      exists k :: 0 <= k < |users| && users[k].email == dto.email
        && r.users == users[k := users[k].(enabled := true, enableUser := NoToken)]
    ensures |r.users| == |users|
  {
    var r := Redeem(users, EnableUser, dto, now, EnabledSet, ClearToken,
                    UnlockExpired);
    ConsumeTokenFrame(users, EnableUser, dto.email, dto.token, now, EnabledSet);
    r
  }

  /** Why an unlock fails, read off the first user with the email: a
      different token is "Token not found" and changes nothing; an expired
      one only clears that user's unlock pair; otherwise the user is
      reported missing and nothing changes. */
  lemma {:induction false} UnlockAccountRefusals(users: seq<User>, dto: Redemption, now: int)
    ensures (forall i :: 0 <= i < |users| ==> users[i].email != dto.email) ==>
      UnlockAccount(users, dto, now) == Step(Err(UserNotFound(dto.email)), users)
    ensures forall k: nat {:trigger EmailFirstAt(users, dto.email, k)} ::
      EmailFirstAt(users, dto.email, k) && !Redeemable(users, EnableUser, dto, now) ==>
        var u := users[k];
        UnlockAccount(users, dto, now) ==
          if u.enableUser.token != Some(dto.token) then Step(Err(TokenNotFound()), users)
          else if u.enableUser.expires.Some? && u.enableUser.expires.value < now then
            Step(Err(NotAuthorizedError("Token", UnlockExpired)), users[k := u.(enableUser := NoToken)])
          else Step(Err(UserNotFound(dto.email)), users)
  {
    forall k: nat | EmailFirstAt(users, dto.email, k) && !Redeemable(users, EnableUser, dto, now)
      ensures var u := users[k];
        UnlockAccount(users, dto, now) ==
          if u.enableUser.token != Some(dto.token) then Step(Err(TokenNotFound()), users)
          else if u.enableUser.expires.Some? && u.enableUser.expires.value < now then
            Step(Err(NotAuthorizedError("Token", UnlockExpired)), users[k := u.(enableUser := NoToken)])
          else Step(Err(UserNotFound(dto.email)), users)
    {
      assert FindByEmail(users, dto.email) == Some(users[k]);
      assert Apply(users[k], SetPair(EnableUser, NoToken)) == users[k].(enableUser := NoToken);
    }
  }

  /** Why a password reset fails, read off the first user with the email: a
      different token is "Token not found" and changes nothing; an expired
      one only clears that user's reset pair, leaving the password as it
      was; otherwise the user is reported missing and nothing changes. */
  lemma {:induction false} ResetPasswordRefusals(users: seq<User>, dto: NewPassword, hash: string -> string, now: int)
    ensures (forall i :: 0 <= i < |users| ==> users[i].email != dto.email) ==>
      ResetPassword(users, dto, hash, now) == Step(Err(UserNotFound(dto.email)), users)
    ensures forall k: nat {:trigger EmailFirstAt(users, dto.email, k)} ::
      EmailFirstAt(users, dto.email, k) && !Redeemable(users, PasswordReset, Redemption(dto.email, dto.token), now) ==>
        var u := users[k];
        ResetPassword(users, dto, hash, now) ==
          if u.passwordReset.token != Some(dto.token) then Step(Err(TokenNotFound()), users)
          else if u.passwordReset.expires.Some? && u.passwordReset.expires.value < now then
            Step(Err(NotAuthorizedError("Token", ResetExpired)), users[k := u.(passwordReset := NoToken)])
          else Step(Err(UserNotFound(dto.email)), users)
  {
    forall k: nat | EmailFirstAt(users, dto.email, k) && !Redeemable(users, PasswordReset, Redemption(dto.email, dto.token), now)
      ensures var u := users[k];
        ResetPassword(users, dto, hash, now) ==
          if u.passwordReset.token != Some(dto.token) then Step(Err(TokenNotFound()), users)
          else if u.passwordReset.expires.Some? && u.passwordReset.expires.value < now then
            Step(Err(NotAuthorizedError("Token", ResetExpired)), users[k := u.(passwordReset := NoToken)])
          else Step(Err(UserNotFound(dto.email)), users)
    {
      assert FindByEmail(users, dto.email) == Some(users[k]);
      assert Apply(users[k], SetPair(PasswordReset, NoToken)) == users[k].(passwordReset := NoToken);
    }
  }

  /** `recoverPassword`: issues a reset token valid for ten minutes, or
      returns `null` for an unknown email without changing anything. */
  function RecoverPassword(users: seq<User>, email: string, token: string, now: int): (r: Step<Option<User>>)
    ensures r.result.Ok?
    ensures r.result.value.None? <==> forall i :: 0 <= i < |users| ==> users[i].email != email
    ensures r.result.value.None? ==> r.users == users
    ensures r.result.value.Some? ==>
      r.result.value.value.passwordReset == TokenPair(Some(token), Some(now + ShortTtl))
      && FindByEmail(r.users, email) == r.result.value
  {
    var s := SetPair(PasswordReset, TokenPair(Some(token), Some(now + ShortTtl)));
    FindAfterUpdate(users, email, s);
    var upd := UpdateUserByEmail(users, email, s);
    Step(Ok(upd.doc), upd.users)
  }

  /** `requestUnlock`: `null` without changes for an unknown or already
      enabled user, otherwise an unlock token valid for ten minutes. */
  function RequestUnlock(users: seq<User>, email: string, token: string, now: int): (r: Step<Option<User>>)
    ensures r.result.Ok?
    ensures r.result.value.None? <==> FindByEmail(users, email).None? || FindByEmail(users, email).value.enabled
    ensures r.result.value.None? ==> r.users == users
    ensures r.result.value.Some? ==>
      r.result.value.value.enableUser == TokenPair(Some(token), Some(now + ShortTtl))
      && FindByEmail(r.users, email) == r.result.value
  {
    match FindByEmail(users, email)
    case None => Step(Ok(None), users)
    case Some(u) =>
      if u.enabled then Step(Ok(None), users)
      else
        var s := SetPair(EnableUser, TokenPair(Some(token), Some(now + ShortTtl)));
        FindAfterUpdate(users, u.email, s);
        var upd := UpdateUserByEmail(users, u.email, s);
        Step(Ok(upd.doc), upd.users)
  }

  /** The two rollbacks: clear one token pair of the user with this email. */
  function ClearPair(users: seq<User>, email: string, kind: TokenKind): (r: seq<User>)
    ensures |r| == |users|
    ensures forall j :: 0 <= j < |users| && users[j].email != email ==> r[j] == users[j]
    ensures FindByEmail(users, email).Some? ==>
      var before := FindByEmail(users, email).value;
      var after := FindByEmail(r, email);
      after.Some? && after.value.Pair(kind) == NoToken
      && forall k :: k != kind ==> after.value.Pair(k) == before.Pair(k)
  {
    FindAfterUpdate(users, email, SetPair(kind, NoToken));
    UpdateUserByEmail(users, email, SetPair(kind, NoToken)).users
  }

  function RollbackRecoverPassword(users: seq<User>, email: string): seq<User> {
    ClearPair(users, email, PasswordReset)
  }

  function RollbackEnableUserToken(users: seq<User>, email: string): seq<User> {
    ClearPair(users, email, EnableUser)
  }

  /** Writing a token pair into the user with this email and then clearing
      it restores the collection, when that user held no such pair before. */
  lemma {:induction false} IssueThenClear(users: seq<User>, email: string, kind: TokenKind, p: TokenPair)
    requires FindByEmail(users, email).Some? ==> FindByEmail(users, email).value.Pair(kind) == NoToken
    ensures ClearPair(UpdateUserByEmail(users, email, SetPair(kind, p)).users, email, kind) == users
  {
    var at := IndexOfEmail(users, email);
    if at.Some? {
      var k := at.value;
      var mid := UpdateUserByEmail(users, email, SetPair(kind, p)).users;
      var q := (u: User) => u.email == email;
      assert mid == users[k := Apply(users[k], SetPair(kind, p))];
      assert forall j :: 0 <= j < k ==> mid[j] == users[j] && !q(mid[j]);
      assert q(mid[k]);
      assert IndexOfEmail(mid, email) == Some(k);
      SetThenClear(users[k], kind, p);
    }
  }

  /** Setting a pair the user did not hold and clearing it again gives back the user. */
  lemma {:induction false} SetThenClear(u: User, kind: TokenKind, p: TokenPair)
    requires u.Pair(kind) == NoToken
    ensures Apply(Apply(u, SetPair(kind, p)), SetPair(kind, NoToken)) == u
  {
    match kind
    case Verification =>
    case PasswordReset =>
    case EnableUser =>
  }

  /** Issuing a reset token and rolling it back restores the collection when
      the user held no reset token before. */
  lemma {:induction false} RecoverThenRollback(users: seq<User>, email: string, token: string, now: int)
    requires FindByEmail(users, email).Some? ==> FindByEmail(users, email).value.passwordReset == NoToken
    ensures RollbackRecoverPassword(RecoverPassword(users, email, token, now).users, email) == users
  {
    IssueThenClear(users, email, PasswordReset, TokenPair(Some(token), Some(now + ShortTtl)));
  }

  /** Issuing an unlock token and rolling it back restores the collection. */
  lemma {:induction false} RequestUnlockThenRollback(users: seq<User>, email: string, token: string, now: int)
    requires FindByEmail(users, email).Some? ==> FindByEmail(users, email).value.enableUser == NoToken
    ensures RollbackEnableUserToken(RequestUnlock(users, email, token, now).users, email) == users
  {
    var found := FindByEmail(users, email);
    if found.Some? && !found.value.enabled {
      IssueThenClear(users, email, EnableUser, TokenPair(Some(token), Some(now + ShortTtl)));
    } else if found.Some? {
      var k := IndexOfEmail(users, email).value;
      assert ClearPair(users, email, EnableUser) == users by {
        assert Apply(users[k], SetPair(EnableUser, NoToken)) == users[k];
      }
    }
  }

  /** True when the password changed after the second in which the token was
      issued. A zero or absent `iat` is falsy, so the test is skipped. */
  predicate ChangedSinceIssue(u: User, iat: Option<int>) {
    iat.Some? && iat.value != 0 && u.passwordChangedAt > iat.value * 1000
  }

  /** `verifyAccessToken` after the signature check. The class also refuses
      tokens issued before the last password change (`checkPasswordChange`);
      the legacy module does not. */
  function CheckAccessToken(users: seq<User>, verdict: JwtVerdict, checkPasswordChange: bool): (r: Result<TokenPayload>)
    ensures verdict.Expired? ==> r == Err(NotAuthorizedError("Token", "JWT token has expired"))
    ensures verdict.Malformed? ==> r == Err(NotAuthorizedError("Token", verdict.message))
    ensures r.Ok? <==>
      verdict.Valid?
      && var found := FindByEmail(users, verdict.payload.email);
      found.Some? && found.value.verified && found.value.enabled
      && !(checkPasswordChange && ChangedSinceIssue(found.value, verdict.iat))
    ensures r.Ok? ==> r.value == verdict.payload
    ensures r.Err? ==> r.error.App? && r.error.cls == NotAuthorized
  {
    match verdict
    case Expired => Err(NotAuthorizedError("Token", "JWT token has expired"))
    case Malformed(message) => Err(NotAuthorizedError("Token", message))
    case Valid(payload, iat) =>
      match FindByEmail(users, payload.email)
      case None => Err(BadCredentials())
      case Some(u) =>
        if !u.verified then Err(NotAuthorizedError("User", "User not verified"))
        else if !u.enabled then Err(Disabled())
        else if checkPasswordChange && ChangedSinceIssue(u, iat) then
          Err(NotAuthorizedError("User", "The password has changed. Please login again."))
        else Ok(payload)
  }

  /** The `iat` claim the signer puts in a token signed at `signedAt` (ms). */
  function IssuedAt(signedAt: nat): (iat: nat)
    ensures iat * 1000 <= signedAt < iat * 1000 + 1000
  {
    signedAt / 1000
  }

  /** A token signed in an earlier second than a successful password reset
      is refused by the class afterwards. */
  lemma {:induction false} ResetRevokesOlderTokens(users: seq<User>, dto: NewPassword, hash: string -> string, now: int,
                                payload: TokenPayload, signedAt: nat)
    requires UniqueEmails(users)
    requires ResetPassword(users, dto, hash, now).result.Ok?
    requires payload.email == dto.email && 1000 <= signedAt && IssuedAt(signedAt) * 1000 < now
    ensures VerifyAccessToken(ResetPassword(users, dto, hash, now).users, Valid(payload, Some(IssuedAt(signedAt)))).Err?
  {
    ResetStoresPassword(users, dto, hash, now);
  }

  /** With unique emails, after a successful reset the email finds the same
      user with the new hash, the change time stamped and no reset pair. */
  lemma {:induction false} ResetStoresPassword(users: seq<User>, dto: NewPassword, hash: string -> string, now: int)
    requires UniqueEmails(users)
    requires ResetPassword(users, dto, hash, now).result.Ok?
    ensures FindByEmail(users, dto.email).Some?
    ensures FindByEmail(ResetPassword(users, dto, hash, now).users, dto.email)
         == Some(FindByEmail(users, dto.email).value.(password := hash(dto.newPassword), passwordChangedAt := now,
                                                      passwordReset := NoToken))
  {
    var r := ResetPassword(users, dto, hash, now);
    var k :| 0 <= k < |users| && users[k].email == dto.email
      && r.users == users[k := users[k].(password := hash(dto.newPassword), passwordChangedAt := now, passwordReset := NoToken)];
    FindAfterOverwrite(users, dto.email, k, users[k].(password := hash(dto.newPassword), passwordChangedAt := now,
                                                      passwordReset := NoToken));
  }

  /** Because `iat` has second granularity, a token obtained by logging in
      200 ms after a password change, within the same second, is refused
      as if it predated the change. */
  lemma {:induction false} SameSecondLoginRefused(u: User, payload: TokenPayload)
    requires u.email == payload.email && u.verified && u.enabled
    requires u.passwordChangedAt == 5500
    ensures IssuedAt(5700) == 5
    ensures VerifyAccessToken([u], Valid(payload, Some(IssuedAt(5700))))
         == Err(NotAuthorizedError("User", "The password has changed. Please login again."))
  {
    assert FindByEmail([u], payload.email) == Some(u) by {
      assert IndexOfEmail([u], payload.email) == Some(0);
    }
  }

  /** The class's `loginUser`: the signed token names the user as its subject. */
  function LoginUser(users: seq<User>, roles: seq<Roles.Role>, dto: Credentials, compare: (string, string) -> bool): (r: Step<SignRequest>)
    ensures r.result.Ok? ==> r.result.value.subject == Some(r.result.value.payload.userId)
    ensures r.result.Ok? ==> FindByEmail(users, dto.email).Some? && compare(dto.password, FindByEmail(users, dto.email).value.password)
  {
    Authenticate(users, roles, dto, compare, true)
  }

  /** The class's `registerUser`. */
  function RegisterUser(users: seq<User>, roles: seq<Roles.Role>, dto: Registration, hash: string -> string,
                        id: Id, token: string, now: int): (r: Step<Mapper.BaseUserWithVerification>)
    ensures IsValidEmail(users, dto.email) && IsValidVat(users, dto.vat) && FindRoleByName(roles, ClientRole).None? ==>
      r == Step(Err(NotFoundError("Role", "Role with name \"CLIENT\" not found")), users)
    ensures r.result.Ok? ==> r.result.value.verificationToken == token && !r.result.value.verified
  {
    RegisterWith(users, roles, dto, hash, id, token, now, NotFoundError("Role", "Role with name \"CLIENT\" not found"))
  }

  /** The class's `verifyAccessToken`: a token issued before the last
      password change is refused. */
  function VerifyAccessToken(users: seq<User>, verdict: JwtVerdict): (r: Result<TokenPayload>)
    ensures r.Ok? ==>
              verdict.Valid? && FindByEmail(users, verdict.payload.email).Some?
              && !ChangedSinceIssue(FindByEmail(users, verdict.payload.email).value, verdict.iat)
    ensures verdict.Valid? && FindByEmail(users, verdict.payload.email).Some? ==>
      var u := FindByEmail(users, verdict.payload.email).value;
      u.verified && u.enabled && ChangedSinceIssue(u, verdict.iat) ==>
        r == Err(NotAuthorizedError("User", "The password has changed. Please login again."))
  {
    CheckAccessToken(users, verdict, true)
  }
}
