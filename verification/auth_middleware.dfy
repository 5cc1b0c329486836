/** The two request guards: `verifyToken`, which reads a Bearer token from
    the Authorization header and attaches the verified payload, and
    `verifyResourceAuthority`, which tests the attached role for one
    (resource, action) capability. */
module AuthMiddleware {
  import opened Common
  import opened Errors
  import opened Text
  import opened Roles
  import opened Users
  import opened UserRepository
  import opened AuthService
  import LegacyAuth

  function InvalidBearer(): Thrown {
    NotAuthorizedError("User", "Invalid Bearer token provided")
  }

  /** The header checks of `verifyToken`: a missing or empty header, a header
      not starting with "Bearer ", and an empty second space-separated field
      are refused; otherwise that field is the token. */
  function BearerToken(header: Option<string>): (r: Result<string>)
    ensures header.None? || header == Some("") ==> r == Err(NotAuthorizedError("User", "Authorization header required"))
    ensures header.Some? && header.value != "" && !StartsWith(header.value, "Bearer ") ==> r == Err(InvalidBearer())
    ensures r.Ok? ==> r.value != "" && ' ' !in r.value
    ensures r.Ok? <==>
              header.Some? && StartsWith(header.value, "Bearer ")
              && var parts := Split(header.value, ' '); |parts| >= 2 && parts[1] != ""
    ensures r.Ok? ==> r.value == Split(header.value, ' ')[1]
    ensures r.Err? ==> r.error.App? && r.error.cls == NotAuthorized
  {
    match header
    case None => Err(NotAuthorizedError("User", "Authorization header required"))
    case Some(h) =>
      if h == "" then Err(NotAuthorizedError("User", "Authorization header required"))
      else if !StartsWith(h, "Bearer ") then Err(InvalidBearer())
      else
        assert h[6] == ' ';
        SplitAtLeastTwo(h, ' ');
        var token := Split(h, ' ')[1];
        if token == "" then Err(InvalidBearer()) else Ok(token)
  }

  /** A header "Bearer " followed by `t` yields the first space-separated
      field of `t`, and is refused when that field is empty. */
  lemma {:induction false} BearerHeader(t: string)
    ensures var first := Split(t, ' ')[0];
      BearerToken(Some("Bearer " + t)) == if first == "" then Err(InvalidBearer()) else Ok(first)
  {
    var h := "Bearer " + t;
    assert h == "Bearer" + [' '] + t;
    SplitPrefix("Bearer", t, ' ');
    assert StartsWith(h, "Bearer ") by { assert h[..7] == "Bearer "; }
  }

  /** The header a client sends for a token is read back as that token, and
      so is one with further space-separated fields after it. */
  lemma {:induction false} BearerTokenRoundTrip(token: string, rest: string)
    requires token != "" && ' ' !in token
    ensures BearerToken(Some("Bearer " + token)) == Ok(token)
    ensures BearerToken(Some("Bearer " + token + " " + rest)) == Ok(token)
  {
    assert BearerToken(Some("Bearer " + token)) == Ok(token) by {
      BearerHeader(token);
    }
    assert BearerToken(Some("Bearer " + token + " " + rest)) == Ok(token) by {
      var t := token + " " + rest;
      assert "Bearer " + token + " " + rest == "Bearer " + t;
      assert t == token + [' '] + rest;
      SplitPrefix(token, rest, ' ');
      BearerHeader(t);
    }
  }

  /** After "Bearer ", the header is refused as an invalid Bearer token
      exactly when nothing follows or another space comes next. */
  lemma {:induction false} EmptyBearerRefused(t: string)
    ensures BearerToken(Some("Bearer " + t)) == Err(InvalidBearer()) <==> t == "" || t[0] == ' '
  {
    BearerHeader(t);
    if t == "" {
      assert Split(t, ' ') == [""];
    } else if t[0] == ' ' {
      assert t == "" + [' '] + t[1..];
      SplitPrefix("", t[1..], ' ');
    } else {
      assert Split(t, ' ')[0] == [t[0]] + Split(t[1..], ' ')[0];
    }
  }

  /** `verifyToken` as written: the payload comes from the legacy check,
      which ignores password changes. `verify` is the JWT library. */
  function VerifyTokenAsWritten(users: seq<User>, header: Option<string>, verify: string -> JwtVerdict): (r: Result<TokenPayload>)
    ensures BearerToken(header).Err? ==> r == Err(BearerToken(header).error)
    ensures BearerToken(header).Ok? ==> r == LegacyAuth.LegacyVerifyAccessToken(users, verify(BearerToken(header).value))
  {
    match BearerToken(header)
    case Err(e) => Err(e)
    case Ok(token) => LegacyAuth.LegacyVerifyAccessToken(users, verify(token))
  }

  /** `verifyToken` with the class's check, which also refuses tokens issued
      before the last password change. */
  function VerifyToken(users: seq<User>, header: Option<string>, verify: string -> JwtVerdict): (r: Result<TokenPayload>)
    ensures BearerToken(header).Err? ==> r == Err(BearerToken(header).error)
    ensures r.Ok? ==>
              BearerToken(header).Ok? && verify(BearerToken(header).value).Valid?
              && r.value == verify(BearerToken(header).value).payload
              && var found := FindByEmail(users, r.value.email);
              found.Some? && found.value.verified && found.value.enabled
              && !ChangedSinceIssue(found.value, verify(BearerToken(header).value).iat)
  {
    match BearerToken(header)
    case Err(e) => Err(e)
    case Ok(token) => VerifyAccessToken(users, verify(token))
  }

  /** After a password reset, a request carrying a token issued before it is
      still let through as written, and refused with the class's check. */
  lemma {:induction false} StaleTokenAfterReset(users: seq<User>, dto: NewPassword, hash: string -> string, now: int,
                             token: string, payload: TokenPayload, signedAt: nat, verify: string -> JwtVerdict)
    requires UniqueEmails(users)
    requires FindByEmail(users, dto.email).Some?
    requires FindByEmail(users, dto.email).value.verified && FindByEmail(users, dto.email).value.enabled
    requires ResetPassword(users, dto, hash, now).result.Ok?
    requires payload.email == dto.email && 1000 <= signedAt && IssuedAt(signedAt) * 1000 < now
    requires token != "" && ' ' !in token && verify(token) == Valid(payload, Some(IssuedAt(signedAt)))
    ensures var after := ResetPassword(users, dto, hash, now).users;
      VerifyTokenAsWritten(after, Some("Bearer " + token), verify) == Ok(payload)
      && VerifyToken(after, Some("Bearer " + token), verify).Err?
  {
    BearerTokenRoundTrip(token, "");
    LegacyAuth.TokenSurvivesReset(users, dto, hash, now, payload, signedAt);
  }

  function MissingRole(): Thrown {
    ForbiddenError("User", "User role information missing")
  }

  function NoPermission(res: Resource, act: Action): Thrown {
    ForbiddenError("User", "You do not have permission to " + ActionName(act) + " on resource " + ResourceName(res) + ".")
  }

  /** True when the attached payload carries a role with an authorities list. */
  predicate HasRoleInfo(user: Option<TokenPayload>) {
    user.Some? && user.value.role.Some? && user.value.role.value.authorities.Some?
  }

  /** `verifyResourceAuthority(res, act)` applied to the attached payload. */
  function RequireAuthority(user: Option<TokenPayload>, res: Resource, act: Action): (r: Result<()>)
    ensures !HasRoleInfo(user) ==> r == Err(MissingRole())
    ensures r.Ok? <==> HasRoleInfo(user) && HasAuthority(user.value.role.value.authorities.value, res, act)
    ensures HasRoleInfo(user) && r.Err? ==> r == Err(NoPermission(res, act))
  {
    if !HasRoleInfo(user) then Err(MissingRole())
    else if HasAuthority(user.value.role.value.authorities.value, res, act) then Ok(())
    else Err(NoPermission(res, act))
  }

  /** The guard's verdict does not depend on the order of the authorities,
      and adding authorities never turns a pass into a refusal. */
  lemma {:induction false} RequireAuthorityOrderAndGrowth(userId: Id, email: string, name: string,
                                       a: seq<Authority>, b: seq<Authority>, extra: seq<Authority>,
                                       res: Resource, act: Action)
    requires multiset(a) == multiset(b)
    ensures var claim := (auths: seq<Authority>) => Some(TokenPayload(userId, email, Some(RoleClaim(name, Some(auths)))));
      RequireAuthority(claim(a), res, act) == RequireAuthority(claim(b), res, act)
      && (RequireAuthority(claim(a), res, act).Ok? ==> RequireAuthority(claim(a + extra), res, act).Ok?)
  {
    HasAuthorityPermutation(a, b, res, act);
    HasAuthorityMonotone(a, extra, res, act);
  }
}
