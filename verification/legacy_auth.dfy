/** The legacy `auth.services` module. Its verification, recovery, reset,
    unlock and rollback operations perform the same transitions as the class
    (they write `null` where the class writes `undefined`; both clear the
    pair) and are modelled by the class's members. What differs is modelled
    here: tokens are signed without a subject, a missing CLIENT role is
    reported through the role lookup, and access tokens are not checked
    against the last password change. */
module LegacyAuth {
  import opened Common
  import opened Users
  import opened Errors
  import opened UserRepository
  import Roles
  import Mapper
  import opened AuthService

  /** The legacy `loginUser`: the signed token carries no subject. */
  function LegacyLogin(users: seq<User>, roles: seq<Roles.Role>, dto: Credentials, compare: (string, string) -> bool): (r: Step<SignRequest>)
    ensures r.result.Ok? ==> r.result.value.subject.None?
    ensures r.result.Ok? ==> FindByEmail(users, dto.email).Some? && compare(dto.password, FindByEmail(users, dto.email).value.password)
  {
    Authenticate(users, roles, dto, compare, false)
  }

  /** Both logins make the same decision, write the same counter updates and
      sign the same payload; only the subject claim differs. */
  lemma {:induction false} LoginVersionsAgree(users: seq<User>, roles: seq<Roles.Role>, dto: Credentials, compare: (string, string) -> bool)
    ensures var legacy := LegacyLogin(users, roles, dto, compare);
      var current := LoginUser(users, roles, dto, compare);
      legacy.users == current.users
      && (legacy.result.Ok? <==> current.result.Ok?)
      && (legacy.result.Ok? ==> legacy.result.value.payload == current.result.value.payload)
      && (legacy.result.Err? ==> legacy.result.error == current.result.error)
  {
  }

  /** The legacy `registerUser`: a missing CLIENT role surfaces as the
      role lookup's own NotFound error. */
  function LegacyRegister(users: seq<User>, roles: seq<Roles.Role>, dto: Registration, hash: string -> string,
                          id: Id, token: string, now: int): (r: Step<Mapper.BaseUserWithVerification>)
    ensures IsValidEmail(users, dto.email) && IsValidVat(users, dto.vat) && FindRoleByName(roles, ClientRole).None? ==>
      r == Step(Err(NotFoundError("Role", "Role with name " + ClientRole + " not found")), users)
    ensures r.result.Ok? ==> r.result.value.verificationToken == token && !r.result.value.verified
  {
    RegisterWith(users, roles, dto, hash, id, token, now, NotFoundError("Role", "Role with name " + ClientRole + " not found"))
  }

  /** The two registrations differ only in the message for a missing role. */
  lemma {:induction false} RegisterVersionsAgree(users: seq<User>, roles: seq<Roles.Role>, dto: Registration, hash: string -> string,
                              id: Id, token: string, now: int)
    ensures var legacy := LegacyRegister(users, roles, dto, hash, id, token, now);
      var current := RegisterUser(users, roles, dto, hash, id, token, now);
      legacy.users == current.users
      && (legacy.result.Ok? <==> current.result.Ok?)
      && (legacy.result.Ok? ==> legacy.result == current.result)
      && (FindRoleByName(roles, ClientRole).Some? ==> legacy.result == current.result)
  {
  }

  /** The legacy `verifyAccessToken`: any signature-valid token of an existing,
      verified and enabled user is accepted. */
  function LegacyVerifyAccessToken(users: seq<User>, verdict: JwtVerdict): (r: Result<TokenPayload>)
    ensures r.Ok? <==>
      verdict.Valid?
      && var found := FindByEmail(users, verdict.payload.email);
      found.Some? && found.value.verified && found.value.enabled
  {
    CheckAccessToken(users, verdict, false)
  }

  /** A token issued before a password reset stays usable with the legacy
      check, while the class refuses it. */
  lemma {:induction false} TokenSurvivesReset(users: seq<User>, dto: NewPassword, hash: string -> string, now: int,
                           payload: TokenPayload, signedAt: nat)
    requires UniqueEmails(users)
    requires FindByEmail(users, dto.email).Some?
    requires FindByEmail(users, dto.email).value.verified && FindByEmail(users, dto.email).value.enabled
    requires ResetPassword(users, dto, hash, now).result.Ok?
    requires payload.email == dto.email && 1000 <= signedAt && IssuedAt(signedAt) * 1000 < now
    ensures var after := ResetPassword(users, dto, hash, now).users;
      var verdict := Valid(payload, Some(IssuedAt(signedAt)));
      LegacyVerifyAccessToken(after, verdict) == Ok(payload) && VerifyAccessToken(after, verdict).Err?
  {
    ResetStoresPassword(users, dto, hash, now);
    ResetRevokesOlderTokens(users, dto, hash, now, payload, signedAt);
  }
}
