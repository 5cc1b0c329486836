/** The DTO projections between stored documents and what the API returns,
    and the update documents built from request bodies. */
module Mapper {
  import opened Common
  import opened Users
  import opened Roles
  import opened Errors
  import UserRepository

  /** A role as shown to clients and embedded in access tokens. */
  datatype RoleView = RoleView(name: string, authorities: seq<Authority>)

  datatype RoleViewWithId = RoleViewWithId(id: Id, name: string, authorities: seq<Authority>)

  function ToRoleView(role: Role): (v: RoleView)
    ensures v.name == role.name && v.authorities == role.authorities
  {
    RoleView(role.name, role.authorities)
  }

  function ToRoleViewWithId(role: Role): (v: RoleViewWithId)
    ensures v.id == role.id && RoleView(v.name, v.authorities) == ToRoleView(role)
  {
    RoleViewWithId(role.id, role.name, role.authorities)
  }

  /** The name and authorities written to the role collection for a role body. */
  datatype RoleFields = RoleFields(name: string, authorities: seq<Authority>)

  /** `mapRoleDtoToDocument`: rebuilds each authority from its resource and
      actions, keeping the order of the list. */
  function ToRoleFields(dto: RoleInput): (f: RoleFields)
    ensures f.name == dto.name && |f.authorities| == |dto.authorities|
    ensures forall i :: 0 <= i < |dto.authorities| ==>
      f.authorities[i].resource == dto.authorities[i].resource && f.authorities[i].actions == dto.authorities[i].actions
  {
    RoleFields(dto.name, seq(|dto.authorities|, i requires 0 <= i < |dto.authorities| =>
      Authority(dto.authorities[i].resource, dto.authorities[i].actions)))
  }

  /** Storing the mapped fields and reading the role back gives the body's
      name and authorities unchanged. */
  lemma {:induction false} RoleFieldsRoundTrip(dto: RoleInput, id: Id)
    ensures var f := ToRoleFields(dto); ToRoleView(Role(id, f.name, f.authorities)) == RoleView(dto.name, dto.authorities)
  {
    var f := ToRoleFields(dto);
    assert f.authorities == dto.authorities;
  }

  datatype BaseUserView = BaseUserView(id: Id, email: string, enabled: bool, verified: bool)

  datatype BaseUserWithRole = BaseUserWithRole(id: Id, email: string, enabled: bool, role: RoleView, verified: bool)

  datatype BaseUserWithVerification = BaseUserWithVerification(
    id: Id, email: string, enabled: bool, verified: bool, verificationToken: string)

  datatype UserView = UserView(
    id: Id, email: string, enabled: bool, profile: Option<Profile>, role: RoleView, vat: string, verified: bool)

  /** `mapUserToBaseUserDTO`: reports `verified` as false whatever is stored. */
  function ToBaseUser(u: User): (d: BaseUserView)
    ensures d.id == u.id && d.email == u.email && d.enabled == u.enabled && !d.verified
  {
    BaseUserView(u.id, u.email, u.enabled, false)
  }

  /** `mapUserToBaseUserDTOWithRole`, given the populated role. */
  function ToBaseUserWithRole(u: User, role: Role): (d: BaseUserWithRole)
    ensures d.id == u.id && d.email == u.email && d.enabled == u.enabled && !d.verified
    ensures d.role == ToRoleView(role)
  {
    BaseUserWithRole(u.id, u.email, u.enabled, ToRoleView(role), false)
  }

  /** `mapUserToBaseUserDTOWithVerificationCredentials`: the stored
      verification token, or the empty string when there is none. */
  function ToBaseUserWithVerification(u: User): (d: BaseUserWithVerification)
    ensures d.id == u.id && d.email == u.email && d.enabled == u.enabled && !d.verified
    ensures u.verification.token.Some? ==> d.verificationToken == u.verification.token.value
    ensures u.verification.token.None? ==> d.verificationToken == ""
  {
    BaseUserWithVerification(u.id, u.email, u.enabled, false, u.verification.token.GetOr(""))
  }

  /** The three base projections cannot tell a verified user from an
      unverified one. */
  lemma {:induction false} BaseViewsHideVerified(u: User, role: Role)
    ensures ToBaseUser(u) == ToBaseUser(u.(verified := !u.verified))
    ensures ToBaseUserWithRole(u, role) == ToBaseUserWithRole(u.(verified := !u.verified), role)
    ensures ToBaseUserWithVerification(u) == ToBaseUserWithVerification(u.(verified := !u.verified))
  {
  }

  /** `mapUserToReadOnlyDTO`, given the populated role: the stored flags are
      reported as they are. */
  function ToUserView(u: User, role: Role): (d: UserView)
    ensures d.id == u.id && d.email == u.email && d.vat == u.vat && d.profile == u.profile
    ensures d.enabled == u.enabled && d.verified == u.verified && d.role == ToRoleView(role)
  {
    UserView(u.id, u.email, u.enabled, u.profile, ToRoleView(role), u.vat, u.verified)
  }

  /** What reading `role.name` off an unresolved role reference throws. */
  const NullRoleError := PlainError("TypeError", "Cannot read properties of null (reading 'name')")

  /** The role a user's reference resolves to when the document is populated. */
  function PopulatedRole(u: User, roles: seq<Role>): (r: Result<Role>)
    ensures r.Ok? <==> UserRepository.FindRoleById(roles, u.role).Some?
    ensures r.Ok? ==> r.value.id == u.role && r.value in roles
    ensures r.Err? ==> r.error == NullRoleError
    ensures forall k: nat {:trigger UserRepository.RoleIdFirstAt(roles, u.role, k)} ::
      UserRepository.RoleIdFirstAt(roles, u.role, k) ==> r == Ok(roles[k])
  {
    match UserRepository.FindRoleById(roles, u.role)
    case None => Err(NullRoleError)
    case Some(role) => Ok(role)
  }

  /** `mapUserToReadOnlyDTO` on a populated document; a dangling role
      reference makes the projection throw. */
  function ViewOf(u: User, roles: seq<Role>): (r: Result<UserView>)
    ensures r.Ok? <==> PopulatedRole(u, roles).Ok?
    ensures r.Err? ==> r.error == NullRoleError
    ensures r.Ok? ==> r.value == ToUserView(u, PopulatedRole(u, roles).value)
  {
    match PopulatedRole(u, roles)
    case Err(e) => Err(e)
    case Ok(role) => Ok(ToUserView(u, role))
  }

  /** The body of a user update or patch request; every field may be absent. */
  datatype UserChanges = UserChanges(profile: Option<Profile>, enabled: Option<bool>, verified: Option<bool>)

  /** True when a `$set` names at most the profile and the two flags. */
  predicate TouchesOnlyProfileAndFlags(s: UserSet) {
    s.password.None? && s.loginConsecutiveFailures.None? && s.passwordChangedAt.None?
    && s.verification.None? && s.passwordReset.None? && s.enableUser.None? && s.role.None?
  }

  /** `mapUserUpdateDTOToDocument` (a shallow copy of the body); the ODM drops
      keys whose value is `undefined`, so absent fields are left alone. This is
      also what the patch mapper evidently intends. */
  function ToUserSet(dto: UserChanges): (s: UserSet)
    ensures TouchesOnlyProfileAndFlags(s)
    ensures forall u: User ::
      Apply(u, s) == u.(profile := if dto.profile.Some? then dto.profile else u.profile,
                        enabled := dto.enabled.GetOr(u.enabled),
                        verified := dto.verified.GetOr(u.verified))
  {
    NoChange.(profile := dto.profile, enabled := dto.enabled, verified := dto.verified)
  }

  /** `mapUserPatchDTOToDocument` as written: `verified` is copied under the
      test that `enabled` is a boolean. */
  function PatchAsWritten(dto: UserChanges): (s: UserSet)
    ensures TouchesOnlyProfileAndFlags(s)
    ensures s.profile == dto.profile && s.enabled == dto.enabled
    ensures s.verified.Some? <==> dto.enabled.Some? && dto.verified.Some?
    ensures s.verified.Some? ==> s.verified == dto.verified
  {
    NoChange.(profile := dto.profile, enabled := dto.enabled,
              verified := if dto.enabled.Some? then dto.verified else None)
  }

  /** A patch that only sets `verified` is lost by the mapper as written,
      while the corrected mapper applies it. */
  lemma {:induction false} PatchAsWrittenDropsVerified(u: User)
    requires !u.verified
    ensures var dto := UserChanges(None, None, Some(true));
      !Apply(u, PatchAsWritten(dto)).verified && Apply(u, ToUserSet(dto)).verified
  {
  }

  /** The two mappers agree exactly when the body supplies `enabled` or omits
      `verified`. */
  lemma {:induction false} PatchAsWrittenAgreement(dto: UserChanges)
    ensures PatchAsWritten(dto) == ToUserSet(dto) <==> dto.enabled.Some? || dto.verified.None?
  {
  }

  /** The legacy patch: only truthy values are copied, so a flag can be
      switched on but never off. */
  function TruthyPatch(dto: UserChanges): (s: UserSet)
    ensures TouchesOnlyProfileAndFlags(s)
    ensures forall u: User ::
      Apply(u, s).enabled == (u.enabled || dto.enabled == Some(true))
      && Apply(u, s).verified == (u.verified || dto.verified == Some(true))
      && Apply(u, s).profile == (if dto.profile.Some? then dto.profile else u.profile)
    ensures forall u: User ::
      Apply(u, s) == u.(profile := if dto.profile.Some? then dto.profile else u.profile,
                        enabled := u.enabled || dto.enabled == Some(true),
                        verified := u.verified || dto.verified == Some(true))
  {
    NoChange.(profile := dto.profile,
              enabled := if dto.enabled == Some(true) then Some(true) else None,
              verified := if dto.verified == Some(true) then Some(true) else None)
  }
}
