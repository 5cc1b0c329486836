/** Role CRUD: the `RoleService` class over its repository, and where the
    legacy `role.services` module differs from it. The role collection has
    unique indexes on `_id` and `name`. */
module RoleService {
  import opened Common
  import opened Errors
  import opened Roles
  import opened Users
  import opened UserRepository
  import opened Mapper

  /** A service call's outcome and the role collection it leaves. */
  datatype RoleStep<T> = RoleStep(result: Result<T>, roles: seq<Role>)

  /** The invariant the unique indexes maintain. */
  predicate UniqueRoles(roles: seq<Role>) {
    forall i, j :: 0 <= i < j < |roles| ==> roles[i].id != roles[j].id && roles[i].name != roles[j].name
  }

  function IndexOfRoleId(roles: seq<Role>, id: Id): Option<nat> {
    FirstIndex(roles, (x: Role) => x.id == id)
  }

  const DuplicateKey := MongoServer(DuplicateKeyCode, "E11000 duplicate key error")

  /** `roleNameExists` (the legacy `roleExists`): the count of roles with
      this name is positive. */
  function RoleNameExists(roles: seq<Role>, name: string): (b: bool)
    ensures b <==> exists i :: 0 <= i < |roles| && roles[i].name == name
    ensures b <==> FindRoleByName(roles, name).Some?
  {
    CountWhere(roles, (x: Role) => x.name == name) > 0
  }

  /** The repository's `create`: inserts the role unless it violates a unique index. */
  function InsertRole(roles: seq<Role>, role: Role): (r: Result<seq<Role>>)
    ensures r.Ok? <==> forall i :: 0 <= i < |roles| ==> roles[i].id != role.id && roles[i].name != role.name
    ensures r.Ok? ==> r.value == roles + [role]
    ensures r.Err? ==> r.error == DuplicateKey
  {
    if exists i :: 0 <= i < |roles| && (roles[i].id == role.id || roles[i].name == role.name) then Err(DuplicateKey)
    else Ok(roles + [role])
  }

  /** True when a role other than the one at position `k` is named `name`. */
  predicate NameHeldElsewhere(roles: seq<Role>, k: nat, name: string) {
    exists j :: 0 <= j < |roles| && j != k && roles[j].name == name
  }

  /** The fields a role update may `$set`. */
  datatype RoleChanges = RoleChanges(name: Option<string>, authorities: Option<seq<Authority>>)

  function ApplyRoleChanges(role: Role, c: RoleChanges): Role {
    role.(name := c.name.GetOr(role.name), authorities := c.authorities.GetOr(role.authorities))
  }

  /** The repository's `updateById` (`findByIdAndUpdate` with `$set`,
      returning the new document): `None` when no role has the id, a
      duplicate-key error when the new name belongs to another role. */
  function UpdateRoleById(roles: seq<Role>, id: Id, c: RoleChanges): (r: Result<(seq<Role>, Option<Role>)>)
    ensures r.Err? ==> r.error == DuplicateKey
    ensures r.Err? <==>
              IndexOfRoleId(roles, id).Some? && c.name.Some? && NameHeldElsewhere(roles, IndexOfRoleId(roles, id).value, c.name.value)
    ensures r.Ok? && r.value.1.None? ==> r.value.0 == roles && FindRoleById(roles, id).None?
    ensures r.Ok? && r.value.1.Some? ==>
              FindRoleById(roles, id).Some? && r.value.1.value == ApplyRoleChanges(FindRoleById(roles, id).value, c)
              && FindRoleById(r.value.0, id) == r.value.1
    ensures r.Ok? ==> |r.value.0| == |roles|
    ensures r.Ok? && r.value.1.Some? ==> r.value.0 == roles[IndexOfRoleId(roles, id).value := r.value.1.value]
    ensures forall k: nat {:trigger RoleIdFirstAt(roles, id, k)} :: RoleIdFirstAt(roles, id, k) && r.Ok? ==>
              r.value == (roles[k := ApplyRoleChanges(roles[k], c)], Some(ApplyRoleChanges(roles[k], c)))
    ensures UniqueRoles(roles) && r.Ok? ==> UniqueRoles(r.value.0)
  {
    match IndexOfRoleId(roles, id)
    case None => Ok((roles, None))
    case Some(k) =>
      var updated := ApplyRoleChanges(roles[k], c);
      if c.name.Some? && NameHeldElsewhere(roles, k, c.name.value) then Err(DuplicateKey)
      else
        var after := roles[k := updated];
        assert after[k].id == id;
        assert forall j :: 0 <= j < k ==> after[j] == roles[j];
        assert IndexOfRoleId(after, id) == Some(k) by {
          FirstIndexAt(after, (x: Role) => x.id == id, k);
        }
        Ok((after, Some(updated)))
  }

  /** The repository's `deleteById` (`findOneAndDelete`). */
  function DeleteRoleById(roles: seq<Role>, id: Id): (r: (seq<Role>, Option<Role>))
    ensures r.1.None? <==> FindRoleById(roles, id).None?
    ensures r.1.None? ==> r.0 == roles
    ensures r.1.Some? ==> r.1 == FindRoleById(roles, id) && |r.0| == |roles| - 1
    ensures forall i :: 0 <= i < |r.0| ==> r.0[i] in roles
    ensures UniqueRoles(roles) ==> UniqueRoles(r.0) && FindRoleById(r.0, id).None?
  {
    match IndexOfRoleId(roles, id)
    case None => (roles, None)
    case Some(k) =>
      var rest := RemoveAt(roles, k);
      assert forall i :: 0 <= i < |rest| ==> rest[i] == roles[if i < k then i else i + 1];
      (rest, Some(roles[k]))
  }

  function RoleIdNotFound(id: Id): Thrown {
    NotFoundError("Role", "Role with id " + id + " not found")
  }

  /** `getById`. */
  function GetById(roles: seq<Role>, id: Id): (r: Result<RoleViewWithId>)
    ensures r.Err? <==> FindRoleById(roles, id).None?
    ensures r.Err? ==> r.error == RoleIdNotFound(id)
    ensures r.Ok? ==> r.value.id == id && exists i :: 0 <= i < |roles| && roles[i] == Role(id, r.value.name, r.value.authorities)
  {
    match FindRoleById(roles, id)
    case None => Err(RoleIdNotFound(id))
    case Some(role) => Ok(ToRoleViewWithId(role))
  }

  /** `getByRoleName` (both versions): the stored document, or NotFound. */
  function GetByRoleName(roles: seq<Role>, name: string): (r: Result<Role>)
    ensures r.Err? <==> !RoleNameExists(roles, name)
    ensures r.Err? ==> r.error == NotFoundError("Role", "Role with name " + name + " not found")
    ensures r.Ok? ==> r.value in roles && r.value.name == name
  {
    match FindRoleByName(roles, name)
    case None => Err(NotFoundError("Role", "Role with name " + name + " not found"))
    case Some(role) => Ok(role)
  }

  /** `create` (both versions): a taken name is refused before anything is
      written; otherwise the role is stored under the fresh id. */
  function CreateRole(roles: seq<Role>, dto: RoleInput, freshId: Id): (r: RoleStep<RoleViewWithId>)
    ensures RoleNameExists(roles, dto.name) ==>
              r == RoleStep(Err(AlreadyExistsError("Role", "Role with name " + dto.name + " already exists")), roles)
    ensures r.result.Err? ==> r.roles == roles
    ensures r.result.Ok? <==> !RoleNameExists(roles, dto.name) && FindRoleById(roles, freshId).None?
    ensures r.result.Ok? ==>
              r.roles == roles + [Role(freshId, dto.name, dto.authorities)]
              && r.result.value == RoleViewWithId(freshId, dto.name, dto.authorities)
    ensures UniqueRoles(roles) ==> UniqueRoles(r.roles)
  {
    if RoleNameExists(roles, dto.name) then
      RoleStep(Err(AlreadyExistsError("Role", "Role with name " + dto.name + " already exists")), roles)
    else
      var role := Role(freshId, dto.name, dto.authorities);
      match InsertRole(roles, role)
      case Err(e) => RoleStep(Err(e), roles)
      case Ok(after) => RoleStep(Ok(ToRoleViewWithId(role)), after)
  }

  /** Reading a freshly created role back by its id gives the request's name
      and authorities. */
  lemma {:induction false} CreateThenGetById(roles: seq<Role>, dto: RoleInput, freshId: Id)
    requires CreateRole(roles, dto, freshId).result.Ok?
    ensures GetById(CreateRole(roles, dto, freshId).roles, freshId) == Ok(RoleViewWithId(freshId, dto.name, dto.authorities))
  {
    var after := CreateRole(roles, dto, freshId).roles;
    assert after[|roles|] == Role(freshId, dto.name, dto.authorities);
    assert FirstIndex(after, (x: Role) => x.id == freshId) == Some(|roles|) by {
      assert forall j :: 0 <= j < |roles| ==> after[j] == roles[j];
    }
  }

  /** The outcome of an update through the repository: NotFound when the
      repository returned nothing. */
  function FinishUpdate(roles: seq<Role>, id: Id, r: Result<(seq<Role>, Option<Role>)>): RoleStep<RoleViewWithId> {
    match r
    case Err(e) => RoleStep(Err(e), roles)
    case Ok((after, None)) => RoleStep(Err(RoleIdNotFound(id)), roles)
    case Ok((after, Some(role))) => RoleStep(Ok(ToRoleViewWithId(role)), after)
  }

  /** `updateById` (both versions): replaces name and authorities with the
      mapped request body. There is no uniqueness pre-check, so a name held
      by another role surfaces as the index's duplicate-key error. */
  function UpdateRole(roles: seq<Role>, id: Id, dto: RoleInput): (r: RoleStep<RoleViewWithId>)
    ensures FindRoleById(roles, id).None? ==> r == RoleStep(Err(RoleIdNotFound(id)), roles)
    ensures r.result.Err? ==> r.roles == roles
    ensures r.result.Err? && FindRoleById(roles, id).Some? ==> r.result.error == DuplicateKey
    ensures r.result.Ok? <==>
              IndexOfRoleId(roles, id).Some? && !NameHeldElsewhere(roles, IndexOfRoleId(roles, id).value, dto.name)
    ensures r.result.Ok? ==>
              r.result.value == RoleViewWithId(id, dto.name, dto.authorities)
              && GetById(r.roles, id) == r.result
    ensures forall k: nat {:trigger RoleIdFirstAt(roles, id, k)} :: RoleIdFirstAt(roles, id, k) && r.result.Ok? ==>
              r.roles == roles[k := Role(id, dto.name, dto.authorities)]
    ensures UniqueRoles(roles) ==> UniqueRoles(r.roles)
  {
    var f := ToRoleFields(dto);
    assert f.authorities == dto.authorities;
    FinishUpdate(roles, id, UpdateRoleById(roles, id, RoleChanges(Some(f.name), Some(f.authorities))))
  }

  /** The body of a role PATCH; both fields may be absent. */
  datatype RolePatch = RolePatch(name: Option<string>, authorities: Option<seq<Authority>>)

  /** The fields `partialUpdateById` sets: a name only when non-empty (a
      truthy string) and authorities whenever present (an array, even an
      empty one, is truthy). */
  function PatchChanges(dto: RolePatch): (c: RoleChanges)
    ensures c.name.Some? <==> dto.name.Some? && dto.name.value != ""
    ensures c.name.Some? ==> c.name == dto.name
    ensures c.authorities == dto.authorities
  {
    RoleChanges(if dto.name.Some? && dto.name.value != "" then dto.name else None, dto.authorities)
  }

  /** `partialUpdateById` (both versions). */
  function PartialUpdateRole(roles: seq<Role>, id: Id, dto: RolePatch): (r: RoleStep<RoleViewWithId>)
    ensures FindRoleById(roles, id).None? ==> r == RoleStep(Err(RoleIdNotFound(id)), roles)
    ensures r.result.Err? ==> r.roles == roles
    ensures r.result.Ok? ==>
              var prev := FindRoleById(roles, id).value;
              r.result.value.id == id
              && r.result.value.name == (if dto.name.Some? && dto.name.value != "" then dto.name.value else prev.name)
              && r.result.value.authorities == dto.authorities.GetOr(prev.authorities)
              && GetById(r.roles, id) == r.result
    ensures forall k: nat {:trigger RoleIdFirstAt(roles, id, k)} :: RoleIdFirstAt(roles, id, k) && r.result.Ok? ==>
              r.roles == roles[k := roles[k].(name := if dto.name.Some? && dto.name.value != "" then dto.name.value else roles[k].name,
                                              authorities := dto.authorities.GetOr(roles[k].authorities))]
    ensures dto == RolePatch(None, None) && FindRoleById(roles, id).Some? ==>
              r == RoleStep(Ok(ToRoleViewWithId(FindRoleById(roles, id).value)), roles)
    ensures UniqueRoles(roles) ==> UniqueRoles(r.roles)
  {
    var u := UpdateRoleById(roles, id, PatchChanges(dto));
    FinishUpdate(roles, id, u)
  }

  /** The class's `deleteById`: a role still referenced by a user is kept
      and the call fails InvalidArgument; an unknown id fails NotFound. */
  function DeleteRole(users: seq<User>, roles: seq<Role>, id: Id): (r: RoleStep<()>)
    ensures (exists i :: 0 <= i < |users| && users[i].role == id) ==>
              r == RoleStep(Err(InvalidArgumentError("Role", "Cannot delete role. It is assigned to one or more users.")), roles)
    ensures r.result.Err? ==> r.roles == roles
    ensures r.result.Ok? <==> FindRoleById(roles, id).Some? && forall i :: 0 <= i < |users| ==> users[i].role != id
    ensures (forall i :: 0 <= i < |users| ==> users[i].role != id) && FindRoleById(roles, id).None? ==>
              r.result == Err(RoleIdNotFound(id))
    ensures r.result.Ok? ==> r.roles == DeleteRoleById(roles, id).0
  {
    if |FindAllByRoleId(users, id)| > 0 then
      RoleStep(Err(InvalidArgumentError("Role", "Cannot delete role. It is assigned to one or more users.")), roles)
    else LegacyDeleteRole(roles, id)
  }

  /** The legacy `deleteById`: deletes whether or not users reference the role. */
  function LegacyDeleteRole(roles: seq<Role>, id: Id): (r: RoleStep<()>)
    ensures r.result.Ok? <==> FindRoleById(roles, id).Some?
    ensures r.result.Err? ==> r == RoleStep(Err(RoleIdNotFound(id)), roles)
    ensures r.result.Ok? ==> r.roles == DeleteRoleById(roles, id).0
  {
    match DeleteRoleById(roles, id)
    case (_, None) => RoleStep(Err(RoleIdNotFound(id)), roles)
    case (after, Some(_)) => RoleStep(Ok(()), after)
  }

  /** With the class's guard every user's role reference still resolves
      after a delete; the legacy delete can leave a user whose role no longer
      resolves, so projecting that user throws. */
  lemma {:induction false} DeleteGuardKeepsReferences(users: seq<User>, roles: seq<Role>, id: Id, u: User)
    requires UniqueRoles(roles)
    requires u in users && u.role == id && FindRoleById(roles, id).Some?
    ensures DeleteRole(users, roles, id).roles == roles
    ensures PopulatedRole(u, DeleteRole(users, roles, id).roles).Ok?
    ensures LegacyDeleteRole(roles, id).result.Ok?
    ensures PopulatedRole(u, LegacyDeleteRole(roles, id).roles) == Err(NullRoleError)
  {
    var i :| 0 <= i < |users| && users[i] == u;
    assert users[i].role == id;
  }
}
