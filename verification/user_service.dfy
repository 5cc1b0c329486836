/** User CRUD: the `UserService` class and where the legacy `user.services`
    module differs from it. Both report a missing user as NotFound and map
    the stored document (with its role populated) to the read-only view. */
module UserService {
  import opened Common
  import opened Errors
  import opened Users
  import opened UserRepository
  import Roles
  import opened Mapper
  import opened AuthService
  import LegacyAuth

  function UserIdNotFound(id: Id): Thrown {
    NotFoundError("User", "User with id " + id + " not found")
  }

  function UserEmailNotFound(email: string): Thrown {
    NotFoundError("User", "User with email " + email + " not found")
  }

  /** The invariant of the `_id` index. */
  predicate UniqueIds(users: seq<User>) {
    forall i, j :: 0 <= i < j < |users| ==> users[i].id != users[j].id
  }

  /** `getById` (both versions). */
  function GetUser(users: seq<User>, roles: seq<Roles.Role>, id: Id): (r: Result<UserView>)
    ensures FindById(users, id).None? ==> r == Err(UserIdNotFound(id))
    ensures r.Ok? ==> FindById(users, id).Some? && r == ViewOf(FindById(users, id).value, roles)
    ensures r.Ok? ==> r.value.id == id
  {
    match FindById(users, id)
    case None => Err(UserIdNotFound(id))
    case Some(u) => ViewOf(u, roles)
  }

  /** The body of an administrator's create request: a registration plus
      the name of the role to assign. */
  datatype NewUserRequest = NewUserRequest(registration: Registration, role: string)

  /** `createUser` (both versions): email uniqueness, then VAT uniqueness,
      then the named role; nothing is stored unless all pass. */
  function CreateUser(users: seq<User>, roles: seq<Roles.Role>, dto: NewUserRequest, hash: string -> string,
                      id: Id, token: string, now: int): (r: Step<BaseUserWithVerification>)
    ensures r.result.Err? ==> r.users == users
    ensures !IsValidEmail(users, dto.registration.email) ==>
      r.result == Err(AlreadyExistsError("User", "User with email " + dto.registration.email + " already exists"))
    ensures IsValidEmail(users, dto.registration.email) && !IsValidVat(users, dto.registration.vat) ==>
      r.result == Err(AlreadyExistsError("User", "User with vat " + dto.registration.vat + " already exists"))
    ensures IsValidEmail(users, dto.registration.email) && IsValidVat(users, dto.registration.vat)
            && FindRoleByName(roles, dto.role).None? ==>
      r.result == Err(NotFoundError("Role", "Role with name " + dto.role + " not found"))
    ensures r.result.Ok? ==>
      FindRoleByName(roles, dto.role).Some?
      && var u := Registered(dto.registration, hash, id, FindRoleByName(roles, dto.role).value.id, token, now);
      r.users == users + [u]
      && r.result.value == BaseUserWithVerification(id, dto.registration.email, false, false, token)
  {
    var reg := dto.registration;
    if !IsValidEmail(users, reg.email) then
      Step(Err(AlreadyExistsError("User", "User with email " + reg.email + " already exists")), users)
    else if !IsValidVat(users, reg.vat) then
      Step(Err(AlreadyExistsError("User", "User with vat " + reg.vat + " already exists")), users)
    else
      match FindRoleByName(roles, dto.role)
      case None => Step(Err(NotFoundError("Role", "Role with name " + dto.role + " not found")), users)
      case Some(role) =>
        var u := Registered(reg, hash, id, role.id, token, now);
        match Create(users, u)
        case Err(e) => Step(Err(e), users)
        case Ok(after) => Step(Ok(ToBaseUserWithVerification(u)), after)
  }

  /** An administrator creating a user with the CLIENT role does exactly what
      the legacy self-registration does. */
  lemma {:induction false} CreateClientIsRegistration(users: seq<User>, roles: seq<Roles.Role>, dto: Registration, hash: string -> string,
                                   id: Id, token: string, now: int)
    ensures CreateUser(users, roles, NewUserRequest(dto, ClientRole), hash, id, token, now)
         == LegacyAuth.LegacyRegister(users, roles, dto, hash, id, token, now)
  {
  }

  /** Writes `s` to the user with this id and projects the result;
      NotFound when no user has the id. */
  function UpdateWith(users: seq<User>, roles: seq<Roles.Role>, id: Id, s: UserSet): (r: Step<UserView>)
    ensures FindById(users, id).None? ==> r == Step(Err(UserIdNotFound(id)), users)
    ensures r.result.Err? && FindById(users, id).Some? ==> r.result.error == NullRoleError
    ensures FindById(users, id).Some? ==> r.users == UpdateById(users, id, s).users
    ensures FindById(users, id).Some? ==> FindById(r.users, id) == Some(Apply(FindById(users, id).value, s))
    ensures forall k: nat {:trigger IdFirstAt(users, id, k)} :: IdFirstAt(users, id, k) ==>
      r == Step(ViewOf(Apply(users[k], s), roles), users[k := Apply(users[k], s)])
  {
    var up := UpdateById(users, id, s);
    match up.doc
    case None => Step(Err(UserIdNotFound(id)), users)
    case Some(u) =>
      var k := IndexOfId(users, id).value;
      assert FindById(up.users, id) == Some(up.users[k]) by {
        FirstIndexAt(up.users, (x: User) => x.id == id, k);
      }
      Step(ViewOf(u, roles), up.users)
  }

  /** `updateUserById` (both versions): sets the supplied profile and flags.
      With the patch mapper corrected, the class's `partialUpdateUserById`
      writes the same document and is this operation too. */
  function UpdateUser(users: seq<User>, roles: seq<Roles.Role>, id: Id, dto: UserChanges): (r: Step<UserView>)
    ensures FindById(users, id).None? ==> r == Step(Err(UserIdNotFound(id)), users)
    ensures FindById(users, id).Some? ==>
      var prev := FindById(users, id).value;
      FindById(r.users, id) == Some(prev.(profile := if dto.profile.Some? then dto.profile else prev.profile,
                                          enabled := dto.enabled.GetOr(prev.enabled),
                                          verified := dto.verified.GetOr(prev.verified)))
    ensures forall k: nat {:trigger IdFirstAt(users, id, k)} :: IdFirstAt(users, id, k) ==>
      r.users == users[k := users[k].(profile := if dto.profile.Some? then dto.profile else users[k].profile,
                                      enabled := dto.enabled.GetOr(users[k].enabled),
                                      verified := dto.verified.GetOr(users[k].verified))]
  {
    UpdateWith(users, roles, id, ToUserSet(dto))
  }

  /** The legacy `partialUpdateUserById`: only truthy fields are written. */
  function LegacyPatchUser(users: seq<User>, roles: seq<Roles.Role>, id: Id, dto: UserChanges): (r: Step<UserView>)
    ensures FindById(users, id).None? ==> r == Step(Err(UserIdNotFound(id)), users)
    ensures FindById(users, id).Some? ==>
      var prev := FindById(users, id).value;
      FindById(r.users, id).Some?
      && FindById(r.users, id).value.enabled == (prev.enabled || dto.enabled == Some(true))
      && FindById(r.users, id).value.verified == (prev.verified || dto.verified == Some(true))
    ensures forall k: nat {:trigger IdFirstAt(users, id, k)} :: IdFirstAt(users, id, k) ==>
      r.users == users[k := users[k].(profile := if dto.profile.Some? then dto.profile else users[k].profile,
                                      enabled := users[k].enabled || dto.enabled == Some(true),
                                      verified := users[k].verified || dto.verified == Some(true))]
  {
    UpdateWith(users, roles, id, TruthyPatch(dto))
  }

  /** Asking to disable an enabled user: the class's (corrected) patch
      disables it, the legacy patch silently keeps it enabled. */
  lemma {:induction false} LegacyPatchCannotDisable(users: seq<User>, roles: seq<Roles.Role>, id: Id)
    requires FindById(users, id).Some? && FindById(users, id).value.enabled
    ensures var dto := UserChanges(None, Some(false), None);
      !FindById(UpdateUser(users, roles, id, dto).users, id).value.enabled
      && FindById(LegacyPatchUser(users, roles, id, dto).users, id).value.enabled
  {
  }

  /** The role change once the role is known: NotFound("User") when the
      repository returned nothing. */
  function FinishRoleChange(users: seq<User>, roles: seq<Roles.Role>, id: Id, r: Result<Updated>): Step<UserView> {
    match r
    case Err(e) => Step(Err(e), users)
    case Ok(Updated(_, None)) => Step(Err(UserIdNotFound(id)), users)
    case Ok(Updated(after, Some(u))) => Step(ViewOf(u, roles), after)
  }

  /** The class's `updateUserRole`: the repository looks the role up first,
      so an unknown role is reported even for an unknown user. */
  function ChangeRole(users: seq<User>, roles: seq<Roles.Role>, id: Id, roleName: string): (r: Step<UserView>)
    ensures FindRoleByName(roles, roleName).None? ==>
      r == Step(Err(NotFoundError("Role", "Role with name: " + roleName + " not found")), users)
    ensures FindRoleByName(roles, roleName).Some? && FindById(users, id).None? ==>
      r == Step(Err(UserIdNotFound(id)), users)
    ensures FindRoleByName(roles, roleName).Some? && FindById(users, id).Some? ==>
      r.users == UpdateById(users, id, NoChange.(role := Some(FindRoleByName(roles, roleName).value.id))).users
  {
    FinishRoleChange(users, roles, id, UpdateUserRole(users, roles, id, roleName))
  }

  /** The legacy `updateUserRole`: the same order of checks, with the role
      lookup's message written without the colon. */
  function LegacyChangeRole(users: seq<User>, roles: seq<Roles.Role>, id: Id, roleName: string): (r: Step<UserView>)
    ensures FindRoleByName(roles, roleName).None? ==>
      r == Step(Err(NotFoundError("Role", "Role with name " + roleName + " not found")), users)
    ensures FindRoleByName(roles, roleName).Some? ==> r == ChangeRole(users, roles, id, roleName)
  {
    match FindRoleByName(roles, roleName)
    case None => Step(Err(NotFoundError("Role", "Role with name " + roleName + " not found")), users)
    case Some(role) => FinishRoleChange(users, roles, id, Ok(UpdateById(users, id, NoChange.(role := Some(role.id)))))
  }

  /** `deleteUserById` (both versions). */
  function DeleteUser(users: seq<User>, id: Id): (r: Step<()>)
    ensures r.result.Err? <==> FindById(users, id).None?
    ensures r.result.Err? ==> r == Step(Err(UserIdNotFound(id)), users)
    ensures r.result.Ok? ==> |r.users| == |users| - 1 && forall i :: 0 <= i < |r.users| ==> r.users[i] in users
    ensures UniqueIds(users) ==> UniqueIds(r.users) && FindById(r.users, id).None?
    ensures UniqueIds(users) ==> forall u :: u in users && u.id != id ==> u in r.users
  {
    match IndexOfId(users, id)
    case None => Step(Err(UserIdNotFound(id)), users)
    case Some(k) =>
      RemoveUserAt(users, k);
      Step(Ok(()), RemoveAt(users, k))
  }

  /** Removing the user at `k` keeps every other user, and keeps ids unique
      with none of them equal to the removed one's. */
  lemma {:induction false} RemoveUserAt(users: seq<User>, k: nat)
    requires k < |users|
    ensures var rest := RemoveAt(users, k);
      (forall i :: 0 <= i < |rest| ==> rest[i] in users)
      && (forall u :: u in users && u.id != users[k].id ==> u in rest)
      && (UniqueIds(users) ==> UniqueIds(rest) && forall i :: 0 <= i < |rest| ==> rest[i].id != users[k].id)
  {
    var rest := RemoveAt(users, k);
    forall i | 0 <= i < |rest| ensures rest[i] == users[if i < k then i else i + 1] {
    }
    forall u | u in users && u.id != users[k].id ensures u in rest {
      var j :| 0 <= j < |users| && users[j] == u;
      assert rest[if j < k then j else j - 1] == u;
    }
  }

  /** `deleteUserByEmail` (both versions). */
  function DeleteUserByEmail(users: seq<User>, email: string): (r: Step<()>)
    ensures r.result.Err? <==> FindByEmail(users, email).None?
    ensures r.result.Err? ==> r == Step(Err(UserEmailNotFound(email)), users)
    ensures r.result.Ok? ==> |r.users| == |users| - 1 && forall i :: 0 <= i < |r.users| ==> r.users[i] in users
    ensures forall k: nat {:trigger EmailFirstAt(users, email, k)} :: EmailFirstAt(users, email, k) ==>
      r == Step(Ok(()), RemoveAt(users, k))
  {
    match DeleteByEmail(users, email)
    case (_, None) => Step(Err(UserEmailNotFound(email)), users)
    case (after, Some(_)) =>
      assert after == RemoveAt(users, IndexOfEmail(users, email).value);
      Step(Ok(()), after)
  }

  /** Once deleted, a user cannot be read or deleted again. */
  lemma {:induction false} DeleteThenGone(users: seq<User>, roles: seq<Roles.Role>, id: Id)
    requires UniqueIds(users)
    requires DeleteUser(users, id).result.Ok?
    ensures var after := DeleteUser(users, id).users;
      GetUser(after, roles, id) == Err(UserIdNotFound(id))
      && DeleteUser(after, id) == Step(Err(UserIdNotFound(id)), after)
  {
  }

  /** One page of users with the total number of matches. */
  datatype Page = Page(data: seq<UserView>, totalCount: nat)

  /** `getAllFilteredPaginated`: the total is the first count entry, or 0
      when the count stage produced none. */
  function ListUsers(users: seq<User>, roles: seq<Roles.Role>, f: PageFilter): (r: Result<Page>)
    ensures r.Err? <==> f.pageSize == 0
    ensures r.Ok? ==> r.value.totalCount == |Matching(users, roles, f.criteria)|
    ensures r.Ok? ==> |r.value.data| == |FilteredPage(users, roles, f).value.data| <= f.pageSize
    ensures r.Ok? ==> forall i :: 0 <= i < |r.value.data| ==>
      var row := FilteredPage(users, roles, f).value.data[i];
      r.value.data[i] == ToUserView(row.user, row.role)
  {
    match FilteredPage(users, roles, f)
    case Err(e) => Err(e)
    case Ok(page) =>
      var total := if |page.totalCount| > 0 then page.totalCount[0] else 0;
      Ok(Page(Views(page.data), total))
  }

  /** The view of each joined row, in order. */
  function Views(rows: seq<Row>): (vs: seq<UserView>)
    ensures |vs| == |rows|
    ensures forall i :: 0 <= i < |rows| ==> vs[i] == ToUserView(rows[i].user, rows[i].role)
  {
    seq(|rows|, i requires 0 <= i < |rows| => ToUserView(rows[i].user, rows[i].role))
  }
}
