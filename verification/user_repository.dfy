/** The user repository over a collection held as a sequence in natural
    order: lookups return the first match, updates rewrite the first match
    in place and return the document as it is after the update. */
module UserRepository {
  import opened Common
  import opened Users
  import opened Errors
  import Roles

  /** MongoDB's error code for a unique-index violation. */
  const DuplicateKeyCode := 11000

  /** A `findOneAnd...` result: the collection afterwards and the matched
      document as returned to the caller (`None` for `null`). */
  datatype Updated = Updated(users: seq<User>, doc: Option<User>)

  /** Position `k` holds the first user with this email. */
  predicate EmailFirstAt(users: seq<User>, email: string, k: nat) {
    k < |users| && users[k].email == email && forall j :: 0 <= j < k ==> users[j].email != email
  }

  /** Position `k` holds the first user with this id. */
  predicate IdFirstAt(users: seq<User>, id: Id, k: nat) {
    k < |users| && users[k].id == id && forall j :: 0 <= j < k ==> users[j].id != id
  }

  function IndexOfEmail(users: seq<User>, email: string): Option<nat> {
    FirstIndex(users, (u: User) => u.email == email)
  }

  function IndexOfId(users: seq<User>, id: Id): Option<nat> {
    FirstIndex(users, (u: User) => u.id == id)
  }

  function FindByEmail(users: seq<User>, email: string): (r: Option<User>)
    ensures r.Some? ==> r.value in users && r.value.email == email
    ensures r.None? <==> forall i :: 0 <= i < |users| ==> users[i].email != email
    ensures forall k: nat {:trigger EmailFirstAt(users, email, k)} :: EmailFirstAt(users, email, k) ==> r == Some(users[k])
  {
    match IndexOfEmail(users, email)
    case None => None
    case Some(i) => Some(users[i])
  }

  function FindById(users: seq<User>, id: Id): (r: Option<User>)
    ensures r.Some? ==> r.value in users && r.value.id == id
    ensures r.None? <==> forall i :: 0 <= i < |users| ==> users[i].id != id
    ensures forall k: nat {:trigger IdFirstAt(users, id, k)} :: IdFirstAt(users, id, k) ==> r == Some(users[k])
  {
    match IndexOfId(users, id)
    case None => None
    case Some(i) => Some(users[i])
  }

  /** Users whose role reference is `roleId`. */
  function FindAllByRoleId(users: seq<User>, roleId: Id): (r: seq<User>)
    ensures forall i :: 0 <= i < |r| ==> r[i].role == roleId && r[i] in users
    ensures |r| == 0 <==> forall i :: 0 <= i < |users| ==> users[i].role != roleId
    ensures forall i :: 0 <= i < |users| && users[i].role == roleId ==> users[i] in r
  {
    Filter(users, (u: User) => u.role == roleId)
  }

  /** The listing keeps the natural order: listing a concatenation lists
      each part in turn, and a single user is listed exactly when it holds
      the role. */
  lemma {:induction false} FindAllByRoleIdInOrder(a: seq<User>, b: seq<User>, u: User, roleId: Id)
    ensures FindAllByRoleId(a + b, roleId) == FindAllByRoleId(a, roleId) + FindAllByRoleId(b, roleId)
    ensures FindAllByRoleId([u], roleId) == if u.role == roleId then [u] else []
  {
    FilterAppend(a, b, (x: User) => x.role == roleId);
    assert [u][1..] == [];
  }

  /** `isValidEmail`: true exactly when no stored user has this email. */
  function IsValidEmail(users: seq<User>, email: string): (b: bool)
    ensures b <==> forall i :: 0 <= i < |users| ==> users[i].email != email
  {
    CountWhere(users, (u: User) => u.email == email) == 0
  }

  /** `isValidVat`: true exactly when no stored user has this VAT number. */
  function IsValidVat(users: seq<User>, vat: string): (b: bool)
    ensures b <==> forall i :: 0 <= i < |users| ==> users[i].vat != vat
  {
    CountWhere(users, (u: User) => u.vat == vat) == 0
  }

  /** True when `u` would violate a unique index (`_id`, email, VAT). */
  predicate Collides(users: seq<User>, u: User) {
    exists i :: 0 <= i < |users| && (users[i].id == u.id || users[i].email == u.email || users[i].vat == u.vat)
  }

  /** `create`: inserts the document, or fails on a unique-index violation. */
  function Create(users: seq<User>, u: User): (r: Result<seq<User>>)
    ensures r.Ok? <==> !Collides(users, u)
    ensures r.Ok? ==> r.value == users + [u]
    ensures r.Err? ==> r.error.MongoServer? && r.error.errorCode == DuplicateKeyCode
  {
    if exists i :: 0 <= i < |users| && (users[i].id == u.id || users[i].email == u.email || users[i].vat == u.vat) then
      Err(MongoServer(DuplicateKeyCode, "E11000 duplicate key error"))
    else Ok(users + [u])
  }

  /** Applies `s` to the document at `at`, if any, returning it as updated. */
  function UpdateAt(users: seq<User>, at: Option<nat>, s: UserSet): (r: Updated)
    requires at.Some? ==> at.value < |users|
    ensures at.None? ==> r == Updated(users, None)
    ensures at.Some? ==> |r.users| == |users| && r.doc == Some(r.users[at.value])
    ensures at.Some? ==> r.users[at.value] == Apply(users[at.value], s)
    ensures forall j :: 0 <= j < |users| && (at.None? || j != at.value) ==> r.users[j] == users[j]
  {
    match at
    case None => Updated(users, None)
    case Some(i) =>
      var u := Apply(users[i], s);
      Updated(users[i := u], Some(u))
  }

  /** `updateUserByEmail`: overwrites only the supplied fields of the first
      user with this email, or returns `null` and changes nothing. */
  function UpdateUserByEmail(users: seq<User>, email: string, s: UserSet): (r: Updated)
    ensures r.doc.None? <==> forall i :: 0 <= i < |users| ==> users[i].email != email
    ensures r.doc.None? ==> r.users == users
    ensures r.doc.Some? ==> r.doc.value.email == email
    ensures |r.users| == |users|
    ensures forall k: nat {:trigger EmailFirstAt(users, email, k)} :: EmailFirstAt(users, email, k) ==>
      r == Updated(users[k := Apply(users[k], s)], Some(Apply(users[k], s)))
  {
    UpdateAt(users, IndexOfEmail(users, email), s)
  }

  /** `updateById`: the same, addressed by id. */
  function UpdateById(users: seq<User>, id: Id, s: UserSet): (r: Updated)
    ensures r.doc.None? <==> forall i :: 0 <= i < |users| ==> users[i].id != id
    ensures r.doc.None? ==> r.users == users
    ensures r.doc.Some? ==> r.doc.value.id == id
    ensures |r.users| == |users|
    ensures forall k: nat {:trigger IdFirstAt(users, id, k)} :: IdFirstAt(users, id, k) ==>
      r == Updated(users[k := Apply(users[k], s)], Some(Apply(users[k], s)))
  {
    UpdateAt(users, IndexOfId(users, id), s)
  }

  /** After an update by email, looking the email up again finds exactly the
      returned document, and every other user is untouched. */
  lemma {:induction false} FindAfterUpdate(users: seq<User>, email: string, s: UserSet)
    ensures var r := UpdateUserByEmail(users, email, s);
      FindByEmail(r.users, email) == r.doc
      && |r.users| == |users|
      && forall j :: 0 <= j < |users| && users[j].email != email ==> r.users[j] == users[j]
  {
    var r := UpdateUserByEmail(users, email, s);
    var at := IndexOfEmail(users, email);
    if at.Some? {
      var k := at.value;
      var p := (u: User) => u.email == email;
      var at2 := FirstIndex(r.users, p);
      assert p(r.users[k]);
      assert forall j :: 0 <= j < k ==> r.users[j] == users[j] && !p(users[j]);
      assert at2 == Some(k);
    }
  }

  /** The match condition shared by the three `...TokenNotExpired` updates:
      the token equals the stored one and the stored expiry is strictly
      after `now`. */
  predicate TokenLive(u: User, kind: TokenKind, token: string, now: int) {
    u.Pair(kind).token == Some(token) && u.Pair(kind).expires.Some? && u.Pair(kind).expires.value > now
  }

  /** Position `k` holds the first user with this email whose token of
      `kind` is live. */
  predicate TokenFirstAt(users: seq<User>, kind: TokenKind, email: string, token: string, now: int, k: nat) {
    k < |users| && users[k].email == email && TokenLive(users[k], kind, token, now)
    && forall j :: 0 <= j < k ==> !(users[j].email == email && TokenLive(users[j], kind, token, now))
  }

  /** One conditional token update: on the first user with this email whose
      token of `kind` is live, apply `s` and unset that token pair. */
  function ConsumeToken(users: seq<User>, kind: TokenKind, email: string, token: string, now: int, s: UserSet): (r: Updated)
    ensures r.doc.None? <==> forall i :: 0 <= i < |users| ==> !(users[i].email == email && TokenLive(users[i], kind, token, now))
    ensures r.doc.None? ==> r.users == users
    ensures r.doc.Some? ==> r.doc.value.email == email && r.doc.value.Pair(kind) == NoToken
    ensures r.doc.Some? ==>
              exists k :: 0 <= k < |users| && users[k].email == email
                && TokenLive(users[k], kind, token, now) && r.users == users[k := r.doc.value]
    ensures forall k: nat {:trigger TokenFirstAt(users, kind, email, token, now, k)} :: TokenFirstAt(users, kind, email, token, now, k) ==>
      r == Updated(users[k := Apply(users[k], Combine(s, kind))], Some(Apply(users[k], Combine(s, kind))))
  {
    var at := FirstIndex(users, (u: User) => u.email == email && TokenLive(u, kind, token, now));
    var r := UpdateAt(users, at, Combine(s, kind));
    if at.Some? then
      assert r.users == users[at.value := r.doc.value];
      r
    else r
  }

  /** `s` followed by an `$unset` of the token pair of `kind`. */
  function Combine(s: UserSet, kind: TokenKind): (c: UserSet)
    ensures forall u: User :: Apply(u, c).Pair(kind) == NoToken
  {
    match kind
    case Verification => s.(verification := Some(NoToken))
    case PasswordReset => s.(passwordReset := Some(NoToken))
    case EnableUser => s.(enableUser := Some(NoToken))
  }

  /** The update applied on a verification match. Whatever update the caller
      supplies is not used. */
  const VerifiedSet := NoChange.(enabled := Some(true), verified := Some(true))

  /** The update applied on an unlock match. */
  const EnabledSet := NoChange.(enabled := Some(true))

  /** `updateUserByEmailVerificationTokenNotExpired`. */
  function VerifyByToken(users: seq<User>, email: string, token: string, now: int): (r: Updated)
    ensures r.doc.None? <==> forall i :: 0 <= i < |users| ==> !(users[i].email == email && TokenLive(users[i], Verification, token, now))
    ensures r.doc.None? ==> r.users == users
    ensures forall k: nat {:trigger TokenFirstAt(users, Verification, email, token, now, k)} :: TokenFirstAt(users, Verification, email, token, now, k) ==>
      var v := users[k].(enabled := true, verified := true, verification := NoToken);
      r == Updated(users[k := v], Some(v))
  {
    ConsumeToken(users, Verification, email, token, now, VerifiedSet)
  }

  /** `updateUserByEmailPasswordResetTokenNotExpired`: the caller's `$set`
      plus the unset of the reset pair. */
  function ResetByToken(users: seq<User>, email: string, token: string, now: int, s: UserSet): (r: Updated)
    ensures r.doc.None? <==> forall i :: 0 <= i < |users| ==> !(users[i].email == email && TokenLive(users[i], PasswordReset, token, now))
    ensures r.doc.None? ==> r.users == users
    ensures forall k: nat {:trigger TokenFirstAt(users, PasswordReset, email, token, now, k)} :: TokenFirstAt(users, PasswordReset, email, token, now, k) ==>
      var v := Apply(users[k], s).(passwordReset := NoToken);
      r == Updated(users[k := v], Some(v))
  {
    ConsumeToken(users, PasswordReset, email, token, now, s)
  }

  /** `updateUserByEmailEnableUserTokenNotExpired`. */
  function EnableByToken(users: seq<User>, email: string, token: string, now: int): (r: Updated)
    ensures r.doc.None? <==> forall i :: 0 <= i < |users| ==> !(users[i].email == email && TokenLive(users[i], EnableUser, token, now))
    ensures r.doc.None? ==> r.users == users
    ensures forall k: nat {:trigger TokenFirstAt(users, EnableUser, email, token, now, k)} :: TokenFirstAt(users, EnableUser, email, token, now, k) ==>
      var v := users[k].(enabled := true, enableUser := NoToken);
      r == Updated(users[k := v], Some(v))
  {
    ConsumeToken(users, EnableUser, email, token, now, EnabledSet)
  }

  /** When `k` is the first position holding this email, overwriting it with
      a user of the same email leaves that user the one the email finds. */
  lemma {:induction false} FindAfterOverwrite(users: seq<User>, email: string, k: nat, v: User)
    requires k < |users| && users[k].email == email && v.email == email
    requires forall j :: 0 <= j < k ==> users[j].email != email
    ensures FindByEmail(users, email) == Some(users[k])
    ensures FindByEmail(users[k := v], email) == Some(v)
  {
    var p := (x: User) => x.email == email;
    FirstIndexAt(users, p, k);
    FirstIndexAt(users[k := v], p, k);
  }

  /** A successful conditional update changes exactly the fields its update
      names: everything else of the matched user is as it was. */
  lemma {:induction false} ConsumeTokenFrame(users: seq<User>, kind: TokenKind, email: string, token: string, now: int, s: UserSet)
    ensures var r := ConsumeToken(users, kind, email, token, now, s);
      r.doc.Some? ==> (exists k :: 0 <= k < |users| && users[k].email == email
                         && r.users == users[k := Apply(users[k], Combine(s, kind))])
  {
    var at := FirstIndex(users, (u: User) => u.email == email && TokenLive(u, kind, token, now));
    if at.Some? {
      var r := ConsumeToken(users, kind, email, token, now, s);
      assert r.users == users[at.value := Apply(users[at.value], Combine(s, kind))];
    }
  }

  /** Removes the first element satisfying the position `at`. */
  function DeleteAt(users: seq<User>, at: Option<nat>): (r: (seq<User>, Option<User>))
    requires at.Some? ==> at.value < |users|
    ensures at.None? ==> r == (users, None)
    ensures at.Some? ==> r.1 == Some(users[at.value]) && r.0 == RemoveAt(users, at.value)
  {
    match at
    case None => (users, None)
    case Some(i) => (RemoveAt(users, i), Some(users[i]))
  }

  /** `deleteByEmail` (`findOneAndDelete`): removes the first user with this email. */
  function DeleteByEmail(users: seq<User>, email: string): (r: (seq<User>, Option<User>))
    ensures r.1.None? <==> forall i :: 0 <= i < |users| ==> users[i].email != email
    ensures r.1.None? ==> r.0 == users
    ensures r.1.Some? ==> r.1.value.email == email && |r.0| == |users| - 1
    ensures forall k: nat {:trigger EmailFirstAt(users, email, k)} :: EmailFirstAt(users, email, k) ==> r == (RemoveAt(users, k), Some(users[k]))
  {
    DeleteAt(users, IndexOfEmail(users, email))
  }

  /** `deleteById`. */
  function DeleteById(users: seq<User>, id: Id): (r: (seq<User>, Option<User>))
    ensures r.1.None? <==> forall i :: 0 <= i < |users| ==> users[i].id != id
    ensures r.1.None? ==> r.0 == users
    ensures r.1.Some? ==> r.1.value.id == id && |r.0| == |users| - 1
    ensures forall k: nat {:trigger IdFirstAt(users, id, k)} :: IdFirstAt(users, id, k) ==> r == (RemoveAt(users, k), Some(users[k]))
  {
    DeleteAt(users, IndexOfId(users, id))
  }

  /** Position `k` holds the first role with this name. */
  predicate RoleNameFirstAt(roles: seq<Roles.Role>, name: string, k: nat) {
    k < |roles| && roles[k].name == name && forall j :: 0 <= j < k ==> roles[j].name != name
  }

  /** Position `k` holds the first role with this id. */
  predicate RoleIdFirstAt(roles: seq<Roles.Role>, id: Id, k: nat) {
    k < |roles| && roles[k].id == id && forall j :: 0 <= j < k ==> roles[j].id != id
  }

  function FindRoleByName(roles: seq<Roles.Role>, name: string): (r: Option<Roles.Role>)
    ensures r.Some? ==> r.value in roles && r.value.name == name
    ensures r.None? <==> forall i :: 0 <= i < |roles| ==> roles[i].name != name
    ensures forall k: nat {:trigger RoleNameFirstAt(roles, name, k)} :: RoleNameFirstAt(roles, name, k) ==> r == Some(roles[k])
  {
    match FirstIndex(roles, (x: Roles.Role) => x.name == name)
    case None => None
    case Some(i) => Some(roles[i])
  }

  function FindRoleById(roles: seq<Roles.Role>, id: Id): (r: Option<Roles.Role>)
    ensures r.Some? ==> r.value in roles && r.value.id == id
    ensures r.None? <==> forall i :: 0 <= i < |roles| ==> roles[i].id != id
    ensures forall k: nat {:trigger RoleIdFirstAt(roles, id, k)} :: RoleIdFirstAt(roles, id, k) ==> r == Some(roles[k])
  {
    match FirstIndex(roles, (x: Roles.Role) => x.id == id)
    case None => None
    case Some(i) => Some(roles[i])
  }

  /** `updateUserRole`: an unknown role name fails before any user is looked
      at; otherwise only the role reference of the user changes. */
  function UpdateUserRole(users: seq<User>, roles: seq<Roles.Role>, id: Id, roleName: string): (r: Result<Updated>)
    ensures r.Err? <==> FindRoleByName(roles, roleName).None?
    ensures r.Err? ==> r.error == NotFoundError("Role", "Role with name: " + roleName + " not found")
    ensures r.Ok? ==> r.value == UpdateById(users, id, NoChange.(role := Some(FindRoleByName(roles, roleName).value.id)))
  {
    match FindRoleByName(roles, roleName)
    case None => Err(NotFoundError("Role", "Role with name: " + roleName + " not found"))
    case Some(role) => Ok(UpdateById(users, id, NoChange.(role := Some(role.id))))
  }

  /** `addAnnouncement`: pushes the id at position 0 of the author's list. */
  function AddAnnouncement(users: seq<User>, userId: Id, announcementId: Id): (r: Updated)
    ensures r.doc.None? <==> forall i :: 0 <= i < |users| ==> users[i].id != userId
    ensures r.doc.None? ==> r.users == users
    ensures r.doc.Some? ==>
              exists k :: 0 <= k < |users| && users[k].id == userId
                && r.doc.value == users[k].(announcements := [announcementId] + users[k].announcements)
                && r.users == users[k := r.doc.value]
    ensures forall k: nat {:trigger IdFirstAt(users, userId, k)} :: IdFirstAt(users, userId, k) ==> r.users == users[k := r.doc.value]
  {
    match IndexOfId(users, userId)
    case None => Updated(users, None)
    case Some(k) =>
      var u := users[k].(announcements := [announcementId] + users[k].announcements);
      Updated(users[k := u], Some(u))
  }

  /** Removal of an announcement id from its author's list (`$pull`). */
  function RemoveAnnouncement(users: seq<User>, userId: Id, announcementId: Id): (r: Updated)
    ensures r.doc.None? <==> forall i :: 0 <= i < |users| ==> users[i].id != userId
    ensures r.doc.None? ==> r.users == users
    ensures r.doc.Some? ==> (announcementId !in r.doc.value.announcements
      && r.doc.value.id == userId
      && forall a :: a in r.doc.value.announcements ==> a in FindById(users, userId).value.announcements)
    ensures forall k: nat {:trigger IdFirstAt(users, userId, k)} :: IdFirstAt(users, userId, k) ==>
      r.doc == Some(users[k].(announcements := RemoveAll(users[k].announcements, announcementId)))
      && r.users == users[k := r.doc.value]
  {
    match IndexOfId(users, userId)
    case None => Updated(users, None)
    case Some(k) =>
      var u := users[k].(announcements := RemoveAll(users[k].announcements, announcementId));
      Updated(users[k := u], Some(u))
  }
  /** Pulling a freshly pushed announcement id restores the collection. */
  lemma {:induction false} AddThenRemoveAnnouncement(users: seq<User>, userId: Id, announcementId: Id)
    requires forall i :: 0 <= i < |users| ==> announcementId !in users[i].announcements
    ensures RemoveAnnouncement(AddAnnouncement(users, userId, announcementId).users, userId, announcementId).users == users
  {
    match IndexOfId(users, userId)
    case None =>
    case Some(k) =>
      var added := AddAnnouncement(users, userId, announcementId).users;
      FirstIndexAt(added, (u: User) => u.id == userId, k);
      RemoveAllAbsent(users[k].announcements, announcementId);
      assert added[k := users[k]] == users;
  }


  // ---------------------------------------------------------------------
  // Filtered pagination

  /** The filter of the paginated user listing. Empty `email`/`vat` strings
      are falsy and add no condition; `roles` adds one only when non-empty. */
  datatype Criteria = Criteria(
    email: string,
    vat: string,
    enabled: bool,
    verified: bool,
    roles: seq<string>)

  datatype PageFilter = PageFilter(criteria: Criteria, page: nat, pageSize: nat)

  /** A user with its role document joined in. */
  datatype Row = Row(user: User, role: Roles.Role)

  /** The single document produced by the `$facet` stage. `totalCount` is
      empty when nothing matched, as `$count` emits no document then. */
  datatype PageResult = PageResult(data: seq<Row>, totalCount: seq<nat>)

  /** Server error code for a `$limit` of zero. */
  const LimitNotPositiveCode := 15958

  function LowerAscii(c: char): char {
    if 'A' <= c <= 'Z' then (c as int + 32) as char else c
  }

  /** Case-insensitive (ASCII) prefix test. It stands for the `^prefix`
      regex with option `i` when the prefix holds no regex metacharacters;
      the filter is compared literally. */
  predicate PrefixIgnoringCase(s: string, prefix: string) {
    |prefix| <= |s| && forall i :: 0 <= i < |prefix| ==> LowerAscii(s[i]) == LowerAscii(prefix[i])
  }

  /** `$lookup` of the role followed by `$unwind`: users whose role
      reference resolves to no role are dropped. */
  function JoinRoles(users: seq<User>, roles: seq<Roles.Role>): (rows: seq<Row>)
    ensures |rows| <= |users|
    ensures forall i :: 0 <= i < |rows| ==> rows[i].user in users && rows[i].role in roles && rows[i].role.id == rows[i].user.role
    ensures forall i :: 0 <= i < |users| && FindRoleById(roles, users[i].role).Some? ==> Row(users[i], FindRoleById(roles, users[i].role).value) in rows
    decreases |users|
  {
    if |users| == 0 then []
    else
      var rest := JoinRoles(users[1..], roles);
      assert forall i :: 1 <= i < |users| ==> users[i] == users[1..][i - 1];
      match FindRoleById(roles, users[0].role)
      case None => rest
      case Some(role) => [Row(users[0], role)] + rest
  }

  predicate RowMatches(row: Row, f: Criteria) {
    (f.email == "" || PrefixIgnoringCase(row.user.email, f.email))
    && (f.vat == "" || PrefixIgnoringCase(row.user.vat, f.vat))
    && row.user.enabled == f.enabled
    && row.user.verified == f.verified
    && (|f.roles| == 0 || row.role.name in f.roles)
  }

  /** All joined rows that pass the filter, in natural order. */
  function Matching(users: seq<User>, roles: seq<Roles.Role>, f: Criteria): (rows: seq<Row>)
    ensures forall i :: 0 <= i < |rows| ==> RowMatches(rows[i], f) && rows[i] in JoinRoles(users, roles)
    ensures forall row :: row in JoinRoles(users, roles) && RowMatches(row, f) ==> row in rows
  {
    Filter(JoinRoles(users, roles), (row: Row) => RowMatches(row, f))
  }

  /** The rows of page `page`: `$skip: page * pageSize` then `$limit: pageSize`. */
  function PageOf(all: seq<Row>, page: nat, pageSize: nat): (w: seq<Row>)
    ensures |w| <= pageSize
    ensures page * pageSize >= |all| ==> w == []
    ensures page * pageSize < |all| ==>
      |w| == (if page * pageSize + pageSize <= |all| then pageSize else |all| - page * pageSize)
    ensures forall i :: 0 <= i < |w| ==> w[i] in all
    ensures forall i :: 0 <= i < |w| ==> page * pageSize + i < |all| && w[i] == all[page * pageSize + i]
  {
    Window(all, page * pageSize, pageSize)
  }

  lemma {:induction false} PageOfIndex(all: seq<Row>, page: nat, ps: nat, i: nat)
    requires page * ps <= i < page * ps + ps && i < |all|
    ensures i - page * ps < |PageOf(all, page, ps)| && PageOf(all, page, ps)[i - page * ps] == all[i]
  {
    var w := Window(all, page * ps, ps);
    assert i - page * ps < |w|;
  }

  /** Joining a concatenation joins each part in turn. */
  lemma {:induction false} JoinRolesAppend(a: seq<User>, b: seq<User>, roles: seq<Roles.Role>)
    ensures JoinRoles(a + b, roles) == JoinRoles(a, roles) + JoinRoles(b, roles)
    decreases |a|
  {
    if |a| == 0 {
      assert a + b == b;
    } else {
      assert (a + b)[1..] == a[1..] + b;
      JoinRolesAppend(a[1..], b, roles);
    }
  }

  /** The match list keeps the natural order: matching a concatenation
      matches each part in turn, and a single user contributes its joined row
      exactly when its role resolves and the row passes the filter. */
  lemma {:induction false} MatchingInOrder(a: seq<User>, b: seq<User>, roles: seq<Roles.Role>, f: Criteria)
    ensures Matching(a + b, roles, f) == Matching(a, roles, f) + Matching(b, roles, f)
  {
    JoinRolesAppend(a, b, roles);
    FilterAppend(JoinRoles(a, roles), JoinRoles(b, roles), (row: Row) => RowMatches(row, f));
  }

  /** What one user contributes to the match list. */
  lemma {:induction false} MatchingOne(u: User, roles: seq<Roles.Role>, f: Criteria)
    ensures Matching([u], roles, f) ==
      match FindRoleById(roles, u.role)
      case None => []
      case Some(role) => if RowMatches(Row(u, role), f) then [Row(u, role)] else []
  {
    assert [u][1..] == [];
    var rows := JoinRoles([u], roles);
    assert rows == (match FindRoleById(roles, u.role) case None => [] case Some(role) => [Row(u, role)]);
    if |rows| == 1 {
      assert rows[1..] == [];
    }
  }

  /** `findFilteredPaginatedUsersWithAggregationResult`. */
  function FilteredPage(users: seq<User>, roles: seq<Roles.Role>, f: PageFilter): (r: Result<PageResult>)
    ensures r.Err? <==> f.pageSize == 0
    ensures r.Ok? ==> |r.value.data| <= f.pageSize
    ensures r.Ok? ==> r.value.data == PageOf(Matching(users, roles, f.criteria), f.page, f.pageSize)
    ensures r.Ok? ==> forall i :: 0 <= i < |r.value.data| ==> RowMatches(r.value.data[i], f.criteria)
    ensures r.Ok? ==> (r.value.totalCount == [] <==> |Matching(users, roles, f.criteria)| == 0)
    ensures r.Ok? && r.value.totalCount != [] ==> r.value.totalCount == [|Matching(users, roles, f.criteria)|]
  {
    if f.pageSize == 0 then Err(MongoServer(LimitNotPositiveCode, "the limit must be positive"))
    else
      var all := Matching(users, roles, f.criteria);
      var data := PageOf(all, f.page, f.pageSize);
      Ok(PageResult(data, if |all| == 0 then [] else [|all|]))
  }

  /** Every matching row is on the page that covers its position: row `i`
      of the full match list is row `i - page * pageSize` of that page. */
  lemma {:induction false} RowOnItsPage(users: seq<User>, roles: seq<Roles.Role>, f: PageFilter, i: nat)
    requires f.page * f.pageSize <= i < f.page * f.pageSize + f.pageSize
    requires i < |Matching(users, roles, f.criteria)|
    ensures var r := FilteredPage(users, roles, f);
      r.Ok? && i - f.page * f.pageSize < |r.value.data|
      && r.value.data[i - f.page * f.pageSize] == Matching(users, roles, f.criteria)[i]
  {
    PageOfIndex(Matching(users, roles, f.criteria), f.page, f.pageSize, i);
  }
}
