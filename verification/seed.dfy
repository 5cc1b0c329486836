/** The three seeded roles and the upsert-by-name seeding of the role
    collection. */
module Seed {
  import opened Common
  import opened Roles
  import UserRepository

  /** ADMIN: every resource with every action. */
  function AdminAuthorities(): (auths: seq<Authority>)
    ensures |auths| == |Resources|
    ensures forall i :: 0 <= i < |auths| ==> auths[i] == Authority(Resources[i], AuthorityActions)
  {
    seq(|Resources|, i requires 0 <= i < |Resources| => Authority(Resources[i], AuthorityActions))
  }

  const EmployeeAuthorities: seq<Authority> := [
    Authority(TicketResource, [Read, Update]),
    Authority(AnnouncementResource, [Create, Read, Update, Delete]),
    Authority(AttachmentResource, [Create, Read])
  ]

  const ClientAuthorities: seq<Authority> := [
    Authority(TicketResource, [Create]),
    Authority(AnnouncementResource, [Read]),
    Authority(AttachmentResource, [Create, Read])
  ]

  /** A role as the seed script writes it: a name and its authorities. */
  datatype RoleSpec = RoleSpec(name: string, authorities: seq<Authority>)

  function SeededRoles(): seq<RoleSpec> {
    [RoleSpec("ADMIN", AdminAuthorities()), RoleSpec("EMPLOYEE", EmployeeAuthorities), RoleSpec("CLIENT", ClientAuthorities)]
  }

  /** ADMIN passes every capability check. */
  lemma {:induction false} AdminMayDoAnything(res: Resource, act: Action)
    ensures HasAuthority(AdminAuthorities(), res, act)
  {
    ResourcesComplete(res);
    ActionsComplete(act);
    var i :| 0 <= i < |Resources| && Resources[i] == res;
    assert AdminAuthorities()[i].resource == res && act in AdminAuthorities()[i].actions;
  }

  /** EMPLOYEE's capabilities, exactly. */
  lemma {:induction false} EmployeeCapabilities(res: Resource, act: Action)
    ensures HasAuthority(EmployeeAuthorities, res, act) <==>
      (res == TicketResource && act in {Read, Update})
      || res == AnnouncementResource
      || (res == AttachmentResource && act in {Create, Read})
  {
    var e := EmployeeAuthorities;
    if res == AnnouncementResource {
      assert e[1].resource == res;
      ActionsComplete(act);
    }
    if HasAuthority(e, res, act) {
      var i :| 0 <= i < |e| && e[i].resource == res && act in e[i].actions;
      assert i == 0 || i == 1 || i == 2;
    } else {
      assert !(e[0].resource == res && act in e[0].actions);
      assert !(e[2].resource == res && act in e[2].actions);
    }
  }

  /** CLIENT's capabilities, exactly; in particular it may not create announcements. */
  lemma {:induction false} ClientCapabilities(res: Resource, act: Action)
    ensures HasAuthority(ClientAuthorities, res, act) <==>
      (res == TicketResource && act == Create)
      || (res == AnnouncementResource && act == Read)
      || (res == AttachmentResource && act in {Create, Read})
    ensures !HasAuthority(ClientAuthorities, AnnouncementResource, Create)
  {
    var c := ClientAuthorities;
    if HasAuthority(c, res, act) {
      var i :| 0 <= i < |c| && c[i].resource == res && act in c[i].actions;
      assert i == 0 || i == 1 || i == 2;
    } else {
      assert !(c[0].resource == res && act in c[0].actions);
      assert !(c[1].resource == res && act in c[1].actions);
      assert !(c[2].resource == res && act in c[2].actions);
    }
  }

  /** Only ADMIN holds any capability on users or roles. */
  lemma {:induction false} OnlyAdminManagesUsersAndRoles(res: Resource, act: Action)
    requires res == UserResource || res == RoleResource
    ensures HasAuthority(AdminAuthorities(), res, act)
    ensures !HasAuthority(EmployeeAuthorities, res, act) && !HasAuthority(ClientAuthorities, res, act)
  {
    AdminMayDoAnything(res, act);
    EmployeeCapabilities(res, act);
    ClientCapabilities(res, act);
  }

  /** `updateOne({name}, {$set: spec}, {upsert: true})`: overwrite the first
      role with this name, or insert a new one with the fresh id. */
  function Upsert(roles: seq<Role>, spec: RoleSpec, freshId: Id): (r: seq<Role>)
    ensures UserRepository.FindRoleByName(r, spec.name).Some?
    ensures UserRepository.FindRoleByName(r, spec.name).value.authorities == spec.authorities
    ensures forall n :: n != spec.name ==> UserRepository.FindRoleByName(r, n) == UserRepository.FindRoleByName(roles, n)
  {
    var p := (x: Role) => x.name == spec.name;
    match FirstIndex(roles, p)
    case None =>
      var r := roles + [Role(freshId, spec.name, spec.authorities)];
      assert forall j :: 0 <= j < |roles| ==> r[j] == roles[j];
      FirstNamed(r, spec.name, |roles|);
      forall n | n != spec.name
        ensures UserRepository.FindRoleByName(r, n) == UserRepository.FindRoleByName(roles, n)
      {
        UpsertOthers(roles, r, n, spec.name);
      }
      r
    case Some(k) =>
      var r := roles[k := Role(roles[k].id, spec.name, spec.authorities)];
      FirstNamed(r, spec.name, k);
      forall n | n != spec.name
        ensures UserRepository.FindRoleByName(r, n) == UserRepository.FindRoleByName(roles, n)
      {
        UpsertOthers(roles, r, n, spec.name);
      }
      r
  }

  /** The lookup by name returns the role at the first position holding it. */
  lemma {:induction false} FirstNamed(roles: seq<Role>, name: string, k: nat)
    requires k < |roles| && roles[k].name == name
    requires forall j :: 0 <= j < k ==> roles[j].name != name
    ensures UserRepository.FindRoleByName(roles, name) == Some(roles[k])
  {
    var i := FirstIndex(roles, (x: Role) => x.name == name);
    assert i.Some?;
    assert i.value == k;
  }

  /** Rewriting or appending a role named `m` does not change the lookup of
      any other name. */
  lemma {:induction false} UpsertOthers(roles: seq<Role>, r: seq<Role>, n: string, m: string)
    requires n != m
    requires |roles| <= |r| <= |roles| + 1
    requires forall j :: 0 <= j < |roles| ==> r[j] == roles[j] || (r[j].name == m && roles[j].name == m)
    requires |r| == |roles| + 1 ==> r[|roles|].name == m
    ensures UserRepository.FindRoleByName(r, n) == UserRepository.FindRoleByName(roles, n)
  {
    var p := (x: Role) => x.name == n;
    var a := FirstIndex(roles, p);
    var b := FirstIndex(r, p);
    if a.Some? {
      assert r[a.value] == roles[a.value];
      assert b == a;
    } else {
      assert forall j :: 0 <= j < |r| ==> !p(r[j]);
    }
  }

  /** Upserting a spec that is already stored under its name changes nothing. */
  lemma {:induction false} UpsertStored(roles: seq<Role>, spec: RoleSpec, freshId: Id)
    requires Stored(roles, spec)
    ensures Upsert(roles, spec, freshId) == roles
  {
    var p := (x: Role) => x.name == spec.name;
    var k := FirstIndex(roles, p).value;
    assert roles[k := Role(roles[k].id, spec.name, spec.authorities)] == roles;
  }

  /** The role named as in `spec` is stored with the spec's authorities. */
  predicate Stored(roles: seq<Role>, spec: RoleSpec) {
    UserRepository.FindRoleByName(roles, spec.name).Some?
    && UserRepository.FindRoleByName(roles, spec.name).value.authorities == spec.authorities
  }

  /** `seedRoles`: the three upserts in order; `ids` are the identifiers a
      fresh insert would receive. */
  function SeedAll(roles: seq<Role>, ids: seq<Id>): (r: seq<Role>)
    requires |ids| == 3
    ensures Stored(r, SeededRoles()[0]) && Stored(r, SeededRoles()[1]) && Stored(r, SeededRoles()[2])
  {
    var specs := SeededRoles();
    var r1 := Upsert(roles, specs[0], ids[0]);
    var r2 := Upsert(r1, specs[1], ids[1]);
    var r3 := Upsert(r2, specs[2], ids[2]);
    assert |specs[0].name| == 5 && |specs[1].name| == 8 && |specs[2].name| == 6;
    r3
  }

  /** Running the seed again leaves the collection as the first run left it. */
  lemma {:induction false} SeedIdempotent(roles: seq<Role>, ids: seq<Id>, ids2: seq<Id>)
    requires |ids| == 3 && |ids2| == 3
    ensures SeedAll(SeedAll(roles, ids), ids2) == SeedAll(roles, ids)
  {
    var r := SeedAll(roles, ids);
    var specs := SeededRoles();
    UpsertStored(r, specs[0], ids2[0]);
    UpsertStored(r, specs[1], ids2[1]);
    UpsertStored(r, specs[2], ids2[2]);
  }
}
