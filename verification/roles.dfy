/** The authority model: the fixed resources and actions, authorities as
    (resource, actions) pairs, role records, the role input schema and the
    exact-match capability test used by the resource-authority middleware. */
module Roles {
  import opened Common

  /** The model names that can be protected by an authority. */
  datatype Resource = UserResource | TicketResource | RoleResource | AnnouncementResource | AttachmentResource

  datatype Action = Read | Create | Update | Delete

  function ResourceName(r: Resource): string {
    match r
    case UserResource => "User"
    case TicketResource => "Ticket"
    case RoleResource => "Role"
    case AnnouncementResource => "Announcement"
    case AttachmentResource => "Attachment"
  }

  function ActionName(a: Action): string {
    match a
    case Read => "READ"
    case Create => "CREATE"
    case Update => "UPDATE"
    case Delete => "DELETE"
  }

  /** The `RESOURCES` list, in its declared order. */
  const Resources: seq<Resource> := [UserResource, TicketResource, RoleResource, AnnouncementResource, AttachmentResource]

  /** The `AUTHORITY_ACTIONS` list, in its declared order. */
  const AuthorityActions: seq<Action> := [Read, Create, Update, Delete]

  /** The resource enumeration accepted by schema and model: exactly the five
      model names, in order, without duplicates. */
  function ResourceNames(): (names: seq<string>)
    ensures names == ["User", "Ticket", "Role", "Announcement", "Attachment"]
    ensures forall i, j :: 0 <= i < j < |names| ==> names[i] != names[j]
  {
    seq(|Resources|, i requires 0 <= i < |Resources| => ResourceName(Resources[i]))
  }

  /** The action enumeration: exactly READ, CREATE, UPDATE, DELETE. */
  function ActionNames(): (names: seq<string>)
    ensures names == ["READ", "CREATE", "UPDATE", "DELETE"]
    ensures forall i, j :: 0 <= i < j < |names| ==> names[i] != names[j]
  {
    seq(|AuthorityActions|, i requires 0 <= i < |AuthorityActions| => ActionName(AuthorityActions[i]))
  }

  /** The `ResourceAction` type and the `RESOURCES` list name the same five resources. */
  lemma {:induction false} ResourcesComplete(r: Resource)
    ensures r in Resources && ResourceName(r) in ResourceNames()
  {
    match r
    case UserResource => assert Resources[0] == r;
    case TicketResource => assert Resources[1] == r;
    case RoleResource => assert Resources[2] == r;
    case AnnouncementResource => assert Resources[3] == r;
    case AttachmentResource => assert Resources[4] == r;
  }

  /** The `AuthorityAction` type and the `AUTHORITY_ACTIONS` list name the same four actions. */
  lemma {:induction false} ActionsComplete(a: Action)
    ensures a in AuthorityActions && ActionName(a) in ActionNames()
  {
    match a
    case Read => assert AuthorityActions[0] == a;
    case Create => assert AuthorityActions[1] == a;
    case Update => assert AuthorityActions[2] == a;
    case Delete => assert AuthorityActions[3] == a;
  }

  /** Enum membership for a resource string. */
  function ParseResource(s: string): (r: Option<Resource>)
    ensures r.Some? ==> ResourceName(r.value) == s
    ensures r.None? <==> s !in ResourceNames()
  {
    if s == "User" then Some(UserResource)
    else if s == "Ticket" then Some(TicketResource)
    else if s == "Role" then Some(RoleResource)
    else if s == "Announcement" then Some(AnnouncementResource)
    else if s == "Attachment" then Some(AttachmentResource)
    else None
  }

  /** Enum membership for an action string. */
  function ParseAction(s: string): (r: Option<Action>)
    ensures r.Some? ==> ActionName(r.value) == s
    ensures r.None? <==> s !in ActionNames()
  {
    if s == "READ" then Some(Read)
    else if s == "CREATE" then Some(Create)
    else if s == "UPDATE" then Some(Update)
    else if s == "DELETE" then Some(Delete)
    else None
  }

  /** One resource paired with the actions allowed on it. */
  datatype Authority = Authority(resource: Resource, actions: seq<Action>)

  /** A stored role document. */
  datatype Role = Role(id: Id, name: string, authorities: seq<Authority>)

  /** The `some(...)` test of the capability middleware: does any authority
      name exactly this resource and list this action? */
  function HasAuthority(auths: seq<Authority>, res: Resource, act: Action): (b: bool)
    ensures b <==> exists i :: 0 <= i < |auths| && auths[i].resource == res && act in auths[i].actions
    decreases |auths|
  {
    if |auths| == 0 then false
    else if auths[0].resource == res && act in auths[0].actions then true
    else
      var rest := HasAuthority(auths[1..], res, act);
      assert forall i :: 1 <= i < |auths| ==> auths[i] == auths[1..][i - 1];
      rest
  }

  /** The capability test does not depend on the order of the authorities. */
  lemma {:induction false} HasAuthorityPermutation(a: seq<Authority>, b: seq<Authority>, res: Resource, act: Action)
    requires multiset(a) == multiset(b)
    ensures HasAuthority(a, res, act) <==> HasAuthority(b, res, act)
  {
    if HasAuthority(a, res, act) {
      var i :| 0 <= i < |a| && a[i].resource == res && act in a[i].actions;
      assert a[i] in multiset(b);
      var j :| 0 <= j < |b| && b[j] == a[i];
    }
    if HasAuthority(b, res, act) {
      var j :| 0 <= j < |b| && b[j].resource == res && act in b[j].actions;
      assert b[j] in multiset(a);
      var i :| 0 <= i < |a| && a[i] == b[j];
    }
  }

  /** Granting more authorities never revokes a capability. */
  lemma {:induction false} HasAuthorityMonotone(a: seq<Authority>, extra: seq<Authority>, res: Resource, act: Action)
    ensures HasAuthority(a, res, act) ==> HasAuthority(a + extra, res, act)
    ensures HasAuthority(a, res, act) ==> HasAuthority(extra + a, res, act)
  {
    if HasAuthority(a, res, act) {
      var i :| 0 <= i < |a| && a[i].resource == res && act in a[i].actions;
      assert (a + extra)[i] == a[i];
      assert (extra + a)[|extra| + i] == a[i];
    }
  }

  /** Role input as it arrives in a request body, before schema validation. */
  datatype RawAuthority = RawAuthority(resource: string, actions: seq<string>)
  datatype RawRole = RawRole(name: string, authorities: seq<RawAuthority>)

  /** Validated role input: a non-empty name and well-formed authorities. */
  datatype RoleInput = RoleInput(name: string, authorities: seq<Authority>)

  function RenderActions(acts: seq<Action>): (r: seq<string>)
    ensures |r| == |acts|
    ensures forall i :: 0 <= i < |acts| ==> r[i] == ActionName(acts[i])
  {
    seq(|acts|, i requires 0 <= i < |acts| => ActionName(acts[i]))
  }

  function RenderAuthorities(auths: seq<Authority>): (r: seq<RawAuthority>)
    ensures |r| == |auths|
    ensures forall i :: 0 <= i < |auths| ==>
      r[i] == RawAuthority(ResourceName(auths[i].resource), RenderActions(auths[i].actions))
  {
    seq(|auths|, i requires 0 <= i < |auths| =>
      RawAuthority(ResourceName(auths[i].resource), RenderActions(auths[i].actions)))
  }

  /** The request body a client sends for a given role input. */
  function RenderRole(role: RoleInput): RawRole {
    RawRole(role.name, RenderAuthorities(role.authorities))
  }

  /** Each action string must belong to the action enumeration; an empty list is fine. */
  function ParseActions(raw: seq<string>): (r: Option<seq<Action>>)
    ensures r.Some? <==> forall i :: 0 <= i < |raw| ==> raw[i] in ActionNames()
    ensures r.Some? ==> RenderActions(r.value) == raw
  {
    if forall i :: 0 <= i < |raw| ==> ParseAction(raw[i]).Some? then
      Some(seq(|raw|, i requires 0 <= i < |raw| && ParseAction(raw[i]).Some? => ParseAction(raw[i]).value))
    else None
  }

  predicate WellFormedAuthority(a: RawAuthority) {
    a.resource in ResourceNames() && forall i :: 0 <= i < |a.actions| ==> a.actions[i] in ActionNames()
  }

  /** Schema check of one authority object. */
  function ParseAuthority(raw: RawAuthority): (r: Option<Authority>)
    ensures r.Some? <==> WellFormedAuthority(raw)
    ensures r.Some? ==> RawAuthority(ResourceName(r.value.resource), RenderActions(r.value.actions)) == raw
  {
    match ParseResource(raw.resource)
    case None => None
    case Some(res) =>
      match ParseActions(raw.actions)
      case None => None
      case Some(acts) => Some(Authority(res, acts))
  }

  /** Schema check of the authorities array; an empty array is fine. */
  function ParseAuthorities(raw: seq<RawAuthority>): (r: Option<seq<Authority>>)
    ensures r.Some? <==> forall i :: 0 <= i < |raw| ==> WellFormedAuthority(raw[i])
    ensures r.Some? ==> RenderAuthorities(r.value) == raw
  {
    if forall i :: 0 <= i < |raw| ==> ParseAuthority(raw[i]).Some? then
      Some(seq(|raw|, i requires 0 <= i < |raw| && ParseAuthority(raw[i]).Some? => ParseAuthority(raw[i]).value))
    else None
  }

  /** The role insert schema (the read-only schema is the same shape). */
  function ParseRole(raw: RawRole): (r: Option<RoleInput>)
    ensures r.Some? <==> raw.name != "" && forall i :: 0 <= i < |raw.authorities| ==> WellFormedAuthority(raw.authorities[i])
    ensures r.Some? ==> RenderRole(r.value) == raw && r.value.name != ""
  {
    if raw.name == "" then None
    else
      match ParseAuthorities(raw.authorities)
      case None => None
      case Some(auths) => Some(RoleInput(raw.name, auths))
  }

  /** Every role input with a non-empty name survives a round trip through
      its request body. */
  lemma {:induction false} ParseRenderRole(role: RoleInput)
    requires role.name != ""
    ensures ParseRole(RenderRole(role)) == Some(role)
  {
    var raw := RenderRole(role);
    forall i | 0 <= i < |raw.authorities|
      ensures WellFormedAuthority(raw.authorities[i])
    {
      var a := role.authorities[i];
      ResourcesComplete(a.resource);
      forall k | 0 <= k < |a.actions|
        ensures raw.authorities[i].actions[k] in ActionNames()
      {
        ActionsComplete(a.actions[k]);
      }
    }
    var r := ParseRole(raw);
    assert r.Some?;
    RenderAuthoritiesInjective(r.value.authorities, role.authorities);
  }

  lemma {:induction false} RenderActionsInjective(a: seq<Action>, b: seq<Action>)
    requires RenderActions(a) == RenderActions(b)
    ensures a == b
  {
    assert |a| == |b|;
    forall i | 0 <= i < |a| ensures a[i] == b[i] {
      assert ActionName(a[i]) == RenderActions(a)[i];
      assert ParseAction(ActionName(a[i])) == Some(a[i]);
      assert ParseAction(ActionName(b[i])) == Some(b[i]);
    }
  }

  lemma {:induction false} RenderAuthoritiesInjective(a: seq<Authority>, b: seq<Authority>)
    requires RenderAuthorities(a) == RenderAuthorities(b)
    ensures a == b
  {
    assert |a| == |b|;
    forall i | 0 <= i < |a| ensures a[i] == b[i] {
      assert RenderAuthorities(a)[i] == RenderAuthorities(b)[i];
      assert ParseResource(ResourceName(a[i].resource)) == Some(a[i].resource);
      assert ParseResource(ResourceName(b[i].resource)) == Some(b[i].resource);
      RenderActionsInjective(a[i].actions, b[i].actions);
    }
  }
}
