/** The organization, role, member and invitation routes as they run, each proved to make exactly the
    change its meaning in `OrgTables` says, and so to keep the tables sound. */
module OrgStore {
  import opened OrgTables
  import opened Options
  import opened OrgDefaults
  import opened OrgInvariants
  import opened RoleSweep
  import opened Finite

  lemma Overwritten<K, V>(m: map<K, V>, k: K, a: V, b: V)
    ensures m[k := a][k := b] == m[k := b]
  {
  }

  lemma UniqueUserWith(db: Db, u: nat)
    requires UniqueUsers(db.users) && u in db.users
    ensures UserWith(db.users, db.users[u].email) == Some(u)
  {
  }

  lemma UniqueRoleNamed(roles: map<nat, Role>, r: nat)
    requires UniqueRoleNames(roles) && r in roles
    ensures RoleNamed(roles, roles[r].org, roles[r].name) == Some(r)
  {
  }

  lemma UniqueInvitationWith(db: Db, i: nat)
    requires UniqueTokens(db.invitations) && i in db.invitations
    ensures InvitationWith(db.invitations, db.invitations[i].token) == Some(i)
  {
  }

  /** The links that remain while `pending` of the target's roles in the organization are still to go. */
  function LinksWithout(links: set<(nat, nat)>, user: nat, gone: set<nat>): set<(nat, nat)> {
    set l | l in links && (l.0 != user || l.1 !in gone)
  }

  lemma SeenWith(links: set<(nat, nat)>, before: set<nat>, r: nat, after: set<nat>)
    requires after == before + {r}
    ensures (set l | l in links && l.1 in after :: l.0)
      == (set l | l in links && l.1 in before :: l.0) + (set l | l in links && l.1 == r :: l.0)
  {
  }

  lemma InUnion(db: Db, user: nat, order: seq<nat>, org: nat, p: string)
    requires Acting(db, user, order)
    ensures p in PermissionsIn(db, user, org) <==>
      exists k :: 0 <= k < |order| && db.roles[order[k]].org == org && p in db.roles[order[k]].permissions
  {
    if p in PermissionsIn(db, user, org) {
      var l :| l in db.links && l.0 == user && l.1 in db.roles && db.roles[l.1].org == org
        && p in db.roles[l.1].permissions;
      assert l.1 in RolesOf(db, user);
    }
    if k :| 0 <= k < |order| && db.roles[order[k]].org == org && p in db.roles[order[k]].permissions {
      assert order[k] in RolesOf(db, user);
      assert (user, order[k]) in db.links;
    }
  }

  lemma MemberByOrder(db: Db, user: nat, order: seq<nat>, org: nat)
    requires Acting(db, user, order)
    ensures user in MembersOf(db, org) <==> exists k :: 0 <= k < |order| && db.roles[order[k]].org == org
  {
    if user in MembersOf(db, org) {
      var l :| l in db.links && l.1 in db.roles && db.roles[l.1].org == org && l.0 == user;
      assert l.1 in RolesOf(db, user);
    }
    if k :| 0 <= k < |order| && db.roles[order[k]].org == org {
      assert order[k] in RolesOf(db, user);
      assert (user, order[k]) in db.links;
    }
  }

  lemma GrantedOneMore(had: set<string>, permissions: set<string>, pending: set<string>, p: string)
    requires p in pending && pending <= permissions
    ensures had * (permissions - (pending - {p})) == {} <==> had * (permissions - pending) == {} && p !in had
    ensures p in had + (permissions - pending) <==> p in had
    ensures had + (permissions - (pending - {p})) == had + (permissions - pending) + {p}
  {
    assert permissions - (pending - {p}) == permissions - pending + {p};
    assert p in had ==> p in had * (permissions - (pending - {p}));
  }

  lemma AcceptSound(db: Db, actor: Option<nat>, token: nat, now: int)
    requires Sound(db) && (actor.Some? ==> actor.value in db.users)
    ensures Sound(Accept(db, actor, token, now).0)
  {
    if actor.Some? {
      AcceptancesSound(db, actor, actor.value, token, now);
    } else {
      AnonymousAccept(db, token, now);
    }
  }

  lemma Founding(db: Db, actor: nat, name: string)
    requires name !in db.orgs.Values
    ensures var o := db.next;
      OrgTables.CreateOrganization(db, actor, name) ==
      (db.(orgs := db.orgs[o := name], roles := NewRoles(db.roles, o, o + 1),
           links := db.links + {(actor, o + 1)}, next := o + 4),
       Done)
  {
    hide ALL_PERMISSIONS;
  }

  lemma NoRolesYet(db: Db, org: nat)
    requires Sound(db) && org == db.next
    ensures (forall r :: r in db.roles ==> db.roles[r].org != org) && Rooms(db.roles, db.next)
  {
  }

  /** A role's permissions have no say in whether a name is taken. */
  lemma OtherNamesTaken(roles: map<nat, Role>, role: nat, permissions: set<string>, org: nat, name: string)
    requires role in roles
    ensures NameTaken(roles[role := roles[role].(permissions := permissions)], org, name, role)
      == NameTaken(roles, org, name, role)
  {
    var roles1 := roles[role := roles[role].(permissions := permissions)];
    if r :| r in roles && r != role && roles[r].org == org && roles[r].name == name {
      assert roles1[r] == roles[r];
    }
    if r :| r in roles1 && r != role && roles1[r].org == org && roles1[r].name == name {
      assert roles1[r] == roles[r];
    }
  }

  function RequestedLinks(roles: map<nat, Role>, user: nat, org: nat, requested: seq<nat>): set<(nat, nat)> {
    set r | r in requested && r in roles && roles[r].org == org :: (user, r)
  }

  lemma RequestedNext(roles: map<nat, Role>, user: nat, org: nat, requested: seq<nat>, n: nat)
    requires n < |requested|
    ensures RequestedLinks(roles, user, org, requested[..n + 1]) == RequestedLinks(roles, user, org, requested[..n])
      + if requested[n] in roles && roles[requested[n]].org == org then {(user, requested[n])} else {}
  {
    assert requested[..n + 1] == requested[..n] + [requested[n]];
  }

  lemma DoubledNext(roles: map<nat, Role>, org: nat, requested: seq<nat>, n: nat)
    requires n < |requested|
    ensures Doubled(roles, org, requested[..n + 1]) <==>
      || Doubled(roles, org, requested[..n])
      || (requested[n] in requested[..n] && requested[n] in roles && roles[requested[n]].org == org)
  {
    var all, part := requested[..n + 1], requested[..n];
    assert all == part + [requested[n]];
    if i, j :| 0 <= i < j < |part| && part[i] == part[j] && part[j] in roles && roles[part[j]].org == org {
      assert all[i] == all[j] && all[j] in roles && roles[all[j]].org == org;
    }
    if requested[n] in part && requested[n] in roles && roles[requested[n]].org == org {
      var i :| 0 <= i < n && part[i] == requested[n];
      assert all[i] == all[n] && all[n] in roles && roles[all[n]].org == org;
    }
    if i, j :| 0 <= i < j < |all| && all[i] == all[j] && all[j] in roles && roles[all[j]].org == org {
      assert part[i] == all[i];
      assert j < n ==> part[j] == all[j];
    }
  }

  lemma NoneLeftIn(db: Db, user: nat, org: nat)
    ensures forall l :: l in LinksElsewhere(db, user, org) && l.0 == user && l.1 in db.roles
             ==> db.roles[l.1].org != org
  {
  }

  lemma RemovedElsewhere(db: Db, user: nat, org: nat, held: set<nat>)
    requires forall l :: l in db.links ==> l.1 in db.roles
    requires held == set l | l in db.links && l.0 == user && db.roles[l.1].org == org :: l.1
    ensures LinksWithout(db.links, user, held) == LinksElsewhere(db, user, org)
  {
  }

  lemma RefusedProcess(db: Db, invitation: nat, user: nat)
    requires invitation in db.invitations
    ensures Process(db, invitation, user).1 != Done ==> Process(db, invitation, user).0 == db
  {
  }

  lemma NoneGone(db: Db)
    requires Sound(db)
    ensures WithoutOrgs(db, {}) == db
  {
  }

  /** Deleting other organizations changes neither an organization nor who its members are. */
  lemma StillThere(db: Db, gone: set<nat>, o: nat)
    requires o !in gone
    ensures MembersOf(WithoutOrgs(db, gone), o) == MembersOf(db, o)
    ensures o in WithoutOrgs(db, gone).orgs <==> o in db.orgs
  {
  }

  lemma OutsideOneMore(db: Db, gone: set<nat>, o: nat, some: map<nat, Role>, all: map<nat, Role>)
    requires all.Keys <= some.Keys
    ensures LinksTo(LinksTo(db.links, some), all) == LinksTo(db.links, all)
    ensures InvitationsOutside(InvitationsOutside(db.invitations, gone, some), {o}, all)
      == InvitationsOutside(db.invitations, gone + {o}, all)
    ensures ResourcesOutside(ResourcesOutside(db.resources, gone), {o}) == ResourcesOutside(db.resources, gone + {o})
  {
  }

  lemma WithoutOneMore(db: Db, gone: set<nat>, o: nat)
    ensures WithoutOrgs(WithoutOrgs(db, gone), {o}) == WithoutOrgs(db, gone + {o})
  {
    var some, all := RolesOutside(db.roles, gone), RolesOutside(db.roles, gone + {o});
    assert RolesOutside(some, {o}) == all;
    assert db.orgs - gone - {o} == db.orgs - (gone + {o});
    hide RolesOutside, WithoutOrgs;
    OutsideOneMore(db, gone, o, some, all);
  }

  lemma InSoleOrgs(db: Db, user: nat, o: nat)
    ensures o in SoleOrgs(db, user) <==> o in db.orgs && MembersOf(db, o) == {user}
  {
  }

  function OrganizationIds(roles: map<nat, Role>, links: set<(nat, nat)>, user: nat): set<nat> {
    set l | l in links && l.0 == user && l.1 in roles :: roles[l.1].org
  }

  lemma SoleAreListed(db: Db, user: nat)
    ensures SoleOrgs(db, user) <= OrganizationIds(db.roles, db.links, user)
  {
    forall o | o in SoleOrgs(db, user) ensures o in OrganizationIds(db.roles, db.links, user) {
      assert user in MembersOf(db, o);
    }
  }

  lemma MembersHaveOrgs(db: Db, user: nat, org: nat)
    requires Sound(db)
    ensures user in MembersOf(db, org) ==> org in db.orgs
  {
  }

  class Store {
    var users: map<nat, User>
    var orgs: map<nat, string>
    var roles: map<nat, Role>
    var links: set<(nat, nat)>
    var invitations: map<nat, Invitation>
    var resources: map<nat, nat>
    var next: nat

    ghost function Tables(): Db
      reads this
    {
      Db(users, orgs, roles, links, invitations, resources, next)
    }

    ghost predicate Valid()
      reads this
    {
      Sound(Tables())
    }

    constructor ()
      ensures Tables() == Db(map[], map[], map[], {}, map[], map[], 1)
      ensures Valid()
    {
      users, orgs, roles, links, invitations, resources, next := map[], map[], map[], {}, map[], map[], 1;
    }

    method FreshId() returns (id: nat)
      modifies `next
      ensures id == old(next) && next == id + 1
    {
      id := next;
      next := next + 1;
    }

    method UserByEmail(email: string) returns (u: Option<nat>)
      requires Valid()
      ensures u == UserWith(users, email)
    {
      u := None;
      if v :| v in users && users[v].email == email {
        UniqueUserWith(Tables(), v);
        u := Some(v);
      }
    }

    // ---- Permissions and membership ----

    /** `User.has_permission`: stops at the first role found in the organization. */
    method UserHasPermission(order: seq<nat>, org: nat, permission: string) returns (granted: bool)
      requires forall r :: r in order ==> r in roles
      ensures granted == HasPermission(Tables(), order, org, permission)
    {
      for n := 0 to |order|
        invariant HasPermission(Tables(), order, org, permission)
          == HasPermission(Tables(), order[n..], org, permission)
      {
        assert order[n..][1..] == order[n + 1..];
        if roles[order[n]].org == org {
          return permission in roles[order[n]].permissions;
        }
      }
      return false;
    }

    method Refuse(order: seq<nat>, org: nat, permission: string) returns (refusal: Option<Error>)
      requires forall r :: r in order ==> r in roles
      ensures refusal == Refusal(Tables(), order, org, permission)
    {
      if org == 0 {
        return Some(DataIntegrityError);
      }
      var granted := UserHasPermission(order, org, permission);
      return if granted then None else Some(InsufficientPermissions);
    }

    /** `_user_permissions_for_org`. */
    method UserPermissionsForOrg(user: nat, order: seq<nat>, org: nat) returns (permissions: set<string>)
      requires Acting(Tables(), user, order)
      ensures permissions == PermissionsIn(Tables(), user, org)
    {
      permissions := {};
      for n := 0 to |order|
        invariant forall p :: p in permissions
                   <==> exists k :: 0 <= k < n && roles[order[k]].org == org && p in roles[order[k]].permissions
      {
        if roles[order[n]].org == org {
          ghost var before := permissions;
          var pending := roles[order[n]].permissions;
          while pending != {}
            invariant pending <= roles[order[n]].permissions
            invariant permissions == before + (roles[order[n]].permissions - pending)
          {
            var p :| p in pending;
            permissions := permissions + {p};
            pending := pending - {p};
          }
        }
      }
      forall p ensures p in permissions <==> p in PermissionsIn(Tables(), user, org) {
        InUnion(Tables(), user, order, org, p);
      }
    }

    /** `User.organizations`: each organization once, in the order of the roles. */
    method UserOrganizations(user: nat, order: seq<nat>) returns (organizations: seq<nat>)
      requires Acting(Tables(), user, order)
      ensures forall i, j :: 0 <= i < j < |organizations| ==> organizations[i] != organizations[j]
      ensures forall o :: o in organizations <==> user in MembersOf(Tables(), o)
    {
      organizations := [];
      for n := 0 to |order|
        invariant forall i, j :: 0 <= i < j < |organizations| ==> organizations[i] != organizations[j]
        invariant forall o :: o in organizations <==> exists k :: 0 <= k < n && roles[order[k]].org == o
      {
        if roles[order[n]].org !in organizations {
          organizations := organizations + [roles[order[n]].org];
        }
      }
      forall o ensures o in organizations <==> user in MembersOf(Tables(), o) {
        MemberByOrder(Tables(), user, order, o);
      }
    }

    /** `Organization.users`: each member once, whichever roles they hold. */
    method OrganizationUsers(org: nat) returns (members: seq<nat>)
      ensures Lists(members, MembersOf(Tables(), org))
    {
      members := [];
      var orgRoles := set r | r in roles && roles[r].org == org;
      var pending := orgRoles;
      ghost var seen := {};
      while pending != {}
        invariant pending <= orgRoles
        invariant seen == set l | l in links && l.1 in orgRoles - pending :: l.0
        invariant Lists(members, seen)
      {
        var r :| r in pending;
        pending := pending - {r};
        ghost var before := seen;
        var holders := set l | l in links && l.1 == r :: l.0;
        ghost var all := holders;
        while holders != {}
          invariant holders <= all && seen == before + (all - holders)
          invariant Lists(members, seen)
        {
          var u :| u in holders;
          holders := holders - {u};
          if u !in members {
            members := members + [u];
          }
          seen := seen + {u};
        }
        assert seen == before + all;
        SeenWith(links, orgRoles - pending - {r}, r, orgRoles - pending);
      }
      assert seen == MembersOf(Tables(), org);
    }

    // ---- Organizations ----

    method CreateOrganization(actor: nat, name: string) returns (out: Outcome)
      requires Valid() && actor in users
      modifies this
      ensures (Tables(), out) == OrgTables.CreateOrganization(old(Tables()), actor, name)
      ensures Valid()
    {
      CreateOrganizationSound(Tables(), actor, name);
      if name in orgs.Values {
        return Rejected(OrganizationNameTaken);
      }
      NoRolesYet(Tables(), next);
      Founding(Tables(), actor, name);
      hide Sound, Rooms;
      AddOrganization(actor, name);
      out := Done;
    }

    method AddOrganization(actor: nat, name: string)
      requires Rooms(roles, next) && forall r :: r in roles ==> roles[r].org != next
      modifies `orgs, `roles, `links, `next
      ensures orgs == old(orgs)[old(next) := name] && next == old(next) + 4
      ensures roles == NewRoles(old(roles), old(next), old(next) + 1) && links == old(links) + {(actor, old(next) + 1)}
    {
      var org := FreshId();
      orgs := orgs[org := name];
      DefaultsOfNew(roles, next, org);
      var ok := CreateDefaultRoles(org, false);
      NewOwner(old(roles), org, org + 1);
      hide NewRoles;
      var owner :| owner in roles && roles[owner].org == org && roles[owner].name == OWNER;
      links := links + {(actor, owner)};
    }

    /** `create_default_roles`: looks the roles up, makes the missing ones and grants their permissions.
        Without looking first, a permission already granted makes the commit fail. */
    method CreateDefaultRoles(org: nat, checkFirst: bool) returns (ok: bool)
      requires Rooms(roles, next)
      modifies `roles, `next
      ensures ok <==> checkFirst || NothingGranted(old(roles), org)
      ensures (roles, next) == if ok then WithDefaults(old(roles), old(next), org) else (old(roles), old(next))
    {
      var savedRoles, savedNext := roles, next;
      var owner, administrator := MakeMissingRoles(org);
      NothingGrantedIff(savedRoles, savedNext, org);
      hide EnsureNamed, ALL_PERMISSIONS, NothingGranted;
      ok := AssignPermissionsToRole(owner, ALL_PERMISSIONS, checkFirst);
      var also := AssignPermissionsToRole(administrator, ALL_PERMISSIONS - {DELETE_ORGANIZATION}, checkFirst);
      ok := ok && also;
      if !ok {
        roles, next := savedRoles, savedNext;
      }
    }

    method MakeMissingRoles(org: nat) returns (owner: nat, administrator: nat)
      requires Rooms(roles, next)
      modifies `roles, `next
      ensures var m := EnsureNamed(old(roles), old(next), org, 3);
        roles == m.roles && next == m.next && |m.ids| == 3 && owner == m.ids[0] && administrator == m.ids[1]
      ensures owner in roles && administrator in roles
    {
      hide Rooms, UniqueRoleNames;
      var ids := [];
      for n := 0 to |DEFAULT_ROLES|
        invariant Made(roles, next, ids) == EnsureNamed(old(roles), old(next), org, n)
      {
        NamedRooms(old(roles), old(next), org, n);
        if r :| r in roles && roles[r].org == org && roles[r].name == DEFAULT_ROLES[n] {
          UniqueRoleNamed(roles, r);
          ids := ids + [r];
        } else {
          ids := ids + [next];
          roles := roles[next := Role(org, DEFAULT_ROLES[n], {})];
          next := next + 1;
        }
      }
      NamedRooms(old(roles), old(next), org, 3);
      owner, administrator := ids[0], ids[1];
    }

    /** `assign_permissions_to_role`; `ok` is false if the commit will find a grant twice. */
    method AssignPermissionsToRole(role: nat, permissions: set<string>, checkFirst: bool) returns (ok: bool)
      requires role in roles
      modifies `roles
      ensures roles == old(roles)[role := Granted(old(roles)[role], permissions)]
      ensures ok <==> checkFirst || old(roles)[role].permissions * permissions == {}
    {
      assert roles[role].permissions + {} == roles[role].permissions;
      ok := true;
      var pending := permissions;
      while pending != {}
        invariant pending <= permissions && role in roles
        invariant roles[role] == Granted(old(roles)[role], permissions - pending)
        invariant roles == old(roles)[role := roles[role]]
        invariant ok <==> checkFirst || old(roles)[role].permissions * (permissions - pending) == {}
      {
        var p :| p in pending;
        if p !in roles[role].permissions {
          roles := roles[role := roles[role].(permissions := roles[role].permissions + {p})];
        } else if !checkFirst {
          ok := false;
        }
        GrantedOneMore(old(roles)[role].permissions, permissions, pending, p);
        pending := pending - {p};
        assert roles[role].permissions == old(roles)[role].permissions + (permissions - pending);
      }
      assert permissions - pending == permissions;
    }

    method UpdateOrganization(actor: nat, order: seq<nat>, org: nat, name: string) returns (out: Outcome)
      requires Valid() && Acting(Tables(), actor, order)
      modifies this
      ensures (Tables(), out) == OrgTables.UpdateOrganization(old(Tables()), actor, order, org, name)
      ensures Valid()
    {
      assert forall r :: r in order ==> r in roles;
      RenamedSound(Tables(), actor, order, org, name);
      MembersHaveOrgs(Tables(), actor, org);
      hide Acting, Sound, HasPermission, MembersOf;
      var organizations := UserOrganizations(actor, order);
      var granted := UserHasPermission(order, org, EDIT_ORGANIZATION);
      if org !in organizations || !granted {
        return Rejected(InsufficientPermissions);
      }
      if exists o :: o in orgs && o != org && orgs[o] == name {
        return Rejected(OrganizationNameTaken);
      }
      orgs := orgs[org := name];
      out := Done;
    }

    method DeleteOrganization(actor: nat, order: seq<nat>, org: nat) returns (out: Outcome)
      requires Valid() && Acting(Tables(), actor, order)
      modifies this
      ensures (Tables(), out) == OrgTables.DeleteOrganization(old(Tables()), actor, order, org)
      ensures Valid()
    {
      assert forall r :: r in order ==> r in roles;
      DeletionsSound(Tables(), actor, order, org, actor);
      hide Acting, Sound, HasPermission, MembersOf;
      var organizations := UserOrganizations(actor, order);
      var granted := UserHasPermission(order, org, DELETE_ORGANIZATION);
      if org !in organizations || !granted {
        return Rejected(InsufficientPermissions);
      }
      CascadeOrganization(org);
      out := Done;
    }

    /** What cascades from an organization: roles, their links and invitations, and resources. */
    method CascadeOrganization(org: nat)
      modifies `orgs, `roles, `links, `invitations, `resources
      ensures Tables() == WithoutOrgs(old(Tables()), {org})
    {
      orgs := orgs - {org};
      roles := RolesOutside(roles, {org});
      links := LinksTo(links, roles);
      invitations := InvitationsOutside(invitations, {org}, roles);
      resources := ResourcesOutside(resources, {org});
    }

    method InviteMember(actor: nat, order: seq<nat>, org: nat, email: string) returns (out: Outcome)
      requires Valid() && Acting(Tables(), actor, order)
      modifies this
      ensures (Tables(), out) == OrgTables.InviteMember(old(Tables()), order, org, email)
      ensures Valid()
    {
      assert forall r :: r in order ==> r in roles;
      InviteMemberSound(Tables(), order, org, email);
      hide Acting, HasPermission, Keyed, NothingDangles, UniqueTokens, OnePerAddress;
      var refusal := Refuse(order, org, INVITE_USER);
      if refusal.Some? {
        return Rejected(refusal.value);
      }
      if org !in orgs {
        return Rejected(OrganizationNotFound);
      }
      var invited := UserByEmail(email);
      if invited.None? {
        return Rejected(UserNotFound);
      }
      var members := OrganizationUsers(org);
      if invited.value in members {
        return Rejected(UserAlreadyMember);
      }
      var memberRole := RoleByName(org, MEMBER);
      if memberRole.None? {
        return Rejected(DataIntegrityError);
      }
      links := links + {(invited.value, memberRole.value)};
      out := Done;
    }

    // ---- Roles ----

    method RoleByName(org: nat, name: string) returns (r: Option<nat>)
      requires Valid()
      ensures r == RoleNamed(roles, org, name)
    {
      r := None;
      if s :| s in roles && roles[s].org == org && roles[s].name == name {
        UniqueRoleNamed(roles, s);
        r := Some(s);
      }
    }

    method CreateRole(actor: nat, order: seq<nat>, name: string, org: nat, permissions: seq<string>)
      returns (out: Outcome)
      requires Valid() && Acting(Tables(), actor, order)
      modifies this
      ensures (Tables(), out) == OrgTables.CreateRole(old(Tables()), order, name, org, permissions)
      ensures Valid()
    {
      assert forall r :: r in order ==> r in roles;
      CreateRoleSound(Tables(), order, name, org, permissions);
      hide Acting, Sound, HasPermission, NameTaken, ALL_PERMISSIONS;
      if NameTaken(roles, org, name, 0) {
        return Rejected(RoleAlreadyExists);
      }
      var refusal := Refuse(order, org, CREATE_ROLE);
      if refusal.Some? {
        return Rejected(refusal.value);
      }
      var role := FreshId();
      roles := roles[role := Role(org, name, {})];
      if permissions != [] {
        Overwritten(old(roles), role, Role(org, name, {}), Role(org, name, Members(permissions) * ALL_PERMISSIONS));
        roles := roles[role := roles[role].(permissions := Members(permissions) * ALL_PERMISSIONS)];
      } else {
        assert Members(permissions) * ALL_PERMISSIONS == {};
      }
      out := Done;
    }

    /** The loops come before the name checks; a refused request rolls their work back. */
    method UpdateRole(actor: nat, order: seq<nat>, role: nat, name: string, org: nat, permissions: seq<string>,
      held: seq<string>)
      returns (out: Outcome)
      requires Valid() && Acting(Tables(), actor, order)
      requires role in roles ==> ListsPermissions(held, roles[role].permissions)
      modifies this
      ensures (Tables(), out) == OrgTables.UpdateRole(old(Tables()), order, role, name, org, permissions, held)
      ensures Valid()
    {
      assert forall r :: r in order ==> r in roles;
      UpdateRoleSound(Tables(), order, role, name, org, permissions, held);
      hide Acting, Sound, HasPermission, NameTaken, ALL_PERMISSIONS, Sweep, WithMissing;
      var refusal := Refuse(order, org, EDIT_ROLE);
      if refusal.Some? {
        return Rejected(refusal.value);
      }
      if role !in roles {
        return Rejected(RoleNotFound);
      }
      if roles[role].name in DEFAULT_ROLES {
        return Rejected(CannotModifyDefaultRole);
      }
      if exists p :: p in permissions && p !in ALL_PERMISSIONS {
        return Rejected(InvalidPermission);
      }
      var savedRoles := roles;
      var list := AppendMissing(held, permissions);
      WithMissingHolds(held, permissions);
      list := RemoveUnwanted(list, Members(permissions));
      roles := roles[role := roles[role].(permissions := Members(list))];
      OtherNamesTaken(savedRoles, role, Members(list), org, name);
      OtherNamesTaken(savedRoles, role, Members(list), roles[role].org, name);
      if NameTaken(roles, org, name, role) {
        roles := savedRoles;
        return Rejected(RoleAlreadyExists);
      }
      if NameTaken(roles, roles[role].org, name, role) {
        roles := savedRoles;
        return Rejected(RoleAlreadyExists);
      }
      roles := roles[role := roles[role].(name := name)];
      Overwritten(savedRoles, role, savedRoles[role].(permissions := Members(list)), roles[role]);
      out := Done;
    }

    method DeleteRole(actor: nat, order: seq<nat>, role: nat, org: nat) returns (out: Outcome)
      requires Valid() && Acting(Tables(), actor, order)
      modifies this
      ensures (Tables(), out) == OrgTables.DeleteRole(old(Tables()), order, role, org)
      ensures Valid()
    {
      assert forall r :: r in order ==> r in roles;
      DeleteRoleSound(Tables(), order, role, org);
      hide Acting, Sound, HasPermission;
      var refusal := Refuse(order, org, DELETE_ROLE);
      if refusal.Some? {
        return Rejected(refusal.value);
      }
      if role !in roles {
        return Rejected(RoleNotFound);
      }
      if roles[role].name in DEFAULT_ROLES {
        return Rejected(CannotModifyDefaultRole);
      }
      if exists l :: l in links && l.1 == role {
        return Rejected(RoleHasUsers);
      }
      roles := roles - {role};
      invitations := map i | i in invitations && invitations[i].role != role :: invitations[i];
      out := Done;
    }

    // ---- Memberships ----

    /** The loop that takes a user's roles in one organization away. */
    method RemoveRolesIn(user: nat, org: nat)
      requires forall l :: l in links ==> l.1 in roles
      modifies `links
      ensures links == LinksElsewhere(old(Tables()), user, org)
    {
      var held := set l | l in links && l.0 == user && roles[l.1].org == org :: l.1;
      var pending := held;
      while pending != {}
        invariant pending <= held
        invariant links == LinksWithout(old(links), user, held - pending)
      {
        var r :| r in pending;
        links := links - {(user, r)};
        pending := pending - {r};
      }
      RemovedElsewhere(old(Tables()), user, org, held);
    }

    /** Appends the requested roles; `doubled` is whether one was appended twice. */
    method AddRoles(user: nat, org: nat, requested: seq<nat>) returns (doubled: bool)
      requires forall l :: l in links && l.0 == user && l.1 in roles ==> roles[l.1].org != org
      modifies `links
      ensures links == old(links) + RequestedLinks(roles, user, org, requested)
      ensures doubled <==> Doubled(roles, org, requested)
    {
      doubled := false;
      for n := 0 to |requested|
        invariant links == old(links) + RequestedLinks(roles, user, org, requested[..n])
        invariant doubled <==> Doubled(roles, org, requested[..n])
      {
        RequestedNext(roles, user, org, requested, n);
        DoubledNext(roles, org, requested, n);
        if requested[n] in roles && roles[requested[n]].org == org {
          doubled := doubled || (user, requested[n]) in links;
          links := links + {(user, requested[n])};
        }
      }
      assert requested[..|requested|] == requested;
    }

    method UpdateUserRole(actor: nat, order: seq<nat>, target: nat, org: nat, requested: seq<nat>, refused: bool)
      returns (out: Outcome)
      requires Valid() && Acting(Tables(), actor, order)
      modifies this
      ensures (Tables(), out) == OrgTables.UpdateUserRole(old(Tables()), order, target, org, requested, refused)
      ensures Valid()
    {
      assert forall r :: r in order ==> r in roles;
      MembershipsSound(Tables(), actor, order, target, org, requested);
      hide Acting, HasPermission, Keyed, UniqueRoleNames, UniqueUsers, UniqueTokens, OnePerAddress, LinksElsewhere;
      var refusal := Refuse(order, org, EDIT_USER_ROLE);
      if refusal.Some? {
        return Rejected(refusal.value);
      }
      if org !in orgs {
        return Rejected(OrganizationNotFound);
      }
      if target !in users {
        return Rejected(UserNotFound);
      }
      var savedLinks := links;
      RemoveRolesIn(target, org);
      NoneLeftIn(old(Tables()), target, org);
      hide Sound, NothingDangles, Doubled;
      var doubled := AddRoles(target, org, requested);
      if doubled && refused {
        links := savedLinks;
        return Rejected(IntegrityError);
      }
      out := Done;
    }

    method RemoveUserFromOrganization(actor: nat, order: seq<nat>, target: nat, org: nat) returns (out: Outcome)
      requires Valid() && Acting(Tables(), actor, order)
      modifies this
      ensures (Tables(), out) == RemoveUser(old(Tables()), actor, order, target, org)
      ensures Valid()
    {
      assert forall r :: r in order ==> r in roles;
      MembershipsSound(Tables(), actor, order, target, org, []);
      hide Acting, HasPermission, Keyed, UniqueRoleNames, UniqueUsers, UniqueTokens, OnePerAddress, LinksElsewhere;
      var refusal := Refuse(order, org, REMOVE_USER);
      if refusal.Some? {
        return Rejected(refusal.value);
      }
      if org !in orgs {
        return Rejected(OrganizationNotFound);
      }
      if target !in users {
        return Rejected(UserNotFound);
      }
      if target == actor {
        return Rejected(CannotRemoveSelf);
      }
      RemoveRolesIn(target, org);
      out := Done;
    }

    // ---- Invitations ----

    /** `Invitation.invalidate_pending_for_email`. */
    method InvalidatePendingForEmail(org: nat, email: string)
      modifies `invitations
      ensures invitations == WithoutPending(old(invitations), org, email)
    {
      var pending := set i | i in invitations && Pending(invitations[i], org, email);
      var left := pending;
      while left != {}
        invariant left <= pending
        invariant invitations == old(invitations) - (pending - left)
      {
        var i :| i in left;
        invitations := invitations - {i};
        left := left - {i};
      }
    }

    method IsMemberByEmail(email: string, org: nat) returns (already: bool)
      requires Valid()
      ensures already <==> UserWith(users, email).Some? && UserWith(users, email).value in MembersOf(Tables(), org)
    {
      var existing := UserByEmail(email);
      var members := OrganizationUsers(org);
      already := existing.Some? && existing.value in members;
    }

    method RefuseInvitation(order: seq<nat>, email: string, role: nat, org: nat) returns (refusal: Option<Error>)
      requires Valid() && forall r :: r in order ==> r in roles
      ensures refusal == InvitationRefusal(Tables(), order, email, role, org)
    {
      hide HasPermission, Sound, MembersOf, UserWith;
      if org !in orgs {
        return Some(OrganizationNotFound);
      }
      var granted := UserHasPermission(order, org, INVITE_USER);
      if !granted {
        return Some(InsufficientPermissions);
      }
      if role !in roles {
        return Some(RoleNotFound);
      }
      if roles[role].org != org {
        return Some(InvalidRoleForOrganization);
      }
      var already := IsMemberByEmail(email, org);
      return if already then Some(UserAlreadyMember) else None;
    }

    /** `sent` is whether the mail service took the message; if not the request is rolled back. */
    method CreateInvitation(actor: nat, order: seq<nat>, email: string, role: nat, org: nat, sent: bool, now: int)
      returns (out: Outcome)
      requires Valid() && Acting(Tables(), actor, order)
      modifies this
      ensures (Tables(), out) == OrgTables.CreateInvitation(old(Tables()), order, email, role, org, sent, now)
      ensures Valid()
    {
      assert forall r :: r in order ==> r in roles;
      CreateInvitationSound(Tables(), order, email, role, org, sent, now);
      hide Acting, Sound, WithoutPending, InvitationRefusal;
      assert Sound(Tables());
      var refusal := RefuseInvitation(order, email, role, org);
      if refusal.Some? {
        return Rejected(refusal.value);
      }
      out := ReplacePending(email, role, org, sent, now);
    }

    method ReplacePending(email: string, role: nat, org: nat, sent: bool, now: int) returns (out: Outcome)
      modifies `invitations, `next
      ensures !sent ==> out == Rejected(EmailSendError) && invitations == old(invitations) && next == old(next)
      ensures sent ==> out == Done && next == old(next) + 2
      ensures sent ==>
        invitations == WithoutPending(old(invitations), org, email)[old(next) :=
          Invitation(org, role, email, old(next) + 1, now + 7 * DAY, false, None)]
    {
      var savedInvitations, savedNext := invitations, next;
      InvalidatePendingForEmail(org, email);
      var id := FreshId();
      var token := FreshId();
      invitations := invitations[id := Invitation(org, role, email, token, now + 7 * DAY, false, None)];
      if !sent {
        invitations, next := savedInvitations, savedNext;
        return Rejected(EmailSendError);
      }
      out := Done;
    }

    method ResendInvitation(actor: nat, order: seq<nat>, invitation: nat, org: nat, sent: bool, now: int)
      returns (out: Outcome)
      requires Valid() && Acting(Tables(), actor, order)
      modifies this
      ensures (Tables(), out) == OrgTables.ResendInvitation(old(Tables()), order, invitation, org, sent, now)
      ensures Valid()
    {
      assert forall r :: r in order ==> r in roles;
      ResendInvitationSound(Tables(), order, invitation, org, sent, now);
      hide Acting, Sound, HasPermission;
      if org !in orgs {
        return Rejected(OrganizationNotFound);
      }
      var granted := UserHasPermission(order, org, INVITE_USER);
      if !granted {
        return Rejected(InsufficientPermissions);
      }
      if invitation !in invitations || invitations[invitation].org != org || invitations[invitation].used {
        return Rejected(InvitationNotFound);
      }
      out := RenewToken(invitation, sent, now);
    }

    method RenewToken(invitation: nat, sent: bool, now: int) returns (out: Outcome)
      requires invitation in invitations
      modifies `invitations, `next
      ensures !sent ==> out == Rejected(EmailSendError) && invitations == old(invitations) && next == old(next)
      ensures sent ==> out == Done && next == old(next) + 1
      ensures sent ==>
        invitations == old(invitations)[invitation :=
          old(invitations)[invitation].(token := old(next), expiresAt := now + 7 * DAY)]
    {
      var savedInvitations, savedNext := invitations, next;
      var token := FreshId();
      invitations := invitations[invitation := invitations[invitation].(token := token)];
      invitations := invitations[invitation := invitations[invitation].(expiresAt := now + 7 * DAY)];
      Overwritten(savedInvitations, invitation, savedInvitations[invitation].(token := token), invitations[invitation]);
      if !sent {
        invitations, next := savedInvitations, savedNext;
        return Rejected(EmailSendError);
      }
      out := Done;
    }

    method DeleteInvitation(actor: nat, order: seq<nat>, invitation: nat, org: nat) returns (out: Outcome)
      requires Valid() && Acting(Tables(), actor, order)
      modifies this
      ensures (Tables(), out) == OrgTables.DeleteInvitation(old(Tables()), order, invitation, org)
      ensures Valid()
    {
      assert forall r :: r in order ==> r in roles;
      DeleteInvitationSound(Tables(), order, invitation, org);
      hide Acting, Sound, HasPermission;
      if org !in orgs {
        return Rejected(OrganizationNotFound);
      }
      var granted := UserHasPermission(order, org, INVITE_USER);
      if !granted {
        return Rejected(InsufficientPermissions);
      }
      if invitation !in invitations || invitations[invitation].org != org {
        return Rejected(InvitationNotFound);
      }
      invitations := invitations - {invitation};
      out := Done;
    }

    method InvitationByToken(token: nat) returns (i: Option<nat>)
      requires Valid()
      ensures i == InvitationWith(invitations, token)
    {
      i := None;
      if j :| j in invitations && invitations[j].token == token {
        UniqueInvitationWith(Tables(), j);
        i := Some(j);
      }
    }

    /** `get_invitation_token_warning`, and the refusals of `require_active_invitation_by_token`: no
        warning exactly for the token of an unused invitation not past its expiry. */
    method InvitationTokenWarning(token: nat, now: int) returns (refusal: Option<Error>)
      requires Valid()
      ensures refusal == TokenRefusal(Tables(), token, now)
    {
      hide Sound;
      var i := InvitationByToken(token);
      if i.None? || invitations[i.value].used {
        return Some(InvalidInvitation);
      }
      if now > invitations[i.value].expiresAt {
        return Some(ExpiredInvitation);
      }
      return None;
    }

    /** `process_invitation` and the commit that follows it. */
    method ProcessInvitation(invitation: nat, user: nat) returns (out: Outcome)
      requires invitation in invitations && !invitations[invitation].used
      modifies this
      ensures (Tables(), out) == Process(old(Tables()), invitation, user)
    {
      var savedLinks, savedInvitations := links, invitations;
      links := links + {(user, invitations[invitation].role)};
      invitations := invitations[invitation := invitations[invitation].(used := true)];
      invitations := invitations[invitation := invitations[invitation].(acceptedBy := Some(user))];
      Overwritten(savedInvitations, invitation, savedInvitations[invitation].(used := true), invitations[invitation]);
      if j :| j in invitations && j != invitation && SameSlot(invitations[j], invitations[invitation]) {
        assert savedInvitations[j].used;
        links, invitations := savedLinks, savedInvitations;
        return Rejected(InvitationProcessingError);
      }
      assert forall j :: j in savedInvitations && j != invitation
              ==> !SameSlot(invitations[j], invitations[invitation]);
      out := Done;
    }

    method AcceptInvitation(actor: Option<nat>, token: nat, now: int) returns (out: Outcome)
      requires Valid() && (actor.Some? ==> actor.value in users)
      modifies this
      ensures (Tables(), out) == Accept(old(Tables()), actor, token, now)
      ensures Valid()
    {
      AcceptSound(Tables(), actor, token, now);
      hide Sound, Process, UserWith, InvitationWith;
      var refusal := InvitationTokenWarning(token, now);
      if refusal.Some? {
        return Rejected(refusal.value);
      }
      var invitation := InvitationByToken(token);
      var existing := UserByEmail(invitations[invitation.value].email);
      if existing.None? {
        return Rejected(RegistrationRequired);
      }
      if actor != existing {
        return Rejected(LoginRequired);
      }
      out := ProcessInvitation(invitation.value, existing.value);
    }

    /** The invitation part of `login`. */
    method AcceptInvitationAtLogin(user: nat, token: nat, now: int) returns (out: Outcome)
      requires Valid() && user in users
      modifies this
      ensures (Tables(), out) == AcceptAtLogin(old(Tables()), user, token, now)
      ensures Valid()
    {
      AcceptancesSound(Tables(), None, user, token, now);
      hide Sound, Process, UserWith, InvitationWith;
      var refusal := InvitationTokenWarning(token, now);
      if refusal.Some? {
        return Rejected(refusal.value);
      }
      var invitation := InvitationByToken(token);
      if invitations[invitation.value].email !in users[user].verified {
        return Rejected(InvitationEmailMismatch);
      }
      out := ProcessInvitation(invitation.value, user);
    }

    /** The checks `register` makes on an invitation before it looks at the address. */
    method InvitationToRegister(email: string, using: nat, now: int) returns (refusal: Option<Error>, invitation: nat)
      requires Valid()
      ensures TokenRefusal(Tables(), using, now).Some? ==> refusal == TokenRefusal(Tables(), using, now)
      ensures TokenRefusal(Tables(), using, now).None? ==>
        && InvitationWith(invitations, using) == Some(invitation) && !invitations[invitation].used
        && refusal == if invitations[invitation].email != email then Some(InvitationEmailMismatch) else None
    {
      hide Sound;
      invitation := 0;
      refusal := InvitationTokenWarning(using, now);
      if refusal.None? {
        var found := InvitationByToken(using);
        invitation := found.value;
        if invitations[invitation].email != email {
          refusal := Some(InvitationEmailMismatch);
        }
      }
    }

    /** The user and invitation part of `register`. */
    method Register(email: string, using: Option<nat>, now: int) returns (out: Outcome)
      requires Valid()
      modifies this
      ensures (Tables(), out) == OrgTables.Register(old(Tables()), email, using, now)
      ensures Valid()
    {
      RegisterSound(Tables(), email, using, now);
      hide Sound, AddedUser, UserWith, InvitationWith, TokenRefusal, AddressOnFile;
      var invitation := None;
      if using.Some? {
        var refusal, id := InvitationToRegister(email, using.value, now);
        if refusal.Some? {
          return Rejected(refusal.value);
        }
        invitation := Some(id);
      }
      var existing := UserByEmail(email);
      if existing.Some? {
        return Rejected(EmailAlreadyRegistered);
      }
      if AddressOnFile(users, email) {
        return Rejected(if using.Some? then InvitationProcessingError else DataIntegrityError);
      }
      out := AddUser(email, invitation);
    }

    /** A refused invitation takes the new user with it. */
    method AddUser(email: string, invitation: Option<nat>) returns (out: Outcome)
      requires invitation.Some? ==> invitation.value in invitations && !invitations[invitation.value].used
      modifies this
      ensures (Tables(), out) == AddedUser(old(Tables()), email, invitation)
    {
      hide Process;
      var savedUsers, savedNext := users, next;
      var user := FreshId();
      users := users[user := User(email, {email})];
      out := Done;
      if invitation.Some? {
        RefusedProcess(Tables(), invitation.value, user);
        out := ProcessInvitation(invitation.value, user);
        if out != Done {
          users, next := savedUsers, savedNext;
          out := Rejected(DataIntegrityError);
        }
      }
    }

    // ---- Deleting a user ----

    method IsOnlyMember(user: nat, org: nat) returns (only: bool)
      ensures only <==> MembersOf(Tables(), org) == {user}
    {
      hide MembersOf;
      var members := OrganizationUsers(org);
      var userIds := set u | u in members;
      only := userIds == {user};
      assert userIds == MembersOf(Tables(), org);
    }

    method DeleteIfOnlyMember(user: nat, org: nat, ghost db: Db, ghost gone: set<nat>) returns (ghost more: set<nat>)
      requires Tables() == WithoutOrgs(db, gone) && org !in gone
      modifies this
      ensures more == gone + if org in SoleOrgs(db, user) then {org} else {}
      ensures Tables() == WithoutOrgs(db, more)
    {
      StillThere(db, gone, org);
      InSoleOrgs(db, user, org);
      hide WithoutOrgs, MembersOf, SoleOrgs;
      more := gone;
      var only := IsOnlyMember(user, org);
      if only && org in orgs {
        CascadeOrganization(org);
        WithoutOneMore(db, gone, org);
        more := gone + {org};
      }
    }

    /** `_delete_organizations_where_user_is_only_member`. */
    method DeleteOrganizationsWhereUserIsOnlyMember(user: nat)
      requires Valid()
      modifies this
      ensures Tables() == WithoutOrgs(old(Tables()), SoleOrgs(old(Tables()), user))
    {
      ghost var db, sole := Tables(), SoleOrgs(Tables(), user);
      var organizationIds := OrganizationIds(roles, links, user);
      var pending := organizationIds;
      ghost var gone := {};
      NoneGone(db);
      SoleAreListed(db, user);
      hide Sound, WithoutOrgs, SoleOrgs, OrganizationIds;
      while pending != {}
        invariant pending <= organizationIds
        invariant gone == sole * (organizationIds - pending)
        invariant Tables() == WithoutOrgs(db, gone)
      {
        var o :| o in pending;
        pending := pending - {o};
        gone := DeleteIfOnlyMember(user, o, db, gone);
        assert organizationIds - pending == organizationIds - (pending + {o}) + {o};
      }
      assert gone == sole;
    }

    /** The organization side of `delete_account`. */
    method DeleteUser(user: nat)
      requires Valid() && user in users
      modifies this
      ensures Tables() == OrgTables.DeleteUser(old(Tables()), user)
      ensures Valid()
    {
      DeletionsSound(Tables(), user, [], 0, user);
      hide Sound, WithoutOrgs, SoleOrgs;
      DeleteOrganizationsWhereUserIsOnlyMember(user);
      CascadeUser(user);
    }

    method CascadeUser(user: nat)
      modifies `users, `links, `invitations
      ensures Tables() == WithoutUser(old(Tables()), user)
    {
      ForgetAccepter(user);
      links := LinksOfOthers(links, user);
      users := users - {user};
    }

    method ForgetAccepter(user: nat)
      modifies `invitations
      ensures invitations == Forgetting(old(invitations), user)
    {
      var accepted := set i | i in invitations && invitations[i].acceptedBy == Some(user);
      var pending := accepted;
      while pending != {}
        invariant pending <= accepted
        invariant invitations == map i | i in old(invitations) ::
          if i in accepted - pending then old(invitations)[i].(acceptedBy := None) else old(invitations)[i]
      {
        var i :| i in pending;
        invitations := invitations[i := invitations[i].(acceptedBy := None)];
        pending := pending - {i};
      }
    }
  }
}
