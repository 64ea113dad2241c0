/** What every step keeps: keys and references, the unique constraints, and the default roles. */
module OrgInvariants {
  import opened OrgTables
  import opened Options
  import opened RoleSweep
  import opened Finite

  ghost predicate Keyed(db: Db) {
    && db.next > 0
    && (forall o :: o in db.orgs ==> 0 < o < db.next)
    && (forall u :: u in db.users ==> 0 < u < db.next)
    && (forall r :: r in db.roles ==> 0 < r < db.next)
    && (forall i :: i in db.invitations ==> 0 < i < db.next && db.invitations[i].token < db.next)
  }

  ghost predicate InvitationSound(db: Db, i: Invitation) {
    && i.org in db.orgs && i.role in db.roles && db.roles[i.role].org == i.org
    && (i.acceptedBy.Some? ==> i.acceptedBy.value in db.users)
  }

  /** No foreign key dangles, and an invitation's role belongs to the inviting organization. */
  ghost predicate NothingDangles(db: Db) {
    && (forall r :: r in db.roles ==> db.roles[r].org in db.orgs)
    && (forall l :: l in db.links ==> l.0 in db.users && l.1 in db.roles)
    && (forall i :: i in db.invitations ==> InvitationSound(db, db.invitations[i]))
    && (forall x :: x in db.resources ==> db.resources[x] in db.orgs)
  }

  ghost predicate UniqueRoleNames(roles: map<nat, Role>) {
    forall r, s :: r in roles && s in roles && roles[r].org == roles[s].org && roles[r].name == roles[s].name ==> r == s
  }

  ghost predicate UniqueTokens(invitations: map<nat, Invitation>) {
    forall i, j :: i in invitations && j in invitations && invitations[i].token == invitations[j].token ==> i == j
  }

  predicate SameSlot(i: Invitation, j: Invitation) {
    i.org == j.org && i.email == j.email && i.used == j.used
  }

  /** At most one unused and at most one used invitation per organization and address. */
  ghost predicate OnePerAddress(invitations: map<nat, Invitation>) {
    forall i, j :: i in invitations && j in invitations && SameSlot(invitations[i], invitations[j]) ==> i == j
  }

  ghost predicate UniqueUsers(users: map<nat, User>) {
    forall u, v :: u in users && v in users && users[u].email == users[v].email ==> u == v
  }

  ghost predicate Sound(db: Db) {
    && Keyed(db) && NothingDangles(db)
    && UniqueRoleNames(db.roles) && UniqueUsers(db.users)
    && UniqueTokens(db.invitations) && OnePerAddress(db.invitations)
  }

  // ---- Single steps ----

  /** Dropping invitations, or forgetting who accepted them, breaks no unique constraint. */
  lemma FewerInvitations(invitations: map<nat, Invitation>, fewer: map<nat, Invitation>)
    requires UniqueTokens(invitations) && OnePerAddress(invitations)
    requires forall i :: i in fewer
              ==> i in invitations && SameSlot(fewer[i], invitations[i]) && fewer[i].token == invitations[i].token
    ensures UniqueTokens(fewer) && OnePerAddress(fewer)
  {
  }

  lemma NewInvitation(invitations: map<nat, Invitation>, id: nat, i: Invitation)
    requires UniqueTokens(invitations) && OnePerAddress(invitations) && id !in invitations && !i.used
    requires forall j :: j in invitations
              ==> invitations[j].token != i.token && !Pending(invitations[j], i.org, i.email)
    ensures UniqueTokens(invitations[id := i]) && OnePerAddress(invitations[id := i])
  {
  }

  lemma NewRolesAreUnique(db: Db, actor: nat, name: string)
    requires Keyed(db) && NothingDangles(db) && UniqueRoleNames(db.roles) && actor in db.users
    ensures UniqueRoleNames(CreateOrganization(db, actor, name).0.roles)
  {
    hide ALL_PERMISSIONS;
  }

  lemma NewRolesDangleNowhere(db: Db, actor: nat, name: string)
    requires Keyed(db) && NothingDangles(db) && actor in db.users
    ensures Keyed(CreateOrganization(db, actor, name).0) && NothingDangles(CreateOrganization(db, actor, name).0)
  {
    hide ALL_PERMISSIONS;
  }

  lemma CreateOrganizationSound(db: Db, actor: nat, name: string)
    requires Sound(db) && actor in db.users
    ensures Sound(CreateOrganization(db, actor, name).0)
  {
    NewRolesAreUnique(db, actor, name);
    NewRolesDangleNowhere(db, actor, name);
    var db1 := CreateOrganization(db, actor, name).0;
    assert db1.users == db.users && db1.invitations == db.invitations;
    hide UniqueUsers, UniqueTokens, OnePerAddress, UniqueRoleNames, Keyed, NothingDangles, CreateOrganization;
  }

  lemma RenamedSound(db: Db, actor: nat, order: seq<nat>, org: nat, name: string)
    requires Sound(db) && forall r :: r in order ==> r in db.roles
    ensures Sound(UpdateOrganization(db, actor, order, org, name).0)
  {
    hide HasPermission, MembersOf, UniqueRoleNames, UniqueUsers, UniqueTokens, OnePerAddress;
  }

  lemma LinksSound(db: Db, links: set<(nat, nat)>)
    requires Sound(db) && forall l :: l in links ==> l in db.links || (l.0 in db.users && l.1 in db.roles)
    ensures Sound(db.(links := links))
  {
    hide UniqueRoleNames, UniqueUsers, UniqueTokens, OnePerAddress;
  }

  lemma RolesSound(db: Db, r: nat, role: Role, next: nat)
    requires Sound(db) && role.org in db.orgs && r > 0 && !NameTaken(db.roles, role.org, role.name, r)
    requires (r in db.roles && role.org == db.roles[r].org && next == db.next) || (r == db.next && next == r + 1)
    ensures Sound(db.(roles := db.roles[r := role], next := next))
  {
    hide UniqueUsers, UniqueTokens, OnePerAddress;
  }

  lemma RoleDropped(db: Db, role: nat)
    requires Keyed(db) && NothingDangles(db) && UniqueRoleNames(db.roles) && forall l :: l in db.links ==> l.1 != role
    ensures var db1 := db.(roles := db.roles - {role},
                           invitations := map i | i in db.invitations && db.invitations[i].role != role
                                            :: db.invitations[i]);
      Keyed(db1) && NothingDangles(db1) && UniqueRoleNames(db1.roles)
  {
  }

  lemma DeleteRoleSound(db: Db, order: seq<nat>, role: nat, org: nat)
    requires Sound(db) && forall r :: r in order ==> r in db.roles
    ensures Sound(DeleteRole(db, order, role, org).0)
  {
    hide UniqueUsers, HasPermission, UniqueTokens, OnePerAddress, Keyed, NothingDangles, UniqueRoleNames;
    if DeleteRole(db, order, role, org).1 == Done {
      RoleDropped(db, role);
      FewerInvitations(db.invitations,
        map i | i in db.invitations && db.invitations[i].role != role :: db.invitations[i]);
    }
  }

  lemma WithoutOrgsSound(db: Db, gone: set<nat>)
    requires Sound(db)
    ensures Sound(WithoutOrgs(db, gone))
  {
    hide UniqueUsers, UniqueTokens, OnePerAddress;
    FewerInvitations(db.invitations, WithoutOrgs(db, gone).invitations);
  }

  lemma WithoutUserSound(db: Db, user: nat)
    requires Sound(db)
    ensures Sound(WithoutUser(db, user))
  {
    hide UniqueRoleNames, UniqueTokens, OnePerAddress;
    FewerInvitations(db.invitations, WithoutUser(db, user).invitations);
  }

  lemma CreateInvitationSound(db: Db, order: seq<nat>, email: string, role: nat, org: nat, sent: bool, now: int)
    requires Sound(db) && forall r :: r in order ==> r in db.roles
    ensures Sound(CreateInvitation(db, order, email, role, org, sent, now).0)
  {
    hide UniqueUsers, UniqueRoleNames, HasPermission, UserWith, MembersOf, UniqueTokens, OnePerAddress;
    var others := WithoutPending(db.invitations, org, email);
    FewerInvitations(db.invitations, others);
    NewInvitation(others, db.next, Invitation(org, role, email, db.next + 1, now + 7 * DAY, false, None));
  }

  lemma ResendInvitationSound(db: Db, order: seq<nat>, invitation: nat, org: nat, sent: bool, now: int)
    requires Sound(db) && forall r :: r in order ==> r in db.roles
    ensures Sound(ResendInvitation(db, order, invitation, org, sent, now).0)
  {
    hide UniqueUsers, UniqueRoleNames, HasPermission;
  }

  lemma ProcessSound(db: Db, invitation: nat, user: nat)
    requires Sound(db) && invitation in db.invitations && !db.invitations[invitation].used && user in db.users
    ensures Sound(Process(db, invitation, user).0)
  {
    hide UniqueUsers, UniqueRoleNames;
  }

  lemma NewUserSound(db: Db, email: string)
    requires Sound(db) && UserWith(db.users, email).None?
    ensures Sound(db.(users := db.users[db.next := User(email, {email})], next := db.next + 1))
  {
    hide UniqueTokens, UniqueRoleNames, OnePerAddress;
  }

  lemma UsersSound(db: Db, user: nat, email: string, verified: set<string>)
    requires Sound(db) && user in db.users && forall v :: v in db.users && v != user ==> db.users[v].email != email
    ensures Sound(db.(users := db.users[user := User(email, verified)]))
  {
    hide UniqueTokens, UniqueRoleNames, OnePerAddress;
  }

  lemma LinksSoundTrigger(db: Db)
    ensures db.(links := db.links) == db
  {
  }

  lemma InviteMemberSound(db: Db, order: seq<nat>, org: nat, email: string)
    requires Sound(db) && forall r :: r in order ==> r in db.roles
    ensures Sound(InviteMember(db, order, org, email).0)
  {
    hide Sound, HasPermission, MembersOf;
    LinksSoundTrigger(db);
    var u, r := UserWith(db.users, email), RoleNamed(db.roles, org, MEMBER);
    if u.Some? && r.Some? {
      LinksSound(db, db.links + {(u.value, r.value)});
    }
  }

  lemma MembershipsSound(db: Db, actor: nat, order: seq<nat>, target: nat, org: nat, requested: seq<nat>)
    requires Sound(db) && forall r :: r in order ==> r in db.roles
    ensures Sound(UpdateUserRole(db, order, target, org, requested, true).0)
    ensures Sound(UpdateUserRole(db, order, target, org, requested, false).0)
    ensures Sound(RemoveUser(db, actor, order, target, org).0)
  {
    hide Sound, HasPermission;
    LinksSound(db, LinksElsewhere(db, target, org));
    if target in db.users {
      LinksSound(db, LinksElsewhere(db, target, org)
        + (set r | r in requested && r in db.roles && db.roles[r].org == org :: (target, r)));
    }
  }

  /** A permitted actor holds a role in the organization, which therefore exists. */
  lemma {:induction false} PermittedMeansMember(db: Db, order: seq<nat>, org: nat, permission: string) returns (r: nat)
    requires (forall r :: r in order ==> r in db.roles) && HasPermission(db, order, org, permission)
    ensures r in order && db.roles[r].org == org && permission in db.roles[r].permissions
  {
    if db.roles[order[0]].org == org {
      r := order[0];
    } else {
      r := PermittedMeansMember(db, order[1..], org, permission);
    }
  }

  lemma CreateRoleSound(db: Db, order: seq<nat>, name: string, org: nat, permissions: seq<string>)
    requires Sound(db) && forall r :: r in order ==> r in db.roles
    ensures Sound(CreateRole(db, order, name, org, permissions).0)
  {
    if CreateRole(db, order, name, org, permissions).1 == Done {
      var r := PermittedMeansMember(db, order, org, CREATE_ROLE);
      hide UniqueRoleNames, UniqueUsers, UniqueTokens, OnePerAddress;
      assert !NameTaken(db.roles, org, name, db.next);
      RolesSound(db, db.next, Role(org, name, Members(permissions) * ALL_PERMISSIONS), db.next + 1);
    }
  }

  lemma UpdateRoleSound(db: Db, order: seq<nat>, role: nat, name: string, org: nat, permissions: seq<string>,
    held: seq<string>)
    requires Sound(db) && forall r :: r in order ==> r in db.roles
    ensures Sound(UpdateRole(db, order, role, name, org, permissions, held).0)
  {
    if UpdateRole(db, order, role, name, org, permissions, held).1 == Done {
      hide UniqueRoleNames, UniqueUsers, UniqueTokens, OnePerAddress, HasPermission, Updated;
      RolesSound(db, role, Role(db.roles[role].org, name, Updated(held, permissions)), db.next);
    }
  }

  lemma DeleteInvitationSound(db: Db, order: seq<nat>, invitation: nat, org: nat)
    requires Sound(db) && forall r :: r in order ==> r in db.roles
    ensures Sound(DeleteInvitation(db, order, invitation, org).0)
  {
    hide UniqueRoleNames, UniqueUsers, HasPermission, UniqueTokens, OnePerAddress;
    FewerInvitations(db.invitations, db.invitations - {invitation});
  }

  lemma AcceptancesSound(db: Db, who: Option<nat>, user: nat, token: nat, now: int)
    requires Sound(db) && user in db.users
    ensures Sound(Accept(db, who, token, now).0) && Sound(AcceptAtLogin(db, user, token, now).0)
  {
    hide Sound, Process;
    if TokenRefusal(db, token, now).None? {
      var i := InvitationWith(db.invitations, token).value;
      ProcessSound(db, i, user);
      var u := UserWith(db.users, db.invitations[i].email);
      if u.Some? {
        ProcessSound(db, i, u.value);
      }
    }
  }

  lemma RegisterSound(db: Db, email: string, token: Option<nat>, now: int)
    requires Sound(db)
    ensures Sound(Register(db, email, token, now).0)
  {
    hide Sound, Process;
    if UserWith(db.users, email).None? {
      NewUserSound(db, email);
      var db1 := db.(users := db.users[db.next := User(email, {email})], next := db.next + 1);
      if token.Some? && TokenRefusal(db, token.value, now).None? {
        ProcessSound(db1, InvitationWith(db.invitations, token.value).value, db.next);
      }
    }
  }

  lemma DeletionsSound(db: Db, actor: nat, order: seq<nat>, org: nat, user: nat)
    requires Sound(db) && forall r :: r in order ==> r in db.roles
    ensures Sound(DeleteOrganization(db, actor, order, org).0) && Sound(DeleteUser(db, user))
  {
    hide Sound, HasPermission, MembersOf, SoleOrgs, WithoutOrgs, WithoutUser;
    WithoutOrgsSound(db, {org});
    WithoutOrgsSound(db, SoleOrgs(db, user));
    WithoutUserSound(WithoutOrgs(db, SoleOrgs(db, user)), user);
  }

  lemma AnonymousAccept(db: Db, token: nat, now: int)
    ensures Accept(db, None, token, now).0 == db
  {
  }

  lemma StepKeepsSound(db: Db, e: Event)
    requires Sound(db) && WellFormed(db, e)
    ensures Sound(Step(db, e).0)
  {
    hide Sound, CreateOrganization, UpdateOrganization, DeleteOrganization, InviteMember, CreateRole, UpdateRole,
      DeleteRole,
      UpdateUserRole;
    hide RemoveUser, CreateInvitation, ResendInvitation, DeleteInvitation, Accept, AcceptAtLogin, Register, DeleteUser;
    match e.op {
      case OpCreateOrganization(actor, name) => CreateOrganizationSound(db, actor, name);
      case OpUpdateOrganization(actor, order, org, name) => RenamedSound(db, actor, order, org, name);
      case OpDeleteOrganization(actor, order, org) => DeletionsSound(db, actor, order, org, actor);
      case OpInviteMember(_, order, org, email) => InviteMemberSound(db, order, org, email);
      case OpCreateRole(_, order, name, org, permissions) => CreateRoleSound(db, order, name, org, permissions);
      case OpUpdateRole(_, order, role, name, org, permissions, held) =>
        UpdateRoleSound(db, order, role, name, org, permissions, held);
      case OpDeleteRole(_, order, role, org) => DeleteRoleSound(db, order, role, org);
      case OpUpdateUserRole(actor, order, target, org, requested, _) =>
        MembershipsSound(db, actor, order, target, org, requested);
      case OpRemoveUser(actor, order, target, org) => MembershipsSound(db, actor, order, target, org, []);
      case OpCreateInvitation(_, order, email, role, org, sent) =>
        CreateInvitationSound(db, order, email, role, org, sent, e.now);
      case OpResendInvitation(_, order, invitation, org, sent) =>
        ResendInvitationSound(db, order, invitation, org, sent, e.now);
      case OpDeleteInvitation(_, order, invitation, org) => DeleteInvitationSound(db, order, invitation, org);
      case OpAccept(Some(u), token) => AcceptancesSound(db, Some(u), u, token, e.now);
      case OpAccept(None, token) => AnonymousAccept(db, token, e.now);
      case OpAcceptAtLogin(user, token) => AcceptancesSound(db, None, user, token, e.now);
      case OpRegister(email, using) => RegisterSound(db, email, using, e.now);
      case OpDeleteUser(user) => DeletionsSound(db, user, [], 0, user);
      case OpAddressesChanged(user, email, verified) => UsersSound(db, user, email, verified);
    }
  }

  lemma {:induction false} RunKeepsSound(db: Db, run: seq<Event>, start: int)
    requires Sound(db) && Possible(db, run, start)
    ensures Sound(Run(db, run, start))
    decreases |run|
  {
    if run != [] {
      hide Sound, Step, WellFormed;
      StepKeepsSound(db, run[0]);
      RunKeepsSound(Step(db, run[0]).0, run[1..], run[0].now);
    }
  }

  // ---- Default roles ----

  ghost predicate HasRole(roles: map<nat, Role>, role: Role) {
    exists r :: r in roles && roles[r] == role
  }

  ghost predicate HasDefaults(roles: map<nat, Role>, org: nat) {
    && HasRole(roles, Role(org, OWNER, ALL_PERMISSIONS))
    && HasRole(roles, Role(org, ADMINISTRATOR, ALL_PERMISSIONS - {DELETE_ORGANIZATION}))
    && HasRole(roles, Role(org, MEMBER, {}))
  }

  /** Each default name is borne by exactly one role of the organization. */
  lemma DefaultsAreUnique(db: Db, org: nat, role: Role, r: nat)
    requires Sound(db) && HasRole(db.roles, role) && role.org == org
    requires r in db.roles && db.roles[r].org == org && db.roles[r].name == role.name
    ensures db.roles[r] == role
  {
    var s :| s in db.roles && db.roles[s] == role;
  }

  /** A step leaves every role with a default name alone, unless its organization goes. */
  ghost predicate DefaultNamesKept(db: Db, db1: Db) {
    forall r :: r in db.roles && db.roles[r].name in DEFAULT_ROLES && db.roles[r].org in db1.orgs ==>
      r in db1.roles && db1.roles[r] == db.roles[r]
  }

  lemma InvitationsKeepRoles(db: Db, e: Event)
    requires WellFormed(db, e)
    requires e.op.OpCreateInvitation? || e.op.OpResendInvitation? || e.op.OpDeleteInvitation? || e.op.OpAccept?
      || e.op.OpAcceptAtLogin? || e.op.OpRegister?
    ensures Step(db, e).0.roles == db.roles && Step(db, e).0.orgs == db.orgs
  {
    hide HasPermission, UserWith, InvitationWith, MembersOf;
  }

  lemma MembershipsKeepRoles(db: Db, e: Event)
    requires WellFormed(db, e)
    requires e.op.OpInviteMember? || e.op.OpUpdateUserRole? || e.op.OpRemoveUser? || e.op.OpAddressesChanged?
    ensures Step(db, e).0.roles == db.roles && Step(db, e).0.orgs == db.orgs
  {
    hide HasPermission, MembersOf, LinksElsewhere, UserWith, RoleNamed, RolesOf, Lists;
  }

  lemma RenamesOnly(db: Db, e: Event)
    requires WellFormed(db, e) && e.op.OpUpdateOrganization?
    ensures Step(db, e).0 == db.(orgs := Step(db, e).0.orgs) && Step(db, e).0.orgs.Keys == db.orgs.Keys
  {
    hide HasPermission, MembersOf, RolesOf, Lists;
  }

  lemma DeletionsKeepDefaultNames(db: Db, gone: set<nat>, user: nat)
    ensures DefaultNamesKept(db, WithoutOrgs(db, gone))
      && DefaultNamesKept(db, WithoutUser(WithoutOrgs(db, gone), user))
  {
  }

  lemma RolesKeepDefaultNames(db: Db, e: Event)
    requires Keyed(db) && WellFormed(db, e)
    requires e.op.OpCreateOrganization? || e.op.OpCreateRole? || e.op.OpUpdateRole? || e.op.OpDeleteRole?
    ensures DefaultNamesKept(db, Step(db, e).0)
  {
    hide HasPermission, NameTaken, Updated, RolesOf, Lists, ALL_PERMISSIONS;
  }

  lemma SameRolesKeepNames(db: Db, db1: Db)
    requires db1.roles == db.roles
    ensures DefaultNamesKept(db, db1)
  {
  }

  lemma StepKeepsDefaultNames(db: Db, e: Event)
    requires Keyed(db) && WellFormed(db, e)
    ensures DefaultNamesKept(db, Step(db, e).0)
  {
    hide DefaultNamesKept, WellFormed, Keyed;
    if e.op.OpCreateOrganization? || e.op.OpCreateRole? || e.op.OpUpdateRole? || e.op.OpDeleteRole? {
      RolesKeepDefaultNames(db, e);
    } else if e.op.OpInviteMember? || e.op.OpUpdateUserRole? || e.op.OpRemoveUser? || e.op.OpAddressesChanged? {
      MembershipsKeepRoles(db, e);
      hide Step;
      SameRolesKeepNames(db, Step(db, e).0);
    } else if e.op.OpUpdateOrganization? {
      RenamesOnly(db, e);
      hide Step;
      SameRolesKeepNames(db, Step(db, e).0);
    } else if e.op.OpDeleteOrganization? || e.op.OpDeleteUser? {
      if e.op.OpDeleteOrganization? {
        DeletionsKeepDefaultNames(db, {e.op.org}, 0);
        SameRolesKeepNames(db, db);
      } else {
        DeletionsKeepDefaultNames(db, SoleOrgs(db, e.op.user), e.op.user);
      }
    } else {
      InvitationsKeepRoles(db, e);
      hide Step;
      SameRolesKeepNames(db, Step(db, e).0);
    }
  }

  /** `create_organization` gives the new organization its three roles, and its creator the first. */
  lemma CreatedWithDefaults(db: Db, actor: nat, name: string)
    requires CreateOrganization(db, actor, name).1 == Done
    ensures HasDefaults(CreateOrganization(db, actor, name).0.roles, db.next)
    ensures db.next in CreateOrganization(db, actor, name).0.orgs
    ensures (actor, db.next + 1) in CreateOrganization(db, actor, name).0.links
    ensures CreateOrganization(db, actor, name).0.roles[db.next + 1] == Role(db.next, OWNER, ALL_PERMISSIONS)
  {
    var roles := CreateOrganization(db, actor, name).0.roles;
    assert roles[db.next + 1].name == OWNER;
    assert roles[db.next + 2].name == ADMINISTRATOR;
    assert roles[db.next + 3].name == MEMBER;
    hide ALL_PERMISSIONS;
  }

  lemma KeptRole(db: Db, db1: Db, role: Role)
    requires DefaultNamesKept(db, db1) && HasRole(db.roles, role) && role.name in DEFAULT_ROLES && role.org in db1.orgs
    ensures HasRole(db1.roles, role)
  {
    var r :| r in db.roles && db.roles[r] == role;
    assert db1.roles[r] == role;
  }

  ghost predicate Counts(db: Db, e: Event, db1: Db) {
    && db.next <= db1.next
    && (e.op.OpCreateOrganization? || db1.orgs.Keys <= db.orgs.Keys)
    && db1.orgs.Keys <= db.orgs.Keys + {db.next}
  }

  lemma InvitationsCount(db: Db, e: Event)
    requires WellFormed(db, e)
    requires e.op.OpCreateInvitation? || e.op.OpResendInvitation? || e.op.OpDeleteInvitation? || e.op.OpAccept?
      || e.op.OpAcceptAtLogin? || e.op.OpRegister?
    ensures Counts(db, e, Step(db, e).0)
  {
    hide HasPermission, MembersOf, UserWith, InvitationWith, RolesOf, Lists;
  }

  lemma OthersCount(db: Db, e: Event)
    requires WellFormed(db, e)
    requires !e.op.OpCreateInvitation? && !e.op.OpResendInvitation? && !e.op.OpDeleteInvitation? && !e.op.OpAccept?
      && !e.op.OpAcceptAtLogin? && !e.op.OpRegister? && !e.op.OpUpdateOrganization?
    ensures Counts(db, e, Step(db, e).0)
  {
    hide HasPermission, MembersOf, NameTaken, Updated, LinksElsewhere, SoleOrgs, UserWith, RoleNamed, RolesOf;
    hide Lists, Members, NoRepeats;
  }

  lemma StepCounts(db: Db, e: Event)
    requires WellFormed(db, e)
    ensures db.next <= Step(db, e).0.next
    ensures e.op.OpCreateOrganization? || Step(db, e).0.orgs.Keys <= db.orgs.Keys
    ensures Step(db, e).0.orgs.Keys <= db.orgs.Keys + {db.next}
  {
    hide Step, WellFormed;
    if e.op.OpCreateInvitation? || e.op.OpResendInvitation? || e.op.OpDeleteInvitation? || e.op.OpAccept?
      || e.op.OpAcceptAtLogin? || e.op.OpRegister?
    {
      InvitationsCount(db, e);
    } else if e.op.OpUpdateOrganization? {
      RenamesOnly(db, e);
    } else {
      OthersCount(db, e);
    }
  }

  /** Once gone an organization does not come back under its id. */
  lemma {:induction false} GoneForGood(db: Db, run: seq<Event>, start: int, org: nat)
    requires Possible(db, run, start) && org < db.next && org !in db.orgs
    ensures org !in Run(db, run, start).orgs
    decreases |run|
  {
    if run != [] {
      hide Step, WellFormed;
      StepCounts(db, run[0]);
      GoneForGood(Step(db, run[0]).0, run[1..], run[0].now, org);
    }
  }

  lemma SoundIsKeyed(db: Db)
    requires Sound(db)
    ensures Keyed(db)
  {
  }

  lemma KeptDefaults(db: Db, db1: Db, org: nat)
    requires DefaultNamesKept(db, db1) && HasDefaults(db.roles, org) && org in db1.orgs
    ensures HasDefaults(db1.roles, org)
  {
    hide ALL_PERMISSIONS, DefaultNamesKept, HasRole;
    KeptRole(db, db1, Role(org, OWNER, ALL_PERMISSIONS));
    KeptRole(db, db1, Role(org, ADMINISTRATOR, ALL_PERMISSIONS - {DELETE_ORGANIZATION}));
    KeptRole(db, db1, Role(org, MEMBER, {}));
  }

  /** Whatever role, membership, invitation and deletion steps follow: as long as the organization
      exists it has its Owner, Administrator and Member roles with their permissions. */
  lemma {:induction false} DefaultRolesOnEveryRun(db: Db, run: seq<Event>, start: int, org: nat)
    requires Sound(db) && Possible(db, run, start) && HasDefaults(db.roles, org) && org < db.next
    ensures org in Run(db, run, start).orgs ==> HasDefaults(Run(db, run, start).roles, org)
    decreases |run|
  {
    if run != [] {
      hide Sound, Step, WellFormed, HasDefaults, DefaultNamesKept;
      SoundIsKeyed(db);
      var db1 := Step(db, run[0]).0;
      StepKeepsSound(db, run[0]);
      StepKeepsDefaultNames(db, run[0]);
      StepCounts(db, run[0]);
      if org in db1.orgs {
        KeptDefaults(db, db1, org);
        DefaultRolesOnEveryRun(db1, run[1..], run[0].now, org);
      } else {
        GoneForGood(db1, run[1..], run[0].now, org);
      }
    }
  }
}
