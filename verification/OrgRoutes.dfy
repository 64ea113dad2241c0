/** Who may do what to an organization, and exactly what each route then does. */
module OrgRoutes {
  import opened OrgTables
  import opened Options
  import opened OrgInvariants
  import opened OrgMembers
  import opened OrgInvitations
  import opened OrgAcross
  import opened RoleSweep
  import opened Finite

  // ---- The permission each route needs ----

  /** Some role the user holds in the organization has the permission. */
  ghost predicate MayIn(db: Db, user: nat, org: nat, permission: string) {
    exists r :: (user, r) in db.links && r in db.roles && db.roles[r].org == org
      && permission in db.roles[r].permissions
  }

  ghost predicate Entitled(db: Db, e: Event) {
    match e.op
    case OpUpdateOrganization(actor, _, org, _) => MayIn(db, actor, org, EDIT_ORGANIZATION)
    case OpDeleteOrganization(actor, _, org) => MayIn(db, actor, org, DELETE_ORGANIZATION)
    case OpInviteMember(actor, _, org, _) => MayIn(db, actor, org, INVITE_USER)
    case OpCreateRole(actor, _, _, org, _) => MayIn(db, actor, org, CREATE_ROLE)
    case OpUpdateRole(actor, _, _, _, org, _, _) => MayIn(db, actor, org, EDIT_ROLE)
    case OpDeleteRole(actor, _, _, org) => MayIn(db, actor, org, DELETE_ROLE)
    case OpUpdateUserRole(actor, _, _, org, _, _) => MayIn(db, actor, org, EDIT_USER_ROLE)
    case OpRemoveUser(actor, _, _, org) => MayIn(db, actor, org, REMOVE_USER)
    case OpCreateInvitation(actor, _, _, _, org, _) => MayIn(db, actor, org, INVITE_USER)
    case OpResendInvitation(actor, _, _, org, _) => MayIn(db, actor, org, INVITE_USER)
    case OpDeleteInvitation(actor, _, _, org) => MayIn(db, actor, org, INVITE_USER)
    case _ => true
  }

  lemma PermittedMayIn(db: Db, actor: nat, order: seq<nat>, org: nat, permission: string)
    requires Acting(db, actor, order) && HasPermission(db, order, org, permission)
    ensures MayIn(db, actor, org, permission) && actor in MembersOf(db, org)
  {
    var r := PermittedMeansMember(db, order, org, permission);
    LinkIsRole(db, actor, r);
    LinkIsMember(db, org, actor);
  }

  lemma OrganizationRoutesNeed(db: Db, e: Event)
    requires WellFormed(db, e) && Step(db, e).1 == Done
    requires e.op.OpUpdateOrganization? || e.op.OpDeleteOrganization? || e.op.OpInviteMember? || e.op.OpUpdateUserRole?
      || e.op.OpRemoveUser?
    ensures Entitled(db, e)
  {
    hide HasPermission, MembersOf, UserWith, RoleNamed, Acting, MayIn, LinksElsewhere;
    match e.op {
      case OpUpdateOrganization(actor, order, org, _) => PermittedMayIn(db, actor, order, org, EDIT_ORGANIZATION);
      case OpDeleteOrganization(actor, order, org) => PermittedMayIn(db, actor, order, org, DELETE_ORGANIZATION);
      case OpInviteMember(actor, order, org, _) => PermittedMayIn(db, actor, order, org, INVITE_USER);
      case OpUpdateUserRole(actor, order, _, org, _, _) => PermittedMayIn(db, actor, order, org, EDIT_USER_ROLE);
      case OpRemoveUser(actor, order, _, org) => PermittedMayIn(db, actor, order, org, REMOVE_USER);
    }
  }

  lemma RoleRoutesNeed(db: Db, e: Event)
    requires WellFormed(db, e) && Step(db, e).1 == Done
    requires e.op.OpCreateRole? || e.op.OpUpdateRole? || e.op.OpDeleteRole?
    ensures Entitled(db, e)
  {
    hide HasPermission, NameTaken, Acting, MayIn, Updated, ALL_PERMISSIONS;
    match e.op {
      case OpCreateRole(actor, order, _, org, _) => PermittedMayIn(db, actor, order, org, CREATE_ROLE);
      case OpUpdateRole(actor, order, _, _, org, _, _) => PermittedMayIn(db, actor, order, org, EDIT_ROLE);
      case OpDeleteRole(actor, order, _, org) => PermittedMayIn(db, actor, order, org, DELETE_ROLE);
    }
  }

  lemma InvitationRoutesNeed(db: Db, e: Event)
    requires WellFormed(db, e) && Step(db, e).1 == Done
    requires e.op.OpCreateInvitation? || e.op.OpResendInvitation? || e.op.OpDeleteInvitation?
    ensures Entitled(db, e)
  {
    hide HasPermission, MembersOf, UserWith, Acting, MayIn, WithoutPending;
    match e.op {
      case OpCreateInvitation(actor, order, _, _, org, _) => PermittedMayIn(db, actor, order, org, INVITE_USER);
      case OpResendInvitation(actor, order, _, org, _) => PermittedMayIn(db, actor, order, org, INVITE_USER);
      case OpDeleteInvitation(actor, order, _, org) => PermittedMayIn(db, actor, order, org, INVITE_USER);
    }
  }

  /** No guarded route succeeds for anyone without the permission it is for. */
  lemma DoneOnlyIfEntitled(db: Db, e: Event)
    requires WellFormed(db, e) && Step(db, e).1 == Done
    ensures Entitled(db, e)
  {
    hide Step, WellFormed, MayIn;
    if e.op.OpUpdateOrganization? || e.op.OpDeleteOrganization? || e.op.OpInviteMember? || e.op.OpUpdateUserRole?
      || e.op.OpRemoveUser?
    {
      OrganizationRoutesNeed(db, e);
    } else if e.op.OpCreateRole? || e.op.OpUpdateRole? || e.op.OpDeleteRole? {
      RoleRoutesNeed(db, e);
    } else if e.op.OpCreateInvitation? || e.op.OpResendInvitation? || e.op.OpDeleteInvitation? {
      InvitationRoutesNeed(db, e);
    }
  }

  /** What a guarded route looks up: the actor's roles in some order, the organization, the permission. */
  function Asked(op: Op): Option<(seq<nat>, nat, string)> {
    match op
    case OpUpdateOrganization(_, order, org, _) => Some((order, org, EDIT_ORGANIZATION))
    case OpDeleteOrganization(_, order, org) => Some((order, org, DELETE_ORGANIZATION))
    case OpInviteMember(_, order, org, _) => Some((order, org, INVITE_USER))
    case OpCreateRole(_, order, _, org, _) => Some((order, org, CREATE_ROLE))
    case OpUpdateRole(_, order, _, _, org, _, _) => Some((order, org, EDIT_ROLE))
    case OpDeleteRole(_, order, _, org) => Some((order, org, DELETE_ROLE))
    case OpUpdateUserRole(_, order, _, org, _, _) => Some((order, org, EDIT_USER_ROLE))
    case OpRemoveUser(_, order, _, org) => Some((order, org, REMOVE_USER))
    case OpCreateInvitation(_, order, _, _, org, _) => Some((order, org, INVITE_USER))
    case OpResendInvitation(_, order, _, org, _) => Some((order, org, INVITE_USER))
    case OpDeleteInvitation(_, order, _, org) => Some((order, org, INVITE_USER))
    case _ => None
  }

  lemma MembersHaveOrganizations(db: Db, user: nat, org: nat)
    requires Sound(db)
    ensures user in MembersOf(db, org) ==> org in db.orgs
  {
  }

  lemma OrganizationRoutesTell(db: Db, e: Event)
    requires Sound(db) && WellFormed(db, e) && (e.op.OpUpdateOrganization? || e.op.OpDeleteOrganization?)
    requires Step(db, e).1 == Rejected(InsufficientPermissions)
    ensures var (order, org, permission) := Asked(e.op).value;
      (forall r :: r in order ==> r in db.roles) && !HasPermission(db, order, org, permission)
  {
    var (order, org, permission) := Asked(e.op).value;
    if HasPermission(db, order, org, permission) {
      PermittedMayIn(db, e.op.actor, order, org, permission);
      MembersHaveOrganizations(db, e.op.actor, org);
    }
    hide Sound, HasPermission, MembersOf, RolesOf, Lists, WithoutOrgs;
  }

  lemma MemberRoutesTell(db: Db, e: Event)
    requires WellFormed(db, e) && (e.op.OpInviteMember? || e.op.OpUpdateUserRole? || e.op.OpRemoveUser?)
    requires Step(db, e).1 == Rejected(InsufficientPermissions)
    ensures var (order, org, permission) := Asked(e.op).value;
      (forall r :: r in order ==> r in db.roles) && !HasPermission(db, order, org, permission)
  {
    hide HasPermission, MembersOf, RolesOf, Lists, Doubled, LinksElsewhere, UserWith, RoleNamed;
  }

  lemma RoleRoutesTell(db: Db, e: Event)
    requires WellFormed(db, e) && (e.op.OpCreateRole? || e.op.OpUpdateRole? || e.op.OpDeleteRole?)
    requires Step(db, e).1 == Rejected(InsufficientPermissions)
    ensures var (order, org, permission) := Asked(e.op).value;
      (forall r :: r in order ==> r in db.roles) && !HasPermission(db, order, org, permission)
  {
    hide HasPermission, NameTaken, Updated, ALL_PERMISSIONS, RolesOf, Lists;
  }

  lemma InvitationRoutesTell(db: Db, e: Event)
    requires WellFormed(db, e) && (e.op.OpCreateInvitation? || e.op.OpResendInvitation? || e.op.OpDeleteInvitation?)
    requires Step(db, e).1 == Rejected(InsufficientPermissions)
    ensures var (order, org, permission) := Asked(e.op).value;
      (forall r :: r in order ==> r in db.roles) && !HasPermission(db, order, org, permission)
  {
    hide HasPermission, MembersOf, UserWith, WithoutPending, RolesOf, Lists;
  }

  lemma OthersTellNothing(db: Db, e: Event)
    requires WellFormed(db, e) && Asked(e.op).None?
    ensures Step(db, e).1 != Rejected(InsufficientPermissions)
  {
    hide UserWith, InvitationWith, AddressOnFile, DeleteUser, ALL_PERMISSIONS, WellFormed;
  }

  /** Nobody who has the permission is told that it is missing. */
  lemma InsufficientMeansLacking(db: Db, e: Event)
    requires Sound(db) && WellFormed(db, e) && Step(db, e).1 == Rejected(InsufficientPermissions)
    ensures Asked(e.op).Some? && (forall r :: r in Asked(e.op).value.0 ==> r in db.roles)
    ensures var (order, org, permission) := Asked(e.op).value; !HasPermission(db, order, org, permission)
  {
    hide Sound, Step, WellFormed, HasPermission;
    if e.op.OpUpdateOrganization? || e.op.OpDeleteOrganization? {
      OrganizationRoutesTell(db, e);
    } else if e.op.OpInviteMember? || e.op.OpUpdateUserRole? || e.op.OpRemoveUser? {
      MemberRoutesTell(db, e);
    } else if e.op.OpCreateRole? || e.op.OpUpdateRole? || e.op.OpDeleteRole? {
      RoleRoutesTell(db, e);
    } else if e.op.OpCreateInvitation? || e.op.OpResendInvitation? || e.op.OpDeleteInvitation? {
      InvitationRoutesTell(db, e);
    } else {
      OthersTellNothing(db, e);
    }
  }

  // ---- Organizations ----

  ghost predicate UniqueOrgNames(db: Db) {
    forall o, p :: o in db.orgs && p in db.orgs && db.orgs[o] == db.orgs[p] ==> o == p
  }

  lemma CreationKeepsNames(db: Db, actor: nat, name: string)
    requires UniqueOrgNames(db)
    ensures UniqueOrgNames(CreateOrganization(db, actor, name).0)
  {
    hide ALL_PERMISSIONS;
  }

  lemma RenameKeepsNames(db: Db, e: Event)
    requires UniqueOrgNames(db) && WellFormed(db, e) && e.op.OpUpdateOrganization?
    ensures UniqueOrgNames(Step(db, e).0)
  {
    hide HasPermission, MembersOf, RolesOf, Lists;
  }

  lemma FewerOrgsKeepNames(db: Db, db1: Db)
    requires UniqueOrgNames(db) && forall o :: o in db1.orgs ==> o in db.orgs && db1.orgs[o] == db.orgs[o]
    ensures UniqueOrgNames(db1)
  {
  }

  lemma DeletionsLeaveOrgs(db: Db, e: Event)
    requires WellFormed(db, e) && (e.op.OpDeleteOrganization? || e.op.OpDeleteUser?)
    ensures forall o :: o in Step(db, e).0.orgs ==> o in db.orgs && Step(db, e).0.orgs[o] == db.orgs[o]
  {
    hide HasPermission, MembersOf, SoleOrgs, RolesOutside, LinksTo, InvitationsOutside, ResourcesOutside;
  }

  lemma RoleStepsKeepOrgs(db: Db, e: Event)
    requires WellFormed(db, e) && (e.op.OpCreateRole? || e.op.OpUpdateRole? || e.op.OpDeleteRole?)
    ensures Step(db, e).0.orgs == db.orgs
  {
    hide HasPermission, NameTaken, Updated, ALL_PERMISSIONS;
  }

  /** Two organizations never share a name. */
  lemma StepKeepsOrgNames(db: Db, e: Event)
    requires UniqueOrgNames(db) && WellFormed(db, e)
    ensures UniqueOrgNames(Step(db, e).0)
  {
    hide WellFormed, UniqueOrgNames;
    if e.op.OpCreateOrganization? {
      CreationKeepsNames(db, e.op.actor, e.op.name);
    } else if e.op.OpUpdateOrganization? {
      RenameKeepsNames(db, e);
    } else {
      hide Step;
      if e.op.OpDeleteOrganization? || e.op.OpDeleteUser? {
        DeletionsLeaveOrgs(db, e);
      } else if e.op.OpCreateRole? || e.op.OpUpdateRole? || e.op.OpDeleteRole? {
        RoleStepsKeepOrgs(db, e);
      } else if e.op.OpInviteMember? || e.op.OpUpdateUserRole? || e.op.OpRemoveUser? || e.op.OpAddressesChanged? {
        MembershipsKeepRoles(db, e);
      } else {
        InvitationsKeepRoles(db, e);
      }
      FewerOrgsKeepNames(db, Step(db, e).0);
    }
  }

  lemma {:induction false} RunKeepsOrgNames(db: Db, run: seq<Event>, start: int)
    requires UniqueOrgNames(db) && Possible(db, run, start)
    ensures UniqueOrgNames(Run(db, run, start))
    decreases |run|
  {
    if run != [] {
      hide Step, WellFormed, UniqueOrgNames;
      StepKeepsOrgNames(db, run[0]);
      RunKeepsOrgNames(Step(db, run[0]).0, run[1..], run[0].now);
    }
  }

  lemma FoundedLinks(db: Db, actor: nat, name: string)
    requires Sound(db) && CreateOrganization(db, actor, name).1 == Done
    ensures var db1 := CreateOrganization(db, actor, name).0;
      && db1.links == db.links + {(actor, db.next + 1)} && db1.roles[db.next + 1].org == db.next
      && (forall r :: r in db1.roles && db1.roles[r].org != db.next ==> r in db.roles && db1.roles[r] == db.roles[r])
      && (forall r :: r in db.roles ==> r in db1.roles && db1.roles[r] == db.roles[r] && db.roles[r].org != db.next)
      && (forall l :: l in db.links ==> l.1 in db.roles)
  {
    hide ALL_PERMISSIONS, UniqueUsers, UniqueTokens, OnePerAddress, UniqueRoleNames;
  }

  lemma FoundedMembers(db: Db, actor: nat, name: string, u: nat)
    requires Sound(db) && CreateOrganization(db, actor, name).1 == Done
    ensures u in MembersOf(CreateOrganization(db, actor, name).0, db.next) <==> u == actor
  {
    var db1 := CreateOrganization(db, actor, name).0;
    FoundedLinks(db, actor, name);
    hide Sound, CreateOrganization, MembersOf;
    LinkIsMember(db1, db.next, u);
    assert (actor, db.next + 1) in db1.links;
  }

  /** An organization is founded exactly under a free name; the founder is its only member, and nothing
      else changes. */
  lemma FoundedIff(db: Db, actor: nat, name: string)
    requires Sound(db)
    ensures var (db1, out) := CreateOrganization(db, actor, name);
      && (out == Done <==> forall o :: o in db.orgs ==> db.orgs[o] != name)
      && (out == Done ==>
           && db1.orgs == db.orgs[db.next := name] && MembersOf(db1, db.next) == {actor}
           && (forall r :: r in db1.roles && db1.roles[r].org != db.next
                ==> r in db.roles && db1.roles[r] == db.roles[r])
           && (forall r :: r in db.roles ==> r in db1.roles && db1.roles[r] == db.roles[r])
           && (forall l :: l in db1.links && db1.roles[l.1].org != db.next <==> l in db.links)
           && db1.users == db.users && db1.invitations == db.invitations && db1.resources == db.resources)
      && (out != Done ==> db1 == db)
  {
    hide ALL_PERMISSIONS, Sound, MembersOf;
    var (db1, out) := CreateOrganization(db, actor, name);
    if out == Done {
      FoundedLinks(db, actor, name);
      forall u ensures u in MembersOf(db1, db.next) <==> u == actor {
        FoundedMembers(db, actor, name, u);
      }
    }
  }

  /** An organization is renamed exactly by a member permitted to, to a name no other one has, and only the
      name changes. */
  lemma RenamedIff(db: Db, actor: nat, order: seq<nat>, org: nat, name: string)
    requires Sound(db) && Acting(db, actor, order)
    ensures var (db1, out) := UpdateOrganization(db, actor, order, org, name);
      && (out == Done <==>
           && HasPermission(db, order, org, EDIT_ORGANIZATION)
           && forall o :: o in db.orgs && db.orgs[o] == name ==> o == org)
      && (out == Done ==> MayIn(db, actor, org, EDIT_ORGANIZATION))
      && (out == Done ==> org in db.orgs && db1 == db.(orgs := db.orgs[org := name]))
      && (out != Done ==> db1 == db)
  {
    if HasPermission(db, order, org, EDIT_ORGANIZATION) {
      PermittedMayIn(db, actor, order, org, EDIT_ORGANIZATION);
      var r := PermittedMeansMember(db, order, org, EDIT_ORGANIZATION);
    }
    hide HasPermission, MembersOf, UniqueRoleNames, UniqueUsers, UniqueTokens, OnePerAddress, Acting, MayIn;
  }

  /** What is left after one organization is deleted: all that is not its own. */
  ghost predicate Gone(db: Db, db1: Db, org: nat) {
    && db1.users == db.users
    && (forall o :: o in db1.orgs <==> o in db.orgs && o != org)
    && (forall o :: o in db1.orgs ==> db1.orgs[o] == db.orgs[o])
    && (forall r :: r in db1.roles <==> r in db.roles && db.roles[r].org != org)
    && (forall r :: r in db1.roles ==> db1.roles[r] == db.roles[r])
    && (forall l :: l in db1.links <==> l in db.links && l.1 in db.roles && db.roles[l.1].org != org)
    && (forall i :: i in db1.invitations <==> i in db.invitations && db.invitations[i].org != org)
    && (forall i :: i in db1.invitations ==> db1.invitations[i] == db.invitations[i])
    && (forall x :: x in db1.resources <==> x in db.resources && db.resources[x] != org)
    && (forall x :: x in db1.resources ==> db1.resources[x] == db.resources[x])
  }

  lemma WithoutOneIsGone(db: Db, org: nat)
    requires Sound(db)
    ensures Gone(db, WithoutOrgs(db, {org}), org)
  {
    hide Keyed, UniqueUsers, UniqueTokens, OnePerAddress, UniqueRoleNames;
  }

  /** Only a member with a role that has the permission deletes an organization; exactly what belongs to
      it goes. */
  lemma OrganizationDeletedIff(db: Db, actor: nat, order: seq<nat>, org: nat)
    requires Sound(db) && Acting(db, actor, order)
    ensures var (db1, out) := DeleteOrganization(db, actor, order, org);
      && (out == Done <==> HasPermission(db, order, org, DELETE_ORGANIZATION))
      && (out == Done ==> MayIn(db, actor, org, DELETE_ORGANIZATION) && Gone(db, db1, org))
      && (out != Done ==> db1 == db)
  {
    if HasPermission(db, order, org, DELETE_ORGANIZATION) {
      PermittedMayIn(db, actor, order, org, DELETE_ORGANIZATION);
      WithoutOneIsGone(db, org);
    }
    hide HasPermission, MembersOf, Sound, Gone, WithoutOrgs, Acting;
  }

  lemma CreationKeepsOrgs(db: Db, e: Event)
    requires WellFormed(db, e) && e.op.OpCreateOrganization?
    ensures db.orgs.Keys <= Step(db, e).0.orgs.Keys
  {
    hide ALL_PERMISSIONS;
  }

  lemma OthersKeepOrgs(db: Db, e: Event)
    requires WellFormed(db, e) && !e.op.OpDeleteOrganization? && !e.op.OpDeleteUser?
    ensures db.orgs.Keys <= Step(db, e).0.orgs.Keys
  {
    hide WellFormed, Step;
    if e.op.OpCreateOrganization? {
      CreationKeepsOrgs(db, e);
    } else if e.op.OpUpdateOrganization? {
      RenamesOnly(db, e);
    } else if e.op.OpCreateRole? || e.op.OpUpdateRole? || e.op.OpDeleteRole? {
      RoleStepsKeepOrgs(db, e);
    } else if e.op.OpInviteMember? || e.op.OpUpdateUserRole? || e.op.OpRemoveUser? || e.op.OpAddressesChanged? {
      MembershipsKeepRoles(db, e);
    } else {
      InvitationsKeepRoles(db, e);
    }
  }

  /** Whatever the step: an organization goes only by someone entitled to delete it, or with its only
      member. */
  lemma OrganizationGoesOnlyBy(db: Db, e: Event, o: nat)
    requires Sound(db) && WellFormed(db, e) && o in db.orgs && o !in Step(db, e).0.orgs
    ensures
      || (e.op.OpDeleteOrganization? && e.op.org == o && MayIn(db, e.op.actor, o, DELETE_ORGANIZATION))
      || (e.op.OpDeleteUser? && MembersOf(db, o) == {e.op.user})
  {
    if e.op.OpDeleteOrganization? {
      OrganizationDeletedIff(db, e.op.actor, e.op.order, e.op.org);
      hide Sound, HasPermission, DeleteOrganization, MayIn, Acting;
    } else if e.op.OpDeleteUser? {
      DeletionIsExact(db, e.op.user, o);
      hide Sound, DeleteUser, MembersOf;
    } else {
      OthersKeepOrgs(db, e);
      hide Step;
    }
  }
}
