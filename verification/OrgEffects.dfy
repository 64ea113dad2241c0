/** Exactly when the role, membership and invitation routes are granted, what each changes, and by what
    steps alone memberships and invitations change. */
module OrgEffects {
  import opened OrgTables
  import opened Options
  import opened OrgInvariants
  import opened OrgMembers
  import opened OrgInvitations
  import opened OrgAcross
  import opened OrgRoutes
  import opened RoleSweep
  import opened Finite

  // ---- Roles ----

  /** A role is made exactly under a name free in the organization, by someone permitted there; it has the
      permissions asked for that exist, nobody holds it, and nothing else changes. */
  lemma RoleCreatedIff(db: Db, actor: nat, order: seq<nat>, name: string, org: nat, permissions: seq<string>)
    requires Sound(db) && Acting(db, actor, order)
    ensures var (db1, out) := CreateRole(db, order, name, org, permissions);
      && (out == Done <==>
           && HasPermission(db, order, org, CREATE_ROLE)
           && forall r :: r in db.roles && db.roles[r].org == org ==> db.roles[r].name != name)
      && (out == Done ==>
           && db1 == db.(roles := db1.roles, next := db.next + 1)
             && db1.roles == db.roles[db.next := db1.roles[db.next]]
           && db1.roles[db.next].org == org && db1.roles[db.next].name == name
           && (forall p :: p in db1.roles[db.next].permissions <==> p in permissions && p in ALL_PERMISSIONS)
           && forall u :: (u, db.next) !in db1.links)
      && (out != Done ==> db1 == db)
  {
    if HasPermission(db, order, org, CREATE_ROLE) {
      var r := PermittedMeansMember(db, order, org, CREATE_ROLE);
    }
    hide HasPermission, ALL_PERMISSIONS, UniqueRoleNames, UniqueUsers, UniqueTokens, OnePerAddress, Acting;
  }

  /** An update stores what the two loops make of the requested permissions: all of them, none that was
      neither requested nor held, and just them exactly when no two unrequested ones stood side by side.
      The name is the requested one and nothing else changes. */
  lemma RoleUpdateIsExact(db: Db, order: seq<nat>, role: nat, name: string, org: nat, permissions: seq<string>,
    held: seq<string>)
    requires forall r :: r in order ==> r in db.roles
    requires role in db.roles ==> ListsPermissions(held, db.roles[role].permissions)
    requires UpdateRole(db, order, role, name, org, permissions, held).1 == Done
    ensures var db1 := UpdateRole(db, order, role, name, org, permissions, held).0;
      && role in db.roles && role in db1.roles
      && db1 == db.(roles := db.roles[role := db1.roles[role]])
      && db1.roles[role].name == name && db1.roles[role].org == db.roles[role].org
      && var now, was, wanted := db1.roles[role].permissions, db.roles[role].permissions, Members(permissions);
      && wanted <= now <= wanted + was && wanted <= ALL_PERMISSIONS
      && (now == wanted <==> !AdjacentUnwanted(held, wanted))
  {
    UpdateExactIff(held, permissions);
    hide HasPermission, NameTaken, Updated, AdjacentUnwanted, ALL_PERMISSIONS;
  }

  /** When an update is granted. */
  lemma RoleUpdatedIff(db: Db, order: seq<nat>, role: nat, name: string, org: nat, permissions: seq<string>,
    held: seq<string>)
    requires Sound(db) && forall r :: r in order ==> r in db.roles
    ensures UpdateRole(db, order, role, name, org, permissions, held).1 == Done <==>
      && HasPermission(db, order, org, EDIT_ROLE) && Members(permissions) <= ALL_PERMISSIONS
      && role in db.roles && db.roles[role].name !in DEFAULT_ROLES
      && forall r :: r in db.roles && r != role && db.roles[r].org in {org, db.roles[role].org}
          ==> db.roles[r].name != name
  {
    if HasPermission(db, order, org, EDIT_ROLE) {
      var r := PermittedMeansMember(db, order, org, EDIT_ROLE);
    }
    hide HasPermission, ALL_PERMISSIONS, Updated, UniqueRoleNames, UniqueUsers, UniqueTokens, OnePerAddress;
  }

  /** A deleted role takes exactly its invitations along. */
  lemma RoleDeletionIsExact(db: Db, order: seq<nat>, role: nat, org: nat)
    requires (forall r :: r in order ==> r in db.roles) && DeleteRole(db, order, role, org).1 == Done
    ensures var db1 := DeleteRole(db, order, role, org).0;
      && role in db.roles && (forall u :: (u, role) !in db.links)
      && db1 == db.(roles := db.roles - {role}, invitations := db1.invitations)
      && (forall i :: i in db1.invitations <==> i in db.invitations && db.invitations[i].role != role)
      && (forall i :: i in db1.invitations ==> db1.invitations[i] == db.invitations[i])
  {
    hide HasPermission;
    forall u ensures (u, role) !in db.links {
      assert (u, role).1 == role;
    }
  }

  // ---- Memberships ----

  /** The member with an address, as the pages find it. */
  ghost predicate MemberWith(db: Db, org: nat, email: string) {
    exists u :: u in db.users && db.users[u].email == email && u in MembersOf(db, org)
  }

  lemma UniqueUserIsFound(db: Db, email: string)
    requires UniqueUsers(db.users)
    ensures forall u :: u in db.users && db.users[u].email == email ==> UserWith(db.users, email) == Some(u)
  {
  }

  predicate IsNamed(roles: map<nat, Role>, r: nat, org: nat, name: string) {
    r in roles && roles[r].org == org && roles[r].name == name
  }

  /** An invited member is a known user who is not one yet; exactly they gain exactly the Member role. */
  lemma MemberInvitedIff(db: Db, order: seq<nat>, org: nat, email: string)
    requires Sound(db) && forall r :: r in order ==> r in db.roles
    ensures var (db1, out) := InviteMember(db, order, org, email);
      && (out == Done <==>
           && HasPermission(db, order, org, INVITE_USER) && !MemberWith(db, org, email)
           && (exists u :: u in db.users && db.users[u].email == email)
           && exists r :: IsNamed(db.roles, r, org, MEMBER))
      && (out == Done ==> exists u, r ::
           && u in db.users && db.users[u].email == email && IsNamed(db.roles, r, org, MEMBER)
           && db1 == db.(links := db.links + {(u, r)}))
      && (out != Done ==> db1 == db)
  {
    if HasPermission(db, order, org, INVITE_USER) {
      var r := PermittedMeansMember(db, order, org, INVITE_USER);
    }
    UniqueUserIsFound(db, email);
    hide HasPermission, Keyed, NothingDangles, UniqueTokens, OnePerAddress, MembersOf, UniqueUsers;
    var r := RoleNamed(db.roles, org, MEMBER);
    assert r.Some? ==> IsNamed(db.roles, r.value, org, MEMBER);
  }

  /** The roles of a user are changed exactly by someone permitted, for a known user of a known
      organization, and unless the commit refuses a role asked for twice. */
  lemma UserRolesChangedIff(db: Db, order: seq<nat>, target: nat, org: nat, requested: seq<nat>, refused: bool)
    requires Sound(db) && forall r :: r in order ==> r in db.roles
    ensures var (db1, out) := UpdateUserRole(db, order, target, org, requested, refused);
      && (out == Done <==>
           HasPermission(db, order, org, EDIT_USER_ROLE) && target in db.users
           && !(refused && exists i, j :: 0 <= i < j < |requested| && requested[i] == requested[j]
                             && requested[j] in db.roles && db.roles[requested[j]].org == org))
      && (out == Done ==> db1 == db.(links := db1.links)) && (out != Done ==> db1 == db)
  {
    if HasPermission(db, order, org, EDIT_USER_ROLE) {
      var r := PermittedMeansMember(db, order, org, EDIT_USER_ROLE);
    }
    hide HasPermission, LinksElsewhere, UniqueRoleNames, UniqueUsers, UniqueTokens, OnePerAddress;
  }

  /** A user is removed exactly by someone else who is permitted; exactly their roles there go. */
  lemma UserRemovedIff(db: Db, actor: nat, order: seq<nat>, target: nat, org: nat)
    requires Sound(db) && forall r :: r in order ==> r in db.roles
    ensures var (db1, out) := RemoveUser(db, actor, order, target, org);
      && (out == Done <==> HasPermission(db, order, org, REMOVE_USER) && target in db.users && target != actor)
      && (out == Done ==>
           && db1 == db.(links := db1.links)
           && forall l :: l in db1.links <==> l in db.links && !(l.0 == target && db.roles[l.1].org == org))
      && (out != Done ==> db1 == db)
  {
    if HasPermission(db, order, org, REMOVE_USER) {
      var r := PermittedMeansMember(db, order, org, REMOVE_USER);
    }
    hide HasPermission, UniqueRoleNames, UniqueUsers, UniqueTokens, OnePerAddress;
  }

  // ---- Invitations ----

  /** An invitation is made exactly for a role of the organization and an address no member has; the
      address then has just this one pending there, for a week, and every other stays. */
  lemma InvitationMadeIff(db: Db, order: seq<nat>, email: string, role: nat, org: nat, sent: bool, now: int, later: int)
    requires Sound(db) && forall r :: r in order ==> r in db.roles
    ensures var (db1, out) := CreateInvitation(db, order, email, role, org, sent, now);
      && (out == Done <==>
           && sent && HasPermission(db, order, org, INVITE_USER) && !MemberWith(db, org, email)
           && role in db.roles && db.roles[role].org == org)
      && (out == Done ==>
           && db1 == db.(invitations := db1.invitations, next := db1.next)
           && (UsableAs(db1, db.next, db.next + 1, later) <==> later <= now + 7 * DAY)
           && db1.invitations[db.next].org == org && db1.invitations[db.next].role == role
           && db1.invitations[db.next].email == email
           && (forall i :: i in db1.invitations && i != db.next ==>
                && i in db.invitations && db1.invitations[i] == db.invitations[i]
                && (db.invitations[i].used || db.invitations[i].org != org || db.invitations[i].email != email))
           && (forall i :: i in db.invitations && i !in db1.invitations ==>
                !db.invitations[i].used && db.invitations[i].org == org && db.invitations[i].email == email))
      && (out != Done ==> db1 == db)
  {
    if HasPermission(db, order, org, INVITE_USER) {
      var r := PermittedMeansMember(db, order, org, INVITE_USER);
    }
    UniqueUserIsFound(db, email);
    hide HasPermission, MembersOf, UniqueUsers, UniqueRoleNames, UniqueTokens, OnePerAddress;
  }

  /** An invitation is sent again exactly while unused; it gets a fresh token and another week, and
      nothing else changes. */
  lemma InvitationResentIff(db: Db, order: seq<nat>, i: nat, org: nat, sent: bool, now: int, later: int)
    requires Sound(db) && forall r :: r in order ==> r in db.roles
    ensures var (db1, out) := ResendInvitation(db, order, i, org, sent, now);
      && (out == Done <==>
           && sent && HasPermission(db, order, org, INVITE_USER)
           && i in db.invitations && db.invitations[i].org == org && !db.invitations[i].used)
      && (out == Done ==>
           && (UsableAs(db1, i, db.next, later) <==> later <= now + 7 * DAY)
           && db1 == db.(invitations := db.invitations[i := db1.invitations[i]], next := db.next + 1)
           && db1.invitations[i].org == org && db1.invitations[i].role == db.invitations[i].role
           && db1.invitations[i].email == db.invitations[i].email)
      && (out != Done ==> db1 == db)
  {
    if HasPermission(db, order, org, INVITE_USER) {
      var r := PermittedMeansMember(db, order, org, INVITE_USER);
    }
    hide HasPermission, UniqueUsers, UniqueRoleNames, UniqueTokens, OnePerAddress;
  }

  /** An invitation is deleted, used or not, exactly by someone permitted in its organization. */
  lemma InvitationDeletedIff(db: Db, order: seq<nat>, i: nat, org: nat)
    requires Sound(db) && forall r :: r in order ==> r in db.roles
    ensures var (db1, out) := DeleteInvitation(db, order, i, org);
      && (out == Done <==>
           HasPermission(db, order, org, INVITE_USER) && i in db.invitations && db.invitations[i].org == org)
      && (out == Done ==>
           && db1 == db.(invitations := db1.invitations) && db1.invitations.Keys == db.invitations.Keys - {i}
           && forall j :: j in db1.invitations ==> db1.invitations[j] == db.invitations[j])
      && (out != Done ==> db1 == db)
  {
    if HasPermission(db, order, org, INVITE_USER) {
      var r := PermittedMeansMember(db, order, org, INVITE_USER);
    }
    hide HasPermission, UniqueUsers, UniqueRoleNames, UniqueTokens, OnePerAddress;
  }

  /** The warning says expired exactly for an unused invitation past its expiry, and invalid for any other
      token that cannot be used. */
  lemma WarningMeans(db: Db, token: nat, now: int)
    requires Sound(db)
    ensures TokenRefusal(db, token, now) == Some(ExpiredInvitation) <==>
      exists i :: i in db.invitations && db.invitations[i].token == token && !db.invitations[i].used
        && db.invitations[i].expiresAt < now
    ensures TokenRefusal(db, token, now) == Some(InvalidInvitation) <==>
      forall i :: i in db.invitations && db.invitations[i].token == token ==> db.invitations[i].used
  {
    hide Keyed, NothingDangles, UniqueRoleNames, UniqueUsers, OnePerAddress;
  }

  lemma SoundUsers(db: Db)
    requires Sound(db)
    ensures UniqueUsers(db.users)
  {
  }

  /** Whoever follows the link of a usable invitation is sent to register exactly when nobody has its
      address as primary, and to log in exactly when somebody else has. */
  lemma SentElsewhereIff(db: Db, who: Option<nat>, token: nat, now: int)
    requires Sound(db)
    ensures Accept(db, who, token, now).1 == Rejected(RegistrationRequired) <==>
      exists i :: UsableAs(db, i, token, now) && forall u :: u in db.users
                                                  ==> db.users[u].email != db.invitations[i].email
    ensures Accept(db, who, token, now).1 == Rejected(LoginRequired) <==>
      exists i, u :: UsableAs(db, i, token, now) && u in db.users && db.users[u].email == db.invitations[i].email
        && who != Some(u)
  {
    SoundTokens(db);
    SoundUsers(db);
    hide Sound, UniqueTokens, UniqueUsers, Process;
    if TokenRefusal(db, token, now).None? {
      var i := FoundIsUsable(db, token, now);
      UniqueUserIsFound(db, db.invitations[i].email);
      hide UserWith;
    }
    forall i: nat | UsableAs(db, i, token, now)
      ensures InvitationWith(db.invitations, token) == Some(i) && TokenRefusal(db, token, now).None?
    {
      UsableIsFound(db, token, now, i);
    }
  }

  /** A registration adds one user with the address; without an invitation it does nothing else. */
  lemma RegistrationAddsUser(db: Db, email: string, using: Option<nat>, now: int)
    ensures var (db1, out) := Register(db, email, using, now);
      && (out == Done ==>
           && db1.users == db.users[db.next := User(email, {email})]
           && (using.None? ==> db1 == db.(users := db1.users, next := db.next + 1)))
      && (out != Done ==> db1 == db)
  {
    hide UserWith, AddressOnFile, InvitationWith;
  }

  // ---- By what steps alone memberships change ----

  lemma RefusedRoutesChangeNothing(db: Db, e: Event)
    requires WellFormed(db, e) && Step(db, e).1 != Done
    ensures Step(db, e).0 == db
  {
    hide HasPermission, NameTaken, Updated, Doubled, LinksElsewhere, MembersOf, WithoutPending, UserWith, RoleNamed,
      InvitationWith, AddressOnFile, ALL_PERMISSIONS, DeleteUser, WellFormed;
  }

  lemma LinkedThere(db: Db, u: nat, o: nat) returns (r: nat)
    requires u in MembersOf(db, o)
    ensures (u, r) in db.links && r in db.roles && db.roles[r].org == o
  {
    LinkIsMember(db, o, u);
    r :| (u, r) in db.links && r in db.roles && db.roles[r].org == o;
  }

  /** How `u` can come to be a member of `o`. */
  ghost predicate Joins(db: Db, e: Event, u: nat, o: nat) {
    match e.op
    case OpCreateOrganization(actor, _) => u == actor && o == db.next
    case OpInviteMember(_, _, org, email) => o == org && u in db.users && db.users[u].email == email
    case OpUpdateUserRole(_, _, target, org, _, _) => o == org && u == target
    case _ =>
      exists i :: i in db.invitations && db.invitations[i].org == o && u == Joiner(db, e)
        && Accepts(e, db.invitations[i].token) && UsableAs(db, i, db.invitations[i].token, e.now)
  }

  /** And to be none any more. */
  ghost predicate Leaves(db: Db, e: Event, u: nat, o: nat) {
    match e.op
    case OpDeleteOrganization(_, _, org) => o == org
    case OpUpdateUserRole(_, _, target, org, _, _) => o == org && u == target
    case OpRemoveUser(actor, _, target, org) => o == org && u == target && u != actor
    case OpDeleteUser(user) => u == user
    case _ => false
  }

  lemma LinksGained(db: Db, db1: Db, u: nat, o: nat) returns (r: nat)
    requires u !in MembersOf(db, o) && u in MembersOf(db1, o)
    requires forall l :: l in db1.links && l.1 in db1.roles && l in db.links ==>
               l.1 in db.roles && db1.roles[l.1].org == db.roles[l.1].org
    ensures (u, r) in db1.links && (u, r) !in db.links && r in db1.roles && db1.roles[r].org == o
  {
    r := LinkedThere(db1, u, o);
    LinkIsMember(db, o, u);
    hide MembersOf;
  }

  lemma LinksLost(db: Db, db1: Db, u: nat, o: nat) returns (r: nat)
    requires u in MembersOf(db, o) && u !in MembersOf(db1, o)
    ensures (u, r) in db.links && r in db.roles && db.roles[r].org == o
    ensures !((u, r) in db1.links && r in db1.roles && db1.roles[r].org == o)
  {
    r := LinkedThere(db, u, o);
    LinkIsMember(db1, o, u);
    hide MembersOf;
  }

  lemma FoundingKeepsOrgs(db: Db, e: Event)
    requires Sound(db) && WellFormed(db, e) && e.op.OpCreateOrganization?
    ensures var db1 := Step(db, e).0;
      && (forall r :: r in db.roles && r in db1.roles ==> db1.roles[r].org == db.roles[r].org)
      && (forall l :: l in db.links ==> l in db1.links && l.1 in db1.roles)
      && (forall l :: l in db1.links && l !in db.links ==>
           l.0 == e.op.actor && l.1 in db1.roles && db1.roles[l.1].org == db.next)
  {
    if Step(db, e).1 == Done {
      FoundedLinks(db, e.op.actor, e.op.name);
    } else {
      RefusedRoutesChangeNothing(db, e);
    }
    hide CreateOrganization, Keyed, UniqueUsers, UniqueTokens, OnePerAddress, UniqueRoleNames, RolesOf, Lists;
  }

  lemma RolesKeepOrgs(db: Db, e: Event)
    requires Sound(db) && WellFormed(db, e) && (e.op.OpCreateRole? || e.op.OpUpdateRole? || e.op.OpDeleteRole?)
    ensures var db1 := Step(db, e).0;
      && (forall r :: r in db.roles && r in db1.roles ==> db1.roles[r].org == db.roles[r].org)
      && db1.links == db.links && forall l :: l in db.links ==> l.1 in db.roles && l.1 in db1.roles
  {
    hide HasPermission, NameTaken, Updated, ALL_PERMISSIONS, UniqueUsers, UniqueTokens, OnePerAddress, UniqueRoleNames,
      RolesOf, Lists;
  }

  lemma OnlyFewerLinks(db: Db, e: Event)
    requires Sound(db) && WellFormed(db, e)
    requires e.op.OpDeleteOrganization? || e.op.OpDeleteUser? || e.op.OpRemoveUser?
    ensures var db1 := Step(db, e).0;
      && (forall r :: r in db1.roles ==> r in db.roles && db1.roles[r] == db.roles[r])
      && (forall l :: l in db1.links ==> l in db.links)
  {
    hide HasPermission, MembersOf, SoleOrgs, UniqueUsers, UniqueTokens, OnePerAddress, UniqueRoleNames, RolesOf, Lists;
  }

  lemma InvitedLink(db: Db, e: Event)
    requires Sound(db) && WellFormed(db, e) && e.op.OpInviteMember?
    ensures var db1 := Step(db, e).0;
      && db1.roles == db.roles
      && forall l :: l in db1.links && l !in db.links ==>
           && l.0 in db.users && db.users[l.0].email == e.op.email && l.1 in db.roles && db.roles[l.1].org == e.op.org
  {
    hide HasPermission, MembersOf, RolesOf, Lists;
  }

  lemma ChangedLinks(db: Db, e: Event)
    requires Sound(db) && WellFormed(db, e) && e.op.OpUpdateUserRole?
    ensures var db1 := Step(db, e).0;
      && db1.roles == db.roles
      && forall l :: l in db1.links && l !in db.links
          ==> l.0 == e.op.target && l.1 in db.roles && db.roles[l.1].org == e.op.org
  {
    hide HasPermission, RolesOf, Lists, Doubled;
  }

  lemma AcceptedJoins(db: Db, e: Event, u: nat, o: nat)
    requires Sound(db) && WellFormed(db, e) && Step(db, e).1 == Done
    requires (e.op.OpAccept? || e.op.OpAcceptAtLogin? || (e.op.OpRegister? && e.op.using.Some?))
    requires u !in MembersOf(db, o) && u in MembersOf(Step(db, e).0, o)
    ensures Joins(db, e, u, o)
  {
    var token := if e.op.OpAccept? || e.op.OpAcceptAtLogin? then e.op.token else e.op.using.value;
    hide Step, WellFormed, Sound;
    var i := AcceptanceIsExact(db, e, token);
    var db1 := Step(db, e).0;
    var r := LinkedThere(db1, u, o);
    LinkIsRole(db1, u, r);
    LinkIsRole(db, u, r);
    LinkIsMember(db, o, u);
  }

  lemma RegisteredAlone(db: Db, e: Event)
    requires Sound(db) && WellFormed(db, e) && e.op.OpRegister? && e.op.using.None?
    ensures Step(db, e).0.links == db.links && Step(db, e).0.roles == db.roles
  {
    hide UserWith, AddressOnFile;
  }

  lemma InvitationsKeepLinks(db: Db, e: Event)
    requires WellFormed(db, e)
    requires e.op.OpCreateInvitation? || e.op.OpResendInvitation? || e.op.OpDeleteInvitation?
      || e.op.OpAddressesChanged?
    ensures Step(db, e).0.links == db.links && Step(db, e).0.roles == db.roles
  {
    hide HasPermission, UserWith, MembersOf, WithoutPending;
  }

  lemma RenameKeepsLinks(db: Db, e: Event)
    requires WellFormed(db, e) && e.op.OpUpdateOrganization?
    ensures Step(db, e).0.links == db.links && Step(db, e).0.roles == db.roles
  {
    RenamesOnly(db, e);
    hide Step, WellFormed;
  }

  lemma SameMembers(db: Db, db1: Db, o: nat)
    requires db1.links == db.links && db1.roles == db.roles
    ensures MembersOf(db1, o) == MembersOf(db, o)
  {
  }

  /** Nobody becomes a member but by founding the organization, by accepting an invitation to it, or by a
      form of someone entitled to add them. */
  lemma MemberGainedBy(db: Db, e: Event, u: nat, o: nat)
    requires Sound(db) && WellFormed(db, e) && u !in MembersOf(db, o) && u in MembersOf(Step(db, e).0, o)
    ensures Entitled(db, e) && Joins(db, e, u, o)
  {
    if Step(db, e).1 != Done {
      RefusedRoutesChangeNothing(db, e);
    }
    DoneOnlyIfEntitled(db, e);
    var db1 := Step(db, e).0;
    hide Step, WellFormed, Sound, MembersOf, Entitled;
    if e.op.OpCreateOrganization? {
      FoundingKeepsOrgs(db, e);
      var r := LinksGained(db, db1, u, o);
    } else if e.op.OpCreateRole? || e.op.OpUpdateRole? || e.op.OpDeleteRole? {
      RolesKeepOrgs(db, e);
      var r := LinksGained(db, db1, u, o);
    } else if e.op.OpDeleteOrganization? || e.op.OpDeleteUser? || e.op.OpRemoveUser? {
      OnlyFewerLinks(db, e);
      var r := LinksGained(db, db1, u, o);
    } else if e.op.OpInviteMember? {
      InvitedLink(db, e);
      var r := LinksGained(db, db1, u, o);
    } else if e.op.OpUpdateUserRole? {
      ChangedLinks(db, e);
      var r := LinksGained(db, db1, u, o);
    } else if e.op.OpAccept? || e.op.OpAcceptAtLogin? || (e.op.OpRegister? && e.op.using.Some?) {
      AcceptedJoins(db, e, u, o);
    } else {
      if e.op.OpRegister? {
        RegisteredAlone(db, e);
      } else if e.op.OpUpdateOrganization? {
        RenameKeepsLinks(db, e);
      } else {
        InvitationsKeepLinks(db, e);
      }
      SameMembers(db, db1, o);
    }
  }

  lemma ChangedLinksLost(db: Db, e: Event)
    requires Sound(db) && WellFormed(db, e) && e.op.OpUpdateUserRole?
    ensures var db1 := Step(db, e).0;
      && db1.roles == db.roles
      && forall l :: l in db.links && l !in db1.links ==> l.0 == e.op.target && db.roles[l.1].org == e.op.org
  {
    hide HasPermission, RolesOf, Lists, Doubled;
  }

  lemma ProcessKeepsLinks(db: Db, i: nat, user: nat)
    requires i in db.invitations
    ensures Process(db, i, user).0.roles == db.roles && db.links <= Process(db, i, user).0.links
  {
  }

  lemma AcceptancesKeepLinks(db: Db, e: Event)
    requires WellFormed(db, e) && (e.op.OpAccept? || e.op.OpAcceptAtLogin? || e.op.OpRegister?)
    ensures Step(db, e).0.roles == db.roles && db.links <= Step(db, e).0.links
  {
    var token := if e.op.OpRegister? then e.op.using else Some(e.op.token);
    if token.Some? && InvitationWith(db.invitations, token.value).Some? {
      var i := InvitationWith(db.invitations, token.value).value;
      ProcessKeepsLinks(db, i, Joiner(db, e));
      if e.op.OpRegister? {
        ProcessKeepsLinks(db.(users := db.users[db.next := User(e.op.email, {e.op.email})], next := db.next + 1), i,
          db.next);
      }
    }
    hide Process, UserWith, InvitationWith, AddressOnFile;
  }

  lemma InvitingKeepsLinks(db: Db, e: Event)
    requires WellFormed(db, e) && e.op.OpInviteMember?
    ensures Step(db, e).0.roles == db.roles && db.links <= Step(db, e).0.links
  {
    hide HasPermission, MembersOf, UserWith, RoleNamed, Acting;
  }

  lemma DeletedOrgLoses(db: Db, e: Event, u: nat, o: nat)
    requires Sound(db) && WellFormed(db, e) && e.op.OpDeleteOrganization?
    requires u in MembersOf(db, o) && u !in MembersOf(Step(db, e).0, o)
    ensures o == e.op.org
  {
    OrganizationDeletedIff(db, e.op.actor, e.op.order, e.op.org);
    hide Sound, DeleteOrganization, HasPermission, MayIn, Acting, MembersOf;
    var r := LinksLost(db, Step(db, e).0, u, o);
  }

  lemma SoleMember(db: Db, user: nat, o: nat, u: nat)
    requires o in SoleOrgs(db, user) && u in MembersOf(db, o)
    ensures u == user
  {
  }

  lemma DeletedUserLoses(db: Db, e: Event, u: nat, o: nat)
    requires WellFormed(db, e) && e.op.OpDeleteUser?
    requires u in MembersOf(db, o) && u !in MembersOf(Step(db, e).0, o)
    ensures u == e.op.user
  {
    hide DeleteUser, MembersOf, SoleOrgs;
    if o in SoleOrgs(db, e.op.user) {
      SoleMember(db, e.op.user, o, u);
    } else {
      MembersAfterDeletion(db, e.op.user, o, u);
    }
  }

  lemma RemovedUserLoses(db: Db, e: Event, u: nat, o: nat)
    requires Sound(db) && WellFormed(db, e) && e.op.OpRemoveUser?
    requires u in MembersOf(db, o) && u !in MembersOf(Step(db, e).0, o)
    ensures u == e.op.target && o == e.op.org && u != e.op.actor
  {
    UserRemovedIff(db, e.op.actor, e.op.order, e.op.target, e.op.org);
    hide Sound, RemoveUser, HasPermission, Acting, MembersOf;
    var r := LinksLost(db, Step(db, e).0, u, o);
  }

  /** Nobody ceases to be a member but with the organization, with their account, or by a form of someone
      entitled to remove them or change their roles. */
  lemma MemberLostBy(db: Db, e: Event, u: nat, o: nat)
    requires Sound(db) && WellFormed(db, e) && u in MembersOf(db, o) && u !in MembersOf(Step(db, e).0, o)
    ensures Entitled(db, e) && Leaves(db, e, u, o)
  {
    if Step(db, e).1 != Done {
      RefusedRoutesChangeNothing(db, e);
    }
    DoneOnlyIfEntitled(db, e);
    var db1 := Step(db, e).0;
    hide Step, WellFormed, Sound, MembersOf, Entitled;
    if e.op.OpCreateOrganization? {
      FoundingKeepsOrgs(db, e);
      var r := LinksLost(db, db1, u, o);
    } else if e.op.OpCreateRole? || e.op.OpUpdateRole? || e.op.OpDeleteRole? {
      RolesKeepOrgs(db, e);
      var r := LinksLost(db, db1, u, o);
    } else if e.op.OpDeleteOrganization? {
      DeletedOrgLoses(db, e, u, o);
    } else if e.op.OpDeleteUser? {
      DeletedUserLoses(db, e, u, o);
    } else if e.op.OpRemoveUser? {
      RemovedUserLoses(db, e, u, o);
    } else if e.op.OpUpdateUserRole? {
      ChangedLinksLost(db, e);
      var r := LinksLost(db, db1, u, o);
    } else {
      if e.op.OpAccept? || e.op.OpAcceptAtLogin? || e.op.OpRegister? {
        AcceptancesKeepLinks(db, e);
      } else if e.op.OpInviteMember? {
        InvitingKeepsLinks(db, e);
      } else if e.op.OpUpdateOrganization? {
        RenameKeepsLinks(db, e);
      } else {
        InvitationsKeepLinks(db, e);
      }
      var r := LinksLost(db, db1, u, o);
    }
  }

  // ---- And invitations ----

  /** How invitation `i` can change, or go. */
  ghost predicate Reworks(db: Db, e: Event, i: nat)
    requires i in db.invitations
  {
    var was := db.invitations[i];
    match e.op
    case OpDeleteOrganization(_, _, org) => org == was.org
    case OpDeleteRole(_, _, role, _) => role == was.role
    case OpCreateInvitation(_, _, email, _, org, _) => org == was.org && email == was.email && !was.used
    case OpResendInvitation(_, _, invitation, org, _) => invitation == i && org == was.org && !was.used
    case OpDeleteInvitation(_, _, invitation, org) => invitation == i && org == was.org
    case OpDeleteUser(user) => was.acceptedBy == Some(user) || MembersOf(db, was.org) == {user}
    case _ => Accepts(e, was.token) && UsableAs(db, i, was.token, e.now)
  }

  lemma AcceptedReworks(db: Db, e: Event, i: nat)
    requires Sound(db) && WellFormed(db, e) && Step(db, e).1 == Done && i in db.invitations
    requires e.op.OpAccept? || e.op.OpAcceptAtLogin? || (e.op.OpRegister? && e.op.using.Some?)
    requires i !in Step(db, e).0.invitations || Step(db, e).0.invitations[i] != db.invitations[i]
    ensures Accepts(e, db.invitations[i].token) && UsableAs(db, i, db.invitations[i].token, e.now)
  {
    var token := if e.op.OpAccept? || e.op.OpAcceptAtLogin? then e.op.token else e.op.using.value;
    hide Step, WellFormed, Sound;
    var k := AcceptanceIsExact(db, e, token);
  }

  lemma RoutesReworks(db: Db, e: Event, i: nat)
    requires Sound(db) && WellFormed(db, e) && i in db.invitations
    requires e.op.OpDeleteRole? || e.op.OpCreateInvitation? || e.op.OpResendInvitation? || e.op.OpDeleteInvitation?
    requires i !in Step(db, e).0.invitations || Step(db, e).0.invitations[i] != db.invitations[i]
    ensures Reworks(db, e, i)
  {
    hide HasPermission, MembersOf, UserWith, UniqueUsers, UniqueTokens, OnePerAddress, UniqueRoleNames, RolesOf, Lists;
  }

  lemma DeletionsRework(db: Db, e: Event, i: nat)
    requires Sound(db) && WellFormed(db, e) && i in db.invitations
    requires e.op.OpDeleteOrganization? || e.op.OpDeleteUser?
    requires i !in Step(db, e).0.invitations || Step(db, e).0.invitations[i] != db.invitations[i]
    ensures Reworks(db, e, i)
  {
    hide HasPermission, MembersOf, Keyed, UniqueUsers, UniqueTokens, OnePerAddress, UniqueRoleNames, RolesOf, Lists;
  }

  lemma OthersKeepInvitations(db: Db, e: Event)
    requires WellFormed(db, e)
    requires e.op.OpCreateOrganization? || e.op.OpCreateRole? || e.op.OpUpdateRole? || e.op.OpInviteMember?
      || e.op.OpUpdateUserRole? || e.op.OpRemoveUser? || e.op.OpAddressesChanged?
        || (e.op.OpRegister? && e.op.using.None?)
    ensures Step(db, e).0.invitations == db.invitations
  {
    hide HasPermission, NameTaken, Updated, Doubled, MembersOf, UserWith, RoleNamed, AddressOnFile, ALL_PERMISSIONS,
      LinksElsewhere, RolesOf, Lists;
  }

  /** An invitation changes or goes only by someone entitled to invite there, by being accepted, with its
      organization or role, or when who accepted it is deleted. */
  lemma InvitationReworkedBy(db: Db, e: Event, i: nat)
    requires Sound(db) && WellFormed(db, e) && i in db.invitations
    requires i !in Step(db, e).0.invitations || Step(db, e).0.invitations[i] != db.invitations[i]
    ensures Entitled(db, e) && Reworks(db, e, i)
  {
    if Step(db, e).1 != Done {
      RefusedRoutesChangeNothing(db, e);
    }
    DoneOnlyIfEntitled(db, e);
    hide Step, WellFormed, Sound, MembersOf, Entitled;
    if e.op.OpDeleteRole? || e.op.OpCreateInvitation? || e.op.OpResendInvitation? || e.op.OpDeleteInvitation? {
      RoutesReworks(db, e, i);
    } else if e.op.OpDeleteOrganization? || e.op.OpDeleteUser? {
      DeletionsRework(db, e, i);
    } else if e.op.OpAccept? || e.op.OpAcceptAtLogin? || (e.op.OpRegister? && e.op.using.Some?) {
      AcceptedReworks(db, e, i);
    } else if e.op.OpUpdateOrganization? {
      RenamesOnly(db, e);
    } else {
      OthersKeepInvitations(db, e);
    }
  }
}
