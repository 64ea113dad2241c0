/** The public tables (organizations, roles, memberships, invitations, resources) and the meaning of
    each route on them. Ids and invitation tokens come from one counter; zero is no id. */
module OrgTables {
  import opened Options
  import opened RoleSweep
  import opened Finite

  const DAY := 24 * 3600 * 1_000_000

  const OWNER := "Owner"
  const ADMINISTRATOR := "Administrator"
  const MEMBER := "Member"
  const DEFAULT_ROLES := [OWNER, ADMINISTRATOR, MEMBER]

  // A user with the addresses of the account behind it: `Account.email` and the verified ones.
  datatype User = User(email: string, verified: set<string>)
  datatype Role = Role(org: nat, name: string, permissions: set<string>)
  datatype Invitation = Invitation(
    org: nat, role: nat, email: string, token: nat, expiresAt: int, used: bool, acceptedBy: Option<nat>)

  const DELETE_ORGANIZATION := "Delete Organization"
  const EDIT_ORGANIZATION := "Edit Organization"
  const INVITE_USER := "Invite User"
  const REMOVE_USER := "Remove User"
  const EDIT_USER_ROLE := "Edit User Role"
  const CREATE_ROLE := "Create Role"
  const DELETE_ROLE := "Delete Role"
  const EDIT_ROLE := "Edit Role"
  const ALL_PERMISSIONS := {
    DELETE_ORGANIZATION, EDIT_ORGANIZATION, INVITE_USER, REMOVE_USER, EDIT_USER_ROLE, CREATE_ROLE, DELETE_ROLE,
    EDIT_ROLE, "Read Organization Resources", "Write Organization Resources", "Delete Organization Resources"}

  datatype Db = Db(
    users: map<nat, User>,
    orgs: map<nat, string>,
    roles: map<nat, Role>,
    links: set<(nat, nat)>,  // (user, role)
    invitations: map<nat, Invitation>,
    resources: map<nat, nat>,  // to the organization
    next: nat)

  datatype Error =
    | DataIntegrityError
    | InsufficientPermissions
    | OrganizationNameTaken
    | OrganizationNotFound
    | UserNotFound
    | UserAlreadyMember
    | RoleAlreadyExists
    | RoleNotFound
    | CannotModifyDefaultRole
    | InvalidPermission
    | RoleHasUsers
    | CannotRemoveSelf
    | InvalidRoleForOrganization
    | InvitationNotFound
    | InvalidInvitation
    | ExpiredInvitation
    | InvitationEmailMismatch
    | InvitationProcessingError
    | EmailSendError
    | EmailAlreadyRegistered
    | LoginRequired
    | RegistrationRequired
    | IntegrityError

  datatype Outcome = Done | Rejected(error: Error)

  // ---- Who may do what ----

  function RolesOf(db: Db, user: nat): set<nat> {
    set l | l in db.links && l.0 == user :: l.1
  }

  /** `User.has_permission`: the first role found in the organization decides. */
  predicate HasPermission(db: Db, order: seq<nat>, org: nat, permission: string)
    requires forall r :: r in order ==> r in db.roles
  {
    order != [] &&
    if db.roles[order[0]].org == org then permission in db.roles[order[0]].permissions
    else HasPermission(db, order[1..], org, permission)
  }

  /** `_user_permissions_for_org`: the union over all roles held in the organization. */
  function PermissionsIn(db: Db, user: nat, org: nat): set<string> {
    set l, p | l in db.links && l.0 == user && l.1 in db.roles && db.roles[l.1].org == org
      && p in db.roles[l.1].permissions :: p
  }

  /** The refusal `has_permission` leads to, if any. */
  function Refusal(db: Db, order: seq<nat>, org: nat, permission: string): Option<Error>
    requires forall r :: r in order ==> r in db.roles
  {
    if org == 0 then Some(DataIntegrityError)
    else if !HasPermission(db, order, org, permission) then Some(InsufficientPermissions)
    else None
  }

  function MembersOf(db: Db, org: nat): set<nat> {
    set l | l in db.links && l.1 in db.roles && db.roles[l.1].org == org :: l.0
  }

  predicate NameTaken(roles: map<nat, Role>, org: nat, name: string, except: nat) {
    exists r :: r in roles && r != except && roles[r].org == org && roles[r].name == name
  }

  // ---- Organizations ----

  function CreateOrganization(db: Db, actor: nat, name: string): (Db, Outcome) {
    if name in db.orgs.Values then (db, Rejected(OrganizationNameTaken))
    else
      var o := db.next;
      (db.(orgs := db.orgs[o := name],
           roles := db.roles[o + 1 := Role(o, OWNER, ALL_PERMISSIONS)]
                            [o + 2 := Role(o, ADMINISTRATOR, ALL_PERMISSIONS - {DELETE_ORGANIZATION})]
                            [o + 3 := Role(o, MEMBER, {})],
           links := db.links + {(actor, o + 1)},
           next := o + 4),
       Done)
  }

  /** Renaming: a member with the permission, to a name no other organization has. */
  function UpdateOrganization(db: Db, actor: nat, order: seq<nat>, org: nat, name: string): (Db, Outcome)
    requires forall r :: r in order ==> r in db.roles
  {
    if org !in db.orgs || actor !in MembersOf(db, org) || !HasPermission(db, order, org, EDIT_ORGANIZATION)
    then (db, Rejected(InsufficientPermissions))
    else if exists o :: o in db.orgs && o != org && db.orgs[o] == name then (db, Rejected(OrganizationNameTaken))
    else (db.(orgs := db.orgs[org := name]), Done)
  }

  function RolesOutside(roles: map<nat, Role>, gone: set<nat>): map<nat, Role> {
    map r | r in roles && roles[r].org !in gone :: roles[r]
  }

  function LinksTo(links: set<(nat, nat)>, roles: map<nat, Role>): set<(nat, nat)> {
    set l | l in links && l.1 in roles
  }

  function InvitationsOutside(invitations: map<nat, Invitation>, gone: set<nat>, roles: map<nat, Role>)
    : map<nat, Invitation>
  {
    map i | i in invitations && invitations[i].org !in gone && invitations[i].role in roles :: invitations[i]
  }

  function ResourcesOutside(resources: map<nat, nat>, gone: set<nat>): map<nat, nat> {
    map x | x in resources && resources[x] !in gone :: resources[x]
  }

  /** Without the organizations in `gone` and everything that cascades from them. */
  function WithoutOrgs(db: Db, gone: set<nat>): Db {
    var roles := RolesOutside(db.roles, gone);
    db.(orgs := db.orgs - gone,
        roles := roles,
        links := LinksTo(db.links, roles),
        invitations := InvitationsOutside(db.invitations, gone, roles),
        resources := ResourcesOutside(db.resources, gone))
  }

  function DeleteOrganization(db: Db, actor: nat, order: seq<nat>, org: nat): (Db, Outcome)
    requires forall r :: r in order ==> r in db.roles
  {
    if actor !in MembersOf(db, org) || !HasPermission(db, order, org, DELETE_ORGANIZATION)
    then (db, Rejected(InsufficientPermissions))
    else (WithoutOrgs(db, {org}), Done)
  }

  ghost function UserWith(users: map<nat, User>, email: string): (u: Option<nat>)
    ensures u.Some? ==> u.value in users && users[u.value].email == email
    ensures u.None? ==> forall v :: v in users ==> users[v].email != email
  {
    if exists v :: v in users && users[v].email == email then
      var v :| v in users && users[v].email == email;
      Some(v)
    else None
  }

  ghost function RoleNamed(roles: map<nat, Role>, org: nat, name: string): (r: Option<nat>)
    ensures r.Some? ==> r.value in roles && roles[r.value].org == org && roles[r.value].name == name
    ensures r.None? ==> forall s :: s in roles && roles[s].org == org ==> roles[s].name != name
  {
    if exists s :: s in roles && roles[s].org == org && roles[s].name == name then
      var s :| s in roles && roles[s].org == org && roles[s].name == name;
      Some(s)
    else None
  }

  ghost function InviteMember(db: Db, order: seq<nat>, org: nat, email: string): (Db, Outcome)
    requires forall r :: r in order ==> r in db.roles
  {
    var refusal := Refusal(db, order, org, INVITE_USER);
    if refusal.Some? then (db, Rejected(refusal.value))
    else if org !in db.orgs then (db, Rejected(OrganizationNotFound))
    else match UserWith(db.users, email)
      case None => (db, Rejected(UserNotFound))
      case Some(u) =>
        if u in MembersOf(db, org) then (db, Rejected(UserAlreadyMember))
        else match RoleNamed(db.roles, org, MEMBER)
          case None => (db, Rejected(DataIntegrityError))
          case Some(r) => (db.(links := db.links + {(u, r)}), Done)
  }

  // ---- Roles ----

  function CreateRole(db: Db, order: seq<nat>, name: string, org: nat, permissions: seq<string>): (Db, Outcome)
    requires forall r :: r in order ==> r in db.roles
  {
    if NameTaken(db.roles, org, name, 0) then (db, Rejected(RoleAlreadyExists))
    else
      var refusal := Refusal(db, order, org, CREATE_ROLE);
      if refusal.Some? then (db, Rejected(refusal.value))
      else
        (db.(roles := db.roles[db.next := Role(org, name, Members(permissions) * ALL_PERMISSIONS)],
             next := db.next + 1),
         Done)
  }

  /** `held` is the role's permission list in the order loaded; `org` is the one named in the form,
      which the role need not belong to. */
  function UpdateRole(db: Db, order: seq<nat>, role: nat, name: string, org: nat, permissions: seq<string>,
    held: seq<string>)
    : (Db, Outcome)
    requires forall r :: r in order ==> r in db.roles
  {
    var refusal := Refusal(db, order, org, EDIT_ROLE);
    if refusal.Some? then (db, Rejected(refusal.value))
    else if role !in db.roles then (db, Rejected(RoleNotFound))
    else if db.roles[role].name in DEFAULT_ROLES then (db, Rejected(CannotModifyDefaultRole))
    else if exists p :: p in permissions && p !in ALL_PERMISSIONS then (db, Rejected(InvalidPermission))
    else if NameTaken(db.roles, org, name, role) || NameTaken(db.roles, db.roles[role].org, name, role)
    then (db, Rejected(RoleAlreadyExists))
    else (db.(roles := db.roles[role := Role(db.roles[role].org, name, Updated(held, permissions))]), Done)
  }

  function DeleteRole(db: Db, order: seq<nat>, role: nat, org: nat): (Db, Outcome)
    requires forall r :: r in order ==> r in db.roles
  {
    var refusal := Refusal(db, order, org, DELETE_ROLE);
    if refusal.Some? then (db, Rejected(refusal.value))
    else if role !in db.roles then (db, Rejected(RoleNotFound))
    else if db.roles[role].name in DEFAULT_ROLES then (db, Rejected(CannotModifyDefaultRole))
    else if exists l :: l in db.links && l.1 == role then (db, Rejected(RoleHasUsers))
    else
      (db.(roles := db.roles - {role},
           invitations := map i | i in db.invitations && db.invitations[i].role != role :: db.invitations[i]),
       Done)
  }

  // ---- Memberships ----

  function LinksElsewhere(db: Db, user: nat, org: nat): set<(nat, nat)> {
    set l | l in db.links && (l.0 != user || l.1 !in db.roles || db.roles[l.1].org != org)
  }

  /** A role of the organization requested twice: the link is appended twice. */
  predicate Doubled(roles: map<nat, Role>, org: nat, requested: seq<nat>) {
    exists i, j :: 0 <= i < j < |requested| && requested[i] == requested[j]
      && requested[j] in roles && roles[requested[j]].org == org
  }

  /** `refused` is whether the commit refuses a link appended twice; if so the request is rolled back. */
  function UpdateUserRole(db: Db, order: seq<nat>, target: nat, org: nat, requested: seq<nat>, refused: bool)
    : (Db, Outcome)
    requires forall r :: r in order ==> r in db.roles
  {
    var refusal := Refusal(db, order, org, EDIT_USER_ROLE);
    if refusal.Some? then (db, Rejected(refusal.value))
    else if org !in db.orgs then (db, Rejected(OrganizationNotFound))
    else if target !in db.users then (db, Rejected(UserNotFound))
    else if refused && Doubled(db.roles, org, requested) then (db, Rejected(IntegrityError))
    else
      (db.(links := LinksElsewhere(db, target, org)
             + (set r | r in requested && r in db.roles && db.roles[r].org == org :: (target, r))),
       Done)
  }

  function RemoveUser(db: Db, actor: nat, order: seq<nat>, target: nat, org: nat): (Db, Outcome)
    requires forall r :: r in order ==> r in db.roles
  {
    var refusal := Refusal(db, order, org, REMOVE_USER);
    if refusal.Some? then (db, Rejected(refusal.value))
    else if org !in db.orgs then (db, Rejected(OrganizationNotFound))
    else if target !in db.users then (db, Rejected(UserNotFound))
    else if target == actor then (db, Rejected(CannotRemoveSelf))
    else (db.(links := LinksElsewhere(db, target, org)), Done)
  }

  // ---- Invitations ----

  predicate Pending(i: Invitation, org: nat, email: string) {
    i.org == org && i.email == email && !i.used
  }

  /** `Invitation.invalidate_pending_for_email`. */
  function WithoutPending(invitations: map<nat, Invitation>, org: nat, email: string): map<nat, Invitation> {
    map i | i in invitations && !Pending(invitations[i], org, email) :: invitations[i]
  }

  /** Why a member may not send this invitation. */
  ghost function InvitationRefusal(db: Db, order: seq<nat>, email: string, role: nat, org: nat): Option<Error>
    requires forall r :: r in order ==> r in db.roles
  {
    if org !in db.orgs then Some(OrganizationNotFound)
    else if !HasPermission(db, order, org, INVITE_USER) then Some(InsufficientPermissions)
    else if role !in db.roles then Some(RoleNotFound)
    else if db.roles[role].org != org then Some(InvalidRoleForOrganization)
    else if UserWith(db.users, email).Some? && UserWith(db.users, email).value in MembersOf(db, org)
    then Some(UserAlreadyMember)
    else None
  }

  ghost function CreateInvitation(db: Db, order: seq<nat>, email: string, role: nat, org: nat, sent: bool, now: int)
    : (Db, Outcome)
    requires forall r :: r in order ==> r in db.roles
  {
    var refusal := InvitationRefusal(db, order, email, role, org);
    if refusal.Some? then (db, Rejected(refusal.value))
    else if !sent then (db, Rejected(EmailSendError))
    else
      var others := WithoutPending(db.invitations, org, email);
      (db.(invitations := others[db.next := Invitation(org, role, email, db.next + 1, now + 7 * DAY, false, None)],
           next := db.next + 2),
       Done)
  }

  function ResendInvitation(db: Db, order: seq<nat>, invitation: nat, org: nat, sent: bool, now: int): (Db, Outcome)
    requires forall r :: r in order ==> r in db.roles
  {
    if org !in db.orgs then (db, Rejected(OrganizationNotFound))
    else if !HasPermission(db, order, org, INVITE_USER) then (db, Rejected(InsufficientPermissions))
    else if invitation !in db.invitations || db.invitations[invitation].org != org || db.invitations[invitation].used
    then (db, Rejected(InvitationNotFound))
    else if !sent then (db, Rejected(EmailSendError))
    else
      var i := db.invitations[invitation].(token := db.next, expiresAt := now + 7 * DAY);
      (db.(invitations := db.invitations[invitation := i], next := db.next + 1), Done)
  }

  function DeleteInvitation(db: Db, order: seq<nat>, invitation: nat, org: nat): (Db, Outcome)
    requires forall r :: r in order ==> r in db.roles
  {
    if org !in db.orgs then (db, Rejected(OrganizationNotFound))
    else if !HasPermission(db, order, org, INVITE_USER) then (db, Rejected(InsufficientPermissions))
    else if invitation !in db.invitations || db.invitations[invitation].org != org
    then (db, Rejected(InvitationNotFound))
    else (db.(invitations := db.invitations - {invitation}), Done)
  }

  ghost function InvitationWith(invitations: map<nat, Invitation>, token: nat): (i: Option<nat>)
    ensures i.Some? ==> i.value in invitations && invitations[i.value].token == token
    ensures i.None? ==> forall j :: j in invitations ==> invitations[j].token != token
  {
    if exists j :: j in invitations && invitations[j].token == token then
      var j :| j in invitations && invitations[j].token == token;
      Some(j)
    else None
  }

  /** `require_active_invitation_by_token`, and the warning shown for a token: none, or why not. */
  ghost function TokenRefusal(db: Db, token: nat, now: int): Option<Error> {
    match InvitationWith(db.invitations, token)
    case None => Some(InvalidInvitation)
    case Some(i) =>
      if db.invitations[i].used then Some(InvalidInvitation)
      else if now > db.invitations[i].expiresAt then Some(ExpiredInvitation)
      else None
  }

  /** `process_invitation` and the commit: refused by the unique constraint when the address has
      already used an invitation to the organization. */
  function Process(db: Db, invitation: nat, user: nat): (Db, Outcome)
    requires invitation in db.invitations
  {
    var i := db.invitations[invitation];
    if exists j :: j in db.invitations && j != invitation && db.invitations[j].org == i.org
        && db.invitations[j].email == i.email
           && db.invitations[j].used
    then (db, Rejected(InvitationProcessingError))
    else
      (db.(links := db.links + {(user, i.role)},
           invitations := db.invitations[invitation := i.(used := true, acceptedBy := Some(user))]),
       Done)
  }

  /** `GET /invitations/accept`, by whoever is logged in. */
  ghost function Accept(db: Db, actor: Option<nat>, token: nat, now: int): (Db, Outcome) {
    var refusal := TokenRefusal(db, token, now);
    if refusal.Some? then (db, Rejected(refusal.value))
    else
      var i := InvitationWith(db.invitations, token).value;
      match UserWith(db.users, db.invitations[i].email)
      case None => (db, Rejected(RegistrationRequired))
      case Some(u) => if actor != Some(u) then (db, Rejected(LoginRequired)) else Process(db, i, u)
  }

  /** Logging in with an invitation: any verified address of the account will do. */
  ghost function AcceptAtLogin(db: Db, user: nat, token: nat, now: int): (Db, Outcome)
    requires user in db.users
  {
    var refusal := TokenRefusal(db, token, now);
    if refusal.Some? then (db, Rejected(refusal.value))
    else
      var i := InvitationWith(db.invitations, token).value;
      if db.invitations[i].email !in db.users[user].verified then (db, Rejected(InvitationEmailMismatch))
      else Process(db, i, user)
  }

  /** The new user's row and, if there is one, the invitation; a refused acceptance undoes both. */
  function AddedUser(db: Db, email: string, invitation: Option<nat>): (Db, Outcome)
    requires invitation.Some? ==> invitation.value in db.invitations
  {
    var db1 := db.(users := db.users[db.next := User(email, {email})], next := db.next + 1);
    if invitation.None? then (db1, Done)
    else
      var (db2, out) := Process(db1, invitation.value, db.next);
      if out == Done then (db2, Done) else (db, Rejected(DataIntegrityError))
  }

  /** Some user has the address, primary or not; every address on file is a verified one. */
  predicate AddressOnFile(users: map<nat, User>, email: string) {
    exists v :: v in users && email in users[v].verified
  }

  /** Registering, with or without an invitation. */
  ghost function Register(db: Db, email: string, token: Option<nat>, now: int): (Db, Outcome) {
    var refusal := if token.Some? then TokenRefusal(db, token.value, now) else None;
    if refusal.Some? then (db, Rejected(refusal.value))
    else if token.Some? && db.invitations[InvitationWith(db.invitations, token.value).value].email != email
    then (db, Rejected(InvitationEmailMismatch))
    else if UserWith(db.users, email).Some? then (db, Rejected(EmailAlreadyRegistered))
    else if AddressOnFile(db.users, email)
    then (db, Rejected(if token.Some? then InvitationProcessingError else DataIntegrityError))
    else AddedUser(db, email, if token.Some? then InvitationWith(db.invitations, token.value) else None)
  }

  // ---- Users ----

  /** The organizations whose only member is `user`. */
  function SoleOrgs(db: Db, user: nat): set<nat> {
    set o | o in db.orgs && MembersOf(db, o) == {user}
  }

  function Forgetting(invitations: map<nat, Invitation>, user: nat): map<nat, Invitation> {
    map i | i in invitations ::
      if invitations[i].acceptedBy == Some(user) then invitations[i].(acceptedBy := None) else invitations[i]
  }

  function LinksOfOthers(links: set<(nat, nat)>, user: nat): set<(nat, nat)> {
    set l | l in links && l.0 != user
  }

  /** Without a user and what cascades: its links go, and invitations it accepted forget by whom. */
  function WithoutUser(db: Db, user: nat): Db {
    db.(users := db.users - {user},
        links := LinksOfOthers(db.links, user),
        invitations := Forgetting(db.invitations, user))
  }

  function DeleteUser(db: Db, user: nat): Db {
    WithoutUser(WithoutOrgs(db, SoleOrgs(db, user)), user)
  }

  // ---- Runs ----

  datatype Op =
    | OpCreateOrganization(actor: nat, name: string)
    | OpUpdateOrganization(actor: nat, order: seq<nat>, org: nat, name: string)
    | OpDeleteOrganization(actor: nat, order: seq<nat>, org: nat)
    | OpInviteMember(actor: nat, order: seq<nat>, org: nat, email: string)
    | OpCreateRole(actor: nat, order: seq<nat>, name: string, org: nat, permissions: seq<string>)
    | OpUpdateRole(actor: nat, order: seq<nat>, role: nat, name: string, org: nat, permissions: seq<string>,
      held: seq<string>)
    | OpDeleteRole(actor: nat, order: seq<nat>, role: nat, org: nat)
    | OpUpdateUserRole(actor: nat, order: seq<nat>, target: nat, org: nat, requested: seq<nat>, refused: bool)
    | OpRemoveUser(actor: nat, order: seq<nat>, target: nat, org: nat)
    | OpCreateInvitation(actor: nat, order: seq<nat>, email: string, role: nat, org: nat, sent: bool)
    | OpResendInvitation(actor: nat, order: seq<nat>, invitation: nat, org: nat, sent: bool)
    | OpDeleteInvitation(actor: nat, order: seq<nat>, invitation: nat, org: nat)
    | OpAccept(who: Option<nat>, token: nat)
    | OpAcceptAtLogin(user: nat, token: nat)
    | OpRegister(email: string, using: Option<nat>)
    | OpDeleteUser(user: nat)
    // What account routes do to the addresses of one user.
    | OpAddressesChanged(user: nat, email: string, verified: set<string>)

  datatype Event = Event(now: int, op: Op)

  /** The acting user exists and `order` is its roles in some order. */
  ghost predicate Acting(db: Db, actor: nat, order: seq<nat>) {
    actor in db.users && Lists(order, RolesOf(db, actor)) && forall r :: r in order ==> r in db.roles
  }

  ghost predicate ListsPermissions(held: seq<string>, permissions: set<string>) {
    NoRepeats(held) && Members(held) == permissions
  }

  ghost predicate WellFormed(db: Db, e: Event) {
    match e.op
    case OpCreateOrganization(actor, _) => actor in db.users
    case OpUpdateOrganization(actor, order, _, _) => Acting(db, actor, order)
    case OpDeleteOrganization(actor, order, _) => Acting(db, actor, order)
    case OpInviteMember(actor, order, _, _) => Acting(db, actor, order)
    case OpCreateRole(actor, order, _, _, _) => Acting(db, actor, order)
    case OpUpdateRole(actor, order, role, _, _, _, held) =>
      Acting(db, actor, order) && (role in db.roles ==> ListsPermissions(held, db.roles[role].permissions))
    case OpDeleteRole(actor, order, _, _) => Acting(db, actor, order)
    case OpUpdateUserRole(actor, order, _, _, _, _) => Acting(db, actor, order)
    case OpRemoveUser(actor, order, _, _) => Acting(db, actor, order)
    case OpCreateInvitation(actor, order, _, _, _, _) => Acting(db, actor, order)
    case OpResendInvitation(actor, order, _, _, _) => Acting(db, actor, order)
    case OpDeleteInvitation(actor, order, _, _) => Acting(db, actor, order)
    case OpAccept(who, _) => who.Some? ==> who.value in db.users
    case OpAcceptAtLogin(user, _) => user in db.users
    case OpRegister(_, _) => true
    case OpDeleteUser(user) => user in db.users
    case OpAddressesChanged(user, email, _) =>
      user in db.users && forall v :: v in db.users && v != user ==> db.users[v].email != email
  }

  ghost function Step(db: Db, e: Event): (Db, Outcome)
    requires WellFormed(db, e)
  {
    match e.op
    case OpCreateOrganization(actor, name) => CreateOrganization(db, actor, name)
    case OpUpdateOrganization(actor, order, org, name) => UpdateOrganization(db, actor, order, org, name)
    case OpDeleteOrganization(actor, order, org) => DeleteOrganization(db, actor, order, org)
    case OpInviteMember(_, order, org, email) => InviteMember(db, order, org, email)
    case OpCreateRole(_, order, name, org, permissions) => CreateRole(db, order, name, org, permissions)
    case OpUpdateRole(_, order, role, name, org, permissions, held) =>
      UpdateRole(db, order, role, name, org, permissions, held)
    case OpDeleteRole(_, order, role, org) => DeleteRole(db, order, role, org)
    case OpUpdateUserRole(_, order, target, org, requested, refused) =>
      UpdateUserRole(db, order, target, org, requested, refused)
    case OpRemoveUser(actor, order, target, org) => RemoveUser(db, actor, order, target, org)
    case OpCreateInvitation(_, order, email, role, org, sent) =>
      CreateInvitation(db, order, email, role, org, sent, e.now)
    case OpResendInvitation(_, order, invitation, org, sent) =>
      ResendInvitation(db, order, invitation, org, sent, e.now)
    case OpDeleteInvitation(_, order, invitation, org) => DeleteInvitation(db, order, invitation, org)
    case OpAccept(who, token) => Accept(db, who, token, e.now)
    case OpAcceptAtLogin(user, token) => AcceptAtLogin(db, user, token, e.now)
    case OpRegister(email, invitation) => Register(db, email, invitation, e.now)
    case OpDeleteUser(user) => (DeleteUser(db, user), Done)
    case OpAddressesChanged(user, email, verified) => (db.(users := db.users[user := User(email, verified)]), Done)
  }

  ghost predicate Possible(db: Db, run: seq<Event>, start: int)
    decreases |run|
  {
    run == [] ||
    (start <= run[0].now && WellFormed(db, run[0]) && Possible(Step(db, run[0]).0, run[1..], run[0].now))
  }

  ghost function Run(db: Db, run: seq<Event>, start: int): Db
    requires Possible(db, run, start)
    decreases |run|
  {
    if run == [] then db else Run(Step(db, run[0]).0, run[1..], run[0].now)
  }
}
