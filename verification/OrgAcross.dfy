/** Whose roles an actor can change: the permission is looked up in the organization the form names, and
    the role need not belong to it. */
module OrgAcross {
  import opened OrgTables
  import opened Options
  import opened OrgInvariants
  import opened RoleSweep

  predicate Permitted(db: Db, order: seq<nat>, org: nat, permission: string)
    requires forall r :: r in order ==> r in db.roles
  {
    org != 0 && HasPermission(db, order, org, permission)
  }

  ghost predicate PermittedSomewhere(db: Db, order: seq<nat>, permission: string)
    requires forall r :: r in order ==> r in db.roles
  {
    exists org :: Permitted(db, order, org, permission)
  }

  // ---- No other way ----

  ghost predicate Touched(db: Db, db1: Db, r: nat)
    requires r in db.roles
  {
    r !in db1.roles || db1.roles[r] != db.roles[r]
  }

  /** A role form for role `r` whose sender is permitted in the organization named in it. */
  ghost predicate RoleForm(db: Db, e: Event, r: nat)
    requires WellFormed(db, e)
  {
    match e.op
    case OpUpdateRole(_, order, role, _, org, _, _) => role == r && Permitted(db, order, org, EDIT_ROLE)
    case OpDeleteRole(_, order, role, org) => role == r && Permitted(db, order, org, DELETE_ROLE)
    case _ => false
  }

  lemma RoleStepsTouch(db: Db, e: Event, r: nat)
    requires Keyed(db) && WellFormed(db, e) && r in db.roles && Touched(db, Step(db, e).0, r)
    requires e.op.OpCreateOrganization? || e.op.OpCreateRole? || e.op.OpUpdateRole? || e.op.OpDeleteRole?
    ensures RoleForm(db, e, r)
  {
    hide HasPermission, NameTaken, Updated, RolesOf, ALL_PERMISSIONS;
  }

  lemma DeletionsTouch(db: Db, gone: set<nat>, user: nat, r: nat)
    requires r in db.roles && db.roles[r].org !in gone
    ensures !Touched(db, WithoutOrgs(db, gone), r) && !Touched(db, WithoutUser(WithoutOrgs(db, gone), user), r)
  {
  }

  lemma OrganizationGone(db: Db, e: Event, r: nat)
    requires WellFormed(db, e) && r in db.roles && Touched(db, Step(db, e).0, r)
    requires e.op.OpDeleteOrganization? || e.op.OpDeleteUser?
    ensures db.roles[r].org !in Step(db, e).0.orgs
  {
    hide HasPermission, MembersOf, RolesOf;
    if e.op.OpDeleteUser? {
      var gone := SoleOrgs(db, e.op.user);
      if db.roles[r].org !in gone {
        DeletionsTouch(db, gone, e.op.user, r);
      }
    } else if db.roles[r].org != e.op.org {
      DeletionsTouch(db, {e.op.org}, 0, r);
    }
  }

  /** A step changes or deletes a role only with its whole organization, or by a form of someone
      permitted in the organization that form names. */
  lemma TouchedOnlyBy(db: Db, e: Event, r: nat)
    requires Keyed(db) && WellFormed(db, e) && r in db.roles && Touched(db, Step(db, e).0, r)
    ensures db.roles[r].org !in Step(db, e).0.orgs || RoleForm(db, e, r)
  {
    hide Keyed, WellFormed, RoleForm;
    if e.op.OpCreateOrganization? || e.op.OpCreateRole? || e.op.OpUpdateRole? || e.op.OpDeleteRole? {
      RoleStepsTouch(db, e, r);
    } else if e.op.OpInviteMember? || e.op.OpUpdateUserRole? || e.op.OpRemoveUser? || e.op.OpAddressesChanged? {
      MembershipsKeepRoles(db, e);
    } else if e.op.OpUpdateOrganization? {
      RenamesOnly(db, e);
    } else if e.op.OpDeleteOrganization? || e.op.OpDeleteUser? {
      OrganizationGone(db, e, r);
    } else {
      InvitationsKeepRoles(db, e);
    }
  }

  // ---- Any organization will do ----

  lemma {:induction false} LongestName(roles: map<nat, Role>, keys: set<nat>) returns (n: nat)
    requires keys <= roles.Keys
    ensures forall r :: r in keys ==> |roles[r].name| <= n
    decreases |keys|
  {
    if keys == {} {
      n := 0;
    } else {
      var k :| k in keys;
      var m := LongestName(roles, keys - {k});
      n := if m < |roles[k].name| then |roles[k].name| else m;
    }
  }

  lemma FreshName(roles: map<nat, Role>) returns (name: string)
    ensures forall r :: r in roles ==> roles[r].name != name
  {
    var n := LongestName(roles, roles.Keys);
    name := seq(n + 1, _ => 'x');
    assert |name| == n + 1;
  }

  /** Some update of role `r`, with some name and permissions, by the form of some organization. */
  ghost predicate CanUpdate(db: Db, order: seq<nat>, r: nat, held: seq<string>)
    requires r in db.roles && forall s :: s in order ==> s in db.roles
  {
    exists name, org, permissions :: Touched(db, UpdateRole(db, order, r, name, org, permissions, held).0, r)
  }

  /** An actor can change a custom role, of whichever organization, exactly with the permission to edit
      roles in some organization. */
  lemma CanUpdateIff(db: Db, order: seq<nat>, r: nat, held: seq<string>)
    requires r in db.roles && forall s :: s in order ==> s in db.roles
    ensures CanUpdate(db, order, r, held) <==>
      db.roles[r].name !in DEFAULT_ROLES && PermittedSomewhere(db, order, EDIT_ROLE)
  {
    hide HasPermission, Updated, ALL_PERMISSIONS;
    if CanUpdate(db, order, r, held) {
      var name, org, permissions :| Touched(db, UpdateRole(db, order, r, name, org, permissions, held).0, r);
      assert Permitted(db, order, org, EDIT_ROLE);
    }
    if db.roles[r].name !in DEFAULT_ROLES && PermittedSomewhere(db, order, EDIT_ROLE) {
      var org :| Permitted(db, order, org, EDIT_ROLE);
      var name := FreshName(db.roles);
      assert Touched(db, UpdateRole(db, order, r, name, org, [], held).0, r);
    }
  }

  ghost predicate CanDelete(db: Db, order: seq<nat>, r: nat)
    requires r in db.roles && forall s :: s in order ==> s in db.roles
  {
    exists org :: Touched(db, DeleteRole(db, order, r, org).0, r)
  }

  /** The same for deleting one nobody holds. */
  lemma CanDeleteIff(db: Db, order: seq<nat>, r: nat)
    requires r in db.roles && forall s :: s in order ==> s in db.roles
    ensures CanDelete(db, order, r) <==>
      && db.roles[r].name !in DEFAULT_ROLES && PermittedSomewhere(db, order, DELETE_ROLE)
      && forall l :: l in db.links ==> l.1 != r
  {
    hide HasPermission, ALL_PERMISSIONS;
    if CanDelete(db, order, r) {
      var org :| Touched(db, DeleteRole(db, order, r, org).0, r);
      assert Permitted(db, order, org, DELETE_ROLE);
    }
    if db.roles[r].name !in DEFAULT_ROLES && PermittedSomewhere(db, order, DELETE_ROLE)
       && forall l :: l in db.links ==> l.1 != r
    {
      var org :| Permitted(db, order, org, DELETE_ROLE);
      assert Touched(db, DeleteRole(db, order, r, org).0, r);
    }
  }

  /** It does cross organizations: a member of the first only, who renames and deletes a role of the
      second. */
  lemma CrossesOrganizations()
    ensures var db := Db(map[9 := User("a", {"a"})], map[1 := "o", 2 := "p"],
                         map[3 := Role(1, "x", {EDIT_ROLE, DELETE_ROLE}), 4 := Role(2, "y", {})],
                         {(9, 3)}, map[], map[], 10);
      && Sound(db) && Acting(db, 9, [3]) && 9 in MembersOf(db, 1) && 9 !in MembersOf(db, 2)
      && UpdateRole(db, [3], 4, "z", 1, [], []) == (db.(roles := db.roles[4 := Role(2, "z", {})]), Done)
      && DeleteRole(db, [3], 4, 1) == (db.(roles := db.roles - {4}), Done)
  {
    var db := Db(map[9 := User("a", {"a"})], map[1 := "o", 2 := "p"],
                 map[3 := Role(1, "x", {EDIT_ROLE, DELETE_ROLE}), 4 := Role(2, "y", {})],
                 {(9, 3)}, map[], map[], 10);
    assert RolesOf(db, 9) == {3} && (9, 3) in db.links;
    assert HasPermission(db, [3], 1, EDIT_ROLE) && HasPermission(db, [3], 1, DELETE_ROLE);
    assert Updated([], []) == {};
    hide ALL_PERMISSIONS, HasPermission;
  }
}
