/** Permissions and membership, and what deleting a user takes along. */
module OrgMembers {
  import opened OrgTables
  import opened Options
  import opened OrgInvariants
  import opened RoleSweep
  import opened Finite

  lemma LinkIsRole(db: Db, user: nat, r: nat)
    ensures r in RolesOf(db, user) <==> (user, r) in db.links
  {
    assert (user, r) in db.links ==> (user, r).1 == r;
  }

  // ---- Permissions: the first role found, and the union of all ----

  lemma {:induction false} PermittedInUnion(db: Db, user: nat, order: seq<nat>, org: nat, permission: string)
    requires (forall r :: r in order ==> r in db.roles && r in RolesOf(db, user))
      && HasPermission(db, order, org, permission)
    ensures permission in PermissionsIn(db, user, org)
  {
    var r := PermittedMeansMember(db, order, org, permission);
    assert (user, r) in db.links;
  }

  predicate HoldsIn(db: Db, user: nat, role: nat, org: nat) {
    role in RolesOf(db, user) && role in db.roles && db.roles[role].org == org
  }

  /** At most one of the user's roles is in the organization. */
  ghost predicate OneRoleIn(db: Db, user: nat, org: nat) {
    forall r, s :: HoldsIn(db, user, r, org) && HoldsIn(db, user, s, org) ==> r == s
  }

  lemma {:induction false} OnlyRoleDecides(db: Db, order: seq<nat>, org: nat, permission: string, r: nat)
    requires forall s :: s in order ==> s in db.roles
    requires r in order && db.roles[r].org == org && permission in db.roles[r].permissions
    requires forall s :: s in order && db.roles[s].org == org ==> s == r
    ensures HasPermission(db, order, org, permission)
  {
    if db.roles[order[0]].org != org {
      OnlyRoleDecides(db, order[1..], org, permission, r);
    }
  }

  /** Whatever `has_permission` grants is in the union that the pages show; with at most one role in
      the organization the two agree, in whichever order the roles are loaded. */
  lemma PermissionAgrees(db: Db, user: nat, order: seq<nat>, org: nat, permission: string)
    requires Acting(db, user, order)
    ensures HasPermission(db, order, org, permission) ==> permission in PermissionsIn(db, user, org)
    ensures OneRoleIn(db, user, org) ==>
      (HasPermission(db, order, org, permission) <==> permission in PermissionsIn(db, user, org))
  {
    if HasPermission(db, order, org, permission) {
      PermittedInUnion(db, user, order, org, permission);
    }
    if OneRoleIn(db, user, org) && permission in PermissionsIn(db, user, org) {
      var l :| l in db.links && l.0 == user && l.1 in db.roles && db.roles[l.1].org == org
        && permission in db.roles[l.1].permissions;
      assert l.1 in RolesOf(db, user);
      assert HoldsIn(db, user, l.1, org);
      forall s | s in order && db.roles[s].org == org ensures s == l.1 {
        assert HoldsIn(db, user, s, org);
      }
      OnlyRoleDecides(db, order, org, permission, l.1);
    }
  }

  lemma {:induction false} AllRolesGrant(db: Db, order: seq<nat>, org: nat, permission: string, r: nat)
    requires forall s :: s in order ==> s in db.roles
    requires r in order && db.roles[r].org == org
    requires forall s :: s in order && db.roles[s].org == org ==> permission in db.roles[s].permissions
    ensures HasPermission(db, order, org, permission)
  {
    if db.roles[order[0]].org != org {
      AllRolesGrant(db, order[1..], org, permission, r);
    }
  }

  /** A loading order that begins with a given role. */
  lemma LoadedFirst(db: Db, user: nat, r: nat) returns (order: seq<nat>)
    requires Sound(db) && user in db.users && r in RolesOf(db, user)
    ensures Acting(db, user, order) && order != [] && order[0] == r
  {
    var rest := SomeListing(RolesOf(db, user) - {r});
    order := [r] + rest;
    ListedFirst(r, rest, RolesOf(db, user));
    forall s | s in order ensures s in db.roles {
      LinkIsRole(db, user, s);
    }
  }

  /** In every loading order `has_permission` and the union agree. */
  ghost predicate OrderIrrelevant(db: Db, user: nat, org: nat, permission: string) {
    forall order :: Acting(db, user, order) ==>
      (HasPermission(db, order, org, permission) <==> permission in PermissionsIn(db, user, org))
  }

  lemma AgreeWhenAllGrant(db: Db, user: nat, order: seq<nat>, org: nat, permission: string)
    requires Acting(db, user, order)
    requires permission in PermissionsIn(db, user, org) ==>
      forall r :: HoldsIn(db, user, r, org) ==> permission in db.roles[r].permissions
    ensures HasPermission(db, order, org, permission) <==> permission in PermissionsIn(db, user, org)
  {
    if HasPermission(db, order, org, permission) {
      PermittedInUnion(db, user, order, org, permission);
    }
    if permission in PermissionsIn(db, user, org) {
      var l :| l in db.links && l.0 == user && l.1 in db.roles && db.roles[l.1].org == org
        && permission in db.roles[l.1].permissions;
      LinkIsRole(db, user, l.1);
      forall s | s in order && db.roles[s].org == org ensures permission in db.roles[s].permissions {
        assert HoldsIn(db, user, s, org);
      }
      AllRolesGrant(db, order, org, permission, l.1);
    }
  }

  /** The loading order is irrelevant exactly when, if any of the user's roles in the organization
      grants the permission, all of them do. */
  lemma OrderIrrelevantIff(db: Db, user: nat, org: nat, permission: string)
    requires Sound(db) && user in db.users
    ensures OrderIrrelevant(db, user, org, permission) <==>
      (permission in PermissionsIn(db, user, org) ==>
        forall r :: HoldsIn(db, user, r, org) ==> permission in db.roles[r].permissions)
  {
    hide Sound;
    if r :| permission in PermissionsIn(db, user, org) && HoldsIn(db, user, r, org)
          && permission !in db.roles[r].permissions
    {
      var order := LoadedFirst(db, user, r);
      assert Acting(db, user, order) && !HasPermission(db, order, org, permission);
    } else {
      forall order | Acting(db, user, order)
        ensures HasPermission(db, order, org, permission) <==> permission in PermissionsIn(db, user, org)
      {
        AgreeWhenAllGrant(db, user, order, org, permission);
      }
    }
  }

  /** Otherwise they disagree: granted or not by the order in which the roles are loaded. */
  lemma OrderCanDecide()
    ensures var db := Db(map[9 := User("a", {})], map[1 := "o"],
                         map[2 := Role(1, "x", {}), 3 := Role(1, "y", {INVITE_USER})],
                         {(9, 2), (9, 3)}, map[], map[], 10);
      && Sound(db) && Acting(db, 9, [2, 3]) && Acting(db, 9, [3, 2])
      && !HasPermission(db, [2, 3], 1, INVITE_USER) && HasPermission(db, [3, 2], 1, INVITE_USER)
      && INVITE_USER in PermissionsIn(db, 9, 1)
  {
    var db := Db(map[9 := User("a", {})], map[1 := "o"], map[2 := Role(1, "x", {}), 3 := Role(1, "y", {INVITE_USER})],
                 {(9, 2), (9, 3)}, map[], map[], 10);
    assert (9, 2) in db.links && (9, 3) in db.links;
    assert RolesOf(db, 9) == {2, 3};
  }

  // ---- Changing memberships ----

  lemma RolesAfterRemoval(db: Db, target: nat, org: nat, user: nat, r: nat)
    ensures r in RolesOf(db.(links := LinksElsewhere(db, target, org)), user) <==>
      r in RolesOf(db, user) && (user != target || r !in db.roles || db.roles[r].org != org)
  {
    var db1 := db.(links := LinksElsewhere(db, target, org));
    assert r in RolesOf(db1, user) ==> (user, r) in db1.links;
    assert r in RolesOf(db, user) ==> (user, r) in db.links;
    assert (user, r) in db1.links ==> r in RolesOf(db1, user);
  }

  /** `update_user_role` leaves the target its roles elsewhere plus the requested roles that belong to
      the organization, and nobody else's roles change. */
  lemma UpdateUserRoleExact(db: Db, order: seq<nat>, target: nat, org: nat, requested: seq<nat>, refused: bool,
    user: nat,
    r: nat)
    requires Sound(db) && (forall r :: r in order ==> r in db.roles)
    requires UpdateUserRole(db, order, target, org, requested, refused).1 == Done
    ensures r in RolesOf(UpdateUserRole(db, order, target, org, requested, refused).0, user) <==>
      if user != target then r in RolesOf(db, user)
      else
        || (r in RolesOf(db, user) && db.roles[r].org != org)
        || (r in requested && r in db.roles && db.roles[r].org == org)
  {
    hide Keyed, UniqueRoleNames, UniqueUsers, UniqueTokens, OnePerAddress, HasPermission;
    var db1 := UpdateUserRole(db, order, target, org, requested, refused).0;
    RolesAfterRemoval(db, target, org, user, r);
    var cleared := db.(links := LinksElsewhere(db, target, org));
    assert (user, r) in db1.links <==>
      (user, r) in cleared.links || (user == target && r in requested && r in db.roles && db.roles[r].org == org);
    assert r in RolesOf(db1, user) <==> (user, r) in db1.links by { LinkIsRole(db1, user, r); }
    assert r in RolesOf(cleared, user) <==> (user, r) in cleared.links by { LinkIsRole(cleared, user, r); }
    LinkIsRole(db, user, r);
  }

  lemma LinkIsMember(db: Db, org: nat, user: nat)
    ensures user in MembersOf(db, org) <==> exists r :: (user, r) in db.links && r in db.roles && db.roles[r].org == org
  {
    if r :| (user, r) in db.links && r in db.roles && db.roles[r].org == org {
      assert (user, r).0 == user;
    }
    if user in MembersOf(db, org) {
      var l :| l in db.links && l.1 in db.roles && db.roles[l.1].org == org && l.0 == user;
      assert (user, l.1) in db.links;
    }
  }

  lemma RemovalMembers(db: Db, db1: Db, target: nat, org: nat, o: nat, u: nat)
    requires db1 == db.(links := LinksElsewhere(db, target, org))
    ensures u in MembersOf(db1, o) <==> u in MembersOf(db, o) && (o != org || u != target)
  {
    LinkIsMember(db, o, u);
    LinkIsMember(db1, o, u);
    hide MembersOf;
    if r :| (u, r) in db.links && r in db.roles && db.roles[r].org == o && (o != org || u != target) {
      assert (u, r) in db1.links;
    }
  }

  /** Removing a member takes exactly that member out of exactly that organization; the actor, a
      different member, stays, so an organization is never emptied this way. */
  lemma RemovalNeverEmpties(db: Db, actor: nat, order: seq<nat>, target: nat, org: nat, other: nat)
    requires Acting(db, actor, order) && RemoveUser(db, actor, order, target, org).1 == Done
    ensures var db1 := RemoveUser(db, actor, order, target, org).0;
      && MembersOf(db1, org) == MembersOf(db, org) - {target}
      && actor in MembersOf(db1, org)
      && (other != org ==> MembersOf(db1, other) == MembersOf(db, other))
  {
    var db1 := RemoveUser(db, actor, order, target, org).0;
    var r := PermittedMeansMember(db, order, org, REMOVE_USER);
    LinkIsRole(db, actor, r);
    hide HasPermission, Lists, RolesOf;
    assert (actor, r) in db1.links;
    LinkIsMember(db1, org, actor);
    forall u ensures u in MembersOf(db1, org) <==> u in MembersOf(db, org) && u != target {
      RemovalMembers(db, db1, target, org, org, u);
    }
    forall u ensures other != org ==> (u in MembersOf(db1, other) <==> u in MembersOf(db, other)) {
      RemovalMembers(db, db1, target, org, other, u);
    }
  }

  // ---- Deleting a user ----

  lemma MembersAfterDeletion(db: Db, user: nat, o: nat, u: nat)
    requires o !in SoleOrgs(db, user)
    ensures u in MembersOf(DeleteUser(db, user), o) <==> u in MembersOf(db, o) && u != user
  {
    var db1 := DeleteUser(db, user);
    LinkIsMember(db, o, u);
    LinkIsMember(db1, o, u);
    hide MembersOf, SoleOrgs;
    if r :| (u, r) in db.links && r in db.roles && db.roles[r].org == o && u != user {
      assert r in db1.roles && (u, r) in db1.links;
    }
    if r :| (u, r) in db1.links && r in db1.roles && db1.roles[r].org == o {
      assert (u, r) in db.links;
    }
  }

  lemma OtherMember(members: set<nat>, user: nat) returns (u: nat)
    requires members != {} && members != {user}
    ensures u in members && u != user
  {
    u :| u in members;
    if u == user {
      assert members == members - {user} + {user};
      u :| u in members - {user};
    }
  }

  /** The same invitation, except that a deleted user is no longer named as the one who accepted. */
  predicate SameInvitation(now: Invitation, was: Invitation, gone: nat) {
    now == if was.acceptedBy == Some(gone) then was.(acceptedBy := None) else was
  }

  lemma DeletionKeepsRows(db: Db, user: nat, o: nat)
    requires Sound(db) && o in db.orgs
    ensures var db1 := DeleteUser(db, user);
      && user !in db1.users
      && (o !in db1.orgs <==> MembersOf(db, o) == {user})
      && (o in db1.orgs <==> o !in SoleOrgs(db, user))
      && (o in db1.orgs ==>
           && db1.orgs[o] == db.orgs[o]
           && (forall r :: r in db.roles && db.roles[r].org == o ==> r in db1.roles && db1.roles[r] == db.roles[r])
           && (forall x :: x in db.resources && db.resources[x] == o ==> x in db1.resources && db1.resources[x] == o)
           && (forall i :: i in db.invitations && db.invitations[i].org == o ==>
                i in db1.invitations && SameInvitation(db1.invitations[i], db.invitations[i], user)))
  {
    assert o in SoleOrgs(db, user) <==> MembersOf(db, o) == {user};
    hide MembersOf, SoleOrgs, Keyed, UniqueRoleNames, UniqueUsers, UniqueTokens, OnePerAddress;
  }

  /** Deleting a user deletes exactly the organizations it was the only member of. Every other
      organization keeps its name, roles, resources and other members; none that had members is left
      without; and no foreign key dangles. */
  lemma DeletionIsExact(db: Db, user: nat, o: nat)
    requires Sound(db) && o in db.orgs
    ensures var db1 := DeleteUser(db, user);
      && Sound(db1) && user !in db1.users
      && (o !in db1.orgs <==> MembersOf(db, o) == {user})
      && (o in db1.orgs ==>
           && db1.orgs[o] == db.orgs[o]
           && MembersOf(db1, o) == MembersOf(db, o) - {user}
           && (MembersOf(db, o) != {} ==> MembersOf(db1, o) != {})
           && (forall r :: r in db.roles && db.roles[r].org == o ==> r in db1.roles && db1.roles[r] == db.roles[r])
           && (forall x :: x in db.resources && db.resources[x] == o ==> x in db1.resources && db1.resources[x] == o)
           && (forall i :: i in db.invitations && db.invitations[i].org == o ==>
                i in db1.invitations && SameInvitation(db1.invitations[i], db.invitations[i], user)))
  {
    DeletionsSound(db, user, [], 0, user);
    DeletionKeepsRows(db, user, o);
    hide Sound;
    var db1 := DeleteUser(db, user);
    if o in db1.orgs {
      forall u ensures u in MembersOf(db1, o) <==> u in MembersOf(db, o) && u != user {
        MembersAfterDeletion(db, user, o, u);
      }
      hide DeleteUser;
      if MembersOf(db, o) != {} {
        var u := OtherMember(MembersOf(db, o), user);
      }
    }
  }
}
