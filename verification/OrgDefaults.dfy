/** The meaning of `create_default_roles`, on an organization with any roles already there. */
module OrgDefaults {
  import opened OrgTables
  import opened Options
  import opened OrgInvariants

  function Granted(role: Role, permissions: set<string>): Role {
    role.(permissions := role.permissions + permissions)
  }

  // The roles, the next id and the ids of the default roles met so far, found or made.
  datatype Made = Made(roles: map<nat, Role>, next: nat, ids: seq<nat>)

  /** The first `n` default roles looked up by name, and made where they are missing. */
  ghost function EnsureNamed(roles: map<nat, Role>, next: nat, org: nat, n: nat): Made
    requires n <= 3
  {
    if n == 0 then Made(roles, next, [])
    else
      var m := EnsureNamed(roles, next, org, n - 1);
      match RoleNamed(m.roles, org, DEFAULT_ROLES[n - 1])
      case Some(r) => m.(ids := m.ids + [r])
      case None => Made(m.roles[m.next := Role(org, DEFAULT_ROLES[n - 1], {})], m.next + 1, m.ids + [m.next])
  }

  ghost predicate Rooms(roles: map<nat, Role>, next: nat) {
    UniqueRoleNames(roles) && forall r :: r in roles ==> r < next
  }

  /** What is known of the roles in between: old ones stay, new ones are bare, and the ids name them. */
  ghost predicate MadeFrom(m: Made, roles: map<nat, Role>, next: nat, org: nat, n: nat)
    requires n <= 3
  {
    && Rooms(m.roles, m.next) && next <= m.next && |m.ids| == n
    && (forall r :: r in roles ==> r in m.roles && m.roles[r] == roles[r])
    && (forall r :: r in m.roles && r !in roles ==> next <= r && m.roles[r].org == org && m.roles[r].permissions == {})
    && (forall k :: 0 <= k < n
         ==> m.ids[k] in m.roles && m.roles[m.ids[k]].org == org && m.roles[m.ids[k]].name == DEFAULT_ROLES[k])
  }

  lemma MadeOneMore(m: Made, roles: map<nat, Role>, next: nat, org: nat, n: nat)
    requires n < 3 && MadeFrom(m, roles, next, org, n) && RoleNamed(m.roles, org, DEFAULT_ROLES[n]).None?
    ensures var more := m.roles[m.next := Role(org, DEFAULT_ROLES[n], {})];
      MadeFrom(Made(more, m.next + 1, m.ids + [m.next]), roles, next, org, n + 1)
  {
    forall r | r in m.roles && m.roles[r].org == org ensures m.roles[r].name != DEFAULT_ROLES[n] {
      hide MadeFrom;
    }
    assert forall r :: r in roles ==> r in m.roles;
  }

  lemma FoundOneMore(m: Made, r: nat, roles: map<nat, Role>, next: nat, org: nat, n: nat)
    requires n < 3 && MadeFrom(m, roles, next, org, n) && RoleNamed(m.roles, org, DEFAULT_ROLES[n]) == Some(r)
    ensures MadeFrom(m.(ids := m.ids + [r]), roles, next, org, n + 1)
  {
    hide Rooms;
  }

  lemma {:induction false} NamedMade(roles: map<nat, Role>, next: nat, org: nat, n: nat)
    requires n <= 3 && Rooms(roles, next)
    ensures MadeFrom(EnsureNamed(roles, next, org, n), roles, next, org, n)
  {
    if n > 0 {
      NamedMade(roles, next, org, n - 1);
      var m := EnsureNamed(roles, next, org, n - 1);
      hide MadeFrom, RoleNamed;
      match RoleNamed(m.roles, org, DEFAULT_ROLES[n - 1])
      case Some(r) => FoundOneMore(m, r, roles, next, org, n - 1);
      case None => MadeOneMore(m, roles, next, org, n - 1);
    }
  }

  lemma NamedRooms(roles: map<nat, Role>, next: nat, org: nat, n: nat)
    requires n <= 3 && Rooms(roles, next)
    ensures var m := EnsureNamed(roles, next, org, n);
      UniqueRoleNames(m.roles) && |m.ids| == n && forall k :: 0 <= k < n ==> m.ids[k] in m.roles
  {
    NamedMade(roles, next, org, n);
    hide EnsureNamed, UniqueRoleNames;
  }

  /** The default roles there, and the permissions of the first two granted on top of what they have. */
  ghost function WithDefaults(roles: map<nat, Role>, next: nat, org: nat): (map<nat, Role>, nat)
    requires Rooms(roles, next)
  {
    NamedMade(roles, next, org, 3);
    var m := EnsureNamed(roles, next, org, 3);
    var owned := m.roles[m.ids[0] := Granted(m.roles[m.ids[0]], ALL_PERMISSIONS)];
    (owned[m.ids[1] := Granted(owned[m.ids[1]], ALL_PERMISSIONS - {DELETE_ORGANIZATION})], m.next)
  }

  /** Granting without looking first fails on a permission the role already has. */
  predicate NothingGranted(roles: map<nat, Role>, org: nat) {
    forall r :: r in roles && roles[r].org == org ==>
      && (roles[r].name == OWNER ==> roles[r].permissions * ALL_PERMISSIONS == {})
      && (roles[r].name == ADMINISTRATOR ==> roles[r].permissions * (ALL_PERMISSIONS - {DELETE_ORGANIZATION}) == {})
  }

  /** Afterwards the organization has the three roles with at least their permissions. */
  lemma DefaultsThere(roles: map<nat, Role>, next: nat, org: nat)
    requires Rooms(roles, next)
    ensures var (after, _) := WithDefaults(roles, next, org);
      && (exists r :: r in after && after[r].org == org && after[r].name == OWNER
           && ALL_PERMISSIONS <= after[r].permissions)
      && (exists r :: r in after && after[r].org == org && after[r].name == ADMINISTRATOR
           && ALL_PERMISSIONS - {DELETE_ORGANIZATION} <= after[r].permissions)
      && (exists r :: r in after && after[r].org == org && after[r].name == MEMBER)
  {
    NamedMade(roles, next, org, 3);
    var m := EnsureNamed(roles, next, org, 3);
    var (after, _) := WithDefaults(roles, next, org);
    hide EnsureNamed, ALL_PERMISSIONS, UniqueRoleNames;
    assert DEFAULT_ROLES[0] == OWNER && DEFAULT_ROLES[1] == ADMINISTRATOR && DEFAULT_ROLES[2] == MEMBER;
    assert m.ids[0] in after && after[m.ids[0]].org == org && after[m.ids[0]].name == OWNER;
    assert m.ids[1] in after && after[m.ids[1]].org == org && after[m.ids[1]].name == ADMINISTRATOR;
    assert m.ids[2] in after && after[m.ids[2]].org == org && after[m.ids[2]].name == MEMBER;
  }

  lemma {:induction false} NewAreDefaults(roles: map<nat, Role>, next: nat, org: nat, n: nat)
    requires n <= 3 && Rooms(roles, next)
    ensures var m := EnsureNamed(roles, next, org, n);
      forall r :: r in m.roles && r !in roles ==> m.roles[r].name in DEFAULT_ROLES
  {
    if n > 0 {
      NewAreDefaults(roles, next, org, n - 1);
    }
  }

  lemma GrantedTwice(roles: map<nat, Role>, i: nat, j: nat, some: set<string>, more: set<string>)
    requires i in roles && j in roles
    ensures var owned := roles[i := Granted(roles[i], some)];
      var after := owned[j := Granted(owned[j], more)];
      && after.Keys == roles.Keys
      && (forall r :: r in after ==> after[r].org == roles[r].org && after[r].name == roles[r].name)
      && (forall r :: r in after && r != i && r != j ==> after[r] == roles[r])
  {
  }

  lemma GrantsOnly(roles: map<nat, Role>, next: nat, org: nat)
    requires Rooms(roles, next)
    ensures var m := EnsureNamed(roles, next, org, 3);
      var (after, _) := WithDefaults(roles, next, org);
      && MadeFrom(m, roles, next, org, 3) && after.Keys == m.roles.Keys
      && (forall r :: r in after ==> after[r].org == m.roles[r].org && after[r].name == m.roles[r].name)
      && (forall r :: r in after && (after[r].org != org || after[r].name !in {OWNER, ADMINISTRATOR})
           ==> after[r] == m.roles[r])
  {
    NamedMade(roles, next, org, 3);
    var m := EnsureNamed(roles, next, org, 3);
    assert m.roles[m.ids[0]].name == OWNER && m.roles[m.ids[0]].org == org;
    assert m.roles[m.ids[1]].name == ADMINISTRATOR && m.roles[m.ids[1]].org == org;
    hide EnsureNamed, ALL_PERMISSIONS, Rooms, MadeFrom, Granted;
    GrantedTwice(m.roles, m.ids[0], m.ids[1], ALL_PERMISSIONS, ALL_PERMISSIONS - {DELETE_ORGANIZATION});
  }

  /** No role changes its name, no other role changes at all, and what is new is a missing default role. */
  lemma OthersUntouched(roles: map<nat, Role>, next: nat, org: nat, r: nat)
    requires Rooms(roles, next)
    ensures var (after, _) := WithDefaults(roles, next, org);
      && (r in roles ==> r in after && after[r].org == roles[r].org && after[r].name == roles[r].name)
      && (r in roles && (roles[r].org != org || roles[r].name !in {OWNER, ADMINISTRATOR}) ==> after[r] == roles[r])
      && (r in after && r !in roles ==> after[r].org == org && after[r].name in DEFAULT_ROLES)
  {
    GrantsOnly(roles, next, org);
    NewAreDefaults(roles, next, org, 3);
    hide EnsureNamed, WithDefaults, ALL_PERMISSIONS, Rooms;
  }

  function NewRoles(roles: map<nat, Role>, org: nat, next: nat): map<nat, Role> {
    roles[next := Role(org, OWNER, ALL_PERMISSIONS)]
         [next + 1 := Role(org, ADMINISTRATOR, ALL_PERMISSIONS - {DELETE_ORGANIZATION})]
         [next + 2 := Role(org, MEMBER, {})]
  }

  function WithNames(roles: map<nat, Role>, org: nat, next: nat, n: nat): map<nat, Role>
    requires n <= 3
  {
    if n == 0 then roles else WithNames(roles, org, next, n - 1)[next + n - 1 := Role(org, DEFAULT_ROLES[n - 1], {})]
  }

  lemma {:induction false} NamesOfNew(roles: map<nat, Role>, org: nat, next: nat, n: nat)
    requires n <= 3 && Rooms(roles, next) && forall r :: r in roles ==> roles[r].org != org
    ensures EnsureNamed(roles, next, org, n).roles == WithNames(roles, org, next, n)
    ensures EnsureNamed(roles, next, org, n).next == next + n && |EnsureNamed(roles, next, org, n).ids| == n
    ensures forall k :: 0 <= k < n ==> EnsureNamed(roles, next, org, n).ids[k] == next + k
    ensures forall r :: r in WithNames(roles, org, next, n) && WithNames(roles, org, next, n)[r].org == org ==>
      exists k :: 0 <= k < n && WithNames(roles, org, next, n)[r].name == DEFAULT_ROLES[k]
  {
    if n > 0 {
      NamesOfNew(roles, org, next, n - 1);
      assert RoleNamed(WithNames(roles, org, next, n - 1), org, DEFAULT_ROLES[n - 1]).None?;
    }
  }

  lemma AllNames(roles: map<nat, Role>, org: nat, next: nat)
    ensures WithNames(roles, org, next, 3)
      == roles[next := Role(org, OWNER, {})]
              [next + 1 := Role(org, ADMINISTRATOR, {})]
              [next + 2 := Role(org, MEMBER, {})]
  {
    assert WithNames(roles, org, next, 2) == WithNames(roles, org, next, 1)[next + 1 := Role(org, ADMINISTRATOR, {})];
    assert WithNames(roles, org, next, 1) == roles[next := Role(org, OWNER, {})];
  }

  lemma GrantedNames(roles: map<nat, Role>, org: nat, next: nat, some: set<string>)
    ensures WithNames(roles, org, next, 3)
      [next := Granted(Role(org, OWNER, {}), ALL_PERMISSIONS)][next + 1 := Granted(Role(org, ADMINISTRATOR, {}), some)]
      == roles[next := Role(org, OWNER, ALL_PERMISSIONS)]
              [next + 1 := Role(org, ADMINISTRATOR, some)]
              [next + 2 := Role(org, MEMBER, {})]
  {
    AllNames(roles, org, next);
    hide WithNames, ALL_PERMISSIONS;
    assert {} + ALL_PERMISSIONS == ALL_PERMISSIONS && {} + some == some;
  }

  /** On an organization without roles it makes the three with exactly their permissions. */
  lemma DefaultsOfNew(roles: map<nat, Role>, next: nat, org: nat)
    requires Rooms(roles, next) && forall r :: r in roles ==> roles[r].org != org
    ensures WithDefaults(roles, next, org) == (NewRoles(roles, org, next), next + 3) && NothingGranted(roles, org)
  {
    NamesOfNew(roles, org, next, 3);
    NamedMade(roles, next, org, 3);
    GrantedNames(roles, org, next, ALL_PERMISSIONS - {DELETE_ORGANIZATION});
    AllNames(roles, org, next);
    hide EnsureNamed, WithNames, ALL_PERMISSIONS;
  }

  lemma NewOwner(roles: map<nat, Role>, org: nat, next: nat)
    requires forall r :: r in roles ==> roles[r].org != org
    ensures next in NewRoles(roles, org, next) && NewRoles(roles, org, next)[next] == Role(org, OWNER, ALL_PERMISSIONS)
    ensures var after := NewRoles(roles, org, next);
      forall r :: r in after && after[r].org == org && after[r].name == OWNER ==> r == next
  {
    hide ALL_PERMISSIONS;
  }

  /** Whether the grants fail shows on the roles as they were. */
  lemma NothingGrantedIff(roles: map<nat, Role>, next: nat, org: nat)
    requires Rooms(roles, next)
    ensures var m := EnsureNamed(roles, next, org, 3);
      && MadeFrom(m, roles, next, org, 3) && m.ids[0] != m.ids[1]
      && (NothingGranted(roles, org) <==>
           m.roles[m.ids[0]].permissions * ALL_PERMISSIONS == {}
           && m.roles[m.ids[1]].permissions * (ALL_PERMISSIONS - {DELETE_ORGANIZATION}) == {})
  {
    NamedMade(roles, next, org, 3);
    hide EnsureNamed, ALL_PERMISSIONS;
    var m := EnsureNamed(roles, next, org, 3);
    forall r | r in roles && roles[r].org == org
      ensures (roles[r].name == OWNER ==> r == m.ids[0]) && (roles[r].name == ADMINISTRATOR ==> r == m.ids[1])
    {
      assert m.roles[r] == roles[r];
    }
  }
}
