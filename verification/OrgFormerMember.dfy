/** A member who joined by invitation and was removed: invited again, and refused for good. */
module OrgFormerMember {
  import opened OrgTables
  import opened Options
  import opened OrgInvariants
  import opened OrgInvitations
  import opened RoleSweep

  lemma Preceded(db: Db, e: Event, db1: Db, run: seq<Event>, start: int)
    requires start <= e.now && WellFormed(db, e) && Step(db, e).0 == db1 && Possible(db1, run, e.now)
    ensures Possible(db, [e] + run, start) && Run(db, [e] + run, start) == Run(db1, run, e.now)
  {
    hide Step, WellFormed;
    assert ([e] + run)[1..] == run;
  }

  const ADMINS := ALL_PERMISSIONS - {DELETE_ORGANIZATION}
  const FIRST := Invitation(3, 6, "b", 8, 7 * DAY, false, None)
  const SPENT := FIRST.(used := true, acceptedBy := Some(2))
  const SECOND := Invitation(3, 6, "b", 10, 7 * DAY, false, None)

  function Users(): map<nat, User> {
    map[1 := User("a", {"a"}), 2 := User("b", {"b"})]
  }

  function Roles(): map<nat, Role> {
    map[4 := Role(3, OWNER, ALL_PERMISSIONS), 5 := Role(3, ADMINISTRATOR, ADMINS), 6 := Role(3, MEMBER, {})]
  }

  /** One organization, founded by the first of two users. */
  function With(links: set<(nat, nat)>, invitations: map<nat, Invitation>, next: nat): Db {
    Db(Users(), map[3 := "o"], Roles(), {(1, 4)} + links, invitations, map[], next)
  }

  const EMPTY := Db(map[], map[], map[], {}, map[], map[], 1)

  const REGISTER_A := Event(0, OpRegister("a", None))
  const REGISTER_B := Event(0, OpRegister("b", None))
  const FOUND := Event(0, OpCreateOrganization(1, "o"))
  const INVITE := Event(0, OpCreateInvitation(1, [4], "b", 6, 3, true))
  const ACCEPT_FIRST := Event(0, OpAccept(Some(2), 8))
  const REMOVE := Event(0, OpRemoveUser(1, [4], 2, 3))
  const ACCEPT_SECOND := Event(0, OpAccept(Some(2), 10))

  lemma Founded()
    ensures forall db :: WellFormed(db, REGISTER_A) && WellFormed(db, REGISTER_B)
    ensures Step(EMPTY, REGISTER_A) == (Db(map[1 := User("a", {"a"})], map[], map[], {}, map[], map[], 2), Done)
    ensures Step(Db(map[1 := User("a", {"a"})], map[], map[], {}, map[], map[], 2), REGISTER_B) ==
      (Db(Users(), map[], map[], {}, map[], map[], 3), Done)
    ensures WellFormed(Db(Users(), map[], map[], {}, map[], map[], 3), FOUND)
    ensures Step(Db(Users(), map[], map[], {}, map[], map[], 3), FOUND) == (With({}, map[], 7), Done)
  {
    hide ALL_PERMISSIONS;
    var db := CreateOrganization(Db(Users(), map[], map[], {}, map[], map[], 3), 1, "o").0;
    assert db.roles == Roles() && db.links == {(1, 4)} + {};
  }

  lemma OwnerActs(links: set<(nat, nat)>, invitations: map<nat, Invitation>, next: nat)
    requires forall l :: l in links ==> l.0 == 2
    ensures Acting(With(links, invitations, next), 1, [4])
    ensures HasPermission(With(links, invitations, next), [4], 3, INVITE_USER)
    ensures HasPermission(With(links, invitations, next), [4], 3, REMOVE_USER)
  {
    var db := With(links, invitations, next);
    assert (1, 4) in db.links;
    assert RolesOf(db, 1) == {4};
  }

  lemma SecondUser()
    ensures UserWith(Users(), "b") == Some(2)
  {
    assert Users()[2].email == "b";
  }

  lemma Outsider(invitations: map<nat, Invitation>, next: nat)
    ensures 2 !in MembersOf(With({}, invitations, next), 3)
  {
  }

  lemma Invited(spent: map<nat, Invitation>, next: nat)
    requires spent == map[] || spent == map[7 := SPENT]
    ensures WellFormed(With({}, spent, next), INVITE)
    ensures Step(With({}, spent, next), INVITE) ==
      (With({}, spent[next := Invitation(3, 6, "b", next + 1, 7 * DAY, false, None)], next + 2), Done)
  {
    OwnerActs({}, spent, next);
    SecondUser();
    Outsider(spent, next);
    hide HasPermission, Acting, UserWith, MembersOf, ALL_PERMISSIONS, Users;
    assert WithoutPending(spent, 3, "b") == spent;
  }

  lemma FirstAccepted()
    ensures WellFormed(With({}, map[7 := FIRST], 9), ACCEPT_FIRST)
    ensures Step(With({}, map[7 := FIRST], 9), ACCEPT_FIRST) == (With({(2, 6)}, map[7 := SPENT], 9), Done)
  {
    SecondUser();
    var db := With({}, map[7 := FIRST], 9);
    assert db.invitations[7].token == 8;
    assert InvitationWith(db.invitations, 8) == Some(7);
    hide UserWith, ALL_PERMISSIONS, InvitationWith;
    assert db.invitations[7 := SPENT] == map[7 := SPENT];
    assert {(1, 4)} + {} + {(2, 6)} == {(1, 4)} + {(2, 6)};
  }

  lemma Removed()
    ensures WellFormed(With({(2, 6)}, map[7 := SPENT], 9), REMOVE)
    ensures Step(With({(2, 6)}, map[7 := SPENT], 9), REMOVE) == (With({}, map[7 := SPENT], 9), Done)
  {
    OwnerActs({(2, 6)}, map[7 := SPENT], 9);
    hide HasPermission, Acting, ALL_PERMISSIONS;
    assert LinksElsewhere(With({(2, 6)}, map[7 := SPENT], 9), 2, 3) == {(1, 4)} + {};
  }

  lemma SecondRefused()
    ensures var db := With({}, map[7 := SPENT, 9 := SECOND], 11);
      UsableAs(db, 9, 10, 0) && WellFormed(db, ACCEPT_SECOND)
        && Step(db, ACCEPT_SECOND) == (db, Rejected(InvitationProcessingError))
  {
    SecondUser();
    var db := With({}, map[7 := SPENT, 9 := SECOND], 11);
    assert db.invitations[9].token == 10;
    assert InvitationWith(db.invitations, 10) == Some(9);
    hide UserWith, ALL_PERMISSIONS, InvitationWith;
    assert 7 in db.invitations && db.invitations[7].used;
  }

  const LOCKED_OUT := With({}, map[7 := SPENT, 9 := SECOND], 11)

  lemma InvitedAgain()
    ensures var run := [REMOVE] + [INVITE];
      Possible(With({(2, 6)}, map[7 := SPENT], 9), run, 0)
        && Run(With({(2, 6)}, map[7 := SPENT], 9), run, 0) == LOCKED_OUT
  {
    Removed();
    Invited(map[7 := SPENT], 9);
    hide Step, WellFormed, Users, Roles, With;
    assert map[7 := SPENT][9 := SECOND] == map[7 := SPENT, 9 := SECOND];
    assert [INVITE] == [INVITE] + [];
    Preceded(With({}, map[7 := SPENT], 9), INVITE, LOCKED_OUT, [], 0);
    hide Run, Possible;
    Preceded(With({(2, 6)}, map[7 := SPENT], 9), REMOVE, With({}, map[7 := SPENT], 9), [INVITE], 0);
  }

  lemma FromFounding()
    ensures var run := [INVITE] + ([ACCEPT_FIRST] + ([REMOVE] + [INVITE]));
      Possible(With({}, map[], 7), run, 0) && Run(With({}, map[], 7), run, 0) == LOCKED_OUT
  {
    Invited(map[], 7);
    FirstAccepted();
    InvitedAgain();
    hide Step, WellFormed, Users, Roles, With, Run, Possible;
    assert map[][7 := FIRST] == map[7 := FIRST];
    Preceded(With({}, map[7 := FIRST], 9), ACCEPT_FIRST, With({(2, 6)}, map[7 := SPENT], 9), [REMOVE] + [INVITE], 0);
    Preceded(With({}, map[], 7), INVITE, With({}, map[7 := FIRST], 9), [ACCEPT_FIRST] + ([REMOVE] + [INVITE]), 0);
  }

  lemma UpToFounding(run: seq<Event>)
    requires Possible(With({}, map[], 7), run, 0)
    ensures var all := [REGISTER_A] + ([REGISTER_B] + ([FOUND] + run));
      Possible(EMPTY, all, 0) && Run(EMPTY, all, 0) == Run(With({}, map[], 7), run, 0)
  {
    Founded();
    hide Step, WellFormed, Users, Roles, With, Run, Possible;
    var one := Db(map[1 := User("a", {"a"})], map[], map[], {}, map[], map[], 2);
    var two := Db(Users(), map[], map[], {}, map[], map[], 3);
    Preceded(two, FOUND, With({}, map[], 7), run, 0);
    Preceded(one, REGISTER_B, two, [FOUND] + run, 0);
    Preceded(EMPTY, REGISTER_A, one, [REGISTER_B] + ([FOUND] + run), 0);
  }

  /** From empty tables: both register, one founds an organization and invites the other, who accepts,
      is removed, is invited again, and cannot accept. */
  lemma FormerMemberIsLockedOut()
    ensures var joins := [INVITE] + ([ACCEPT_FIRST] + ([REMOVE] + [INVITE]));
      var run := [REGISTER_A] + ([REGISTER_B] + ([FOUND] + joins));
      && Sound(EMPTY) && Possible(EMPTY, run, 0)
      && var db := Run(EMPTY, run, 0);
      && UsableAs(db, 9, 10, 0) && db.invitations[9].email == "b" && 2 !in MembersOf(db, 3)
      && WellFormed(db, ACCEPT_SECOND) && Step(db, ACCEPT_SECOND) == (db, Rejected(InvitationProcessingError))
  {
    FromFounding();
    UpToFounding([INVITE] + ([ACCEPT_FIRST] + ([REMOVE] + [INVITE])));
    SecondRefused();
    Outsider(map[7 := SPENT, 9 := SECOND], 11);
    assert Sound(EMPTY);
    hide Step, WellFormed, MembersOf, UsableAs, Users, Roles, Run, Possible, Sound;
  }
}
