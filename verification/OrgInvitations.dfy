/** The life of an invitation token: who can still use it, and what using it does. */
module OrgInvitations {
  import opened OrgTables
  import opened Options
  import opened OrgInvariants
  import opened RoleSweep
  import opened Finite

  ghost predicate UsableAs(db: Db, i: nat, token: nat, now: int) {
    i in db.invitations && db.invitations[i].token == token && !db.invitations[i].used
      && now <= db.invitations[i].expiresAt
  }

  /** With unique tokens a refusal means there is no unused, unexpired invitation with the token. */
  lemma RefusedIffUnusable(db: Db, token: nat, now: int)
    requires UniqueTokens(db.invitations)
    ensures TokenRefusal(db, token, now).Some? <==> forall i :: !UsableAs(db, i, token, now)
  {
    var found := InvitationWith(db.invitations, token);
    if found.Some? && TokenRefusal(db, token, now).None? {
      assert UsableAs(db, found.value, token, now);
    }
  }

  /** An unused invitation that carries an old token was already there, unused, with the same expiry. */
  ghost predicate OnlyOldUses(db: Db, db1: Db) {
    forall i :: i in db1.invitations && !db1.invitations[i].used && db1.invitations[i].token < db.next ==>
      i in db.invitations && !db.invitations[i].used && db.invitations[i].token == db1.invitations[i].token
      && db.invitations[i].expiresAt == db1.invitations[i].expiresAt
  }

  lemma InvitationStepsOnlyOldUses(db: Db, e: Event)
    requires WellFormed(db, e)
    requires e.op.OpCreateInvitation? || e.op.OpResendInvitation? || e.op.OpDeleteInvitation?
    ensures OnlyOldUses(db, Step(db, e).0)
  {
    hide HasPermission, MembersOf, UserWith, RolesOf, Lists;
  }

  lemma ProcessOnlyOldUses(db: Db, i: nat, user: nat)
    requires i in db.invitations
    ensures OnlyOldUses(db, Process(db, i, user).0)
  {
  }

  lemma UnchangedOnlyOldUses(db: Db)
    ensures OnlyOldUses(db, db)
  {
  }

  lemma RegisterOnlyOldUses(db: Db, email: string, using: Option<nat>, now: int)
    ensures OnlyOldUses(db, Register(db, email, using, now).0)
  {
    hide UserWith, InvitationWith;
  }

  /** The user whose membership an accepting step adds. */
  ghost function Joiner(db: Db, e: Event): nat {
    match e.op
    case OpAccept(who, _) => if who.Some? then who.value else 0
    case OpAcceptAtLogin(user, _) => user
    case _ => db.next
  }

  lemma AcceptStepsOnlyOldUses(db: Db, e: Event)
    requires WellFormed(db, e)
    requires e.op.OpAccept? || e.op.OpAcceptAtLogin? || e.op.OpRegister?
    ensures OnlyOldUses(db, Step(db, e).0)
  {
    hide OnlyOldUses, Process;
    UnchangedOnlyOldUses(db);
    match e.op {
      case OpAccept(_, token) =>
        if TokenRefusal(db, token, e.now).None? {
          ProcessOnlyOldUses(db, InvitationWith(db.invitations, token).value, Joiner(db, e));
        }
      case OpAcceptAtLogin(_, token) =>
        if TokenRefusal(db, token, e.now).None? {
          ProcessOnlyOldUses(db, InvitationWith(db.invitations, token).value, Joiner(db, e));
        }
      case OpRegister(email, using) => RegisterOnlyOldUses(db, email, using, e.now);
    }
  }

  lemma OtherStepsOnlyOldUses(db: Db, e: Event)
    requires WellFormed(db, e)
    requires e.op.OpDeleteOrganization? || e.op.OpDeleteRole? || e.op.OpDeleteUser?
    ensures OnlyOldUses(db, Step(db, e).0)
  {
    hide HasPermission, MembersOf, SoleOrgs, RolesOf, Lists;
  }

  lemma RoleStepsKeepInvitations(db: Db, e: Event)
    requires WellFormed(db, e)
    requires e.op.OpCreateOrganization? || e.op.OpInviteMember? || e.op.OpCreateRole? || e.op.OpUpdateRole?
      || e.op.OpUpdateUserRole? || e.op.OpRemoveUser? || e.op.OpAddressesChanged?
    ensures Step(db, e).0.invitations == db.invitations
  {
    hide HasPermission, MembersOf, NameTaken, Updated, LinksElsewhere, UserWith, RoleNamed, RolesOf, Lists,
      ALL_PERMISSIONS;
  }

  lemma StepOnlyOldUses(db: Db, e: Event)
    requires WellFormed(db, e)
    ensures OnlyOldUses(db, Step(db, e).0)
  {
    hide Step, WellFormed;
    match e.op {
      case OpCreateInvitation(_, _, _, _, _, _) => InvitationStepsOnlyOldUses(db, e);
      case OpResendInvitation(_, _, _, _, _) => InvitationStepsOnlyOldUses(db, e);
      case OpDeleteInvitation(_, _, _, _) => InvitationStepsOnlyOldUses(db, e);
      case OpAccept(_, _) => AcceptStepsOnlyOldUses(db, e);
      case OpAcceptAtLogin(_, _) => AcceptStepsOnlyOldUses(db, e);
      case OpRegister(_, _) => AcceptStepsOnlyOldUses(db, e);
      case OpDeleteOrganization(_, _, _) => OtherStepsOnlyOldUses(db, e);
      case OpDeleteRole(_, _, _, _) => OtherStepsOnlyOldUses(db, e);
      case OpDeleteUser(_) => OtherStepsOnlyOldUses(db, e);
      case OpUpdateOrganization(_, _, _, _) => RenamesOnly(db, e);
      case _ => RoleStepsKeepInvitations(db, e);
    }
  }

  lemma StillUnusable(db: Db, db1: Db, token: nat, now: int, later: int)
    requires OnlyOldUses(db, db1) && token < db.next && now <= later
    requires forall i :: !UsableAs(db, i, token, now)
    ensures forall i :: !UsableAs(db1, i, token, later)
  {
    forall i ensures !UsableAs(db1, i, token, later) {
      assert !UsableAs(db, i, token, now);
    }
  }

  ghost function EndOf(run: seq<Event>, start: int): int {
    if run == [] then start else run[|run| - 1].now
  }

  lemma {:induction false} UnusableForGood(db: Db, run: seq<Event>, start: int, token: nat, now: int, later: int)
    requires Possible(db, run, start) && token < db.next && now <= start && EndOf(run, start) <= later && now <= later
    requires forall i :: !UsableAs(db, i, token, now)
    ensures forall i :: !UsableAs(Run(db, run, start), i, token, later)
    decreases |run|
  {
    if run == [] {
      assert Run(db, run, start) == db;
      forall i ensures !UsableAs(db, i, token, later) {
        assert !UsableAs(db, i, token, now);
      }
    } else {
      hide Step, WellFormed, UsableAs, OnlyOldUses;
      var db1 := Step(db, run[0]).0;
      StepOnlyOldUses(db, run[0]);
      StepCounts(db, run[0]);
      StillUnusable(db, db1, token, now, now);
      assert EndOf(run[1..], run[0].now) == EndOf(run, start);
      UnusableForGood(db1, run[1..], run[0].now, token, now, later);
    }
  }

  lemma SoundTokens(db: Db)
    requires Sound(db)
    ensures UniqueTokens(db.invitations) && OnePerAddress(db.invitations)
  {
  }

  /** Once refused, for whatever reason, a token is refused at every later time of every run. */
  lemma RefusedForGood(db: Db, run: seq<Event>, start: int, token: nat, now: int, later: int)
    requires Sound(db) && Possible(db, run, start) && token < db.next && now <= start && EndOf(run, start) <= later
      && now <= later
    requires TokenRefusal(db, token, now).Some?
    ensures TokenRefusal(Run(db, run, start), token, later).Some?
  {
    SoundTokens(db);
    RunKeepsSound(db, run, start);
    SoundTokens(Run(db, run, start));
    hide Sound, UniqueTokens, TokenRefusal, UsableAs;
    RefusedIffUnusable(db, token, now);
    UnusableForGood(db, run, start, token, now, later);
    RefusedIffUnusable(Run(db, run, start), token, later);
  }

  /** The steps that retire the token of invitation `i`: inviting the same address again, resending or
      deleting the invitation, and accepting it, by any of the three ways. */
  ghost predicate Retires(db: Db, e: Event, i: nat)
    requires WellFormed(db, e) && i in db.invitations
  {
    Step(db, e).1 == Done &&
    match e.op
    case OpCreateInvitation(_, _, email, _, org, _) => Pending(db.invitations[i], org, email)
    case OpResendInvitation(_, _, invitation, _, _) => invitation == i
    case OpDeleteInvitation(_, _, invitation, _) => invitation == i
    case OpAccept(_, token) => token == db.invitations[i].token
    case OpAcceptAtLogin(_, token) => token == db.invitations[i].token
    case OpRegister(_, using) => using == Some(db.invitations[i].token)
    case _ => false
  }

  lemma AcceptedIsRefused(db: Db, e: Event, i: nat, now: int)
    requires UniqueTokens(db.invitations) && WellFormed(db, e) && i in db.invitations && Retires(db, e, i)
    requires e.op.OpAccept? || e.op.OpAcceptAtLogin? || e.op.OpRegister?
    ensures TokenRefusal(Step(db, e).0, db.invitations[i].token, now).Some?
  {
    hide UserWith, Lists;
  }

  lemma WithdrawnIsRefused(db: Db, e: Event, i: nat, now: int)
    requires Keyed(db) && UniqueTokens(db.invitations) && WellFormed(db, e) && i in db.invitations
      && !db.invitations[i].used
    requires Retires(db, e, i) && (e.op.OpCreateInvitation? || e.op.OpResendInvitation? || e.op.OpDeleteInvitation?)
    ensures TokenRefusal(Step(db, e).0, db.invitations[i].token, now).Some?
  {
    hide HasPermission, MembersOf, UserWith, RolesOf, Lists, InvitationRefusal;
  }

  lemma RetiredIsRefused(db: Db, e: Event, i: nat, now: int)
    requires Sound(db) && WellFormed(db, e) && i in db.invitations && !db.invitations[i].used && Retires(db, e, i)
    ensures TokenRefusal(Step(db, e).0, db.invitations[i].token, now).Some?
  {
    hide WellFormed, Step, TokenRefusal, UniqueTokens, Keyed, NothingDangles, UniqueRoleNames, UniqueUsers,
      OnePerAddress;
    if e.op.OpAccept? || e.op.OpAcceptAtLogin? || e.op.OpRegister? {
      AcceptedIsRefused(db, e, i, now);
    } else {
      WithdrawnIsRefused(db, e, i, now);
    }
  }

  ghost predicate Accepts(e: Event, token: nat) {
    (e.op.OpAccept? && e.op.token == token) || (e.op.OpAcceptAtLogin? && e.op.token == token)
    || (e.op.OpRegister? && e.op.using == Some(token))
  }

  lemma RefusedIsRejected(db: Db, e: Event, token: nat)
    requires WellFormed(db, e) && Accepts(e, token) && TokenRefusal(db, token, e.now).Some?
    ensures Step(db, e).1.Rejected? && Step(db, e).0 == db
  {
    hide UserWith, InvitationWith, Process, TokenRefusal;
  }

  lemma TokensAreOld(db: Db, i: nat)
    requires Sound(db) && i in db.invitations
    ensures db.invitations[i].token < db.next
  {
  }

  /** A superseded, resent, deleted or used token is never accepted again, by any way, on any run. */
  lemma RetiredNeverAccepted(db: Db, e: Event, i: nat, run: seq<Event>, later: int, last: Event)
    requires Sound(db) && WellFormed(db, e) && i in db.invitations && !db.invitations[i].used && Retires(db, e, i)
    requires Possible(Step(db, e).0, run, e.now) && EndOf(run, e.now) <= later && e.now <= later
    requires last.now == later && WellFormed(Run(Step(db, e).0, run, e.now), last)
    requires Accepts(last, db.invitations[i].token)
    ensures Step(Run(Step(db, e).0, run, e.now), last).1.Rejected?
    ensures Step(Run(Step(db, e).0, run, e.now), last).0 == Run(Step(db, e).0, run, e.now)
  {
    hide Step, Run, Possible, Sound, Retires, TokenRefusal, WellFormed, Accepts;
    RetiredIsRefused(db, e, i, e.now);
    StepKeepsSound(db, e);
    StepCounts(db, e);
    TokensAreOld(db, i);
    RefusedForGood(Step(db, e).0, run, e.now, db.invitations[i].token, e.now, later);
    RefusedIsRejected(Run(Step(db, e).0, run, e.now), last, db.invitations[i].token);
  }

  // ---- What accepting does ----

  /** Accepting invitation `i` marks it used by the joiner, adds exactly the invited role to the joiner
      and leaves every other role, membership and invitation as it was. */
  ghost predicate JoinsExactly(db: Db, db1: Db, i: nat, joiner: nat) {
    && i in db.invitations && i in db1.invitations
    && db1.invitations == db.invitations[i := db.invitations[i].(used := true, acceptedBy := Some(joiner))]
    && RolesOf(db1, joiner) == RolesOf(db, joiner) + {db.invitations[i].role}
    && (forall v :: v != joiner ==> RolesOf(db1, v) == RolesOf(db, v))
    && db1.roles == db.roles && db1.orgs == db.orgs && db1.resources == db.resources
  }

  lemma ProcessJoins(db: Db, i: nat, user: nat)
    requires i in db.invitations && Process(db, i, user).1 == Done
    ensures JoinsExactly(db, Process(db, i, user).0, i, user)
  {
    var db1 := Process(db, i, user).0;
    forall v ensures RolesOf(db1, v) == RolesOf(db, v) + (if v == user then {db.invitations[i].role} else {}) {
      forall r | r in RolesOf(db1, v)
        ensures r in RolesOf(db, v) + (if v == user then {db.invitations[i].role} else {})
      {
        assert (v, r) in db1.links;
      }
      forall r | r in RolesOf(db, v) + (if v == user then {db.invitations[i].role} else {})
        ensures r in RolesOf(db1, v)
      {
        assert (v, r) in db1.links;
      }
    }
  }

  lemma ProcessUsers(db: Db, i: nat, user: nat)
    requires i in db.invitations
    ensures Process(db, i, user).0.users == db.users
  {
  }

  lemma RolesOfIgnoresUsers(db: Db, db1: Db)
    requires db1.links == db.links
    ensures forall v :: RolesOf(db1, v) == RolesOf(db, v)
  {
  }

  /** The same for a user added in the same step. */
  lemma AddedJoins(db: Db, email: string, i: nat)
    requires i in db.invitations && AddedUser(db, email, Some(i)).1 == Done
    ensures var db1 := AddedUser(db, email, Some(i)).0;
      JoinsExactly(db, db1, i, db.next) && db1.users == db.users[db.next := User(email, {email})]
  {
    var db1 := db.(users := db.users[db.next := User(email, {email})], next := db.next + 1);
    ProcessJoins(db1, i, db.next);
    ProcessUsers(db1, i, db.next);
    hide Process;
    RolesOfIgnoresUsers(db, db1);
  }

  lemma RolesExist(db: Db)
    requires Sound(db)
    ensures forall i :: i in db.invitations ==>
      db.invitations[i].role in db.roles && db.roles[db.invitations[i].role].org == db.invitations[i].org
  {
  }

  /** An accepting step that succeeds: the invitation was active, meant for an address of the joiner,
      and for a role of the inviting organization; and it does exactly that one thing. */
  lemma AcceptanceIsExact(db: Db, e: Event, token: nat) returns (i: nat)
    requires Sound(db) && WellFormed(db, e) && Accepts(e, token) && Step(db, e).1 == Done
    ensures UsableAs(db, i, token, e.now)
    ensures JoinsExactly(db, Step(db, e).0, i, Joiner(db, e))
    ensures db.invitations[i].role in db.roles && db.roles[db.invitations[i].role].org == db.invitations[i].org
    ensures Joiner(db, e) in Step(db, e).0.users
    ensures db.invitations[i].email in {Step(db, e).0.users[Joiner(db, e)].email}
      + Step(db, e).0.users[Joiner(db, e)].verified
  {
    hide Sound, RolesOf, Process, JoinsExactly;
    RolesExist(db);
    i := InvitationWith(db.invitations, token).value;
    match e.op {
      case OpRegister(email, _) =>
        AddedJoins(db, email, i);
      case _ =>
        ProcessJoins(db, i, Joiner(db, e));
        ProcessUsers(db, i, Joiner(db, e));
    }
  }

  // ---- When an acceptance succeeds ----

  predicate UsedFor(i: Invitation, org: nat, email: string) {
    i.org == org && i.email == email && i.used
  }

  /** Another invitation of the organization to the same address has been used, and is still on file. */
  ghost predicate Blocked(db: Db, i: nat)
    requires i in db.invitations
  {
    var slot := db.invitations[i];
    exists j :: j in db.invitations && j != i && UsedFor(db.invitations[j], slot.org, slot.email)
  }

  /** An invitation is made whether or not an earlier one to the address was used; if one was, it is
      blocked from the start. */
  lemma FormerMemberCanBeInvited(db: Db, order: seq<nat>, email: string, role: nat, org: nat, now: int)
    requires Sound(db) && (forall r :: r in order ==> r in db.roles)
    requires InvitationRefusal(db, order, email, role, org).None?
    ensures var (db1, out) := CreateInvitation(db, order, email, role, org, true, now);
      && out == Done && UsableAs(db1, db.next, db.next + 1, now)
      && (Blocked(db1, db.next) <==>
           exists j :: j in db.invitations && UsedFor(db.invitations[j], org, email))
  {
    hide InvitationRefusal, NothingDangles, UniqueRoleNames, UniqueUsers, UniqueTokens, OnePerAddress;
    var db1 := CreateInvitation(db, order, email, role, org, true, now).0;
    forall j | j in db.invitations && db.invitations[j].used
      ensures j in db1.invitations && db1.invitations[j] == db.invitations[j]
    {
    }
  }

  lemma ProcessSucceedsIff(db: Db, i: nat, user: nat)
    requires i in db.invitations
    ensures Process(db, i, user).1 == Done <==> !Blocked(db, i)
  {
  }

  /** The invitation a token finds is the only one that can be usable by it. */
  lemma UsableIsFound(db: Db, token: nat, now: int, i: nat)
    requires UniqueTokens(db.invitations) && UsableAs(db, i, token, now)
    ensures TokenRefusal(db, token, now).None? && InvitationWith(db.invitations, token) == Some(i)
  {
  }

  lemma FoundIsUsable(db: Db, token: nat, now: int) returns (i: nat)
    requires TokenRefusal(db, token, now).None?
    ensures UsableAs(db, i, token, now) && InvitationWith(db.invitations, token) == Some(i)
  {
    i := InvitationWith(db.invitations, token).value;
  }

  /** Accepting by the link succeeds exactly for whoever has the invited address as primary, while the
      invitation is unused and unexpired and no other one to the organization and address was used. */
  lemma AcceptSucceedsIff(db: Db, who: Option<nat>, token: nat, now: int)
    requires Sound(db)
    ensures Accept(db, who, token, now).1 == Done <==>
      exists i :: UsableAs(db, i, token, now) && who.Some? && UserWith(db.users, db.invitations[i].email) == who
        && !Blocked(db, i)
  {
    SoundTokens(db);
    hide Sound, UniqueTokens, Process, UserWith, Blocked;
    if TokenRefusal(db, token, now).None? {
      var i := FoundIsUsable(db, token, now);
      var u := UserWith(db.users, db.invitations[i].email);
      ProcessSucceedsIff(db, i, if u.Some? then u.value else 0);
    }
    forall i: nat | UsableAs(db, i, token, now)
      ensures InvitationWith(db.invitations, token) == Some(i) && TokenRefusal(db, token, now).None?
    {
      UsableIsFound(db, token, now, i);
    }
  }

  /** At login: the same, for any verified address of the account. */
  lemma AcceptAtLoginSucceedsIff(db: Db, user: nat, token: nat, now: int)
    requires Sound(db) && user in db.users
    ensures AcceptAtLogin(db, user, token, now).1 == Done <==>
      exists i :: UsableAs(db, i, token, now) && db.invitations[i].email in db.users[user].verified && !Blocked(db, i)
  {
    SoundTokens(db);
    hide Sound, UniqueTokens, Process, Blocked;
    if TokenRefusal(db, token, now).None? {
      var i := FoundIsUsable(db, token, now);
      ProcessSucceedsIff(db, i, user);
    }
    forall i: nat | UsableAs(db, i, token, now)
      ensures InvitationWith(db.invitations, token) == Some(i) && TokenRefusal(db, token, now).None?
    {
      UsableIsFound(db, token, now, i);
    }
  }

  lemma AddedSucceedsIff(db: Db, email: string, i: nat)
    requires i in db.invitations
    ensures AddedUser(db, email, Some(i)).1 == Done <==> !Blocked(db, i)
  {
    var db1 := db.(users := db.users[db.next := User(email, {email})], next := db.next + 1);
    ProcessSucceedsIff(db1, i, db.next);
    assert Blocked(db1, i) <==> Blocked(db, i);
    hide Process, Blocked;
  }

  /** At registration: the same, for the invited address, if nobody has it yet. */
  lemma RegisterSucceedsIff(db: Db, email: string, using: Option<nat>, now: int)
    requires Sound(db)
    ensures Register(db, email, using, now).1 == Done <==>
      && (forall u :: u in db.users ==> db.users[u].email != email && email !in db.users[u].verified)
      && (using.Some? ==> exists i :: UsableAs(db, i, using.value, now) && db.invitations[i].email == email
                           && !Blocked(db, i))
  {
    SoundTokens(db);
    assert UserWith(db.users, email).None? && !AddressOnFile(db.users, email) <==>
      forall u :: u in db.users ==> db.users[u].email != email && email !in db.users[u].verified;
    hide Sound, UniqueTokens, Process, Blocked, UserWith, AddressOnFile;
    if using.Some? {
      if TokenRefusal(db, using.value, now).None? {
        var i := FoundIsUsable(db, using.value, now);
        AddedSucceedsIff(db, email, i);
      }
      forall i: nat | UsableAs(db, i, using.value, now)
        ensures InvitationWith(db.invitations, using.value) == Some(i) && TokenRefusal(db, using.value, now).None?
      {
        UsableIsFound(db, using.value, now, i);
      }
    }
  }
}
