/** What is left to fear after a recovery: as long as nobody signs in and acts in the account's name, which
    mailed links can still take the recovered address away, or add another. */
module AccountAftermath {
  import opened AccountTables
  import opened Options
  import opened AccountEmails
  import opened AccountRecovery
  import opened AccountNoticed

  /** The routes that need a session of the account. */
  predicate ActsAs(op: Op, a: nat) {
    (op.OpAddEmail? || op.OpPromote? || op.OpRemove? || op.OpDeleteAccount?) && op.actor == a
  }

  ghost predicate Unattended(run: seq<Event>, a: nat) {
    forall i :: 0 <= i < |run| ==> !ActsAs(run[i].op, a)
  }

  predicate Primary(db: Db, a: nat, email: string) {
    a in db.accounts && db.accounts[a].email == email
  }

  ghost predicate OnlyAddress(db: Db, a: nat, email: string) {
    Primary(db, a, email) && forall i :: i in db.emails && db.emails[i].account == a ==> db.emails[i].email == email
  }

  /** A live recovery token of the account for another address. */
  predicate MayReplace(db: Db, t: nat, a: nat, email: string, now: int) {
    t in db.recoveries && db.recoveries[t].email != email && LiveRecovery(db, t, a, db.recoveries[t].email, now)
  }

  /** A live verification token of the account for another address. */
  predicate MayAdd(db: Db, v: nat, a: nat, email: string, now: int) {
    v in db.verifications && db.verifications[v].newEmail != email
    && LiveVerification(db, v, a, db.verifications[v].newEmail, now)
  }

  // ---- Without such a token ----

  predicate UsesLinkOf(db: Db, op: Op, a: nat) {
    || (op.OpRecover? && op.token in db.recoveries && db.recoveries[op.token].account == a)
    || (op.OpVerifyEmail? && op.token in db.verifications && db.verifications[op.token].account == a)
  }

  /** The account's address is as before, and no row and no unused token of it is new. */
  ghost predicate LeftAlone(db: Db, db1: Db, a: nat) {
    && a in db1.accounts && a in db.accounts && db1.accounts[a].email == db.accounts[a].email
    && (forall i :: i in db1.emails && db1.emails[i].account == a
         ==> i in db.emails && db.emails[i].account == a && db.emails[i].email == db1.emails[i].email)
    && (forall t :: t in db1.recoveries && db1.recoveries[t].account == a
         ==> t in db.recoveries && db.recoveries[t] == db1.recoveries[t])
    && (forall v :: v in db1.verifications && db1.verifications[v].account == a
         ==> v in db.verifications && db.verifications[v] == db1.verifications[v])
  }

  lemma SameTablesLeaveAlone(db: Db, db1: Db, a: nat)
    requires a in db.accounts && db1.accounts == db.accounts && db1.emails == db.emails
      && db1.recoveries == db.recoveries
    requires forall v :: v in db1.verifications && db1.verifications[v].account == a ==>
                           v in db.verifications && db.verifications[v] == db1.verifications[v]
    ensures LeftAlone(db, db1, a)
  {
  }

  lemma LoginKeepsVerifications(db: Db, email: string, password: string, persistent: bool, now: int, lag: nat)
    ensures Login(db, email, password, persistent, now, lag).0.verifications == db.verifications
  {
    hide IssueToken;
    var a := AccountWith(db.accounts, email);
    if a.Some? {
      IssueTables(db, a.value, None, persistent, now, lag);
    }
  }

  lemma RotateKeepsVerifications(db: Db, claims: Claims, now: int, lag: nat)
    ensures Rotate(db, claims, now, lag).0.verifications == db.verifications
  {
    hide IssueToken, RevokeAll, Revoke;
    var a := AccountWith(db.accounts, claims.sub);
    if a.Some? && claims.jti.Some? && claims.jti.value in db.refreshes {
      var db1 := db.(refreshes := Revoke(db.refreshes, claims.jti.value));
      IssueTables(db1, a.value, claims.jti, claims.persistent, now, lag);
    }
  }

  lemma SessionsKeepVerifications(db: Db, e: Event)
    requires WellFormed(db, e) && IsSessionRoute(e.op) && !e.op.OpAddEmail?
    ensures Step(db, e).0.verifications == db.verifications
  {
    hide WellFormed, Login, Rotate;
    match e.op {
      case OpLogin(email, password, persistent) =>
        LoginKeepsVerifications(db, email, password, persistent, e.now, e.lag);
      case OpRotate(claims) => RotateKeepsVerifications(db, claims, e.now, e.lag);
      case _ =>
    }
  }

  lemma AddEmailKeepsVerifications(db: Db, actor: nat, newEmail: string, sent: bool, now: int, a: nat)
    requires actor != a
    ensures var db1 := AddEmail(db, actor, newEmail, sent, now).0;
      forall v :: v in db1.verifications && db1.verifications[v].account == a ==>
        v in db.verifications && db.verifications[v] == db1.verifications[v]
  {
    hide AddressUsed, RowsOf;
  }

  lemma SessionsLeaveAlone(db: Db, e: Event, a: nat)
    requires WellFormed(db, e) && a in db.accounts && !ActsAs(e.op, a) && IsSessionRoute(e.op)
    ensures LeftAlone(db, Step(db, e).0, a)
  {
    SessionRoutesAlone(db, e);
    hide WellFormed, LeftAlone, Keyed, AddEmail;
    if e.op.OpAddEmail? {
      AddressesKeepRecoveries(db, e);
      AddEmailKeepsVerifications(db, e.op.actor, e.op.newEmail, e.op.sent, e.now, a);
    } else {
      SessionsKeepRecoveries(db, e);
      SessionsKeepVerifications(db, e);
      hide Step;
    }
    SameTablesLeaveAlone(db, Step(db, e).0, a);
  }

  lemma IssueLeavesAlone(db: Db, db1: Db, account: nat, now: int, lag: nat, a: nat)
    requires account in db1.accounts && LeftAlone(db, db1, a)
    ensures LeftAlone(db, IssueToken(db1, account, None, false, now, lag), a)
  {
    IssueTables(db1, account, None, false, now, lag);
    hide IssueToken;
  }

  lemma NothingLeavesAlone(db: Db, a: nat)
    requires a in db.accounts
    ensures LeftAlone(db, db, a)
  {
  }

  lemma RegisterLeavesAlone(db: Db, email: string, password: string, now: int, lag: nat, a: nat)
    requires Keyed(db) && a in db.accounts
    ensures LeftAlone(db, Register(db, email, password, now, lag).0, a)
  {
    NothingLeavesAlone(db, a);
    assert LeftAlone(db, Registered(db, email, password), a);
    hide LeftAlone, IssueToken, AddressUsed, AccountWith;
    IssueLeavesAlone(db, Registered(db, email, password), db.next, now, lag, a);
  }

  lemma ResetLeavesAlone(db: Db, email: string, token: nat, password: string, now: int, lag: nat, a: nat)
    requires a in db.accounts
    ensures LeftAlone(db, ResetPassword(db, email, token, password, now, lag).0, a)
  {
    NothingLeavesAlone(db, a);
    if ResetPassword(db, email, token, password, now, lag).1.Done? {
      var b := db.resets[token].account;
      var db1 := db.(accounts := db.accounts[b := db.accounts[b].(password := password)],
                     resets := db.resets[token := db.resets[token].(used := true)],
                     refreshes := RevokeAll(db.refreshes, b));
      hide RevokeAll, IssueToken;
      assert LeftAlone(db, db1, a);
      hide LeftAlone;
      IssueLeavesAlone(db, db1, b, now, lag, a);
    }
  }

  lemma RecoverLeavesAlone(db: Db, token: nat, now: int, a: nat)
    requires a in db.accounts && (token in db.recoveries ==> db.recoveries[token].account != a)
    ensures LeftAlone(db, Recover(db, token, now).0, a)
  {
    hide RevokeAll, HeldByOther;
  }

  lemma VerifyLeavesAlone(db: Db, token: nat, now: int, a: nat)
    requires a in db.accounts && (token in db.verifications ==> db.verifications[token].account != a)
    ensures LeftAlone(db, VerifyEmail(db, token, now).0, a)
  {
    hide AddressUsed;
  }

  lemma DeletionLeavesAlone(db: Db, actor: nat, email: string, password: string, a: nat)
    requires a in db.accounts && actor != a
    ensures LeftAlone(db, DeleteAccount(db, actor, email, password).0, a)
  {
  }

  lemma PromotedRows(db: Db, actor: nat, emailId: nat)
    requires actor in db.accounts && emailId in db.emails
    ensures var db1 := Promoted(db, actor, emailId);
      && db1.emails.Keys == db.emails.Keys && db1.verifications == db.verifications
      && forall i :: i in db1.emails
          ==> db1.emails[i].account == db.emails[i].account && db1.emails[i].email == db.emails[i].email
  {
    hide RevokeAll;
  }

  lemma RecoveryOfOthers(db: Db, actor: nat, email: string, now: int, a: nat)
    requires actor != a
    ensures var db1 := WithRecovery(db, actor, email, now);
      && db1.verifications == db.verifications
      && forall t :: t in db1.recoveries && db1.recoveries[t].account == a
          ==> t in db.recoveries && db.recoveries[t] == db1.recoveries[t]
  {
  }

  lemma PromoteLeavesAlone(db: Db, actor: nat, emailId: nat, now: int, lag: nat, a: nat)
    requires a in db.accounts && actor != a
    ensures LeftAlone(db, Promote(db, actor, emailId, now, lag).0, a)
  {
    if actor in db.accounts && emailId in db.emails {
      PromotedTables(db, actor, emailId);
      PromotedRows(db, actor, emailId);
      var promoted := Promoted(db, actor, emailId);
      IssueTables(promoted, actor, None, false, now, lag);
      var db1 := IssueToken(promoted, actor, None, false, now, lag);
      assert db1.verifications == db.verifications;
      RecoveryTables(db1, actor, db.accounts[actor].email, now);
      RecoveryOfOthers(db1, actor, db.accounts[actor].email, now, a);
      hide Promoted, WithRecovery, IssueToken;
    }
  }

  lemma RemoveLeavesAlone(db: Db, actor: nat, emailId: nat, now: int, a: nat)
    requires a in db.accounts && actor != a
    ensures LeftAlone(db, Remove(db, actor, emailId, now).0, a)
  {
    if actor in db.accounts && emailId in db.emails {
      var db1 := db.(emails := db.emails - {emailId});
      RecoveryTables(db1, actor, db.emails[emailId].email, now);
      RecoveryOfOthers(db1, actor, db.emails[emailId].email, now, a);
      hide WithRecovery;
    }
  }

  lemma LinkStepLeavesAlone(db: Db, e: Event, a: nat)
    requires a in db.accounts && !ActsAs(e.op, a) && !UsesLinkOf(db, e.op, a)
    requires e.op.OpRecover? || e.op.OpVerifyEmail? || e.op.OpDeleteAccount?
    ensures LeftAlone(db, Step(db, e).0, a)
  {
    hide LeftAlone, Recover, VerifyEmail, DeleteAccount;
    match e.op {
      case OpRecover(token) => RecoverLeavesAlone(db, token, e.now, a);
      case OpVerifyEmail(token) => VerifyLeavesAlone(db, token, e.now, a);
      case OpDeleteAccount(actor, email, password) => DeletionLeavesAlone(db, actor, email, password, a);
    }
  }

  lemma AddressStepLeavesAlone(db: Db, e: Event, a: nat)
    requires Keyed(db) && a in db.accounts && !ActsAs(e.op, a)
    requires e.op.OpRegister? || e.op.OpResetPassword? || e.op.OpPromote? || e.op.OpRemove?
    ensures LeftAlone(db, Step(db, e).0, a)
  {
    hide LeftAlone, Keyed, Register, ResetPassword, Promote, Remove;
    match e.op {
      case OpRegister(email, password) => RegisterLeavesAlone(db, email, password, e.now, e.lag, a);
      case OpResetPassword(email, token, password) => ResetLeavesAlone(db, email, token, password, e.now, e.lag, a);
      case OpPromote(actor, emailId) => PromoteLeavesAlone(db, actor, emailId, e.now, e.lag, a);
      case OpRemove(actor, emailId) => RemoveLeavesAlone(db, actor, emailId, e.now, a);
    }
  }

  lemma SeedLeavesAlone(db: Db, e: Event, a: nat)
    requires Owned(db) && WellFormed(db, e) && a in db.accounts && e.op.OpSeed?
    ensures LeftAlone(db, Step(db, e).0, a)
  {
    OwnedHasPrimaries(db);
    SeedIsNoOp(db, e.op.order);
    hide Seed, Owned;
    NothingLeavesAlone(db, a);
  }

  lemma StepLeavesAlone(db: Db, e: Event, a: nat)
    requires Owned(db) && WellFormed(db, e) && a in db.accounts && !ActsAs(e.op, a) && !UsesLinkOf(db, e.op, a)
    ensures LeftAlone(db, Step(db, e).0, a)
  {
    assert Keyed(db);
    hide Owned, Keyed, WellFormed, Step, LeftAlone, UsesLinkOf, ActsAs;
    if e.op.OpRecover? || e.op.OpVerifyEmail? || e.op.OpDeleteAccount? {
      LinkStepLeavesAlone(db, e, a);
    } else if e.op.OpRegister? || e.op.OpResetPassword? || e.op.OpPromote? || e.op.OpRemove? {
      AddressStepLeavesAlone(db, e, a);
    } else if e.op.OpSeed? {
      SeedLeavesAlone(db, e, a);
    } else {
      SessionsLeaveAlone(db, e, a);
    }
  }

  /** The address is the account's primary one and, with `alone`, its only one. */
  ghost predicate Kept(db: Db, a: nat, email: string, alone: bool) {
    if alone then OnlyAddress(db, a, email) else Primary(db, a, email)
  }

  /** And no live link of the account can change that. */
  ghost predicate Safe(db: Db, a: nat, email: string, now: int, alone: bool) {
    && Kept(db, a, email, alone) && (forall t :: !MayReplace(db, t, a, email, now))
    && (alone ==> forall v :: !MayAdd(db, v, a, email, now))
  }

  lemma LeftAloneSafe(db: Db, db1: Db, a: nat, email: string, now: int, later: int, alone: bool)
    requires LeftAlone(db, db1, a) && now <= later && Safe(db, a, email, now, alone)
    ensures Safe(db1, a, email, later, alone)
  {
    forall t | MayReplace(db1, t, a, email, later) ensures MayReplace(db, t, a, email, now) {
    }
    forall v | MayAdd(db1, v, a, email, later) ensures MayAdd(db, v, a, email, now) {
    }
  }

  lemma RecoverSafe(db: Db, token: nat, now: int, a: nat, email: string, later: int, alone: bool)
    requires token in db.recoveries && db.recoveries[token].account == a && now <= later
      && Safe(db, a, email, now, alone)
    ensures Safe(Recover(db, token, now).0, a, email, later, alone)
  {
    var db1 := Recover(db, token, now).0;
    assert !MayReplace(db, token, a, email, now);
    hide RevokeAll, HeldByOther;
    forall t ensures !MayReplace(db1, t, a, email, later) {
      assert !MayReplace(db, t, a, email, now);
    }
    forall v ensures alone ==> !MayAdd(db1, v, a, email, later) {
      assert alone ==> !MayAdd(db, v, a, email, now);
    }
  }

  lemma VerifySafe(db: Db, token: nat, now: int, a: nat, email: string, later: int, alone: bool)
    requires token in db.verifications && db.verifications[token].account == a && now <= later
    requires Safe(db, a, email, now, alone)
    ensures Safe(VerifyEmail(db, token, now).0, a, email, later, alone)
  {
    var db1 := VerifyEmail(db, token, now).0;
    assert alone ==> !MayAdd(db, token, a, email, now);
    hide AddressUsed;
    forall t ensures !MayReplace(db1, t, a, email, later) {
      assert !MayReplace(db, t, a, email, now);
    }
    forall v ensures alone ==> !MayAdd(db1, v, a, email, later) {
      assert alone ==> !MayAdd(db, v, a, email, now);
    }
  }

  lemma StepSafe(db: Db, e: Event, a: nat, email: string, later: int, alone: bool)
    requires Owned(db) && WellFormed(db, e) && !ActsAs(e.op, a) && a in db.accounts
    requires e.now <= later && Safe(db, a, email, e.now, alone)
    ensures Safe(Step(db, e).0, a, email, later, alone)
  {
    hide Owned, WellFormed, Safe, LeftAlone, ActsAs, Recover, VerifyEmail;
    if UsesLinkOf(db, e.op, a) {
      if e.op.OpRecover? {
        RecoverSafe(db, e.op.token, e.now, a, email, later, alone);
      } else {
        VerifySafe(db, e.op.token, e.now, a, email, later, alone);
      }
    } else {
      hide UsesLinkOf, Step;
      StepLeavesAlone(db, e, a);
      LeftAloneSafe(db, Step(db, e).0, a, email, e.now, later, alone);
    }
  }

  lemma LaterSafe(db: Db, a: nat, email: string, now: int, later: int, alone: bool)
    requires now <= later && Safe(db, a, email, now, alone)
    ensures a in db.accounts && Safe(db, a, email, later, alone)
  {
    NothingLeavesAlone(db, a);
    LeftAloneSafe(db, db, a, email, now, later, alone);
  }

  lemma SafeIsKept(db: Db, a: nat, email: string, now: int, alone: bool)
    requires Safe(db, a, email, now, alone)
    ensures Kept(db, a, email, alone)
  {
  }

  lemma {:induction false} RunSafe(db: Db, run: seq<Event>, start: int, a: nat, email: string, alone: bool)
    requires Owned(db) && Possible(db, run, start) && Unattended(run, a) && Safe(db, a, email, start, alone)
    ensures Kept(Run(db, run, start), a, email, alone)
    decreases |run|
  {
    hide Owned, WellFormed, Step, Safe, ActsAs, Kept, LeftAlone;
    if run == [] {
      SafeIsKept(db, a, email, start, alone);
    } else {
      var e := run[0];
      LaterSafe(db, a, email, start, e.now, alone);
      StepKeepsOwned(db, e);
      StepSafe(db, e, a, email, e.now + e.lag, alone);
      RunSafe(Step(db, e).0, run[1..], e.now + e.lag, a, email, alone);
    }
  }

  // ---- With such a token ----

  /** Nobody acts in the account's name in `run`, and yet it ends without the address. */
  ghost predicate Lost(db: Db, run: seq<Event>, start: int, a: nat, email: string, alone: bool) {
    Possible(db, run, start) && Unattended(run, a) && !Kept(Run(db, run, start), a, email, alone)
  }

  lemma LostIsNotAlone(db: Db, run: seq<Event>, start: int, a: nat, email: string)
    requires Lost(db, run, start, a, email, false)
    ensures Lost(db, run, start, a, email, true)
  {
    hide Possible, Run;
  }

  lemma OneStep(db: Db, e: Event, a: nat, email: string, alone: bool)
    requires WellFormed(db, e) && !ActsAs(e.op, a) && !Kept(Step(db, e).0, a, email, alone)
    ensures Lost(db, [e], e.now, a, email, alone)
  {
    hide Step, WellFormed, ActsAs, Kept;
    var run := [e];
    assert run[0] == e && run[1..] == [];
    assert Possible(db, run, e.now) && Run(db, run, e.now) == Step(db, e).0;
  }

  lemma OneStepEarlier(db: Db, first: Event, run: seq<Event>, now: int, a: nat, email: string, alone: bool)
    requires WellFormed(db, first) && !ActsAs(first.op, a) && first.now == now && first.lag == 0
    requires Lost(Step(db, first).0, run, now, a, email, alone)
    ensures Lost(db, [first] + run, now, a, email, alone)
  {
    hide Step, WellFormed, ActsAs, Kept;
    var longer := [first] + run;
    assert longer[0] == first && longer[1..] == run;
    forall i | 0 <= i < |longer| ensures !ActsAs(longer[i].op, a) {
      assert i > 0 ==> longer[i] == run[i - 1];
    }
    assert Possible(db, longer, now) && Run(db, longer, now) == Run(Step(db, first).0, run, now);
  }

  lemma RecoveryReplaces(db: Db, t: nat, a: nat, email: string, now: int)
    requires Keyed(db) && MayReplace(db, t, a, email, now) && !HeldByOther(db, db.recoveries[t].email, a)
    ensures Lost(db, [Now(now, OpRecover(t))], now, a, email, false)
  {
    hide HeldByOther, RevokeAll, OtherRows;
    assert a in db.accounts;
    OneStep(db, Now(now, OpRecover(t)), a, email, false);
  }

  lemma VerificationAdds(db: Db, v: nat, a: nat, email: string, now: int)
    requires Keyed(db) && MayAdd(db, v, a, email, now) && !AddressUsed(db.emails, db.verifications[v].newEmail)
    ensures Lost(db, [Now(now, OpVerifyEmail(v))], now, a, email, true)
  {
    hide AddressUsed;
    assert a in db.accounts;
    var db1 := Step(db, Now(now, OpVerifyEmail(v))).0;
    assert db.next in db1.emails && db1.emails[db.next].account == a && db1.emails[db.next].email != email;
    OneStep(db, Now(now, OpVerifyEmail(v)), a, email, true);
  }

  lemma DeletionKeepsLinks(db: Db, a: nat, b: nat, email: string, now: int)
    requires b in db.accounts && b != a && a in db.accounts
    ensures var db1 := Step(db, Now(now, OpDeleteAccount(b, db.accounts[b].email, db.accounts[b].password))).0;
      && (forall t :: MayReplace(db, t, a, email, now)
           ==> MayReplace(db1, t, a, email, now) && db1.recoveries[t] == db.recoveries[t])
      && (forall v :: MayAdd(db, v, a, email, now)
           ==> MayAdd(db1, v, a, email, now) && db1.verifications[v] == db.verifications[v])
  {
  }

  lemma HolderGoesBy(db: Db, a: nat, email: string) returns (b: nat)
    requires Owned(db) && HeldByOther(db, email, a)
    ensures b != a && GoesBy(db, b, email)
  {
    if c :| c in db.accounts && c != a && db.accounts[c].email == email {
      b := c;
    } else {
      var i :| i in db.emails && db.emails[i].email == email && db.emails[i].account != a;
      b := db.emails[i].account;
    }
  }

  lemma UsedGoesBy(db: Db, email: string) returns (b: nat)
    requires Owned(db) && AddressUsed(db.emails, email)
    ensures GoesBy(db, b, email)
  {
    var i :| i in db.emails && db.emails[i].email == email;
    b := db.emails[i].account;
  }

  lemma NobodyHolds(db: Db, a: nat, email: string)
    requires Owned(db) && forall d :: !GoesBy(db, d, email)
    ensures !HeldByOther(db, email, a) && !AddressUsed(db.emails, email)
  {
    if HeldByOther(db, email, a) {
      var b := HolderGoesBy(db, a, email);
    }
    if AddressUsed(db.emails, email) {
      var b := UsedGoesBy(db, email);
    }
  }

  lemma OwnedIsKeyed(db: Db)
    requires Owned(db)
    ensures Keyed(db)
  {
  }

  /** Whoever else goes by the address is deleted first. */
  lemma ReplacingRun(db: Db, t: nat, a: nat, email: string, now: int) returns (run: seq<Event>)
    requires Owned(db) && MayReplace(db, t, a, email, now)
    ensures Lost(db, run, now, a, email, false)
  {
    assert Keyed(db) && a in db.accounts;
    var other := db.recoveries[t].email;
    hide Keyed, Owned, Lost, HeldByOther, MayReplace, MayAdd;
    if HeldByOther(db, other, a) {
      var b := HolderGoesBy(db, a, other);
      var first := Now(now, OpDeleteAccount(b, db.accounts[b].email, db.accounts[b].password));
      StepKeepsOwned(db, first);
      DeletionFreesAddress(db, now, a, b, other);
      DeletionKeepsLinks(db, a, b, email, now);
      hide Step, GoesBy;
      var db1 := Step(db, first).0;
      NobodyHolds(db1, a, other);
      OwnedIsKeyed(db1);
      run := [Now(now, OpRecover(t))];
      RecoveryReplaces(db1, t, a, email, now);
      OneStepEarlier(db, first, run, now, a, email, false);
      run := [first] + run;
    } else {
      run := [Now(now, OpRecover(t))];
      RecoveryReplaces(db, t, a, email, now);
    }
  }

  lemma UserOfAddress(db: Db, a: nat, email: string, other: string) returns (b: nat)
    requires Owned(db) && OnlyAddress(db, a, email) && other != email && AddressUsed(db.emails, other)
    ensures b != a && GoesBy(db, b, other)
  {
    var i :| i in db.emails && db.emails[i].email == other;
    b := db.emails[i].account;
  }

  lemma AddingRun(db: Db, v: nat, a: nat, email: string, now: int) returns (run: seq<Event>)
    requires Owned(db) && OnlyAddress(db, a, email) && MayAdd(db, v, a, email, now)
    ensures Lost(db, run, now, a, email, true)
  {
    assert Keyed(db) && a in db.accounts;
    var other := db.verifications[v].newEmail;
    assert other != email;
    hide Keyed, Owned, Lost, AddressUsed, MayReplace, MayAdd;
    if AddressUsed(db.emails, other) {
      var b := UserOfAddress(db, a, email, other);
      var first := Now(now, OpDeleteAccount(b, db.accounts[b].email, db.accounts[b].password));
      StepKeepsOwned(db, first);
      DeletionFreesAddress(db, now, a, b, other);
      DeletionKeepsLinks(db, a, b, email, now);
      hide Step, GoesBy;
      var db1 := Step(db, first).0;
      NobodyHolds(db1, a, other);
      OwnedIsKeyed(db1);
      run := [Now(now, OpVerifyEmail(v))];
      VerificationAdds(db1, v, a, email, now);
      OneStepEarlier(db, first, run, now, a, email, true);
      run := [first] + run;
    } else {
      run := [Now(now, OpVerifyEmail(v))];
      VerificationAdds(db, v, a, email, now);
    }
  }

  lemma LostIff(db: Db, a: nat, email: string, now: int, alone: bool)
    requires Owned(db) && OnlyAddress(db, a, email)
    ensures (exists run :: Lost(db, run, now, a, email, alone)) <==>
      (exists t :: MayReplace(db, t, a, email, now)) || (alone && exists v :: MayAdd(db, v, a, email, now))
  {
    if t :| MayReplace(db, t, a, email, now) {
      hide Owned, OnlyAddress, Lost, MayReplace;
      var run := ReplacingRun(db, t, a, email, now);
      if alone {
        LostIsNotAlone(db, run, now, a, email);
      }
    } else if v :| alone && MayAdd(db, v, a, email, now) {
      hide Owned, OnlyAddress, Lost, MayAdd;
      var run := AddingRun(db, v, a, email, now);
    } else {
      assert Safe(db, a, email, now, alone);
      hide Owned, OnlyAddress, Safe, MayReplace, MayAdd, Possible, Run, Unattended;
      forall run ensures !Lost(db, run, now, a, email, alone) {
        if Lost(db, run, now, a, email, alone) {
          RunSafe(db, run, now, a, email, alone);
        }
      }
    }
  }

  // ---- After a recovery ----

  lemma RecoveredAddress(db: Db, t: nat, now: int)
    requires Recover(db, t, now).1.Done?
    ensures t in db.recoveries
    ensures OnlyAddress(Recover(db, t, now).0, db.recoveries[t].account, db.recoveries[t].email)
  {
    hide HeldByOther, RevokeAll;
  }

  lemma RecoveredTokens(db: Db, t: nat, now: int, a: nat, email: string)
    requires Recover(db, t, now).1.Done? && email == db.recoveries[t].email
    ensures forall u :: MayReplace(Recover(db, t, now).0, u, a, email, now) <==> MayReplace(db, u, a, email, now)
    ensures forall v :: MayAdd(Recover(db, t, now).0, v, a, email, now) <==> MayAdd(db, v, a, email, now)
  {
    var db1 := Recover(db, t, now).0;
    assert db1.recoveries == db.recoveries[t := db.recoveries[t].(used := true)]
      && db1.verifications == db.verifications;
    hide Recover;
  }

  lemma RecoveredIsAlone(db: Db, t: nat, now: int)
    requires Owned(db) && Recover(db, t, now).1.Done?
    ensures t in db.recoveries
    ensures var a, email, db1 := db.recoveries[t].account, db.recoveries[t].email, Recover(db, t, now).0;
      && Owned(db1) && OnlyAddress(db1, a, email)
      && (forall u :: MayReplace(db1, u, a, email, now) <==> MayReplace(db, u, a, email, now))
      && (forall v :: MayAdd(db1, v, a, email, now) <==> MayAdd(db, v, a, email, now))
  {
    RecoverKeepsOwned(db, t, now);
    RecoveredAddress(db, t, now);
    RecoveredTokens(db, t, now, db.recoveries[t].account, db.recoveries[t].email);
    hide Owned, Recover, OnlyAddress, MayReplace, MayAdd;
  }

  /** As long as nobody acts in the account's name, the recovered address stays its primary over every
      run exactly when no other recovery token of the account, for another address, was live. */
  lemma AddressTakenAgainIff(db: Db, t: nat, now: int)
    requires Owned(db) && Recover(db, t, now).1.Done?
    ensures t in db.recoveries
    ensures var a, email := db.recoveries[t].account, db.recoveries[t].email;
      (exists run :: Lost(Recover(db, t, now).0, run, now, a, email, false)) <==>
      exists u :: MayReplace(db, u, a, email, now)
  {
    RecoveredIsAlone(db, t, now);
    var a, email, db1 := db.recoveries[t].account, db.recoveries[t].email, Recover(db, t, now).0;
    hide Recover, Owned, OnlyAddress, MayReplace, MayAdd, Lost;
    LostIff(db1, a, email, now, false);
  }

  /** And it stays the account's only address exactly when no verification token for another was live
      either: a recovery leaves those alone. */
  lemma AddressJoinedIff(db: Db, t: nat, now: int)
    requires Owned(db) && Recover(db, t, now).1.Done?
    ensures t in db.recoveries
    ensures var a, email := db.recoveries[t].account, db.recoveries[t].email;
      (exists run :: Lost(Recover(db, t, now).0, run, now, a, email, true)) <==>
      (exists u :: MayReplace(db, u, a, email, now)) || (exists v :: MayAdd(db, v, a, email, now))
  {
    RecoveredIsAlone(db, t, now);
    var a, email, db1 := db.recoveries[t].account, db.recoveries[t].email, Recover(db, t, now).0;
    hide Recover, Owned, OnlyAddress, MayReplace, MayAdd, Lost;
    LostIff(db1, a, email, now, true);
  }

  lemma PromotedElsewhere(db: Db, a: nat, i: nat, now: int, lag: nat)
    requires Owned(db) && Promote(db, a, i, now, lag).1 == Done(Some(db.next))
    ensures var db1 := Promote(db, a, i, now, lag).0;
      && a in db.accounts && Owned(db1) && a in db1.accounts && db1.accounts[a].email != db.accounts[a].email
  {
    hide Promoted, IssueToken, WithRecovery, Keyed;
    var p := OnePrimaryEach(db, a);
    assert db.emails[i].email != db.accounts[a].email;
    PromoteKeepsOwned(db, a, i, now, lag);
    hide Owned;
    PromoteGivesAddress(db, now, a, i, lag);
  }

  /** Whoever moves the primary address twice gets such a token: the recovery of the first address is
      undone by the link mailed to the second. */
  lemma TwiceMovedIsTakenAgain(db: Db, db1: Db, db2: Db, a: nat, i: nat, j: nat, now: int, lag: nat, later: int,
    more: nat, t: nat)
    requires Owned(db) && a in db.accounts
    requires Promote(db, a, i, now, lag) == (db1, Done(Some(db.next)))
    requires Promote(db1, a, j, later, more) == (db2, Done(Some(db1.next)))
    requires LiveRecovery(db2, t, a, db.accounts[a].email, later) && Recover(db2, t, later).1.Done?
    ensures exists run :: Lost(Recover(db2, t, later).0, run, later, a, db.accounts[a].email, false)
  {
    PromotedElsewhere(db, a, i, now, lag);
    hide Promote, Recover, Owned, Lost;
    PromoteKeepsOwned(db1, a, j, later, more);
    var u := PromoteIssuesRecovery(db1, a, j, later, more);
    assert MayReplace(db2, u, a, db.accounts[a].email, later);
    AddressTakenAgainIff(db2, t, later);
  }
}
