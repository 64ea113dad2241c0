/** `MAX_EMAILS_PER_ACCOUNT` is looked at when a verification is asked for, not when it is completed. */
module AccountLimit {
  import opened AccountTables
  import opened Options
  import opened AccountEmails

  /** The step that gives account `a` another address. */
  ghost predicate Verifies(db: Db, e: Event, a: nat)
    requires WellFormed(db, e)
  {
    e.op.OpVerifyEmail? && Step(db, e).1.Done? && e.op.token in db.verifications
      && db.verifications[e.op.token].account == a
  }

  ghost predicate NoMoreRows(db: Db, db1: Db, a: nat) {
    RowsOf(db1.emails, a) <= RowsOf(db.emails, a) || exists i :: RowsOf(db1.emails, a) == {i}
  }

  lemma SameRows(db: Db, db1: Db, a: nat)
    requires db1.emails == db.emails
    ensures NoMoreRows(db, db1, a)
  {
  }

  lemma FirstRow(db: Db, db1: Db, email: string, a: nat)
    requires Keyed(db) && RowsHaveAccounts(db.accounts, db.emails)
    requires db1.emails == db.emails[db.next + 1 := EmailRow(db.next, email, true, true)]
    ensures RowsOf(db1.emails, a) == if a == db.next then {db.next + 1} else RowsOf(db.emails, a)
    ensures NoMoreRows(db, db1, a)
  {
  }

  lemma RegisterRows(db: Db, email: string, password: string, now: int, lag: nat, a: nat)
    requires Keyed(db) && RowsHaveAccounts(db.accounts, db.emails)
    ensures NoMoreRows(db, Register(db, email, password, now, lag).0, a)
  {
    hide NoMoreRows, AddressUsed, IssueToken, AccountWith;
    var (db1, out) := Register(db, email, password, now, lag);
    if out.Done? {
      var added := db.(accounts := db.accounts[db.next := Account(email, password)],
                       emails := db.emails[db.next + 1 := EmailRow(db.next, email, true, true)], next := db.next + 2);
      IssueTables(added, db.next, None, false, now, lag);
      FirstRow(db, db1, email, a);
    } else {
      SameRows(db, db1, a);
    }
  }

  lemma VerifyRows(db: Db, token: nat, now: int, a: nat)
    requires Keyed(db)
    ensures var (db1, out) := VerifyEmail(db, token, now);
      if out.Done? && db.verifications[token].account == a then |RowsOf(db1.emails, a)| == |RowsOf(db.emails, a)| + 1
      else NoMoreRows(db, db1, a)
  {
    var (db1, out) := VerifyEmail(db, token, now);
    if out.Done? && db.verifications[token].account == a {
      assert RowsOf(db1.emails, a) == RowsOf(db.emails, a) + {db.next};
    }
  }

  lemma PromotedRows(db: Db, actor: nat, emailId: nat)
    requires actor in db.accounts && emailId in db.emails
    ensures Promoted(db, actor, emailId).emails.Keys == db.emails.Keys
  {
  }

  lemma PromoteRows(db: Db, actor: nat, emailId: nat, now: int, lag: nat, a: nat)
    requires Consistent(db.accounts, db.emails)
    ensures NoMoreRows(db, Promote(db, actor, emailId, now, lag).0, a)
  {
    hide Promoted, IssueToken, WithRecovery, Consistent;
    var (db1, out) := Promote(db, actor, emailId, now, lag);
    if out == Done(Some(db.next)) {
      PromotedTables(db, actor, emailId);
      var db2 := IssueToken(Promoted(db, actor, emailId), actor, None, false, now, lag);
      IssueTables(Promoted(db, actor, emailId), actor, None, false, now, lag);
      RecoveryTables(db2, actor, db.accounts[actor].email, now);
      PromotedRows(db, actor, emailId);
      forall i | i in RowsOf(db1.emails, a) ensures i in RowsOf(db.emails, a) {
        PromotedShape(db, actor, emailId, i);
      }
    }
  }

  lemma RemoveRows(db: Db, actor: nat, emailId: nat, now: int, a: nat)
    ensures NoMoreRows(db, Remove(db, actor, emailId, now).0, a)
  {
    hide WithRecovery;
    if Remove(db, actor, emailId, now).1.Done? {
      RecoveryTables(db.(emails := db.emails - {emailId}), actor, db.emails[emailId].email, now);
    }
  }

  lemma RecoverRows(db: Db, token: nat, now: int, a: nat)
    requires Keyed(db)
    ensures NoMoreRows(db, Recover(db, token, now).0, a)
  {
    hide HeldByOther;
    var (db1, out) := Recover(db, token, now);
    if out.Done? && db.recoveries[token].account == a {
      assert RowsOf(db1.emails, a) == {db.next};
    }
  }

  lemma OtherRowsOnly(db: Db, e: Event, a: nat)
    requires WellFormed(db, e) && (e.op.OpResetPassword? || e.op.OpDeleteAccount?)
    ensures NoMoreRows(db, Step(db, e).0, a)
  {
  }

  lemma VerifiedToken(db: Db, token: nat, now: int)
    ensures VerifyEmail(db, token, now).1.Done? ==> token in db.verifications
  {
  }

  lemma ConsistentRows(db: Db)
    requires Consistent(db.accounts, db.emails)
    ensures RowsHaveAccounts(db.accounts, db.emails)
  {
  }

  lemma StepRows(db: Db, e: Event, a: nat)
    requires Owned(db) && WellFormed(db, e)
    ensures if Verifies(db, e, a) then |RowsOf(Step(db, e).0.emails, a)| == |RowsOf(db.emails, a)| + 1
            else NoMoreRows(db, Step(db, e).0, a)
  {
    hide Register, VerifyEmail, Promote, Remove, Recover, NoMoreRows, Keyed, Consistent, AllHavePrimary, RowsOf;
    match e.op {
      case OpRegister(email, password) => ConsistentRows(db); RegisterRows(db, email, password, e.now, e.lag, a);
      case OpVerifyEmail(token) => VerifyRows(db, token, e.now, a); VerifiedToken(db, token, e.now);
      case OpPromote(actor, emailId) => PromoteRows(db, actor, emailId, e.now, e.lag, a);
      case OpRemove(actor, emailId) => RemoveRows(db, actor, emailId, e.now, a);
      case OpRecover(token) => RecoverRows(db, token, e.now, a);
      case OpResetPassword(_, _, _) => OtherRowsOnly(db, e, a);
      case OpDeleteAccount(_, _, _) => OtherRowsOnly(db, e, a);
      case OpSeed(order) => SeedIsNoOp(db, order); SameRows(db, db, a);
      case _ => SessionRoutesAlone(db, e); SameRows(db, Step(db, e).0, a);
    }
  }

  lemma Sizes(db: Db, db1: Db, a: nat)
    requires NoMoreRows(db, db1, a)
    ensures |RowsOf(db1.emails, a)| <= |RowsOf(db.emails, a)| || |RowsOf(db1.emails, a)| <= 1
  {
    var before, after := RowsOf(db.emails, a), RowsOf(db1.emails, a);
    if after <= before {
      assert before == after + (before - after);
    }
  }

  /** The token can complete a verification for account `a`: there, unused, unexpired, and its address
      still nobody's. */
  predicate Completable(db: Db, token: nat, a: nat, now: int) {
    && token in db.verifications && !db.verifications[token].used && now < db.verifications[token].expiresAt
    && db.verifications[token].account == a && !AddressUsed(db.emails, db.verifications[token].newEmail)
  }

  lemma VerifiesIffCompletable(db: Db, e: Event, a: nat)
    requires Keyed(db) && WellFormed(db, e)
    ensures Verifies(db, e, a) <==> e.op.OpVerifyEmail? && Completable(db, e.op.token, a, e.now)
  {
    hide AddressUsed;
  }

  /** From within the limit an account exceeds it in one way only: a verification that can be completed
      is, when the account already has as many addresses as the limit allows. */
  lemma LimitExceededIff(db: Db, e: Event, a: nat)
    requires Owned(db) && WellFormed(db, e) && |RowsOf(db.emails, a)| <= MAX_EMAILS_PER_ACCOUNT
    ensures |RowsOf(Step(db, e).0.emails, a)| > MAX_EMAILS_PER_ACCOUNT <==>
      e.op.OpVerifyEmail? && Completable(db, e.op.token, a, e.now) && |RowsOf(db.emails, a)| == MAX_EMAILS_PER_ACCOUNT
  {
    VerifiesIffCompletable(db, e, a);
    hide Step, Owned, RowsOf, NoMoreRows, WellFormed, Verifies, Completable;
    StepRows(db, e, a);
    if !Verifies(db, e, a) {
      Sizes(db, Step(db, e).0, a);
    }
  }

  function Started(asked: map<nat, VerificationToken>, rows: map<nat, EmailRow>, next: nat): Db {
    Db(map[0 := Account("a", "p")], map[1 := EmailRow(0, "a", true, true)] + rows, asked, map[], map[], map[], map[],
      next)
  }

  const ASKED_B := VerificationToken(0, "b", HOUR, false)
  const ASKED_C := VerificationToken(0, "c", HOUR, false)

  lemma StartedOwned()
    ensures Owned(Started(map[], map[], 2))
  {
    var db := Started(map[], map[], 2);
    assert db.emails[1].account == 0 && db.emails[1].isPrimary;
    assert HasPrimary(db.emails, 0);
  }

  lemma BothAsked()
    ensures Step(Started(map[], map[], 2), Event(0, 0, OpAddEmail(0, "b", true))).0
      == Started(map[2 := ASKED_B], map[], 3)
    ensures Step(Started(map[2 := ASKED_B], map[], 3), Event(0, 0, OpAddEmail(0, "c", true))).0
      == Started(map[2 := ASKED_B, 3 := ASKED_C], map[], 4)
  {
    assert RowsOf(Started(map[], map[], 2).emails, 0) == {1};
    assert RowsOf(Started(map[2 := ASKED_B], map[], 3).emails, 0) == {1};
  }

  lemma ThirdRow(db3: Db)
    requires db3.emails == map[1 := EmailRow(0, "a", true, true), 4 := EmailRow(0, "b", false, true)]
    requires 3 in db3.verifications && db3.verifications[3] == ASKED_C && db3.next == 5 && 0 in db3.accounts
    ensures |RowsOf(Step(db3, Event(0, 0, OpVerifyEmail(3))).0.emails, 0)| == 3
  {
    var db4 := Step(db3, Event(0, 0, OpVerifyEmail(3))).0;
    assert db4.emails == db3.emails[5 := EmailRow(0, "c", false, true)];
    assert RowsOf(db4.emails, 0) == {1, 4, 5};
  }

  lemma FirstVerified() returns (db3: Db)
    ensures db3 == Step(Started(map[2 := ASKED_B, 3 := ASKED_C], map[], 4), Event(0, 0, OpVerifyEmail(2))).0
    ensures |RowsOf(Step(db3, Event(0, 0, OpVerifyEmail(3))).0.emails, 0)| == 3
  {
    var db2 := Started(map[2 := ASKED_B, 3 := ASKED_C], map[], 4);
    db3 := Step(db2, Event(0, 0, OpVerifyEmail(2))).0;
    assert db3.emails == map[1 := EmailRow(0, "a", true, true), 4 := EmailRow(0, "b", false, true)];
    assert 3 in db3.verifications && db3.verifications[3] == ASKED_C && db3.next == 5;
    ThirdRow(db3);
  }

  /** It happens: two verifications asked for while there is room, both completed. */
  lemma LimitCanBeExceeded()
    ensures var db := Started(map[], map[], 2);
      var run := [Event(0, 0, OpAddEmail(0, "b", true)), Event(0, 0, OpAddEmail(0, "c", true)),
                  Event(0, 0, OpVerifyEmail(2)), Event(0, 0, OpVerifyEmail(3))];
      Owned(db) && Possible(db, run, 0) && |RowsOf(Run(db, run, 0).emails, 0)| == 3
  {
    var e1, e2 := Event(0, 0, OpAddEmail(0, "b", true)), Event(0, 0, OpAddEmail(0, "c", true));
    var e3, e4 := Event(0, 0, OpVerifyEmail(2)), Event(0, 0, OpVerifyEmail(3));
    StartedOwned();
    BothAsked();
    var db3 := FirstVerified();
    hide Step, Owned, Started;
    var db := Started(map[], map[], 2);
    assert [e1, e2, e3, e4][1..] == [e2, e3, e4] && [e2, e3, e4][1..] == [e3, e4] && [e3, e4][1..] == [e4]
      && [e4][1..] == [];
    var db1, db2 := Step(db, e1).0, Started(map[2 := ASKED_B, 3 := ASKED_C], map[], 4);
    assert Possible(db3, [e4], 0) && Run(db3, [e4], 0) == Step(db3, e4).0;
    assert Possible(db2, [e3, e4], 0) && Run(db2, [e3, e4], 0) == Step(db3, e4).0;
    assert Possible(db1, [e2, e3, e4], 0) && Run(db1, [e2, e3, e4], 0) == Step(db3, e4).0;
  }
}
