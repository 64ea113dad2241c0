/** When a cleanup can be noticed at all: exactly when it deletes the row of a token that could still
    be presented. Whoever holds it only has to see to it that the account goes by the token's address
    again, which the account's owner can always do. */
module AccountNoticed {
  import opened AccountTables
  import opened Options
  import opened AccountEmails
  import opened AccountSessions
  import opened AccountCleanup

  /** A run possible from both states on which some answer differs. */
  ghost predicate Tells(more: Db, less: Db, run: seq<Event>, start: int) {
    Possible(more, run, start) && Possible(less, run, start) && Outcomes(more, run, start) != Outcomes(less, run, start)
  }

  /** The row of token `j`, of account `a`, is missing in `less`, and the token is within its lifetime. */
  ghost predicate Missing(more: Db, less: Db, clock: int, c: int, a: nat, j: nat) {
    && Owned(more) && Lineages(more) && Lacks(more, less, clock)
    && j in more.refreshes && j !in less.refreshes && more.refreshes[j].account == a && a in more.accounts
    && j in more.issued && c < more.issued[j].claims.exp && more.issued[j].claims.jti == Some(j)
  }

  function Now(c: int, op: Op): Event {
    Event(c, 0, op)
  }

  /** The steps used here: on addresses, and deleting another account. */
  ghost predicate Harmless(op: Op, a: nat) {
    op.OpRemove? || op.OpAddEmail? || op.OpVerifyEmail? || op.OpPromote? || (op.OpDeleteAccount? && op.actor != a)
  }

  lemma HarmlessAlike(more: Db, less: Db, clock: int, c: int, a: nat, op: Op)
    requires Lacks(more, less, clock) && TokensKeyed(more) && Harmless(op, a)
    ensures Alike(more, less, Now(c, op), clock)
  {
    hide Alike, Lacks;
    match op {
      case OpRemove(_, _) => RemoveAlike(more, less, Now(c, op), clock);
      case OpAddEmail(_, _, _) => AddEmailAlike(more, less, Now(c, op), clock);
      case OpVerifyEmail(_) => MailAlike(more, less, Now(c, op), clock);
      case OpPromote(_, _) => PromoteAlike(more, less, Now(c, op), clock);
      case _ => RowsGoAlike(more, less, Now(c, op), clock);
    }
  }

  /** Such a step neither deletes nor adds a row of token `j`. */
  lemma PromoteKeepsRow(db: Db, c: int, a: nat, j: nat, actor: nat, emailId: nat)
    requires j < db.next
    ensures var db1 := Promote(db, actor, emailId, c, 0).0;
      && (j in db1.refreshes <==> j in db.refreshes)
      && (j in db1.refreshes ==> db1.refreshes[j].account == db.refreshes[j].account)
      && (a in db.accounts ==> a in db1.accounts)
  {
    if actor in db.accounts && emailId in db.emails {
      PromotedTables(db, actor, emailId);
      hide WithRecovery, Promoted;
      var db1 := IssueToken(Promoted(db, actor, emailId), actor, None, false, c, 0);
      RecoveryTables(db1, actor, db.accounts[actor].email, c);
    }
  }

  lemma RemoveKeepsRow(db: Db, c: int, actor: nat, emailId: nat)
    ensures var db1 := Remove(db, actor, emailId, c).0; db1.refreshes == db.refreshes && db1.accounts == db.accounts
  {
    hide WithRecovery;
    if actor in db.accounts && emailId in db.emails {
      RecoveryTables(db.(emails := db.emails - {emailId}), actor, db.emails[emailId].email, c);
    }
  }

  lemma OthersKeepRow(db: Db, c: int, a: nat, j: nat, op: Op)
    requires Harmless(op, a) && !op.OpPromote? && !op.OpRemove? && (j in db.refreshes ==> db.refreshes[j].account == a)
    ensures var db1 := Step(db, Now(c, op)).0;
      && (j in db1.refreshes <==> j in db.refreshes)
      && (j in db1.refreshes ==> db1.refreshes[j].account == a)
      && (a in db.accounts ==> a in db1.accounts)
  {
    hide AddressUsed, RowsOf, OtherRows;
  }

  lemma HarmlessKeepsRow(db: Db, c: int, a: nat, j: nat, op: Op)
    requires TokensKeyed(db) && j < db.next && Harmless(op, a) && (j in db.refreshes ==> db.refreshes[j].account == a)
    ensures var db1 := Step(db, Now(c, op)).0;
      && (j in db1.refreshes <==> j in db.refreshes)
      && (j in db1.refreshes ==> db1.refreshes[j].account == a)
      && (a in db.accounts ==> a in db1.accounts)
  {
    hide Promote, Remove, TokensKeyed;
    match op {
      case OpPromote(actor, emailId) => PromoteKeepsRow(db, c, a, j, actor, emailId);
      case OpRemove(actor, emailId) => RemoveKeepsRow(db, c, actor, emailId);
      case _ => hide Step; OthersKeepRow(db, c, a, j, op);
    }
  }

  lemma JIsOld(db: Db, j: nat)
    requires TokensKeyed(db) && j in db.issued
    ensures j < db.next
  {
  }

  lemma NothingTakenBack(db: Db, db1: Db, out: Outcome, j: nat)
    requires TokenStep(db, db1, out) && j in db.issued && j < db.next
    ensures j in db1.issued && db1.issued[j] == db.issued[j]
  {
  }

  lemma IssuedStays(db: Db, e: Event, j: nat)
    requires Lineages(db) && WellFormed(db, e) && j in db.issued
    ensures Lineages(Step(db, e).0)
    ensures j in Step(db, e).0.issued && Step(db, e).0.issued[j] == db.issued[j]
  {
    LineagesAreKeyed(db);
    JIsOld(db, j);
    hide Lineages, Step, WellFormed, TokensKeyed;
    StepTokens(db, e);
    TokenStepKeepsLineages(db, Step(db, e).0, Step(db, e).1);
    NothingTakenBack(db, Step(db, e).0, Step(db, e).1, j);
  }

  lemma FewerKeyed(more: Db, less: Db, clock: int)
    requires Lacks(more, less, clock) && TokensKeyed(more)
    ensures TokensKeyed(less) && less.next == more.next
  {
  }

  lemma AlikeLacks(more: Db, less: Db, e: Event, clock: int)
    requires WellFormed(more, e) && WellFormed(less, e) && Alike(more, less, e, clock)
    ensures Lacks(Step(more, e).0, Step(less, e).0, clock)
  {
    hide Lacks, Step, WellFormed;
  }

  /** After such a step the row is still what differs. */
  lemma StillMissing(more: Db, less: Db, clock: int, c: int, a: nat, j: nat, op: Op)
    requires Missing(more, less, clock, c, a, j) && Harmless(op, a)
    ensures WellFormed(more, Now(c, op)) && WellFormed(less, Now(c, op))
    ensures Missing(Step(more, Now(c, op)).0, Step(less, Now(c, op)).0, clock, c, a, j)
    ensures Step(more, Now(c, op)).0.issued[j].claims == more.issued[j].claims
  {
    assert WellFormed(more, Now(c, op)) && WellFormed(less, Now(c, op));
    LineagesAreKeyed(more);
    FewerKeyed(more, less, clock);
    JIsOld(more, j);
    hide Owned, Lineages, Lacks, TokensKeyed, Step, WellFormed, Alike, Harmless;
    StepKeepsOwned(more, Now(c, op));
    IssuedStays(more, Now(c, op), j);
    HarmlessAlike(more, less, clock, c, a, op);
    AlikeLacks(more, less, Now(c, op), clock);
    HarmlessKeepsRow(more, c, a, j, op);
    HarmlessKeepsRow(less, c, a, j, op);
  }

  lemma ToldLater(more: Db, less: Db, c: int, op: Op, run: seq<Event>)
    requires WellFormed(more, Now(c, op)) && WellFormed(less, Now(c, op))
    requires Tells(Step(more, Now(c, op)).0, Step(less, Now(c, op)).0, run, c)
    ensures Tells(more, less, [Now(c, op)] + run, c)
  {
    hide Step, WellFormed;
    var longer := [Now(c, op)] + run;
    assert longer[1..] == run && longer[0] == Now(c, op);
    assert Outcomes(more, longer, c)[1..] == Outcomes(Step(more, Now(c, op)).0, run, c);
    assert Outcomes(less, longer, c)[1..] == Outcomes(Step(less, Now(c, op)).0, run, c);
  }

  lemma ToldNow(more: Db, less: Db, e: Event, c: int)
    requires WellFormed(more, e) && WellFormed(less, e) && e.now >= c && Step(more, e).1 != Step(less, e).1
    ensures Tells(more, less, [e], c)
  {
    hide Step, WellFormed;
    var run := [e];
    assert run[0] == e && run[1..] == [];
    assert Possible(more, run, c) && Possible(less, run, c);
    assert Outcomes(more, run, c)[0] == Step(more, e).1;
    assert Outcomes(less, run, c)[0] == Step(less, e).1;
  }

  // ---- Giving the address back, from the end ----

  lemma AccountIsFound(db: Db, a: nat)
    requires Owned(db) && a in db.accounts
    ensures AccountWith(db.accounts, db.accounts[a].email) == Some(a)
  {
  }

  /** A token within its lifetime, of an account that goes by its address, is refused exactly when its
      row is missing. */
  lemma RotateAnswers(db: Db, claims: Claims, a: nat, c: int)
    requires c < claims.exp && claims.jti.Some? && AccountWith(db.accounts, claims.sub) == Some(a)
    requires claims.jti.value in db.refreshes ==> db.refreshes[claims.jti.value].account == a
    ensures Rotate(db, claims, c, 0).1 == Rejected(NotAuthenticated) <==> claims.jti.value !in db.refreshes
  {
    hide IssueToken, RevokeAll, Revoke, AccountWith;
  }

  lemma RotationDiffers(more: Db, less: Db, clock: int, c: int, a: nat, j: nat)
    requires Missing(more, less, clock, c, a, j) && more.accounts[a].email == more.issued[j].claims.sub
    ensures var e := Now(c, OpRotate(more.issued[j].claims));
      WellFormed(more, e) && WellFormed(less, e) && Step(more, e).1 != Step(less, e).1
  {
    LacksTables(more, less, clock);
    AccountIsFound(more, a);
    hide Owned, Lineages, Lacks, AccountWith, Rotate;
    RotateAnswers(more, more.issued[j].claims, a, c);
    RotateAnswers(less, more.issued[j].claims, a, c);
  }

  /** The account goes by the address: present the token. */
  lemma TellByRotation(more: Db, less: Db, clock: int, c: int, a: nat, j: nat) returns (run: seq<Event>)
    requires Missing(more, less, clock, c, a, j) && more.accounts[a].email == more.issued[j].claims.sub
    ensures Tells(more, less, run, c)
  {
    var e := Now(c, OpRotate(more.issued[j].claims));
    RotationDiffers(more, less, clock, c, a, j);
    hide Missing, Step, WellFormed, Tells;
    ToldNow(more, less, e, c);
    run := [e];
  }

  lemma PromoteGivesAddress(db: Db, c: int, a: nat, i: nat, lag: nat)
    requires Owned(db) && a in db.accounts && i in db.emails && db.emails[i].account == a
    requires db.emails[i].verified && !db.emails[i].isPrimary
    ensures var db1 := Promote(db, a, i, c, lag).0; a in db1.accounts && db1.accounts[a].email == db.emails[i].email
  {
    PromoteNeverConflicts(db, a, i, c, lag);
    PromotedTables(db, a, i);
    hide Owned, Promoted, WithRecovery, IssueToken;
    IssueTables(Promoted(db, a, i), a, None, false, c, lag);
    RecoveryTables(IssueToken(Promoted(db, a, i), a, None, false, c, lag), a, db.accounts[a].email, c);
  }

  lemma StepPromotes(db: Db, c: int, a: nat, i: nat)
    ensures Step(db, Now(c, OpPromote(a, i))) == Promote(db, a, i, c, 0)
  {
    hide Promote;
  }

  /** The address is a verified secondary row of the account: promote it. */
  lemma TellByPromotion(more: Db, less: Db, clock: int, c: int, a: nat, j: nat, i: nat) returns (run: seq<Event>)
    requires Missing(more, less, clock, c, a, j)
    requires i in more.emails && more.emails[i] == EmailRow(a, more.issued[j].claims.sub, false, true)
    ensures Tells(more, less, run, c)
  {
    var op := OpPromote(a, i);
    StillMissing(more, less, clock, c, a, j, op);
    StepPromotes(more, c, a, i);
    assert Owned(more) && a in more.accounts;
    hide Missing, Step, WellFormed, Tells, Promote, Owned;
    PromoteGivesAddress(more, c, a, i, 0);
    run := TellByRotation(Step(more, Now(c, op)).0, Step(less, Now(c, op)).0, clock, c, a, j);
    ToldLater(more, less, c, op, run);
    run := [Now(c, op)] + run;
  }

  lemma VerifyAddsRow(db: Db, c: int, a: nat, email: string, t: nat)
    requires a in db.accounts && LiveVerification(db, t, a, email, c) && !AddressUsed(db.emails, email)
    ensures var db1 := Step(db, Now(c, OpVerifyEmail(t))).0;
      db.next in db1.emails && db1.emails[db.next] == EmailRow(a, email, false, true)
  {
    hide AddressUsed;
  }

  /** A verification of the address can be completed: complete it. */
  lemma TellByVerification(more: Db, less: Db, clock: int, c: int, a: nat, j: nat, t: nat) returns (run: seq<Event>)
    requires Missing(more, less, clock, c, a, j)
    requires LiveVerification(more, t, a, more.issued[j].claims.sub, c)
      && !AddressUsed(more.emails, more.issued[j].claims.sub)
    ensures Tells(more, less, run, c)
  {
    var op := OpVerifyEmail(t);
    StillMissing(more, less, clock, c, a, j, op);
    VerifyAddsRow(more, c, a, more.issued[j].claims.sub, t);
    hide Missing, Step, WellFormed, Tells;
    run := TellByPromotion(Step(more, Now(c, op)).0, Step(less, Now(c, op)).0, clock, c, a, j, more.next);
    ToldLater(more, less, c, op, run);
    run := [Now(c, op)] + run;
  }

  lemma AskingLeavesToken(db: Db, c: int, a: nat, email: string) returns (t: nat)
    requires a in db.accounts && !AddressUsed(db.emails, email) && |RowsOf(db.emails, a)| < MAX_EMAILS_PER_ACCOUNT
    ensures var db1 := Step(db, Now(c, OpAddEmail(a, email, true))).0;
      LiveVerification(db1, t, a, email, c) && db1.emails == db.emails
  {
    hide AddressUsed, RowsOf;
    if u :| LiveVerification(db, u, a, email, c) {
      t := u;
    } else {
      t := db.next;
    }
  }

  /** The address is free and there is room for it: ask for a verification. */
  lemma TellByAsking(more: Db, less: Db, clock: int, c: int, a: nat, j: nat) returns (run: seq<Event>)
    requires Missing(more, less, clock, c, a, j)
    requires !AddressUsed(more.emails, more.issued[j].claims.sub) && |RowsOf(more.emails, a)| < MAX_EMAILS_PER_ACCOUNT
    ensures Tells(more, less, run, c)
  {
    var op := OpAddEmail(a, more.issued[j].claims.sub, true);
    StillMissing(more, less, clock, c, a, j, op);
    var t := AskingLeavesToken(more, c, a, more.issued[j].claims.sub);
    hide Missing, Step, WellFormed, Tells, LiveVerification;
    run := TellByVerification(Step(more, Now(c, op)).0, Step(less, Now(c, op)).0, clock, c, a, j, t);
    ToldLater(more, less, c, op, run);
    run := [Now(c, op)] + run;
  }

  lemma RemoveTakesRow(db: Db, c: int, a: nat, i: nat, email: string)
    requires a in db.accounts && i in RowsOf(db.emails, a) && !db.emails[i].isPrimary
    ensures var db1 := Step(db, Now(c, OpRemove(a, i))).0;
      && db1.accounts == db.accounts && |RowsOf(db1.emails, a)| < |RowsOf(db.emails, a)|
      && forall b :: GoesBy(db1, b, email) ==> GoesBy(db, b, email)
  {
    hide WithRecovery;
    RecoveryTables(db.(emails := db.emails - {i}), a, db.emails[i].email, c);
    assert RowsOf(db.emails - {i}, a) == RowsOf(db.emails, a) - {i};
  }

  lemma OnlyPrimaryLeft(db: Db, a: nat, email: string)
    requires Owned(db) && a in db.accounts && db.accounts[a].email != email
    requires forall i :: i in RowsOf(db.emails, a) ==> db.emails[i].isPrimary
    requires forall b :: GoesBy(db, b, email) ==> b == a
    ensures !AddressUsed(db.emails, email) && |RowsOf(db.emails, a)| < MAX_EMAILS_PER_ACCOUNT
  {
    var p := OnePrimaryEach(db, a);
    assert RowsOf(db.emails, a) == {p};
    forall i | i in db.emails ensures db.emails[i].email != email {
      assert db.emails[i].email == email ==> GoesBy(db, db.emails[i].account, email);
      assert db.emails[i].account == a ==> i in RowsOf(db.emails, a);
    }
  }

  /** No other account goes by the address: remove the account's secondary rows, one by one. */
  lemma {:induction false} TellByClearing(more: Db, less: Db, clock: int, c: int, a: nat, j: nat)
    returns (run: seq<Event>)
    requires Missing(more, less, clock, c, a, j) && more.accounts[a].email != more.issued[j].claims.sub
    requires forall b :: GoesBy(more, b, more.issued[j].claims.sub) ==> b == a
    ensures Tells(more, less, run, c)
    decreases |RowsOf(more.emails, a)|
  {
    if i :| i in RowsOf(more.emails, a) && !more.emails[i].isPrimary {
      var op := OpRemove(a, i);
      StillMissing(more, less, clock, c, a, j, op);
      RemoveTakesRow(more, c, a, i, more.issued[j].claims.sub);
      hide Missing, Step, WellFormed, Tells, GoesBy, RowsOf;
      run := TellByClearing(Step(more, Now(c, op)).0, Step(less, Now(c, op)).0, clock, c, a, j);
      ToldLater(more, less, c, op, run);
      run := [Now(c, op)] + run;
    } else {
      OnlyPrimaryLeft(more, a, more.issued[j].claims.sub);
      hide Missing, Tells, GoesBy, RowsOf, AddressUsed;
      run := TellByAsking(more, less, clock, c, a, j);
    }
  }

  lemma DeletionFreesAddress(db: Db, c: int, a: nat, b: nat, email: string)
    requires Owned(db) && GoesBy(db, b, email) && a in db.accounts && b != a
    ensures var db1 := Step(db, Now(c, OpDeleteAccount(b, db.accounts[b].email, db.accounts[b].password))).0;
      && a in db1.accounts && db1.accounts[a] == db.accounts[a]
      && forall d :: !GoesBy(db1, d, email)
  {
    var db1 := Step(db, Now(c, OpDeleteAccount(b, db.accounts[b].email, db.accounts[b].password))).0;
    forall d ensures !GoesBy(db1, d, email) {
      assert GoesBy(db1, d, email) ==> GoesBy(db, d, email);
      if GoesBy(db, d, email) {
        NobodySharesAnAddress(db, b, d, email);
      }
    }
  }

  /** Another account goes by the address: that account is deleted first. */
  lemma TellByDeletion(more: Db, less: Db, clock: int, c: int, a: nat, j: nat) returns (run: seq<Event>)
    requires Missing(more, less, clock, c, a, j)
    ensures Tells(more, less, run, c)
  {
    var email := more.issued[j].claims.sub;
    if more.accounts[a].email == email {
      run := TellByRotation(more, less, clock, c, a, j);
    } else if b :| GoesBy(more, b, email) && b != a {
      var op := OpDeleteAccount(b, more.accounts[b].email, more.accounts[b].password);
      StillMissing(more, less, clock, c, a, j, op);
      DeletionFreesAddress(more, c, a, b, email);
      hide Missing, Step, WellFormed, Tells, GoesBy;
      run := TellByClearing(Step(more, Now(c, op)).0, Step(less, Now(c, op)).0, clock, c, a, j);
      ToldLater(more, less, c, op, run);
      run := [Now(c, op)] + run;
    } else {
      hide Missing, Tells, GoesBy;
      run := TellByClearing(more, less, clock, c, a, j);
    }
  }

  lemma {:induction false} SomeLatest(issued: map<nat, Issue>, keys: set<nat>) returns (clock: int)
    requires keys <= issued.Keys
    ensures forall j :: j in keys ==> issued[j].claims.exp <= clock
    decreases |keys|
  {
    if keys == {} {
      clock := 0;
    } else {
      var k :| k in keys;
      var rest := SomeLatest(issued, keys - {k});
      clock := if rest < issued[k].claims.exp then issued[k].claims.exp else rest;
    }
  }

  lemma RowDeleted(db: Db, c: int, j: nat) returns (clock: int)
    requires Owned(db) && Lineages(db) && j in db.refreshes && db.refreshes[j].expiresAt < c
      && db.issued[j].claims.exp > c
    ensures Missing(db, Cleanup(db, c).0, clock, c, db.refreshes[j].account, j)
  {
    clock := SomeLatest(db.issued, db.issued.Keys);
  }

  /** A cleanup at `c` is noticed by some continuation, however long, exactly when it deletes the row of
      a token that is still within its signed lifetime. */
  lemma CleanupNoticedIff(db: Db, c: int)
    requires Owned(db) && Lineages(db)
    ensures (exists run :: Tells(db, Cleanup(db, c).0, run, c)) <==> !OnlyDeadRowsExpire(db, c)
  {
    if OnlyDeadRowsExpire(db, c) {
      forall run ensures !Tells(db, Cleanup(db, c).0, run, c) {
        if Possible(db, run, c) {
          CleanupInvisible(db, c, run);
        }
      }
    } else {
      var j :| j in db.refreshes && db.refreshes[j].expiresAt < c && !(j in db.issued && db.issued[j].claims.exp <= c);
      var clock := RowDeleted(db, c, j);
      var run := TellByDeletion(db, Cleanup(db, c).0, clock, c, db.refreshes[j].account, j);
    }
  }
}
