/** A recovery token, once mailed to a former address, undoes whatever is done to the account until it
    is used. */
module AccountRecovery {
  import opened AccountTables
  import opened Options
  import opened AccountEmails
  import opened AccountSessions

  /** The steps that use up token `t`, or remove its account with everything it has. */
  predicate Spends(op: Op, t: nat, account: nat) {
    op == OpRecover(t) || (op.OpDeleteAccount? && op.actor == account)
  }

  ghost predicate Unspent(run: seq<Event>, t: nat, account: nat) {
    forall i :: 0 <= i < |run| ==> !Spends(run[i].op, t, account)
  }

  ghost predicate Holds(db: Db, t: nat, token: RecoveryToken) {
    t in db.recoveries && db.recoveries[t] == token
  }

  // ---- The token is issued ----

  lemma RecoveryIssued(db: Db, account: nat, email: string, now: int) returns (t: nat)
    ensures LiveRecovery(WithRecovery(db, account, email, now), t, account, email, now)
  {
    if exists t' :: LiveRecovery(db, t', account, email, now) {
      t :| LiveRecovery(db, t, account, email, now);
    } else {
      t := db.next;
    }
  }

  /** Whoever moves the primary away leaves a live token for the old primary address. */
  lemma PromoteIssuesRecovery(db: Db, actor: nat, emailId: nat, now: int, lag: nat) returns (t: nat)
    requires Promote(db, actor, emailId, now, lag).1.Done? && Promote(db, actor, emailId, now, lag).1.issued.Some?
    ensures actor in db.accounts
    ensures LiveRecovery(Promote(db, actor, emailId, now, lag).0, t, actor, db.accounts[actor].email, now)
  {
    hide WithRecovery;
    t := RecoveryIssued(IssueToken(Promoted(db, actor, emailId), actor, None, false, now, lag),
                        actor, db.accounts[actor].email, now);
  }

  /** Whoever removes an address leaves a live token for it. */
  lemma RemoveIssuesRecovery(db: Db, actor: nat, emailId: nat, now: int) returns (t: nat)
    requires Remove(db, actor, emailId, now).1.Done?
    ensures emailId in db.emails
      && LiveRecovery(Remove(db, actor, emailId, now).0, t, actor, db.emails[emailId].email, now)
  {
    hide WithRecovery;
    t := RecoveryIssued(db.(emails := db.emails - {emailId}), actor, db.emails[emailId].email, now);
  }

  // ---- The token survives ----

  lemma SessionsKeepRecoveries(db: Db, e: Event)
    requires WellFormed(db, e)
      && (e.op.OpLogin? || e.op.OpRotate? || e.op.OpLogout? || e.op.OpCleanup? || e.op.OpForgotPassword?)
    ensures Step(db, e).0.recoveries == db.recoveries
  {
    hide RevokeAll, Revoke, WellFormed;
  }

  lemma AddressesKeepRecoveries(db: Db, e: Event)
    requires WellFormed(db, e) && (e.op.OpRegister? || e.op.OpResetPassword? || e.op.OpAddEmail? || e.op.OpVerifyEmail?)
    ensures Step(db, e).0.recoveries == db.recoveries
  {
    hide AddressUsed, RevokeAll, WellFormed, RowsOf;
  }

  lemma {:induction false} SeedKeepsRecoveries(db: Db, order: seq<nat>)
    requires forall a :: a in order ==> a in db.accounts
    ensures SeedAll(db, order).recoveries == db.recoveries
  {
    if order != [] {
      SeedKeepsRecoveries(db, order[..|order| - 1]);
    }
  }

  lemma StepKeepsToken(db: Db, e: Event, t: nat, token: RecoveryToken)
    requires Keyed(db) && WellFormed(db, e) && Holds(db, t, token) && !Spends(e.op, t, token.account)
    ensures Holds(Step(db, e).0, t, token)
  {
    hide Login, Register, Rotate, Logout, ForgotPassword, ResetPassword, AddEmail, VerifyEmail, HeldByOther, OtherRows;
    match e.op {
      case OpRecover(other) =>
      case OpPromote(actor, emailId) =>
        hide Promoted;
        if actor in db.accounts && emailId in db.emails {
          PromotedTables(db, actor, emailId);
        }
      case OpRemove(actor, emailId) =>
      case OpDeleteAccount(actor, email, password) =>
      case OpSeed(order) =>
        SeedKeepsRecoveries(db, order);
      case OpRegister(_, _) => AddressesKeepRecoveries(db, e);
      case OpResetPassword(_, _, _) => AddressesKeepRecoveries(db, e);
      case OpAddEmail(_, _, _) => AddressesKeepRecoveries(db, e);
      case OpVerifyEmail(_) => AddressesKeepRecoveries(db, e);
      case _ => SessionsKeepRecoveries(db, e);
    }
  }

  lemma {:induction false} TokenSurvives(db: Db, run: seq<Event>, start: int, t: nat, token: RecoveryToken)
    requires Owned(db) && Possible(db, run, start) && Holds(db, t, token) && Unspent(run, t, token.account)
    ensures Holds(Run(db, run, start), t, token)
    decreases |run|
  {
    if run != [] {
      assert Keyed(db);
      hide Owned, Keyed, Step, Holds, WellFormed, Spends;
      StepKeepsOwned(db, run[0]);
      StepKeepsToken(db, run[0], t, token);
      TokenSurvives(Step(db, run[0]).0, run[1..], run[0].now + run[0].lag, t, token);
    }
  }

  // ---- The token works ----

  /** `email` is the account's only row, primary, verified and `Account.email`; no session is left; a
      fresh reset token `reset` is waiting. */
  ghost predicate Restored(db: Db, account: nat, email: string, reset: nat, now: int) {
    && account in db.accounts && db.accounts[account].email == email
    && (exists row :: RowsOf(db.emails, account) == {row} && db.emails[row] == EmailRow(account, email, true, true))
    && (forall j :: Live(db, j) ==> db.refreshes[j].account != account)
    && reset in db.resets && db.resets[reset] == ResetToken(account, now + HOUR, false)
  }

  lemma RecoverRestores(db: Db, t: nat, now: int)
    requires Keyed(db) && t in db.recoveries && !db.recoveries[t].used
    ensures var (after, out) := Recover(db, t, now);
      var token := db.recoveries[t];
      && (out.Done? <==> now < token.expiresAt && !HeldByOther(db, token.email, token.account))
      && (out.Done? ==> Restored(after, token.account, token.email, db.next + 1, now) && after.recoveries[t].used)
      && (!out.Done? ==> after == db)
  {
    hide HeldByOther;
    var (after, out) := Recover(db, t, now);
    if out.Done? {
      var a := db.recoveries[t].account;
      assert RowsOf(after.emails, a) == {db.next};
    }
  }

  /** Recovery with token `t` succeeds exactly while it is unexpired and the address is on no other
      account, and then leaves the address as the account's only one, with no session open. */
  ghost predicate Recovers(db: Db, t: nat, token: RecoveryToken, now: int) {
    var (after, out) := Recover(db, t, now);
    && (out.Done? <==> now < token.expiresAt && !HeldByOther(db, token.email, token.account))
    && (out.Done? ==> Restored(after, token.account, token.email, db.next + 1, now) && Owned(after))
    && (!out.Done? ==> after == db)
  }

  /** Whatever happens between the mail and the click, as long as the token is unused and the account
      exists. */
  lemma RecoveryUndoesTakeover(db: Db, run: seq<Event>, start: int, t: nat, token: RecoveryToken, now: int)
    requires Owned(db) && Holds(db, t, token) && !token.used
    requires Possible(db, run, start) && Unspent(run, t, token.account)
    ensures Recovers(Run(db, run, start), t, token, now)
  {
    hide Consistent, AllHavePrimary, Keyed, Recover, HeldByOther, Restored, Run, Possible, Unspent, Step, WellFormed;
    TokenSurvives(db, run, start, t, token);
    RunKeepsOwned(db, run, start);
    var end := Run(db, run, start);
    RecoverRestores(end, t, now);
    RecoverKeepsOwned(end, t, now);
  }

  /** From `db` on, every run that neither uses the token nor deletes the account ends where the token
      recovers the account. */
  ghost predicate CanBeUndone(db: Db, start: int, t: nat, token: RecoveryToken) {
    forall run, now :: Possible(db, run, start) && Unspent(run, t, token.account)
      ==> Recovers(Run(db, run, start), t, token, now)
  }

  lemma LiveTokenUndoes(db: Db, start: int, t: nat, account: nat, email: string, now: int)
    requires Owned(db) && LiveRecovery(db, t, account, email, now)
    ensures CanBeUndone(db, start, t, db.recoveries[t])
  {
    var token := db.recoveries[t];
    assert Holds(db, t, token);
    hide Owned, Recovers, Unspent, Possible, Run, Holds;
    forall run, at | Possible(db, run, start) && Unspent(run, t, token.account)
      ensures Recovers(Run(db, run, start), t, token, at)
    {
      RecoveryUndoesTakeover(db, run, start, t, token, at);
    }
  }

  /** Whoever moves the primary of an account away, the mail to the old address carries a token that
      undoes it, whatever is done to the account in between. */
  lemma PromotionCanBeUndone(db: Db, actor: nat, emailId: nat, now: int, lag: nat) returns (t: nat)
    requires Owned(db) && Promote(db, actor, emailId, now, lag).1 == Done(Some(db.next))
    ensures var db1 := Promote(db, actor, emailId, now, lag).0;
      && actor in db.accounts && LiveRecovery(db1, t, actor, db.accounts[actor].email, now)
      && CanBeUndone(db1, now + lag, t, db1.recoveries[t])
  {
    hide Owned, Promote, CanBeUndone;
    t := PromoteIssuesRecovery(db, actor, emailId, now, lag);
    PromoteKeepsOwned(db, actor, emailId, now, lag);
    LiveTokenUndoes(Promote(db, actor, emailId, now, lag).0, now + lag, t, actor, db.accounts[actor].email, now);
  }

  /** The same for whoever removes an address. */
  lemma RemovalCanBeUndone(db: Db, actor: nat, emailId: nat, now: int) returns (t: nat)
    requires Owned(db) && Remove(db, actor, emailId, now).1.Done?
    ensures var db1 := Remove(db, actor, emailId, now).0;
      && emailId in db.emails && LiveRecovery(db1, t, actor, db.emails[emailId].email, now)
      && CanBeUndone(db1, now, t, db1.recoveries[t])
  {
    hide Owned, Remove, CanBeUndone;
    t := RemoveIssuesRecovery(db, actor, emailId, now);
    RemoveKeepsOwned(db, actor, emailId, now);
    LiveTokenUndoes(Remove(db, actor, emailId, now).0, now, t, actor, db.emails[emailId].email, now);
  }

  lemma RecoverLeavesToken(db: Db, t: nat, now: int)
    requires Recover(db, t, now).1.Done?
    ensures t in db.recoveries && !db.recoveries[t].used
  {
    hide HeldByOther, OtherRows;
  }

  lemma RecoverKeepsTokensKeyed(db: Db, t: nat, now: int)
    requires TokensKeyed(db)
    ensures TokensKeyed(Recover(db, t, now).0)
  {
    hide HeldByOther, OtherRows;
  }

  lemma ResetSucceeds(db: Db, email: string, token: nat, password: string, now: int, lag: nat)
    requires token in db.resets && !db.resets[token].used && now < db.resets[token].expiresAt
    requires db.resets[token].account in db.accounts && db.accounts[db.resets[token].account].email == email
    ensures ResetPassword(db, email, token, password, now, lag).1.Done?
  {
  }

  /** The reset token that recovery leaves sets a new password within the hour and opens the account's
      only session. */
  lemma RecoverThenReset(db: Db, t: nat, now: int, password: string, at: int, lag: nat)
    requires Owned(db) && TokensKeyed(db) && Recover(db, t, now).1.Done? && now <= at < now + HOUR
    ensures t in db.recoveries
    ensures var db1 := Recover(db, t, now).0;
      var a, email := db.recoveries[t].account, db.recoveries[t].email;
      var (db2, out) := ResetPassword(db1, email, db.next + 1, password, at, lag);
      && out.Done? && out.issued.Some? && OnlySession(db1, db2, a, out.issued.value)
      && a in db2.accounts && db2.accounts[a] == Account(email, password)
  {
    hide Recover, Consistent, AllHavePrimary, Keyed, TokensKeyed, ResetPassword, HeldByOther, OnlySession, RowsOf;
    var db1 := Recover(db, t, now).0;
    RecoverLeavesToken(db, t, now);
    RecoverRestores(db, t, now);
    RecoverKeepsKeyed(db, t, now);
    RecoverKeepsTokensKeyed(db, t, now);
    ResetSucceeds(db1, db.recoveries[t].email, db.next + 1, password, at, lag);
    ResetStartsAfresh(db1, db.recoveries[t].email, db.next + 1, password, at, lag);
  }
}
