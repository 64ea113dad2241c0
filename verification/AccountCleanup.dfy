/** Deleting expired refresh-token rows: when it can be noticed, and when it cannot. */
module AccountCleanup {
  import opened AccountTables
  import opened Options
  import opened AccountSessions

  /** `less` is `more` without some rows whose tokens are past their signed expiry. */
  ghost predicate Lacks(more: Db, less: Db, clock: int) {
    && less == more.(refreshes := less.refreshes)
    && (forall j :: j in less.refreshes ==> j in more.refreshes && less.refreshes[j] == more.refreshes[j])
    && (forall j :: j in more.refreshes && j !in less.refreshes
         ==> j in more.issued && more.issued[j].claims.exp <= clock)
  }

  ghost function Outcomes(db: Db, run: seq<Event>, start: int): seq<Outcome>
    requires Possible(db, run, start)
    decreases |run|
  {
    if run == [] then []
    else [Step(db, run[0]).1] + Outcomes(Step(db, run[0]).0, run[1..], run[0].now + run[0].lag)
  }

  lemma LacksWellFormed(more: Db, less: Db, clock: int, e: Event)
    requires Lacks(more, less, clock)
    ensures WellFormed(more, e) <==> WellFormed(less, e)
  {
  }

  lemma IssueLacks(more: Db, less: Db, clock: int, account: nat, parent: Option<nat>, persistent: bool, now: int,
    lag: nat)
    requires Lacks(more, less, clock) && account in more.accounts && more.next !in more.refreshes
    requires forall j :: j in more.issued ==> j < more.next
    ensures Lacks(IssueToken(more, account, parent, persistent, now, lag),
                  IssueToken(less, account, parent, persistent, now, lag), clock)
  {
  }

  lemma RevokeAllLacks(more: Db, less: Db, clock: int, account: nat)
    requires Lacks(more, less, clock)
    ensures Lacks(more.(refreshes := RevokeAll(more.refreshes, account)),
                  less.(refreshes := RevokeAll(less.refreshes, account)), clock)
  {
  }

  lemma NextIsFree(db: Db)
    requires TokensKeyed(db)
    ensures forall n :: n >= db.next ==> n !in db.refreshes && n !in db.issued
  {
  }

  lemma LacksTables(more: Db, less: Db, clock: int)
    requires Lacks(more, less, clock)
    ensures less.accounts == more.accounts && less.emails == more.emails && less.next == more.next
      && less.issued == more.issued
  {
  }

  lemma LacksRow(more: Db, less: Db, clock: int, j: nat)
    requires Lacks(more, less, clock) && j in more.issued && more.issued[j].claims.exp > clock
    ensures j in more.refreshes <==> j in less.refreshes
    ensures j in more.refreshes ==> more.refreshes[j] == less.refreshes[j]
  {
  }

  lemma RevokeLacks(more: Db, less: Db, clock: int, j: nat)
    requires Lacks(more, less, clock) && TokensKeyed(more) && j in more.refreshes && j in less.refreshes
    ensures Lacks(more.(refreshes := Revoke(more.refreshes, j)), less.(refreshes := Revoke(less.refreshes, j)), clock)
    ensures Revoke(more.refreshes, j).Keys == more.refreshes.Keys
  {
  }

  /** A presented token that is still within its lifetime is one whose row cannot be missing. */
  lemma RotateLacks(more: Db, less: Db, clock: int, claims: Claims, now: int, lag: nat)
    requires Lacks(more, less, clock) && TokensKeyed(more) && Genuine(more, claims) && clock <= now
    ensures Rotate(more, claims, now, lag).1 == Rotate(less, claims, now, lag).1
    ensures Lacks(Rotate(more, claims, now, lag).0, Rotate(less, claims, now, lag).0, clock)
  {
    hide IssueToken, Lacks, TokensKeyed, RevokeAll, Revoke;
    LacksTables(more, less, clock);
    var a := AccountWith(more.accounts, claims.sub);
    if ClaimsValid(claims, now) && claims.jti.Some? && a.Some? {
      var j := claims.jti.value;
      LacksRow(more, less, clock, j);
      RevokeAllLacks(more, less, clock, a.value);
      if j in more.refreshes {
        RevokeLacks(more, less, clock, j);
        NextIsFree(more);
        IssueLacks(more.(refreshes := Revoke(more.refreshes, j)), less.(refreshes := Revoke(less.refreshes, j)), clock,
                   a.value, Some(j), claims.persistent, now, lag);
      }
    }
  }

  lemma LogoutLacks(more: Db, less: Db, clock: int, claims: Claims, now: int)
    requires Lacks(more, less, clock) && Genuine(more, claims) && clock <= now
    ensures Logout(more, claims, now).1 == Logout(less, claims, now).1
    ensures Lacks(Logout(more, claims, now).0, Logout(less, claims, now).0, clock)
  {
  }

  // ---- The other routes never look at a row that can be missing ----

  /** Two table states that only differ in refresh-token rows answer alike and stay so. */
  ghost predicate Alike(more: Db, less: Db, e: Event, clock: int)
    requires WellFormed(more, e) && WellFormed(less, e)
  {
    Step(more, e).1 == Step(less, e).1 && Lacks(Step(more, e).0, Step(less, e).0, clock)
  }

  lemma RegisteredLacks(more: Db, less: Db, clock: int, email: string, password: string)
    requires Lacks(more, less, clock)
    ensures Lacks(Registered(more, email, password), Registered(less, email, password), clock)
  {
  }

  lemma LoginAlike(more: Db, less: Db, e: Event, clock: int)
    requires Lacks(more, less, clock) && TokensKeyed(more) && (e.op.OpLogin? || e.op.OpRegister?)
    ensures Alike(more, less, e, clock)
  {
    hide IssueToken, AddressUsed, TokensKeyed, Lacks;
    NextIsFree(more);
    LacksTables(more, less, clock);
    match e.op {
      case OpLogin(email, password, persistent) =>
        var a := AccountWith(more.accounts, email);
        if a.Some? {
          IssueLacks(more, less, clock, a.value, None, persistent, e.now, e.lag);
        }
      case OpRegister(email, password) =>
        RegisteredLacks(more, less, clock, email, password);
        IssueLacks(Registered(more, email, password), Registered(less, email, password), clock, more.next, None, false,
          e.now, e.lag);
    }
  }

  lemma RevokeAllKeys(refreshes: map<nat, RefreshToken>, account: nat)
    ensures RevokeAll(refreshes, account).Keys == refreshes.Keys
  {
  }

  lemma ResetAlike(more: Db, less: Db, e: Event, clock: int)
    requires Lacks(more, less, clock) && TokensKeyed(more) && e.op.OpResetPassword?
    ensures Alike(more, less, e, clock)
  {
    hide IssueToken, TokensKeyed, RevokeAll;
    NextIsFree(more);
    if e.op.token in more.resets && more.resets[e.op.token].account in more.accounts {
      var a := more.resets[e.op.token].account;
      RevokeAllLacks(more, less, clock, a);
      RevokeAllKeys(more.refreshes, a);
      var accounts := more.accounts[a := more.accounts[a].(password := e.op.password)];
      var resets := more.resets[e.op.token := more.resets[e.op.token].(used := true)];
      IssueLacks(more.(accounts := accounts, resets := resets, refreshes := RevokeAll(more.refreshes, a)),
                 less.(accounts := accounts, resets := resets, refreshes := RevokeAll(less.refreshes, a)),
                 clock, a, None, false, e.now, e.lag);
    }
  }

  lemma PromotedLacks(more: Db, less: Db, clock: int, actor: nat, emailId: nat)
    requires Lacks(more, less, clock) && actor in more.accounts && emailId in more.emails
    ensures Lacks(Promoted(more, actor, emailId), Promoted(less, actor, emailId), clock)
    ensures Promoted(more, actor, emailId).refreshes.Keys == more.refreshes.Keys
    ensures Promoted(more, actor, emailId).issued == more.issued && Promoted(more, actor, emailId).next == more.next
    ensures actor in Promoted(more, actor, emailId).accounts
  {
    RevokeAllKeys(more.refreshes, actor);
  }

  lemma WithRecoveryLacks(more: Db, less: Db, clock: int, account: nat, email: string, now: int)
    requires Lacks(more, less, clock)
    ensures Lacks(WithRecovery(more, account, email, now), WithRecovery(less, account, email, now), clock)
  {
    assert forall t :: LiveRecovery(more, t, account, email, now) <==> LiveRecovery(less, t, account, email, now);
  }

  lemma PromoteAlike(more: Db, less: Db, e: Event, clock: int)
    requires Lacks(more, less, clock) && TokensKeyed(more) && e.op.OpPromote?
    ensures Alike(more, less, e, clock)
  {
    hide IssueToken, TokensKeyed, Promoted, WithRecovery, Lacks;
    LacksTables(more, less, clock);
    NextIsFree(more);
    var actor, emailId := e.op.actor, e.op.emailId;
    if actor in more.accounts && emailId in more.emails {
      PromotedLacks(more, less, clock, actor, emailId);
      IssueLacks(Promoted(more, actor, emailId), Promoted(less, actor, emailId), clock, actor, None, false, e.now,
        e.lag);
      WithRecoveryLacks(IssueToken(Promoted(more, actor, emailId), actor, None, false, e.now, e.lag),
                        IssueToken(Promoted(less, actor, emailId), actor, None, false, e.now, e.lag),
                        clock, actor, more.accounts[actor].email, e.now);
    }
  }

  lemma RemoveAlike(more: Db, less: Db, e: Event, clock: int)
    requires Lacks(more, less, clock) && e.op.OpRemove?
    ensures Alike(more, less, e, clock)
  {
    hide WithRecovery;
    var actor, emailId := e.op.actor, e.op.emailId;
    if actor in more.accounts && emailId in more.emails {
      WithRecoveryLacks(more.(emails := more.emails - {emailId}), less.(emails := less.emails - {emailId}),
                        clock, actor, more.emails[emailId].email, e.now);
    }
  }

  lemma RecoverAlike(more: Db, less: Db, e: Event, clock: int)
    requires Lacks(more, less, clock) && e.op.OpRecover?
    ensures Alike(more, less, e, clock)
  {
    assert forall email, a :: HeldByOther(more, email, a) == HeldByOther(less, email, a);
    hide HeldByOther, OtherRows;
  }

  lemma MailAlike(more: Db, less: Db, e: Event, clock: int)
    requires Lacks(more, less, clock) && (e.op.OpForgotPassword? || e.op.OpVerifyEmail?)
    ensures Alike(more, less, e, clock)
  {
    hide AddressUsed, RowsOf;
    assert forall t, a, now :: LiveReset(more, t, a, now) <==> LiveReset(less, t, a, now);
    hide LiveReset;
  }

  lemma AddEmailAlike(more: Db, less: Db, e: Event, clock: int)
    requires Lacks(more, less, clock) && e.op.OpAddEmail?
    ensures Alike(more, less, e, clock)
  {
    hide AddressUsed, RowsOf;
    assert forall t, a, email, now :: LiveVerification(more, t, a, email, now)
            <==> LiveVerification(less, t, a, email, now);
    hide LiveVerification;
  }

  lemma {:induction false} SeedAllLacks(more: Db, less: Db, clock: int, order: seq<nat>)
    requires Lacks(more, less, clock) && forall a :: a in order ==> a in more.accounts
    ensures Lacks(SeedAll(more, order), SeedAll(less, order), clock)
  {
    if order != [] {
      SeedAllLacks(more, less, clock, order[..|order| - 1]);
    }
  }

  lemma RowsGoAlike(more: Db, less: Db, e: Event, clock: int)
    requires Lacks(more, less, clock) && (e.op.OpDeleteAccount? || e.op.OpCleanup?)
    ensures Alike(more, less, e, clock)
  {
    hide OtherRows;
  }

  lemma SeedAlike(more: Db, less: Db, e: Event, clock: int)
    requires Lacks(more, less, clock) && e.op.OpSeed? && WellFormed(more, e) && WellFormed(less, e)
    ensures Alike(more, less, e, clock)
  {
    SeedAllLacks(more, less, clock, e.op.order);
  }

  lemma StepAlike(more: Db, less: Db, e: Event, clock: int)
    requires Lacks(more, less, clock) && TokensKeyed(more) && clock <= e.now
    requires WellFormed(more, e) && WellFormed(less, e)
    ensures Alike(more, less, e, clock)
  {
    hide Lacks, TokensKeyed, Rotate, Logout;
    match e.op {
      case OpRotate(claims) => RotateLacks(more, less, clock, claims, e.now, e.lag);
      case OpLogout(claims) => LogoutLacks(more, less, clock, claims, e.now);
      case OpPromote(_, _) => PromoteAlike(more, less, e, clock);
      case OpRemove(_, _) => RemoveAlike(more, less, e, clock);
      case OpRecover(_) => RecoverAlike(more, less, e, clock);
      case OpSeed(order) => SeedAlike(more, less, e, clock);
      case OpResetPassword(_, _, _) => ResetAlike(more, less, e, clock);
      case OpLogin(_, _, _) => LoginAlike(more, less, e, clock);
      case OpRegister(_, _) => LoginAlike(more, less, e, clock);
      case OpDeleteAccount(_, _, _) => RowsGoAlike(more, less, e, clock);
      case OpCleanup => RowsGoAlike(more, less, e, clock);
      case OpAddEmail(_, _, _) => AddEmailAlike(more, less, e, clock);
      case _ => MailAlike(more, less, e, clock);
    }
  }

  lemma {:induction false} RunsAlike(more: Db, less: Db, run: seq<Event>, clock: int, start: int)
    requires Lacks(more, less, clock) && Lineages(more) && clock <= start && Possible(more, run, start)
    ensures Possible(less, run, start) && Outcomes(less, run, start) == Outcomes(more, run, start)
    ensures Lacks(Run(more, run, start), Run(less, run, start), clock)
    decreases |run|
  {
    if run != [] {
      hide Lacks, Lineages, Step, WellFormed, TokenStep;
      LineagesAreKeyed(more);
      LacksWellFormed(more, less, clock, run[0]);
      StepAlike(more, less, run[0], clock);
      StepTokens(more, run[0]);
      TokenStepKeepsLineages(more, Step(more, run[0]).0, Step(more, run[0]).1);
      RunsAlike(Step(more, run[0]).0, Step(less, run[0]).0, run[1..], clock, run[0].now + run[0].lag);
    }
  }

  // ---- Cleanup ----

  /** Rows a cleanup at `c` deletes belong to tokens that can no longer be presented. */
  ghost predicate OnlyDeadRowsExpire(db: Db, c: int) {
    forall j :: j in db.refreshes && db.refreshes[j].expiresAt < c ==> j in db.issued && db.issued[j].claims.exp <= c
  }

  /** Then no continuation, however long, can tell: every later answer of every route is the same. */
  lemma CleanupInvisible(db: Db, c: int, run: seq<Event>)
    requires Lineages(db) && OnlyDeadRowsExpire(db, c) && Possible(db, run, c)
    ensures Possible(Cleanup(db, c).0, run, c)
    ensures Outcomes(Cleanup(db, c).0, run, c) == Outcomes(db, run, c)
  {
    assert Lacks(db, Cleanup(db, c).0, c);
    RunsAlike(db, Cleanup(db, c).0, run, c, c);
  }

  lemma WholeSecondsShift(t: int, seconds: int)
    ensures WholeSeconds(t + seconds * SECOND) == WholeSeconds(t) + seconds * SECOND
  {
  }

  /** The signed expiry is no later than the row's exactly when no second begins between the two clock
      reads that produce them. */
  lemma ExpiryWithinRowIff(db: Db, account: nat, parent: Option<nat>, persistent: bool, now: int, lag: nat)
    requires account in db.accounts
    ensures var db1 := IssueToken(db, account, parent, persistent, now, lag);
      db1.issued[db.next].claims.exp <= db1.refreshes[db.next].expiresAt <==> WholeSeconds(now + lag) <= now
  {
    WholeSecondsShift(now + lag, Lifetime(persistent) / SECOND);
  }

  /** Every signed expiry is within its row's. */
  ghost predicate ExpiriesWithinRows(db: Db) {
    forall j :: j in db.refreshes ==> j in db.issued && db.issued[j].claims.exp <= db.refreshes[j].expiresAt
  }

  lemma IssueRows(db: Db, account: nat, parent: Option<nat>, persistent: bool, now: int, lag: nat)
    requires account in db.accounts
    ensures var db1 := IssueToken(db, account, parent, persistent, now, lag);
      db.next in db1.refreshes && db.next in db1.issued
  {
  }

  lemma PromoteExpiry(db: Db, actor: nat, emailId: nat, now: int, lag: nat, j: nat)
    requires Promote(db, actor, emailId, now, lag).1 == Done(Some(j))
    ensures var db1 := Promote(db, actor, emailId, now, lag).0;
      && j in db1.refreshes && j in db1.issued
      && (db1.issued[j].claims.exp <= db1.refreshes[j].expiresAt <==> WholeSeconds(now + lag) <= now)
  {
    hide WholeSeconds, IssueToken, Promoted, WithRecovery;
    var mid := Promoted(db, actor, emailId);
    PromotedTables(db, actor, emailId);
    ExpiryWithinRowIff(mid, actor, None, false, now, lag);
    IssueRows(mid, actor, None, false, now, lag);
    RecoveryTables(IssueToken(mid, actor, None, false, now, lag), actor, db.accounts[actor].email, now);
  }

  lemma SessionExpiry(db: Db, e: Event, j: nat)
    requires WellFormed(db, e) && Step(db, e).1 == Done(Some(j)) && (e.op.OpLogin? || e.op.OpRotate?)
    ensures var db1 := Step(db, e).0;
      && j in db1.refreshes && j in db1.issued
      && (db1.issued[j].claims.exp <= db1.refreshes[j].expiresAt <==> WholeSeconds(e.now + e.lag) <= e.now)
  {
    hide WholeSeconds, RevokeAll, Revoke;
    WholeSecondsShift(e.now + e.lag, 30 * DAY / SECOND);
    WholeSecondsShift(e.now + e.lag, 12 * HOUR / SECOND);
  }

  lemma PasswordExpiry(db: Db, e: Event, j: nat)
    requires WellFormed(db, e) && Step(db, e).1 == Done(Some(j)) && (e.op.OpRegister? || e.op.OpResetPassword?)
    ensures var db1 := Step(db, e).0;
      && j in db1.refreshes && j in db1.issued
      && (db1.issued[j].claims.exp <= db1.refreshes[j].expiresAt <==> WholeSeconds(e.now + e.lag) <= e.now)
  {
    hide WholeSeconds, RevokeAll, AddressUsed;
    WholeSecondsShift(e.now + e.lag, 12 * HOUR / SECOND);
  }

  lemma IssuedExpiry(db: Db, e: Event, j: nat)
    requires WellFormed(db, e) && Step(db, e).1 == Done(Some(j))
    ensures var db1 := Step(db, e).0;
      && j in db1.refreshes && j in db1.issued
      && (db1.issued[j].claims.exp <= db1.refreshes[j].expiresAt <==> WholeSeconds(e.now + e.lag) <= e.now)
  {
    hide WholeSeconds, Login, Rotate, Register, ResetPassword, Promote, AddressUsed;
    match e.op {
      case OpPromote(actor, emailId) => PromoteExpiry(db, actor, emailId, e.now, e.lag, j);
      case OpLogin(_, _, _) => SessionExpiry(db, e, j);
      case OpRotate(_) => SessionExpiry(db, e, j);
      case OpRegister(_, _) => PasswordExpiry(db, e, j);
      case OpResetPassword(_, _, _) => PasswordExpiry(db, e, j);
      case _ =>
    }
  }

  lemma StepKeepsWithin(db: Db, e: Event)
    requires TokensKeyed(db) && WellFormed(db, e) && ExpiriesWithinRows(db)
    requires WholeSeconds(e.now + e.lag) <= e.now
    ensures ExpiriesWithinRows(Step(db, e).0)
  {
    hide Step, WholeSeconds, WellFormed;
    StepTokens(db, e);
    var (db1, out) := Step(db, e);
    if out.Done? && out.issued.Some? {
      IssuedExpiry(db, e, out.issued.value);
      assert forall i :: i in db1.refreshes && i != out.issued.value ==> i in db1.refreshes - {out.issued.value};
    }
  }

  /** So on a run whose events each fall within one second, no cleanup is ever noticed. */
  lemma {:induction false} RunKeepsWithin(db: Db, run: seq<Event>, start: int)
    requires Lineages(db) && ExpiriesWithinRows(db) && Possible(db, run, start)
    requires forall i :: 0 <= i < |run| ==> WholeSeconds(run[i].now + run[i].lag) <= run[i].now
    ensures ExpiriesWithinRows(Run(db, run, start)) && forall c :: OnlyDeadRowsExpire(Run(db, run, start), c)
    decreases |run|
  {
    if run != [] {
      hide Step, WholeSeconds, Lineages, TokenStep;
      LineagesAreKeyed(db);
      StepTokens(db, run[0]);
      TokenStepKeepsLineages(db, Step(db, run[0]).0, Step(db, run[0]).1);
      StepKeepsWithin(db, run[0]);
      RunKeepsWithin(Step(db, run[0]).0, run[1..], run[0].now + run[0].lag);
    }
  }

  /** The row of token `j` is past its expiry while the token itself can still be presented. */
  ghost predicate OutlivesRow(db: Db, j: nat, c: int) {
    && j in db.refreshes && j in db.issued && db.refreshes[j].expiresAt < c < db.issued[j].claims.exp
    && AccountWith(db.accounts, db.issued[j].claims.sub) == Some(db.refreshes[j].account)
  }

  ghost predicate AnsweredDifferently(db: Db, claims: Claims, c: int, lag: nat) {
    Genuine(db, claims) && Rotate(db, claims, c, lag).1 != Rotate(Cleanup(db, c).0, claims, c, lag).1
  }

  lemma DifferentIffOutlives(db: Db, claims: Claims, c: int, lag: nat)
    requires Lineages(db) && Genuine(db, claims)
    ensures AnsweredDifferently(db, claims, c, lag) <==> claims.jti.Some? && OutlivesRow(db, claims.jti.value, c)
  {
    hide IssueToken, RevokeAll;
  }

  /** Otherwise a client can notice at once: some token is answered differently right after a cleanup
      exactly when a deleted row's token is still within its signed lifetime and its account still
      goes by the address in it. */
  lemma CleanupVisibleIff(db: Db, c: int, lag: nat)
    requires Lineages(db)
    ensures (exists claims :: AnsweredDifferently(db, claims, c, lag)) <==> (exists j :: OutlivesRow(db, j, c))
  {
    if j :| OutlivesRow(db, j, c) {
      DifferentIffOutlives(db, db.issued[j].claims, c, lag);
    }
    if claims :| AnsweredDifferently(db, claims, c, lag) {
      DifferentIffOutlives(db, claims, c, lag);
    }
  }

  /** It does happen, from empty tables: an account registered with clock reads 20 microseconds apart
      across a second, and a cleanup 5 after its row's expiry. */
  lemma CleanupCanBeNoticed()
    ensures var empty := Db(map[], map[], map[], map[], map[], map[], map[], 0);
      var (db, out) := Register(empty, "a", "p", SECOND - 10, 20);
      var c := SECOND - 5 + 12 * HOUR;
      && out == Done(Some(2)) && Lineages(db) && Genuine(db, db.issued[2].claims)
      && Rotate(db, db.issued[2].claims, c, 0).1 == Done(Some(3))
      && Rotate(Cleanup(db, c).0, db.issued[2].claims, c, 0).1 == Rejected(NotAuthenticated)
  {
    var empty := Db(map[], map[], map[], map[], map[], map[], map[], 0);
    var db := Register(empty, "a", "p", SECOND - 10, 20).0;
    assert db.issued[2] == Issue(0, Claims("a", Some(2), false, SECOND + 12 * HOUR), None);
    assert db.refreshes[2] == RefreshToken(0, SECOND - 10 + 12 * HOUR, false);
    assert db.accounts[0].email == "a";
  }
}
