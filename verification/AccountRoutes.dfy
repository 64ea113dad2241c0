/** What the account routes ask for and what they hand out, seen from the client: exactly when each is
    granted, what session it opens, and how long its one-time tokens last. */
module AccountRoutes {
  import opened AccountTables
  import opened Options
  import opened Finite
  import opened AccountEmails
  import opened AccountSessions

  // ---- Sessions ----

  /** Token `j` is a session of account `a`: signed for its address, remembered for thirty days or kept
      for twelve hours, and following `parent`. */
  ghost predicate Opened(db: Db, j: nat, a: nat, remember: bool, now: int, parent: Option<nat>) {
    && a in db.accounts && j in db.issued && db.issued[j].account == a && db.issued[j].parent == parent
    && db.issued[j].claims.sub == db.accounts[a].email && db.issued[j].claims.jti == Some(j)
    && db.issued[j].claims.persistent == remember
    && Live(db, j) && db.refreshes[j].account == a
    && db.refreshes[j].expiresAt == (if remember then now + 30 * 24 * HOUR else now + 12 * HOUR)
  }

  lemma IssueOpens(db: Db, a: nat, parent: Option<nat>, remember: bool, now: int, lag: nat)
    requires a in db.accounts
    ensures Opened(IssueToken(db, a, parent, remember, now, lag), db.next, a, remember, now, parent)
  {
  }

  /** Only the primary address with its password logs in, and the session is remembered exactly when
      that was asked for; a refusal does not tell an unknown address from a wrong password. */
  lemma LoginGrantedIff(db: Db, email: string, password: string, remember: bool, now: int, lag: nat, a: nat)
    requires UniqueEmails(db.accounts)
    ensures var (db1, out) := Login(db, email, password, remember, now, lag);
      && (out.Done? <==> exists b :: b in db.accounts && db.accounts[b] == Account(email, password))
      && (out.Done? && a in db.accounts && db.accounts[a].email == email ==>
           out == Done(Some(db.next)) && Opened(db1, db.next, a, remember, now, None))
      && db1.accounts == db.accounts && (!out.Done? ==> db1 == db && out == Rejected(CredentialsError))
  {
    var b := AccountWith(db.accounts, email);
    if b.Some? {
      IssueOpens(db, b.value, None, remember, now, lag);
      hide IssueToken, Opened;
      IssueTables(db, b.value, None, remember, now, lag);
    }
  }

  lemma OwnedIsUnique(db: Db)
    requires Owned(db)
    ensures UniqueEmails(db.accounts)
  {
    forall a, b | a in db.accounts && b in db.accounts && db.accounts[a].email == db.accounts[b].email ensures a == b {
      NobodySharesAnAddress(db, a, b, db.accounts[a].email);
    }
  }

  /** The credentials registered are the ones that log in, and the first session is not remembered. */
  lemma RegisteredLogsIn(db: Db, email: string, password: string, now: int, lag: nat, later: int)
    requires Owned(db) && Register(db, email, password, now, lag).1.Done?
    ensures var (db1, out) := Register(db, email, password, now, lag);
      && db.next in db1.accounts && db1.accounts == db.accounts[db.next := Account(email, password)]
      && out.issued.Some? && Opened(db1, out.issued.value, db.next, false, now, None)
      && forall other :: Login(db1, email, other, false, later, lag).1.Done? <==> other == password
  {
    var db1 := Register(db, email, password, now, lag).0;
    IssueOpens(Registered(db, email, password), db.next, None, false, now, lag);
    IssueTables(Registered(db, email, password), db.next, None, false, now, lag);
    RegisterKeepsOwned(db, email, password, now, lag);
    OwnedIsUnique(db1);
    hide Owned, Opened, IssueToken, Login;
    forall other ensures Login(db1, email, other, false, later, lag).1.Done? <==> other == password {
      LoginGrantedIff(db1, email, other, false, later, lag, db.next);
      assert forall b :: b in db1.accounts && db1.accounts[b].email == email ==> b == db.next;
    }
  }

  /** The presented token's row, of the account its address names. */
  ghost predicate Presents(db: Db, claims: Claims, now: int, j: nat, a: nat) {
    && claims.jti == Some(j) && now < claims.exp
    && j in db.refreshes && db.refreshes[j].account == a && a in db.accounts && db.accounts[a].email == claims.sub
  }

  lemma PresentsFound(db: Db, claims: Claims, now: int)
    requires UniqueEmails(db.accounts) && claims.jti.Some?
    ensures forall j: nat, a: nat :: Presents(db, claims, now, j, a) ==>
              j == claims.jti.value && AccountWith(db.accounts, claims.sub) == Some(a)
  {
  }

  /** A token is rotated exactly while unexpired, unrevoked and its account's; a revoked one is taken as
      theft; any other is refused. The successor is remembered exactly if the token was. */
  lemma RotateGrantedIff(db: Db, claims: Claims, now: int, lag: nat)
    requires UniqueEmails(db.accounts)
    ensures var (db1, out) := Rotate(db, claims, now, lag);
      && (out.Done? <==> exists j, a :: Presents(db, claims, now, j, a) && Live(db, j))
      && (out == ReuseDetected <==> exists j, a :: Presents(db, claims, now, j, a) && !Live(db, j))
      && (out.Done? ==> exists a :: Opened(db1, db.next, a, claims.persistent, now, claims.jti))
      && (out.Rejected? ==> db1 == db && out == Rejected(NotAuthenticated))
  {
    if claims.jti.Some? {
      PresentsFound(db, claims, now);
      var found := AccountWith(db.accounts, claims.sub);
      if found.Some? && claims.jti.value in db.refreshes {
        var a, j := found.value, claims.jti.value;
        IssueOpens(db.(refreshes := Revoke(db.refreshes, j)), a, claims.jti, claims.persistent, now, lag);
        hide Opened, IssueToken, Revoke, RevokeAll, UniqueEmails;
        assert now < claims.exp && db.refreshes[j].account == a ==> Presents(db, claims, now, j, a);
      }
    }
  }

  /** Every token of a lineage is remembered or not as the one it was issued for was. */
  ghost predicate RememberedAlike(issued: map<nat, Issue>) {
    forall j :: j in issued && issued[j].parent.Some? && issued[j].parent.value in issued ==>
      issued[j].claims.persistent == issued[issued[j].parent.value].claims.persistent
  }

  /** A step signs at most one token, a successor only by rotating a token it was signed for. */
  ghost predicate SignsAlike(db: Db, db1: Db) {
    || db1.issued == db.issued
    || exists j ::
         && j in db1.issued && db1.issued == db.issued[j := db1.issued[j]] && db.next <= j
         && (db1.issued[j].parent.Some? ==>
              var p := db1.issued[j].parent.value;
              p in db.issued && db1.issued[j].claims.persistent == db.issued[p].claims.persistent)
  }

  lemma RotateSignsAlike(db: Db, claims: Claims, now: int, lag: nat)
    requires Genuine(db, claims)
    ensures SignsAlike(db, Rotate(db, claims, now, lag).0)
  {
    hide RevokeAll, Revoke, AccountWith;
    var (db1, out) := Rotate(db, claims, now, lag);
    if out.Done? {
      assert db.next in db1.issued;
    }
  }

  lemma RootsSignAlike(db: Db, mid: Db, a: nat, remember: bool, now: int, lag: nat)
    requires a in mid.accounts && mid.issued == db.issued && db.next <= mid.next
    ensures SignsAlike(db, IssueToken(mid, a, None, remember, now, lag))
  {
    var db1 := IssueToken(mid, a, None, remember, now, lag);
    assert mid.next in db1.issued;
  }

  lemma NothingSigned(db: Db, db1: Db)
    requires db1.issued == db.issued
    ensures SignsAlike(db, db1)
  {
  }

  lemma LoginSignsAlike(db: Db, email: string, password: string, remember: bool, now: int, lag: nat)
    ensures SignsAlike(db, Login(db, email, password, remember, now, lag).0)
  {
    var a := AccountWith(db.accounts, email);
    if a.Some? {
      RootsSignAlike(db, db, a.value, remember, now, lag);
    }
    hide IssueToken, SignsAlike;
    NothingSigned(db, db);
  }

  lemma RegisterSignsAlike(db: Db, email: string, password: string, now: int, lag: nat)
    ensures SignsAlike(db, Register(db, email, password, now, lag).0)
  {
    RootsSignAlike(db, Registered(db, email, password), db.next, false, now, lag);
    NothingSigned(db, db);
    hide IssueToken, SignsAlike, Registered, AddressUsed;
  }

  lemma ResetSignsAlike(db: Db, email: string, token: nat, password: string, now: int, lag: nat)
    ensures SignsAlike(db, ResetPassword(db, email, token, password, now, lag).0)
  {
    NothingSigned(db, db);
    if ResetPassword(db, email, token, password, now, lag).1.Done? {
      var a := db.resets[token].account;
      var mid := db.(accounts := db.accounts[a := db.accounts[a].(password := password)],
                     resets := db.resets[token := db.resets[token].(used := true)],
                     refreshes := RevokeAll(db.refreshes, a));
      RootsSignAlike(db, mid, a, false, now, lag);
      hide IssueToken, SignsAlike;
    }
  }

  lemma PromoteSignsAlike(db: Db, actor: nat, emailId: nat, now: int, lag: nat)
    ensures SignsAlike(db, Promote(db, actor, emailId, now, lag).0)
  {
    NothingSigned(db, db);
    if actor in db.accounts && emailId in db.emails {
      PromotedTables(db, actor, emailId);
      hide Promoted, WithRecovery;
      var mid := IssueToken(Promoted(db, actor, emailId), actor, None, false, now, lag);
      RootsSignAlike(db, Promoted(db, actor, emailId), actor, false, now, lag);
      RecoveryTables(mid, actor, db.accounts[actor].email, now);
      hide IssueToken;
    }
  }

  lemma MovesSignNothing(db: Db, e: Event)
    requires WellFormed(db, e) && (e.op.OpRecover? || e.op.OpRemove? || e.op.OpVerifyEmail? || e.op.OpDeleteAccount?)
    ensures Step(db, e).0.issued == db.issued
  {
    hide AddressUsed, OtherRows, HeldByOther, RevokeAll, WellFormed;
  }

  lemma OthersSignNothing(db: Db, e: Event)
    requires WellFormed(db, e) && (e.op.OpLogout? || e.op.OpForgotPassword? || e.op.OpAddEmail? || e.op.OpCleanup?)
    ensures Step(db, e).0.issued == db.issued
  {
    hide AddressUsed, RowsOf, Revoke, WellFormed;
  }

  lemma SeedSignsAlike(db: Db, order: seq<nat>)
    requires forall a :: a in order ==> a in db.accounts
    ensures SignsAlike(db, Seed(db, order).0)
  {
    SeedTokens(db, order);
    NothingSigned(db, Seed(db, order).0);
  }

  lemma StepSignsAlike(db: Db, e: Event)
    requires WellFormed(db, e)
    ensures SignsAlike(db, Step(db, e).0)
  {
    hide SignsAlike, Login, Register, Rotate, ResetPassword, Promote, Seed;
    match e.op {
      case OpLogin(email, password, remember) => LoginSignsAlike(db, email, password, remember, e.now, e.lag);
      case OpRegister(email, password) => RegisterSignsAlike(db, email, password, e.now, e.lag);
      case OpRotate(claims) => RotateSignsAlike(db, claims, e.now, e.lag);
      case OpResetPassword(email, token, password) => ResetSignsAlike(db, email, token, password, e.now, e.lag);
      case OpPromote(actor, emailId) => PromoteSignsAlike(db, actor, emailId, e.now, e.lag);
      case OpSeed(order) => SeedSignsAlike(db, order);
      case _ =>
        if e.op.OpRecover? || e.op.OpRemove? || e.op.OpVerifyEmail? || e.op.OpDeleteAccount? {
          MovesSignNothing(db, e);
        } else {
          OthersSignNothing(db, e);
        }
        hide Step;
        NothingSigned(db, Step(db, e).0);
    }
  }

  lemma SignsKeepAlike(db: Db, db1: Db)
    requires Lineages(db) && RememberedAlike(db.issued) && SignsAlike(db, db1)
    ensures RememberedAlike(db1.issued)
  {
    hide OneSuccessor, SucceededAreDead;
  }

  lemma {:induction false} RunKeepsRemembered(db: Db, run: seq<Event>, start: int)
    requires Lineages(db) && RememberedAlike(db.issued) && Possible(db, run, start)
    ensures RememberedAlike(Run(db, run, start).issued)
    decreases |run|
  {
    if run != [] {
      var db1 := Step(db, run[0]).0;
      LineagesAreKeyed(db);
      hide Lineages, Step, WellFormed, RememberedAlike, SignsAlike, TokenStep;
      StepTokens(db, run[0]);
      TokenStepKeepsLineages(db, db1, Step(db, run[0]).1);
      StepSignsAlike(db, run[0]);
      SignsKeepAlike(db, db1);
      RunKeepsRemembered(db1, run[1..], run[0].now + run[0].lag);
    }
  }

  lemma {:induction false} RootRemembers(issued: map<nat, Issue>, j: nat)
    requires ParentsKnown(issued) && RememberedAlike(issued) && j in issued
    ensures Root(issued, j) in issued && issued[Root(issued, j)].claims.persistent == issued[j].claims.persistent
    decreases j
  {
    if issued[j].parent.Some? {
      RootRemembers(issued, issued[j].parent.value);
    }
  }

  /** Over every run: a token is remembered exactly if the login its lineage started with was. */
  lemma RememberedSinceLogin(db: Db, run: seq<Event>, start: int, j: nat)
    requires Lineages(db) && RememberedAlike(db.issued) && Possible(db, run, start)
    requires j in Run(db, run, start).issued
    ensures var issued := Run(db, run, start).issued;
      Root(issued, j) in issued && issued[Root(issued, j)].claims.persistent == issued[j].claims.persistent
  {
    RunKeepsRemembered(db, run, start);
    RunKeepsLineages(db, run, start);
    var end := Run(db, run, start);
    hide Run, Possible, RememberedAlike;
    RootRemembers(end.issued, j);
  }

  // ---- One-time tokens ----

  /** A new password is set exactly by an unused, unexpired token of the account with that address; all
      sessions end, one that is not remembered is opened, and the token is spent. */
  lemma ResetGrantedIff(db: Db, email: string, token: nat, password: string, now: int, lag: nat)
    ensures var (db1, out) := ResetPassword(db, email, token, password, now, lag);
      && (out.Done? <==> exists a :: LiveReset(db, token, a, now) && a in db.accounts && db.accounts[a].email == email)
      && (out.Done? ==> exists a ::
           && LiveReset(db, token, a, now) && a in db.accounts
           && db1.accounts == db.accounts[a := Account(email, password)] && Opened(db1, db.next, a, false, now, None)
           && (forall j :: Live(db1, j) && j != db.next ==> db1.refreshes[j].account != a)
           && forall b :: !LiveReset(db1, token, b, now))
      && (!out.Done? ==> db1 == db && out == Rejected(CredentialsError))
  {
    var out := ResetPassword(db, email, token, password, now, lag).1;
    if out.Done? {
      var a := db.resets[token].account;
      var mid := db.(accounts := db.accounts[a := db.accounts[a].(password := password)],
                     resets := db.resets[token := db.resets[token].(used := true)],
                     refreshes := RevokeAll(db.refreshes, a));
      IssueOpens(mid, a, None, false, now, lag);
      assert LiveReset(db, token, a, now);
    }
  }

  lemma RecoverGrantedIff(db: Db, token: nat, now: int)
    requires Keyed(db)
    ensures Recover(db, token, now).1 == Rejected(IntegrityError) <==>
      exists a, email :: LiveRecovery(db, token, a, email, now) && HeldByOther(db, email, a)
    ensures Recover(db, token, now).1.Done? <==>
      exists a, email :: LiveRecovery(db, token, a, email, now) && !HeldByOther(db, email, a)
    ensures forall a, email :: Recover(db, token, now).1.Done?
             ==> !LiveRecovery(Recover(db, token, now).0, token, a, email, now)
  {
    hide HeldByOther;
    if token in db.recoveries {
      var t := db.recoveries[token];
      assert LiveRecovery(db, token, t.account, t.email, now) <==> !t.used && now < t.expiresAt;
    }
  }

  /** An address is added exactly by an unused, unexpired token for it, as a verified secondary row,
      while it is still nobody's row; the token is spent. */
  lemma VerifyGrantedIff(db: Db, token: nat, now: int)
    requires Keyed(db)
    ensures var (db1, out) := VerifyEmail(db, token, now);
      && (out.Done? <==> exists a, email :: LiveVerification(db, token, a, email, now)
                          && !AddressUsed(db.emails, email))
      && (out.Done? ==> exists a, email ::
           && LiveVerification(db, token, a, email, now) && !LiveVerification(db1, token, a, email, now)
           && db1.emails == db.emails[db.next := EmailRow(a, email, false, true)])
      && (out == Rejected(EmailAlreadyRegistered) <==>
           exists a, email :: LiveVerification(db, token, a, email, now) && AddressUsed(db.emails, email))
      && db1.accounts == db.accounts && db1.refreshes == db.refreshes && (!out.Done? ==> db1 == db)
  {
    hide AddressUsed;
    if token in db.verifications {
      var v := db.verifications[token];
      assert LiveVerification(db, token, v.account, v.newEmail, now) <==> !v.used && now < v.expiresAt;
    }
  }

  /** A mail that is taken for a known address leaves a reset token that can still be used; a new one
      lasts an hour. Nothing happens otherwise. */
  lemma ForgottenLeavesToken(db: Db, email: string, sent: bool, now: int, a: nat, later: int)
    requires UniqueEmails(db.accounts)
    ensures var (db1, out) := ForgotPassword(db, email, sent, now);
      var known := a in db.accounts && db.accounts[a].email == email;
      && out == Done(None)
      && (known && sent ==> exists t :: LiveReset(db1, t, a, now))
      && (known && sent && (forall t :: !LiveReset(db, t, a, now)) ==>
           (LiveReset(db1, db.next, a, later) <==> later < now + 60 * 60 * SECOND))
      && (!sent || (known && exists t :: LiveReset(db, t, a, now)) ==> db1 == db)
      && ((forall b :: b in db.accounts ==> db.accounts[b].email != email) ==> db1 == db)
  {
    if a in db.accounts && db.accounts[a].email == email && sent && (forall t :: !LiveReset(db, t, a, now)) {
      assert LiveReset(ForgotPassword(db, email, sent, now).0, db.next, a, now);
    }
  }

  /** A verification is asked for exactly for an address nobody has, by an account below the limit; once
      the mail is taken there is a token for it, a new one for an hour. */
  lemma AddEmailGrantedIff(db: Db, actor: nat, newEmail: string, sent: bool, now: int, later: int)
    ensures var (db1, out) := AddEmail(db, actor, newEmail, sent, now);
      && (out.Done? <==>
           && actor in db.accounts && |RowsOf(db.emails, actor)| < MAX_EMAILS_PER_ACCOUNT
           && forall i :: i in db.emails ==> db.emails[i].email != newEmail)
      && (out == Rejected(MaxEmailsReached) <==>
           && actor in db.accounts && |RowsOf(db.emails, actor)| >= MAX_EMAILS_PER_ACCOUNT
           && forall i :: i in db.emails ==> db.emails[i].email != newEmail)
      && (out.Done? && sent ==> exists t :: LiveVerification(db1, t, actor, newEmail, now))
      && (out.Done? && sent && (forall t :: !LiveVerification(db, t, actor, newEmail, now)) ==>
           (LiveVerification(db1, db.next, actor, newEmail, later) <==> later < now + 60 * 60 * SECOND))
      && (!out.Done? || !sent || (exists t :: LiveVerification(db, t, actor, newEmail, now)) ==> db1 == db)
  {
    hide RowsOf;
    if AddEmail(db, actor, newEmail, sent, now).1.Done? && sent
       && forall t :: !LiveVerification(db, t, actor, newEmail, now)
    {
      assert LiveVerification(AddEmail(db, actor, newEmail, sent, now).0, db.next, actor, newEmail, now);
    }
  }

  /** A recovery token, where none was live, lasts a week. */
  lemma RecoveryLastsAWeek(db: Db, account: nat, email: string, now: int, later: int)
    requires forall t :: !LiveRecovery(db, t, account, email, now)
    ensures LiveRecovery(WithRecovery(db, account, email, now), db.next, account, email, later) <==>
      later < now + 7 * 24 * HOUR
  {
  }

  // ---- Spent or expired for good ----

  /** Tokens that were there keep account, address and expiry, and none becomes unused again; none that
      was gone comes back. */
  ghost predicate Aged(db: Db, db1: Db) {
    && db.next <= db1.next
    && (forall t :: t in db1.resets && t < db.next ==>
         t in db.resets && db1.resets[t] == db.resets[t].(used := db1.resets[t].used)
         && (db.resets[t].used ==> db1.resets[t].used))
    && (forall t :: t in db1.recoveries && t < db.next ==>
         t in db.recoveries && db1.recoveries[t] == db.recoveries[t].(used := db1.recoveries[t].used)
         && (db.recoveries[t].used ==> db1.recoveries[t].used))
    && (forall t :: t in db1.verifications && t < db.next ==>
         t in db.verifications && db1.verifications[t] == db.verifications[t].(used := db1.verifications[t].used)
         && (db.verifications[t].used ==> db1.verifications[t].used))
  }

  lemma NothingAges(db: Db, db1: Db)
    requires db1.resets == db.resets && db1.recoveries == db.recoveries && db1.verifications == db.verifications
    requires db.next <= db1.next
    ensures Aged(db, db1)
  {
  }

  lemma SessionsLeaveTokens(db: Db, e: Event)
    requires WellFormed(db, e)
      && (e.op.OpLogin? || e.op.OpRegister? || e.op.OpRotate? || e.op.OpLogout? || e.op.OpCleanup?)
    ensures var db1 := Step(db, e).0;
      && db1.resets == db.resets && db1.recoveries == db.recoveries && db1.verifications == db.verifications
      && db.next <= db1.next
  {
    hide AddressUsed, RevokeAll, Revoke, AccountWith, IssueToken, WellFormed;
    match e.op {
      case OpLogin(email, _, remember) =>
        var a := AccountWith(db.accounts, email);
        if a.Some? {
          IssueTables(db, a.value, None, remember, e.now, e.lag);
        }
      case OpRegister(email, password) =>
        IssueTables(Registered(db, email, password), db.next, None, false, e.now, e.lag);
      case OpRotate(claims) =>
        var a := AccountWith(db.accounts, claims.sub);
        if a.Some? && claims.jti.Some? && claims.jti.value in db.refreshes {
          var mid := db.(refreshes := Revoke(db.refreshes, claims.jti.value));
          IssueTables(mid, a.value, claims.jti, claims.persistent, e.now, e.lag);
        }
      case _ =>
    }
  }

  lemma SessionsAge(db: Db, e: Event)
    requires WellFormed(db, e)
      && (e.op.OpLogin? || e.op.OpRegister? || e.op.OpRotate? || e.op.OpLogout? || e.op.OpCleanup?)
    ensures Aged(db, Step(db, e).0)
  {
    SessionsLeaveTokens(db, e);
    hide Step, WellFormed;
    NothingAges(db, Step(db, e).0);
  }

  lemma ForgottenAges(db: Db, email: string, sent: bool, now: int)
    ensures Aged(db, ForgotPassword(db, email, sent, now).0)
  {
    hide AccountWith;
  }

  lemma AddingAges(db: Db, actor: nat, newEmail: string, sent: bool, now: int)
    ensures Aged(db, AddEmail(db, actor, newEmail, sent, now).0)
  {
    hide AddressUsed, RowsOf;
  }

  lemma VerifyingAges(db: Db, token: nat, now: int)
    ensures Aged(db, VerifyEmail(db, token, now).0)
  {
    hide AddressUsed;
  }

  lemma MailsAge(db: Db, e: Event)
    requires WellFormed(db, e) && (e.op.OpForgotPassword? || e.op.OpAddEmail? || e.op.OpVerifyEmail?)
    ensures Aged(db, Step(db, e).0)
  {
    hide Aged, ForgotPassword, AddEmail, VerifyEmail;
    match e.op {
      case OpForgotPassword(email, sent) => ForgottenAges(db, email, sent, e.now);
      case OpAddEmail(actor, newEmail, sent) => AddingAges(db, actor, newEmail, sent, e.now);
      case OpVerifyEmail(token) => VerifyingAges(db, token, e.now);
    }
  }

  lemma ResettingAges(db: Db, email: string, token: nat, password: string, now: int, lag: nat)
    ensures Aged(db, ResetPassword(db, email, token, password, now, lag).0)
  {
    hide RevokeAll;
  }

  lemma RecoveringAges(db: Db, token: nat, now: int)
    ensures Aged(db, Recover(db, token, now).0)
  {
    hide RevokeAll, HeldByOther, OtherRows;
  }

  lemma DeletingAges(db: Db, actor: nat, email: string, password: string)
    ensures Aged(db, DeleteAccount(db, actor, email, password).0)
  {
    hide OtherRows;
  }

  lemma TokensAge(db: Db, e: Event)
    requires WellFormed(db, e) && (e.op.OpResetPassword? || e.op.OpRecover? || e.op.OpDeleteAccount?)
    ensures Aged(db, Step(db, e).0)
  {
    hide Aged, ResetPassword, Recover, DeleteAccount;
    match e.op {
      case OpResetPassword(email, token, password) => ResettingAges(db, email, token, password, e.now, e.lag);
      case OpRecover(token) => RecoveringAges(db, token, e.now);
      case OpDeleteAccount(actor, email, password) => DeletingAges(db, actor, email, password);
    }
  }

  lemma RecoveryAges(db: Db, mid: Db, account: nat, email: string, now: int)
    requires Aged(db, mid)
    ensures Aged(db, WithRecovery(mid, account, email, now))
  {
  }

  lemma PromotedKeepsTokens(db: Db, a: nat, i: nat, now: int, lag: nat)
    requires a in db.accounts && i in db.emails
    ensures var mid := IssueToken(Promoted(db, a, i), a, None, false, now, lag);
      && mid.resets == db.resets && mid.recoveries == db.recoveries && mid.verifications == db.verifications
      && mid.next == db.next + 1
  {
  }

  lemma MovesAge(db: Db, e: Event)
    requires WellFormed(db, e) && (e.op.OpPromote? || e.op.OpRemove?)
    ensures Aged(db, Step(db, e).0)
  {
    NothingAges(db, db);
    if e.op.actor in db.accounts && e.op.emailId in db.emails {
      var (a, i) := (e.op.actor, e.op.emailId);
      var removed := db.(emails := db.emails - {i});
      NothingAges(db, removed);
      RecoveryAges(db, removed, a, db.emails[i].email, e.now);
      var mid := IssueToken(Promoted(db, a, i), a, None, false, e.now, e.lag);
      PromotedKeepsTokens(db, a, i, e.now, e.lag);
      NothingAges(db, mid);
      RecoveryAges(db, mid, a, db.accounts[a].email, e.now);
      hide Aged, WithRecovery, IssueToken, Promoted;
    }
  }

  lemma {:induction false} SeedAllAges(db: Db, order: seq<nat>)
    requires forall a :: a in order ==> a in db.accounts
    ensures var db1 := SeedAll(db, order);
      && db1.resets == db.resets && db1.recoveries == db.recoveries && db1.verifications == db.verifications
      && db.next <= db1.next
  {
    if order != [] {
      SeedAllAges(db, order[..|order| - 1]);
    }
  }

  lemma SeedAges(db: Db, order: seq<nat>)
    requires forall a :: a in order ==> a in db.accounts
    ensures Aged(db, Seed(db, order).0)
  {
    SeedAllAges(db, order);
    NothingAges(db, Seed(db, order).0);
  }

  lemma SeedStepAges(db: Db, e: Event)
    requires WellFormed(db, e) && e.op.OpSeed?
    ensures Aged(db, Step(db, e).0)
  {
    hide Aged, Seed;
    SeedAges(db, e.op.order);
  }

  lemma StepAges(db: Db, e: Event)
    requires WellFormed(db, e)
    ensures Aged(db, Step(db, e).0)
  {
    hide Step, WellFormed, Aged;
    match e.op {
      case OpForgotPassword(_, _) => MailsAge(db, e);
      case OpAddEmail(_, _, _) => MailsAge(db, e);
      case OpVerifyEmail(_) => MailsAge(db, e);
      case OpResetPassword(_, _, _) => TokensAge(db, e);
      case OpRecover(_) => TokensAge(db, e);
      case OpDeleteAccount(_, _, _) => TokensAge(db, e);
      case OpPromote(_, _) => MovesAge(db, e);
      case OpRemove(_, _) => MovesAge(db, e);
      case OpSeed(order) => SeedStepAges(db, e);
      case _ => SessionsAge(db, e);
    }
  }

  lemma AgedTwice(db: Db, db1: Db, db2: Db)
    requires Aged(db, db1) && Aged(db1, db2)
    ensures Aged(db, db2)
  {
  }

  lemma {:induction false} RunAges(db: Db, run: seq<Event>, start: int)
    requires Possible(db, run, start)
    ensures Aged(db, Run(db, run, start))
    decreases |run|
  {
    NothingAges(db, db);
    hide Aged, Step, WellFormed;
    if run != [] {
      var db1 := Step(db, run[0]).0;
      StepAges(db, run[0]);
      RunAges(db1, run[1..], run[0].now + run[0].lag);
      AgedTwice(db, db1, Run(db1, run[1..], run[0].now + run[0].lag));
    }
  }

  /** A reset token once used, expired or gone never sets a password again, whatever happens since. */
  lemma ResetRefusedForGood(db: Db, run: seq<Event>, start: int, token: nat, now: int, later: int)
    requires Possible(db, run, start) && token < db.next && now <= later && forall a :: !LiveReset(db, token, a, now)
    ensures forall email, password, lag ::
      ResetPassword(Run(db, run, start), email, token, password, later, lag).1.Rejected?
  {
    RunAges(db, run, start);
    var end := Run(db, run, start);
    hide Run, Possible;
    assert token in db.resets ==> !LiveReset(db, token, db.resets[token].account, now);
  }

  lemma RecoveryRefusedForGood(db: Db, run: seq<Event>, start: int, token: nat, now: int, later: int)
    requires Possible(db, run, start) && token < db.next && now <= later
    requires forall a, email :: !LiveRecovery(db, token, a, email, now)
    ensures Recover(Run(db, run, start), token, later).1.Rejected?
  {
    RunAges(db, run, start);
    hide Run, Possible, HeldByOther;
    assert token in db.recoveries ==>
      !LiveRecovery(db, token, db.recoveries[token].account, db.recoveries[token].email, now);
  }

  lemma VerificationRefusedForGood(db: Db, run: seq<Event>, start: int, token: nat, now: int, later: int)
    requires Possible(db, run, start) && token < db.next && now <= later
    requires forall a, email :: !LiveVerification(db, token, a, email, now)
    ensures VerifyEmail(Run(db, run, start), token, later).1.Rejected?
  {
    RunAges(db, run, start);
    hide Run, Possible, AddressUsed;
    assert token in db.verifications ==>
      !LiveVerification(db, token, db.verifications[token].account, db.verifications[token].newEmail, now);
  }

  // ---- Addresses and the account ----

  /** Exactly an account's own secondary rows can be removed, and just that row goes. */
  lemma RemoveGrantedIff(db: Db, actor: nat, emailId: nat, now: int)
    ensures var (db1, out) := Remove(db, actor, emailId, now);
      && (out.Done? <==> actor in db.accounts && emailId in RowsOf(db.emails, actor) && !db.emails[emailId].isPrimary)
      && (out.Done? ==>
           && db1.emails.Keys == db.emails.Keys - {emailId}
           && forall i :: i in db1.emails ==> db1.emails[i] == db.emails[i])
      && (out == Rejected(CannotRemovePrimary) <==>
           actor in db.accounts && emailId in RowsOf(db.emails, actor) && db.emails[emailId].isPrimary)
      && db1.accounts == db.accounts && db1.refreshes == db.refreshes && (!out.Done? ==> db1 == db)
  {
    if actor in db.accounts && emailId in db.emails {
      RecoveryTables(db.(emails := db.emails - {emailId}), actor, db.emails[emailId].email, now);
      hide WithRecovery;
    }
  }

  lemma PrimariesVerified(db: Db)
    requires Owned(db)
    ensures forall i :: i in db.emails && db.emails[i].isPrimary ==> db.emails[i].verified
  {
    forall i | i in db.emails && db.emails[i].isPrimary ensures db.emails[i].verified {
      var p := OnePrimaryEach(db, db.emails[i].account);
    }
  }

  lemma PrimaryIsPrimary(db: Db, a: nat, i: nat)
    requires Owned(db) && a in db.accounts && i in db.emails && db.emails[i].account == a && db.emails[i].isPrimary
    ensures IsThePrimary(db, a, i)
  {
    var p := OnePrimaryEach(db, a);
  }

  lemma PromotedIsPrimary(db: Db, a: nat, i: nat, now: int, lag: nat)
    requires Owned(db) && Promote(db, a, i, now, lag).1 == Done(Some(db.next))
    ensures var db1 := Promote(db, a, i, now, lag).0;
      IsThePrimary(db1, a, i) && db1.accounts[a].email == db.emails[i].email
  {
    PromotedTables(db, a, i);
    assert Promoted(db, a, i).emails[i] == db.emails[i].(isPrimary := true);
    var mid := IssueToken(Promoted(db, a, i), a, None, false, now, lag);
    IssueTables(Promoted(db, a, i), a, None, false, now, lag);
    RecoveryTables(mid, a, db.accounts[a].email, now);
    hide Owned, Promoted, IssueToken, WithRecovery;
    var db1 := Promote(db, a, i, now, lag).0;
    assert a in db1.accounts && i in db1.emails && db1.emails[i].account == a && db1.emails[i].isPrimary;
    PromoteKeepsOwned(db, a, i, now, lag);
    hide Promote;
    PrimaryIsPrimary(db1, a, i);
  }

  lemma PromotedOpens(db: Db, a: nat, i: nat, now: int, lag: nat)
    requires Owned(db) && Promote(db, a, i, now, lag).1 == Done(Some(db.next))
    ensures Opened(Promote(db, a, i, now, lag).0, db.next, a, false, now, None)
  {
    PromotedTables(db, a, i);
    var mid := IssueToken(Promoted(db, a, i), a, None, false, now, lag);
    IssueOpens(Promoted(db, a, i), a, None, false, now, lag);
    RecoveryTables(mid, a, db.accounts[a].email, now);
    hide Owned, Promoted, IssueToken, WithRecovery;
  }

  /** Exactly an account's own verified rows can be its primary; the new one is, and the only session left
      is one that is not remembered. */
  lemma PromoteGrantedIff(db: Db, actor: nat, emailId: nat, now: int, lag: nat)
    requires Owned(db)
    ensures var (db1, out) := Promote(db, actor, emailId, now, lag);
      && (out.Done? <==> actor in db.accounts && emailId in RowsOf(db.emails, actor) && db.emails[emailId].verified)
      && (out.Done? ==> IsThePrimary(db1, actor, emailId) && db1.accounts[actor].email == db.emails[emailId].email)
      && (out == Rejected(EmailNotVerified) <==>
           actor in db.accounts && emailId in RowsOf(db.emails, actor) && !db.emails[emailId].verified)
      && (out.Done? && !db.emails[emailId].isPrimary ==> Opened(db1, db.next, actor, false, now, None))
      && (out.Rejected? ==> db1 == db)
  {
    PrimariesVerified(db);
    hide Promoted, IssueToken, WithRecovery;
    if actor in db.accounts && emailId in RowsOf(db.emails, actor) && db.emails[emailId].verified {
      if db.emails[emailId].isPrimary {
        PrimaryIsPrimary(db, actor, emailId);
      } else {
        PromoteNeverConflicts(db, actor, emailId, now, lag);
        PromoteKeepsOwned(db, actor, emailId, now, lag);
        PromotedOpens(db, actor, emailId, now, lag);
        PromotedIsPrimary(db, actor, emailId, now, lag);
      }
    }
  }

  /** What is left of each table is what is not the account's. */
  ghost predicate Purged(db: Db, db1: Db, a: nat) {
    && (forall b :: b in db1.accounts <==> b in db.accounts && b != a)
    && (forall b :: b in db1.accounts ==> db1.accounts[b] == db.accounts[b])
    && (forall i :: i in db1.emails <==> i in db.emails && db.emails[i].account != a)
    && (forall i :: i in db1.emails ==> db1.emails[i] == db.emails[i])
    && (forall t :: t in db1.verifications <==> t in db.verifications && db.verifications[t].account != a)
    && (forall t :: t in db1.verifications ==> db1.verifications[t] == db.verifications[t])
    && (forall t :: t in db1.recoveries <==> t in db.recoveries && db.recoveries[t].account != a)
    && (forall t :: t in db1.recoveries ==> db1.recoveries[t] == db.recoveries[t])
    && (forall t :: t in db1.resets <==> t in db.resets && db.resets[t].account != a)
    && (forall t :: t in db1.resets ==> db1.resets[t] == db.resets[t])
    && (forall j :: j in db1.refreshes <==> j in db.refreshes && db.refreshes[j].account != a)
    && (forall j :: j in db1.refreshes ==> db1.refreshes[j] == db.refreshes[j])
  }

  /** An account is deleted exactly with its own address and password; nothing of it is left, and nothing
      else goes. */
  lemma DeleteGrantedIff(db: Db, actor: nat, email: string, password: string)
    ensures var (db1, out) := DeleteAccount(db, actor, email, password);
      && (out.Done? <==> actor in db.accounts && db.accounts[actor] == Account(email, password))
      && (out == Rejected(PasswordError) <==>
           actor in db.accounts && db.accounts[actor].email == email && db.accounts[actor].password != password)
      && (out.Done? ==> Purged(db, db1, actor))
      && (!out.Done? ==> db1 == db)
  {
  }

  /** Of all sessions exactly the presented one ends, while its token is unexpired. */
  lemma LogoutEndsExactly(db: Db, claims: Claims, now: int, j: nat)
    ensures var (db1, out) := Logout(db, claims, now);
      && out == Done(None) && db1.accounts == db.accounts && db1.issued == db.issued
      && (Live(db1, j) <==> Live(db, j) && !(claims.jti == Some(j) && now < claims.exp))
  {
  }
}
