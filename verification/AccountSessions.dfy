/** Refresh-token rotation with reuse detection (section 4.14 of RFC 9700): who can hold a usable
    token, on every run. */
module AccountSessions {
  import opened AccountTables
  import opened Options

  predicate Live(db: Db, j: nat) {
    j in db.refreshes && !db.refreshes[j].revoked
  }

  // ---- The invariant ----

  ghost predicate TokensKeyed(db: Db) {
    && (forall j :: j in db.issued ==> j < db.next && db.issued[j].claims.jti == Some(j))
    && (forall j :: j in db.refreshes ==> j in db.issued && db.refreshes[j].account == db.issued[j].account)
  }

  ghost predicate ParentsKnown(issued: map<nat, Issue>) {
    forall j :: j in issued && issued[j].parent.Some? ==>
      var p := issued[j].parent.value;
      p < j && p in issued && issued[p].account == issued[j].account
  }

  /** At most one successor each. */
  ghost predicate OneSuccessor(issued: map<nat, Issue>) {
    forall i, j :: i in issued && j in issued && issued[i].parent.Some? && issued[i].parent == issued[j].parent
      ==> i == j
  }

  /** A token that has a successor is not usable. */
  ghost predicate SucceededAreDead(db: Db) {
    forall j :: j in db.issued && db.issued[j].parent.Some? ==> !Live(db, db.issued[j].parent.value)
  }

  ghost predicate Lineages(db: Db) {
    TokensKeyed(db) && ParentsKnown(db.issued) && OneSuccessor(db.issued) && SucceededAreDead(db)
  }

  lemma LineagesAreKeyed(db: Db)
    requires Lineages(db)
    ensures TokensKeyed(db)
  {
  }

  // ---- One live token per lineage ----

  /** The token a chain of rotations started from. */
  function Root(issued: map<nat, Issue>, j: nat): nat
    decreases j
  {
    if j in issued && issued[j].parent.Some? && issued[j].parent.value < j then Root(issued, issued[j].parent.value)
    else j
  }

  /** `a` is `j` or one of the tokens `j` descends from. */
  predicate Descends(issued: map<nat, Issue>, j: nat, a: nat)
    decreases j
  {
    j == a || (j in issued && issued[j].parent.Some? && issued[j].parent.value < j
      && Descends(issued, issued[j].parent.value, a))
  }

  lemma {:induction false} DescendsFromRoot(issued: map<nat, Issue>, j: nat)
    ensures Descends(issued, j, Root(issued, j))
    decreases j
  {
    if j in issued && issued[j].parent.Some? && issued[j].parent.value < j {
      DescendsFromRoot(issued, issued[j].parent.value);
    }
  }

  /** A proper ancestor has a successor on the way down. */
  lemma {:induction false} AncestorHasSuccessor(issued: map<nat, Issue>, j: nat, a: nat) returns (s: nat)
    requires Descends(issued, j, a) && j != a
    ensures s in issued && issued[s].parent == Some(a) && Descends(issued, j, s)
    decreases j
  {
    if issued[j].parent.value == a {
      s := j;
    } else {
      s := AncestorHasSuccessor(issued, issued[j].parent.value, a);
    }
  }

  /** A lineage is a single line: of two tokens with one root, one descends from the other. */
  lemma {:induction false} LineageIsALine(issued: map<nat, Issue>, i: nat, j: nat)
    requires ParentsKnown(issued) && OneSuccessor(issued) && i in issued && j in issued
    requires Root(issued, i) == Root(issued, j)
    ensures Descends(issued, i, j) || Descends(issued, j, i)
    decreases i + j
  {
    if issued[i].parent.None? {
      DescendsFromRoot(issued, j);
    } else if issued[j].parent.None? {
      DescendsFromRoot(issued, i);
    } else {
      var p, q := issued[i].parent.value, issued[j].parent.value;
      LineageIsALine(issued, p, q);
      if p == q {
        assert i == j;
      } else if Descends(issued, p, q) {
        var s := AncestorHasSuccessor(issued, p, q);
        assert s == j;
      } else {
        var s := AncestorHasSuccessor(issued, q, p);
        assert s == i;
      }
    }
  }

  /** Of all tokens ever issued in one lineage at most one is usable, and it is the tail: nothing was
      issued after it. */
  lemma OneLivePerLineage(db: Db, i: nat, j: nat)
    requires Lineages(db) && Live(db, i) && Live(db, j) && Root(db.issued, i) == Root(db.issued, j)
    ensures i == j
    ensures forall s :: s in db.issued ==> db.issued[s].parent != Some(i)
  {
    LineageIsALine(db.issued, i, j);
    if i != j {
      if Descends(db.issued, i, j) {
        var s := AncestorHasSuccessor(db.issued, i, j);
      } else {
        var s := AncestorHasSuccessor(db.issued, j, i);
      }
    }
  }

  // ---- What a step does to the tokens ----

  /** Rows may go and may become revoked; none is new, none comes back to life. */
  ghost predicate OnlyRevokes(was: map<nat, RefreshToken>, now: map<nat, RefreshToken>) {
    forall j :: j in now ==>
      j in was && now[j].account == was[j].account && now[j].expiresAt == was[j].expiresAt
        && (was[j].revoked ==> now[j].revoked)
  }

  /** Token `j` is new in `db1`: the start of a lineage, or the successor of a token just revoked. */
  ghost predicate Issues(db: Db, db1: Db, j: nat) {
    && db.next <= j < db1.next && j in db1.refreshes && j in db1.issued
    && !db1.refreshes[j].revoked && db1.refreshes[j].account == db1.issued[j].account
    && db1.issued[j].claims.jti == Some(j)
    && db1.issued == db.issued[j := db1.issued[j]]
    && OnlyRevokes(db.refreshes, db1.refreshes - {j})
    && (db1.issued[j].parent.Some? ==>
         var p := db1.issued[j].parent.value;
         p < db.next && Live(db, p) && !Live(db1, p) && db.refreshes[p].account == db1.issued[j].account)
  }

  ghost predicate TokenStep(db: Db, db1: Db, out: Outcome) {
    && db.next <= db1.next
    && (if out.Done? && out.issued.Some? then Issues(db, db1, out.issued.value)
        else db1.issued == db.issued && OnlyRevokes(db.refreshes, db1.refreshes))
  }

  /** `mid` differs from `db` in what concerns tokens only by revocations; a root is then issued. */
  lemma RootIssued(db: Db, mid: Db, account: nat, persistent: bool, now: int, lag: nat)
    requires account in mid.accounts && mid.issued == db.issued && OnlyRevokes(db.refreshes, mid.refreshes)
    requires TokensKeyed(db) && db.next <= mid.next
    ensures Issues(db, IssueToken(mid, account, None, persistent, now, lag), mid.next)
  {
    var db1 := IssueToken(mid, account, None, persistent, now, lag);
    assert mid.next !in mid.refreshes;
    assert db1.refreshes - {mid.next} == mid.refreshes;
  }

  lemma ResetTokens(db: Db, email: string, token: nat, password: string, now: int, lag: nat)
    requires TokensKeyed(db)
    ensures var (db1, out) := ResetPassword(db, email, token, password, now, lag); TokenStep(db, db1, out)
  {
    var (db1, out) := ResetPassword(db, email, token, password, now, lag);
    if out.Done? {
      var a := db.resets[token].account;
      var mid := db.(accounts := db.accounts[a := db.accounts[a].(password := password)],
                     resets := db.resets[token := db.resets[token].(used := true)],
                     refreshes := RevokeAll(db.refreshes, a));
      RootIssued(db, mid, a, false, now, lag);
    }
  }

  lemma PromoteTokens(db: Db, actor: nat, emailId: nat, now: int, lag: nat)
    requires TokensKeyed(db)
    ensures var (db1, out) := Promote(db, actor, emailId, now, lag); TokenStep(db, db1, out)
  {
    hide Promoted, WithRecovery;
    var (db1, out) := Promote(db, actor, emailId, now, lag);
    if out.Done? && out.issued.Some? {
      var mid := Promoted(db, actor, emailId);
      PromotedTables(db, actor, emailId);
      RootIssued(db, mid, actor, false, now, lag);
      RecoveryTables(IssueToken(mid, actor, None, false, now, lag), actor, db.accounts[actor].email, now);
      hide IssueToken;
    }
  }

  lemma RegisterTokens(db: Db, email: string, password: string, now: int, lag: nat)
    requires TokensKeyed(db)
    ensures var (db1, out) := Register(db, email, password, now, lag); TokenStep(db, db1, out)
  {
    hide AddressUsed;
    var (db1, out) := Register(db, email, password, now, lag);
    if out.Done? {
      var mid := db.(accounts := db.accounts[db.next := Account(email, password)],
                     emails := db.emails[db.next + 1 := EmailRow(db.next, email, true, true)],
                     next := db.next + 2);
      RootIssued(db, mid, db.next, false, now, lag);
    }
  }

  lemma LoginTokens(db: Db, email: string, password: string, persistent: bool, now: int, lag: nat)
    requires TokensKeyed(db)
    ensures var (db1, out) := Login(db, email, password, persistent, now, lag); TokenStep(db, db1, out)
  {
    var (db1, out) := Login(db, email, password, persistent, now, lag);
    if out.Done? {
      RootIssued(db, db, AccountWith(db.accounts, email).value, persistent, now, lag);
    }
  }

  lemma RotateTokens(db: Db, claims: Claims, now: int, lag: nat)
    requires TokensKeyed(db)
    ensures var (db1, out) := Rotate(db, claims, now, lag); TokenStep(db, db1, out)
    ensures var (db1, out) := Rotate(db, claims, now, lag);
      out.Done? ==> out == Done(Some(db.next)) && claims.jti.Some? && db1.issued[db.next].parent == claims.jti
  {
    var (db1, out) := Rotate(db, claims, now, lag);
    if out.Done? {
      var mid := db.(refreshes := Revoke(db.refreshes, claims.jti.value));
      assert db.next !in mid.refreshes;
      assert db1.refreshes - {db.next} == mid.refreshes;
    }
  }

  lemma MailTokens(db: Db, email: string, actor: nat, sent: bool, now: int)
    ensures TokenStep(db, ForgotPassword(db, email, sent, now).0, ForgotPassword(db, email, sent, now).1)
    ensures TokenStep(db, AddEmail(db, actor, email, sent, now).0, AddEmail(db, actor, email, sent, now).1)
  {
    hide AddressUsed;
  }

  lemma AddressTokens(db: Db, actor: nat, emailId: nat, token: nat, now: int)
    ensures TokenStep(db, VerifyEmail(db, token, now).0, VerifyEmail(db, token, now).1)
    ensures TokenStep(db, Remove(db, actor, emailId, now).0, Remove(db, actor, emailId, now).1)
  {
    hide AddressUsed;
  }

  lemma RecoverTokens(db: Db, token: nat, now: int)
    ensures TokenStep(db, Recover(db, token, now).0, Recover(db, token, now).1)
  {
    hide HeldByOther;
  }

  lemma EndTokens(db: Db, claims: Claims, actor: nat, email: string, password: string, now: int)
    ensures TokenStep(db, Logout(db, claims, now).0, Logout(db, claims, now).1)
    ensures TokenStep(db, Cleanup(db, now).0, Cleanup(db, now).1)
    ensures TokenStep(db, DeleteAccount(db, actor, email, password).0, DeleteAccount(db, actor, email, password).1)
  {
    hide OtherRows;
  }

  lemma {:induction false} SeedTokens(db: Db, order: seq<nat>)
    requires forall a :: a in order ==> a in db.accounts
    ensures SeedAll(db, order).refreshes == db.refreshes && SeedAll(db, order).issued == db.issued
    ensures SeedAll(db, order).next >= db.next
  {
    if order != [] {
      SeedTokens(db, order[..|order| - 1]);
    }
  }

  lemma SeedStep(db: Db, order: seq<nat>)
    requires forall a :: a in order ==> a in db.accounts
    ensures TokenStep(db, Seed(db, order).0, Seed(db, order).1)
  {
    SeedTokens(db, order);
  }

  lemma StepTokens(db: Db, e: Event)
    requires TokensKeyed(db) && WellFormed(db, e)
    ensures TokenStep(db, Step(db, e).0, Step(db, e).1)
  {
    hide TokenStep, Login, Register, Rotate, ResetPassword, Promote, TokensKeyed;
    hide ForgotPassword, AddEmail, VerifyEmail, Remove, Recover, Logout, Cleanup, DeleteAccount;
    match e.op {
      case OpLogin(email, password, persistent) => LoginTokens(db, email, password, persistent, e.now, e.lag);
      case OpRegister(email, password) => RegisterTokens(db, email, password, e.now, e.lag);
      case OpRotate(claims) => RotateTokens(db, claims, e.now, e.lag);
      case OpResetPassword(email, token, password) => ResetTokens(db, email, token, password, e.now, e.lag);
      case OpPromote(actor, emailId) => PromoteTokens(db, actor, emailId, e.now, e.lag);
      case OpSeed(order) => SeedTokens(db, order); SeedStep(db, order);
      case OpForgotPassword(email, sent) => MailTokens(db, email, 0, sent, e.now);
      case OpAddEmail(actor, newEmail, sent) => MailTokens(db, newEmail, actor, sent, e.now);
      case OpVerifyEmail(token) => AddressTokens(db, 0, 0, token, e.now);
      case OpRemove(actor, emailId) => AddressTokens(db, actor, emailId, 0, e.now);
      case OpRecover(token) => RecoverTokens(db, token, e.now);
      case OpLogout(claims) => EndTokens(db, claims, 0, "", "", e.now);
      case OpDeleteAccount(actor, email, password) =>
        EndTokens(db, Claims("", None, false, 0), actor, email, password, e.now);
      case OpCleanup => EndTokens(db, Claims("", None, false, 0), 0, "", "", e.now);
    }
  }

  // ---- Every run ----

  lemma IssueKeepsKeys(db: Db, db1: Db, j: nat)
    requires TokensKeyed(db) && Issues(db, db1, j)
    ensures TokensKeyed(db1) && forall i :: Live(db1, i) ==> i == j || Live(db, i)
  {
    assert forall i :: i in db1.refreshes && i != j ==> i in db1.refreshes - {j} && i in db.refreshes;
    assert forall i :: i in db.issued ==> db1.issued[i] == db.issued[i];
  }

  lemma IssueKeepsParents(db: Db, db1: Db, j: nat)
    requires Lineages(db) && Issues(db, db1, j)
    ensures ParentsKnown(db1.issued) && OneSuccessor(db1.issued)
  {
    assert j !in db.issued;
    assert forall i :: i in db.issued ==> db1.issued[i] == db.issued[i];
    hide OnlyRevokes;
  }

  lemma IssueKeepsLineages(db: Db, db1: Db, j: nat)
    requires Lineages(db) && Issues(db, db1, j)
    ensures Lineages(db1)
  {
    IssueKeepsKeys(db, db1, j);
    IssueKeepsParents(db, db1, j);
    assert j !in db.issued;
    hide TokensKeyed, OneSuccessor, OnlyRevokes;
    assert forall i :: i in db.issued ==> db1.issued[i] == db.issued[i] && i < db.next;
  }

  lemma TokenStepKeepsLineages(db: Db, db1: Db, out: Outcome)
    requires Lineages(db) && TokenStep(db, db1, out)
    ensures Lineages(db1)
  {
    if out.Done? && out.issued.Some? {
      IssueKeepsLineages(db, db1, out.issued.value);
    }
  }

  lemma {:induction false} RunKeepsLineages(db: Db, run: seq<Event>, start: int)
    requires Lineages(db) && Possible(db, run, start)
    ensures Lineages(Run(db, run, start))
    decreases |run|
  {
    if run != [] {
      StepTokens(db, run[0]);
      TokenStepKeepsLineages(db, Step(db, run[0]).0, Step(db, run[0]).1);
      RunKeepsLineages(Step(db, run[0]).0, run[1..], run[0].now + run[0].lag);
    }
  }

  /** A token once issued and not usable is never usable again; nothing issued is ever taken back. */
  lemma {:induction false} DeadForGood(db: Db, run: seq<Event>, start: int, j: nat)
    requires Lineages(db) && Possible(db, run, start) && j in db.issued
    ensures j in Run(db, run, start).issued && Run(db, run, start).issued[j] == db.issued[j]
    ensures !Live(db, j) ==> !Live(Run(db, run, start), j)
    decreases |run|
  {
    if run != [] {
      var db1 := Step(db, run[0]).0;
      StepTokens(db, run[0]);
      TokenStepKeepsLineages(db, db1, Step(db, run[0]).1);
      if j in db1.refreshes && Step(db, run[0]).1.Done? && Step(db, run[0]).1.issued.Some? {
        assert j in db1.refreshes - {Step(db, run[0]).1.issued.value};
      }
      DeadForGood(db1, run[1..], run[0].now + run[0].lag, j);
    }
  }

  // ---- How a usable token stops being usable ----

  /** Every token the account had before the step has ended. */
  predicate AllEnded(db: Db, db1: Db, account: nat) {
    forall i :: i in db.refreshes && db.refreshes[i].account == account ==> !Live(db1, i)
  }

  lemma EndsNothing(db: Db, e: Event, j: nat)
    requires TokensKeyed(db) && WellFormed(db, e) && Live(db, j)
    requires e.op.OpLogin? || e.op.OpRegister? || e.op.OpForgotPassword? || e.op.OpAddEmail? || e.op.OpVerifyEmail?
      || e.op.OpRemove?
    ensures Live(Step(db, e).0, j)
  {
    hide AddressUsed;
  }

  lemma RotateEnds(db: Db, claims: Claims, now: int, lag: nat, j: nat)
    requires TokensKeyed(db) && Live(db, j) && !Live(Rotate(db, claims, now, lag).0, j)
    ensures var (db1, out) := Rotate(db, claims, now, lag);
      || (claims.jti == Some(j) && out.Done? && out.issued.Some?
          && out.issued.value in db1.issued && db1.issued[out.issued.value].parent == Some(j))
      || (out == ReuseDetected && AllEnded(db, db1, db.refreshes[j].account))
  {
  }

  lemma ResetEnds(db: Db, email: string, token: nat, password: string, now: int, lag: nat, j: nat)
    requires TokensKeyed(db) && Live(db, j) && !Live(ResetPassword(db, email, token, password, now, lag).0, j)
    ensures AllEnded(db, ResetPassword(db, email, token, password, now, lag).0, db.refreshes[j].account)
  {
  }

  lemma RecoverEnds(db: Db, token: nat, now: int, j: nat)
    requires Live(db, j) && !Live(Recover(db, token, now).0, j)
    ensures AllEnded(db, Recover(db, token, now).0, db.refreshes[j].account)
  {
    hide HeldByOther, OtherRows;
  }

  lemma PromoteEnds(db: Db, actor: nat, emailId: nat, now: int, lag: nat, j: nat)
    requires TokensKeyed(db) && Live(db, j) && !Live(Promote(db, actor, emailId, now, lag).0, j)
    ensures AllEnded(db, Promote(db, actor, emailId, now, lag).0, db.refreshes[j].account)
  {
    hide WithRecovery, Promoted;
    if Promote(db, actor, emailId, now, lag).1 == Done(Some(db.next)) {
      PromotedTables(db, actor, emailId);
      RecoveryTables(IssueToken(Promoted(db, actor, emailId), actor, None, false, now, lag), actor,
        db.accounts[actor].email, now);
    }
  }

  /** A usable token ends by being rotated, by its own logout, by an account-wide revocation, by the
      deletion of its account, or by cleanup after its expiry, and in no other way. */
  lemma EndsOnlyBy(db: Db, e: Event, j: nat)
    requires Lineages(db) && WellFormed(db, e)
    requires Live(db, j) && !Live(Step(db, e).0, j)
    ensures var (db1, out) := Step(db, e);
      || (e.op.OpRotate? && e.op.claims.jti == Some(j) && out.Done? && out.issued.Some?
          && out.issued.value in db1.issued && db1.issued[out.issued.value].parent == Some(j))
      || (e.op.OpLogout? && e.op.claims.jti == Some(j))
      || ((out == ReuseDetected || e.op.OpResetPassword? || e.op.OpRecover? || e.op.OpPromote?)
          && AllEnded(db, db1, db.refreshes[j].account))
      || (e.op.OpDeleteAccount? && e.op.actor == db.refreshes[j].account && j !in db1.refreshes)
      || (e.op.OpCleanup? && db.refreshes[j].expiresAt < e.now && j !in db1.refreshes)
  {
    hide Login, Register, ForgotPassword, AddEmail, VerifyEmail, Recover, Promote, Remove, ResetPassword, Rotate;
    hide Lineages;
    assert TokensKeyed(db) by { LineagesAreKeyed(db); }
    match e.op {
      case OpSeed(order) => SeedTokens(db, order);
      case OpRotate(claims) => RotateEnds(db, claims, e.now, e.lag, j);
      case OpPromote(actor, emailId) => PromoteEnds(db, actor, emailId, e.now, e.lag, j);
      case OpResetPassword(email, token, password) => ResetEnds(db, email, token, password, e.now, e.lag, j);
      case OpRecover(token) => RecoverEnds(db, token, e.now, j);
      case OpRemove(actor, emailId) => EndsNothing(db, e, j);
      case OpLogin(_, _, _) => EndsNothing(db, e, j);
      case OpRegister(_, _) => EndsNothing(db, e, j);
      case OpForgotPassword(_, _) => EndsNothing(db, e, j);
      case OpAddEmail(_, _, _) => EndsNothing(db, e, j);
      case OpVerifyEmail(_) => EndsNothing(db, e, j);
      case _ =>
    }
  }

  // ---- Replay ----

  lemma RotateOfDead(db: Db, claims: Claims, now: int, lag: nat)
    requires claims.jti.Some? && !Live(db, claims.jti.value)
    ensures var (db1, out) := Rotate(db, claims, now, lag);
      && !out.Done?
      && (out == ReuseDetected <==>
           now < claims.exp && claims.jti.value in db.refreshes
           && AccountWith(db.accounts, claims.sub) == Some(db.refreshes[claims.jti.value].account))
      && (out == ReuseDetected ==> AllEnded(db, db1, db.refreshes[claims.jti.value].account))
  {
  }

  lemma RotatedIsDead(db: Db, claims: Claims, now: int, lag: nat)
    requires Lineages(db) && Genuine(db, claims) && Rotate(db, claims, now, lag).1.Done?
    ensures claims.jti.Some? && claims.jti.value in Rotate(db, claims, now, lag).0.issued
    ensures !Live(Rotate(db, claims, now, lag).0, claims.jti.value)
  {
  }

  /** A token that was rotated is never accepted again. While its row is there and its account keeps
      its address, presenting it within its lifetime ends every session of the account. */
  lemma ReplayNeverAccepted(db: Db, claims: Claims, now: int, lag: nat, run: seq<Event>, at: int, lag': nat)
    requires Lineages(db) && Genuine(db, claims) && Rotate(db, claims, now, lag).1.Done?
    requires Possible(Rotate(db, claims, now, lag).0, run, now + lag)
    ensures claims.jti.Some?
    ensures var end := Run(Rotate(db, claims, now, lag).0, run, now + lag);
      var (after, out) := Rotate(end, claims, at, lag');
      && !out.Done?
      && (out == ReuseDetected <==>
           at < claims.exp && claims.jti.value in end.refreshes
           && AccountWith(end.accounts, claims.sub) == Some(end.refreshes[claims.jti.value].account))
      && (out == ReuseDetected ==> AllEnded(end, after, end.refreshes[claims.jti.value].account))
  {
    var db1 := Rotate(db, claims, now, lag).0;
    RotateTokens(db, claims, now, lag);
    RotatedIsDead(db, claims, now, lag);
    TokenStepKeepsLineages(db, db1, Rotate(db, claims, now, lag).1);
    hide Rotate, Lineages, AllEnded, AccountWith;
    DeadForGood(db1, run, now + lag, claims.jti.value);
    RotateOfDead(Run(db1, run, now + lag), claims, at, lag');
  }

  // ---- Fresh start ----

  /** After the step, `j` is the account's only usable token and nobody else's row has changed. */
  ghost predicate OnlySession(db: Db, db1: Db, account: nat, j: nat) {
    && (forall i :: Live(db1, i) && db1.refreshes[i].account == account <==> i == j)
    && (forall i :: i in db.refreshes && db.refreshes[i].account != account
         ==> i in db1.refreshes && db1.refreshes[i] == db.refreshes[i])
    && (forall i :: i in db1.refreshes && db1.refreshes[i].account != account ==> i in db.refreshes)
  }

  lemma ResetStartsAfresh(db: Db, email: string, token: nat, password: string, now: int, lag: nat)
    requires TokensKeyed(db) && ResetPassword(db, email, token, password, now, lag).1.Done?
    ensures var (db1, out) := ResetPassword(db, email, token, password, now, lag);
      && out.issued.Some? && token in db.resets && OnlySession(db, db1, db.resets[token].account, out.issued.value)
      && db1.resets[token].used && db.resets[token].account in db1.accounts
      && db1.accounts[db.resets[token].account] == Account(email, password)
  {
  }

  lemma PromoteStartsAfresh(db: Db, actor: nat, emailId: nat, now: int, lag: nat)
    requires TokensKeyed(db)
    requires Promote(db, actor, emailId, now, lag).1.Done? && Promote(db, actor, emailId, now, lag).1.issued.Some?
    ensures var (db1, out) := Promote(db, actor, emailId, now, lag);
      OnlySession(db, db1, actor, out.issued.value) && emailId in db.emails && actor in db1.accounts
      && db1.accounts[actor].email == db.emails[emailId].email
  {
    hide WithRecovery, Promoted;
    PromotedTables(db, actor, emailId);
    RecoveryTables(IssueToken(Promoted(db, actor, emailId), actor, None, false, now, lag), actor,
      db.accounts[actor].email, now);
  }
}
