/** The routes as they run: rows looked up, fields set, rows added and deleted, one statement after
    the other. Each is proved to make exactly the change its meaning in `AccountTables` says, and so
    to keep ownership of addresses and the token lineages. */
module AccountStore {
  import opened AccountTables
  import opened Options
  import opened AccountEmails
  import opened AccountSessions
  import opened Finite

  ghost predicate Sound(db: Db) {
    Owned(db) && Lineages(db)
  }

  lemma StepKeepsSound(db: Db, e: Event)
    requires Sound(db) && WellFormed(db, e)
    ensures Sound(Step(db, e).0)
  {
    hide Owned, Lineages, Step, WellFormed, TokenStep;
    StepKeepsOwned(db, e);
    LineagesAreKeyed(db);
    StepTokens(db, e);
    TokenStepKeepsLineages(db, Step(db, e).0, Step(db, e).1);
  }

  lemma SoundAccounts(db: Db, email: string)
    requires Sound(db)
    ensures forall a :: a in db.accounts && db.accounts[a].email == email ==> AccountWith(db.accounts, email) == Some(a)
    ensures db.next !in db.emails
  {
  }

  lemma NoRowsLeft(emails: map<nat, EmailRow>, a: nat)
    ensures RowsOf(OtherRows(emails, a), a) == {}
  {
  }

  lemma UniqueAccountWith(db: Db, a: nat, email: string)
    requires Owned(db) && a in db.accounts && db.accounts[a].email == email
    ensures AccountWith(db.accounts, email) == Some(a)
  {
  }

  predicate PrimaryOf(row: EmailRow, a: nat) {
    row.account == a && row.isPrimary
  }

  predicate AtMostOnePrimary(emails: map<nat, EmailRow>, a: nat) {
    forall i, j :: i in emails && j in emails && PrimaryOf(emails[i], a) && PrimaryOf(emails[j], a) ==> i == j
  }

  lemma UniquePrimaryRow(emails: map<nat, EmailRow>, a: nat, i: nat)
    requires AtMostOnePrimary(emails, a) && i in emails && PrimaryOf(emails[i], a)
    ensures PrimaryRow(emails, a) == Some(i)
  {
    var j := PrimaryRow(emails, a).value;
    assert PrimaryOf(emails[j], a);
  }

  // ---- What the unique constraints refuse at commit ----

  predicate Committable(accounts: map<nat, Account>, emails: map<nat, EmailRow>) {
    UniqueEmails(accounts) && UniqueAddresses(emails)
  }

  lemma AccountsStayUniqueIff(accounts: map<nat, Account>, a: nat, account: Account)
    requires UniqueEmails(accounts)
    ensures UniqueEmails(accounts[a := account]) <==>
      !exists b :: b in accounts && b != a && accounts[b].email == account.email
  {
    var accounts1 := accounts[a := account];
    if b :| b in accounts && b != a && accounts[b].email == account.email {
      assert accounts1[b].email == accounts1[a].email;
    }
  }

  lemma RowsStayUniqueIff(emails: map<nat, EmailRow>, i: nat, row: EmailRow)
    requires UniqueAddresses(emails) && i !in emails
    ensures UniqueAddresses(emails[i := row]) <==> !AddressUsed(emails, row.email)
  {
    var emails1 := emails[i := row];
    if j :| j in emails && emails[j].email == row.email {
      assert emails1[j].email == emails1[i].email;
    }
  }

  /** The rows written by `register` are refused exactly when the address is somebody's row. */
  lemma RegisterRefusedIff(db: Db, email: string, password: string)
    requires Keyed(db) && UniqueEmails(db.accounts) && UniqueAddresses(db.emails)
      && AccountWith(db.accounts, email).None?
    ensures Committable(Registered(db, email, password).accounts, Registered(db, email, password).emails) <==>
      !AddressUsed(db.emails, email)
  {
    hide UniqueEmails, UniqueAddresses, AddressUsed;
    AccountsStayUniqueIff(db.accounts, db.next, Account(email, password));
    RowsStayUniqueIff(db.emails, db.next + 1, EmailRow(db.next, email, true, true));
  }

  lemma OtherRowsUnique(emails: map<nat, EmailRow>, a: nat, email: string)
    requires UniqueAddresses(emails)
    ensures UniqueAddresses(OtherRows(emails, a))
    ensures AddressUsed(OtherRows(emails, a), email) <==>
      exists i :: i in emails && emails[i].email == email && emails[i].account != a
  {
    if i :| i in emails && emails[i].email == email && emails[i].account != a {
      assert i in OtherRows(emails, a);
    }
  }

  /** The rows written by `recover_account` are refused exactly when another account has the address. */
  lemma RecoverRefusedIff(db: Db, token: nat, now: int)
    requires Keyed(db) && UniqueEmails(db.accounts) && UniqueAddresses(db.emails)
    requires token in db.recoveries && db.recoveries[token].account in db.accounts
    ensures var db1 := Recovered(db, token, now);
      Committable(db1.accounts, db1.emails) <==>
        !HeldByOther(db, db.recoveries[token].email, db.recoveries[token].account)
  {
    var a, email := db.recoveries[token].account, db.recoveries[token].email;
    assert db.next !in OtherRows(db.emails, a);
    hide UniqueEmails, UniqueAddresses, AddressUsed, OtherRows, RevokeAll;
    AccountsStayUniqueIff(db.accounts, a, db.accounts[a].(email := email));
    OtherRowsUnique(db.emails, a, email);
    RowsStayUniqueIff(OtherRows(db.emails, a), db.next, EmailRow(a, email, true, true));
  }

  /** Promotion writes to no address. */
  lemma PromotedAddresses(db: Db, actor: nat, emailId: nat)
    requires actor in db.accounts && emailId in db.emails && UniqueAddresses(db.emails)
    ensures UniqueAddresses(Promoted(db, actor, emailId).emails)
  {
    var emails1 := Promoted(db, actor, emailId).emails;
    assert forall i :: i in emails1 ==> i in db.emails && emails1[i].email == db.emails[i].email;
    hide Promoted;
  }

  /** The rows written by `promote_email` are refused exactly when another account goes by the address. */
  lemma PromoteRefusedIff(db: Db, actor: nat, emailId: nat)
    requires UniqueEmails(db.accounts) && UniqueAddresses(db.emails) && actor in db.accounts && emailId in db.emails
    ensures var db1 := Promoted(db, actor, emailId);
      Committable(db1.accounts, db1.emails) <==>
      !exists b :: b in db.accounts && b != actor && db.accounts[b].email == db.emails[emailId].email
  {
    PromotedAddresses(db, actor, emailId);
    PromotedTables(db, actor, emailId);
    hide Promoted, UniqueEmails, UniqueAddresses;
    AccountsStayUniqueIff(db.accounts, actor, db.accounts[actor].(email := db.emails[emailId].email));
  }

  lemma SoundIsUnique(db: Db, a: nat)
    requires Sound(db)
    ensures Keyed(db) && UniqueEmails(db.accounts) && UniqueAddresses(db.emails) && AtMostOnePrimary(db.emails, a)
  {
    forall i, j | i in db.emails && j in db.emails && PrimaryOf(db.emails[i], a) && PrimaryOf(db.emails[j], a)
      ensures i == j
    {
      assert db.emails[i].email == db.accounts[a].email == db.emails[j].email;
    }
  }

  lemma {:induction false} SeedOnlyAddsRows(db: Db, order: seq<nat>)
    requires forall a :: a in order ==> a in db.accounts
    ensures SeedAll(db, order) == db.(emails := SeedAll(db, order).emails, next := SeedAll(db, order).next)
  {
    if order != [] {
      SeedOnlyAddsRows(db, order[..|order| - 1]);
    }
  }

  class Store {
    var accounts: map<nat, Account>
    var emails: map<nat, EmailRow>
    var verifications: map<nat, VerificationToken>
    var recoveries: map<nat, RecoveryToken>
    var resets: map<nat, ResetToken>
    var refreshes: map<nat, RefreshToken>
    var next: nat
    ghost var issued: map<nat, Issue>

    ghost function Tables(): Db
      reads this
    {
      Db(accounts, emails, verifications, recoveries, resets, refreshes, issued, next)
    }

    ghost predicate Valid()
      reads this
    {
      Sound(Tables())
    }

    constructor ()
      ensures Valid() && Tables() == Db(map[], map[], map[], map[], map[], map[], map[], 0)
    {
      accounts, emails, verifications, recoveries := map[], map[], map[], map[];
      resets, refreshes, next, issued := map[], map[], 0, map[];
    }

    // ---- Lookups and shared helpers ----

    method AccountByEmail(email: string) returns (a: Option<nat>)
      requires Valid()
      ensures a == AccountWith(accounts, email)
    {
      a := None;
      if b :| b in accounts && accounts[b].email == email {
        UniqueAccountWith(Tables(), b, email);
        a := Some(b);
      }
    }

    method FreshId() returns (id: nat)
      modifies `next
      ensures id == old(next) && next == id + 1
    {
      id := next;
      next := next + 1;
    }

    /** `revoke_all_refresh_tokens`. */
    method RevokeAllRefreshTokens(account: nat)
      modifies `refreshes
      ensures refreshes == RevokeAll(old(refreshes), account)
    {
      var tokens := set j | j in refreshes && refreshes[j].account == account && !refreshes[j].revoked;
      var pending := tokens;
      while pending != {}
        invariant pending <= tokens
        invariant refreshes == map j | j in old(refreshes) ::
          if j in tokens - pending then old(refreshes)[j].(revoked := true) else old(refreshes)[j]
      {
        var j :| j in pending;
        refreshes := refreshes[j := refreshes[j].(revoked := true)];
        pending := pending - {j};
      }
    }

    /** `create_tracked_refresh_token`: two clock reads, `now` for the row and `now + lag` for the JWT. */
    method CreateTrackedRefreshToken(account: nat, persistent: bool, now: int, lag: nat, ghost parent: Option<nat>)
      returns (claims: Claims)
      requires account in accounts
      modifies `refreshes, `next, `issued
      ensures Tables() == IssueToken(old(Tables()), account, parent, persistent, now, lag)
      ensures claims == issued[old(next)].claims
    {
      var j := FreshId();
      refreshes := refreshes[j := RefreshToken(account, now + Lifetime(persistent), false)];
      claims := Claims(accounts[account].email, Some(j), persistent, WholeSeconds(now + lag + Lifetime(persistent)));
      issued := issued[j := Issue(account, claims, parent)];
    }

    // ---- Sessions ----

    method Login(email: string, password: string, remember: bool, now: int, lag: nat) returns (out: Outcome)
      requires Valid()
      modifies this
      ensures (Tables(), out) == AccountTables.Login(old(Tables()), email, password, remember, now, lag)
      ensures Valid()
      ensures out.Done? <==> exists a :: a in old(accounts) && old(accounts)[a] == Account(email, password)
    {
      hide Sound;
      SoundAccounts(Tables(), email);
      StepKeepsSound(Tables(), Event(now, lag, OpLogin(email, password, remember)));
      var account := AccountByEmail(email);
      if account.None? || accounts[account.value].password != password {
        return Rejected(CredentialsError);
      }
      out := Done(Some(next));
      var claims := CreateTrackedRefreshToken(account.value, remember, now, lag, None);
    }

    /** `POST /refresh`: the identifier is examined before the account. */
    method RefreshEndpoint(claims: Claims, now: int, lag: nat) returns (out: Outcome)
      requires Valid() && Genuine(Tables(), claims)
      modifies this
      ensures (Tables(), out) == Rotate(old(Tables()), claims, now, lag)
      ensures Valid()
    {
      hide Sound;
      StepKeepsSound(Tables(), Event(now, lag, OpRotate(claims)));
      if !ClaimsValid(claims, now) {
        return Rejected(NotAuthenticated);
      }
      if claims.jti.None? {
        return Rejected(NotAuthenticated);
      }
      var jti := claims.jti.value;
      var account := AccountByEmail(claims.sub);
      if account.None? {
        return Rejected(NotAuthenticated);
      }
      if jti !in refreshes || refreshes[jti].account != account.value {
        return Rejected(NotAuthenticated);
      }
      if refreshes[jti].revoked {
        RevokeAllRefreshTokens(account.value);
        return ReuseDetected;
      }
      refreshes := refreshes[jti := refreshes[jti].(revoked := true)];
      out := Done(Some(next));
      var successor := CreateTrackedRefreshToken(account.value, claims.persistent, now, lag, Some(jti));
    }

    /** `validate_token_and_get_account` for a refresh token: the account is looked up first. The
        change to the tables is the one `RefreshEndpoint` makes. */
    method ValidateTokenAndGetAccount(claims: Claims, now: int, lag: nat)
      returns (account: Option<nat>, ghost out: Outcome)
      requires Valid() && Genuine(Tables(), claims)
      modifies this
      ensures (Tables(), out) == Rotate(old(Tables()), claims, now, lag)
      ensures Valid()
      ensures account == if out.Done? then AccountWith(old(accounts), claims.sub) else None
    {
      hide Sound;
      StepKeepsSound(Tables(), Event(now, lag, OpRotate(claims)));
      account, out := None, Rejected(NotAuthenticated);
      if ClaimsValid(claims, now) {
        var found := AccountByEmail(claims.sub);
        if found.Some? {
          if claims.jti.None? {
            return;
          }
          var jti := claims.jti.value;
          if jti !in refreshes || refreshes[jti].account != found.value {
            return;
          }
          if refreshes[jti].revoked {
            RevokeAllRefreshTokens(found.value);
            out := ReuseDetected;
            return;
          }
          refreshes := refreshes[jti := refreshes[jti].(revoked := true)];
          out := Done(Some(next));
          account := found;
          var successor := CreateTrackedRefreshToken(found.value, claims.persistent, now, lag, Some(jti));
        }
      }
    }

    method Logout(claims: Claims, now: int) returns (out: Outcome)
      requires Valid() && Genuine(Tables(), claims)
      modifies this
      ensures (Tables(), out) == AccountTables.Logout(old(Tables()), claims, now)
      ensures Valid()
      ensures forall j: nat :: Live(Tables(), j)
               <==> old(Live(Tables(), j)) && !(claims.jti == Some(j) && now < claims.exp)
    {
      hide Sound;
      StepKeepsSound(Tables(), Event(now, 0, OpLogout(claims)));
      out := Done(None);
      if ClaimsValid(claims, now) && claims.jti.Some? {
        var jti := claims.jti.value;
        if jti in refreshes {
          refreshes := refreshes[jti := refreshes[jti].(revoked := true)];
        }
      }
    }

    method CleanupExpiredRefreshTokens(now: int) returns (count: nat)
      requires Valid()
      modifies this
      ensures Tables() == Cleanup(old(Tables()), now).0
      ensures Valid()
      ensures count == |set j | j in old(refreshes) && old(refreshes)[j].expiresAt < now|
    {
      hide Sound;
      StepKeepsSound(Tables(), Event(now, 0, OpCleanup));
      var expired := set j | j in refreshes && refreshes[j].expiresAt < now;
      count := |expired|;
      assert expired == set j | j in old(refreshes) && old(refreshes)[j].expiresAt < now;
      DeleteTokens(expired);
      assert Tables() == Cleanup(old(Tables()), now).0 by {
        assert refreshes == Cleanup(old(Tables()), now).0.refreshes;
      }
    }

    method DeleteTokens(expired: set<nat>)
      modifies `refreshes
      ensures refreshes == old(refreshes) - expired
    {
      var pending := expired;
      while pending != {}
        invariant pending <= expired
        invariant refreshes == old(refreshes) - (expired - pending)
      {
        var j :| j in pending;
        refreshes := refreshes - {j};
        pending := pending - {j};
      }
    }

    // ---- Registration and passwords ----

    method Register(email: string, password: string, now: int, lag: nat) returns (out: Outcome)
      requires Valid()
      modifies this
      ensures (Tables(), out) == AccountTables.Register(old(Tables()), email, password, now, lag)
      ensures Valid()
    {
      hide Sound, AddressUsed, Keyed, UniqueEmails, UniqueAddresses;
      SoundIsUnique(Tables(), 0);
      StepKeepsSound(Tables(), Event(now, lag, OpRegister(email, password)));
      var existing := AccountByEmail(email);
      if existing.Some? {
        return Rejected(EmailAlreadyRegistered);
      }
      var account;
      out, account := CommitRegistration(email, password);
      if out == Done(None) {
        out := Done(Some(next));
        var claims := CreateTrackedRefreshToken(account, false, now, lag, None);
      }
    }

    /** Writes the rows and commits; a refused commit is rolled back. */
    method CommitRegistration(email: string, password: string) returns (out: Outcome, account: nat)
      requires Keyed(Tables()) && UniqueEmails(accounts) && UniqueAddresses(emails)
        && AccountWith(accounts, email).None?
      modifies this
      ensures account == old(next) && (out.Done? ==> account in accounts)
      ensures out == if AddressUsed(old(emails), email) then Rejected(IntegrityError) else Done(None)
      ensures Tables() == if out.Rejected? then old(Tables()) else Registered(old(Tables()), email, password)
    {
      RegisterRefusedIff(Tables(), email, password);
      hide Keyed, UniqueEmails, UniqueAddresses, AddressUsed, Committable;
      var savedAccounts, savedEmails, savedNext := accounts, emails, next;
      account := FreshId();
      accounts := accounts[account := Account(email, password)];
      var row := FreshId();
      emails := emails[row := EmailRow(account, email, true, true)];
      out := Done(None);
      if !Committable(accounts, emails) {
        accounts, emails, next := savedAccounts, savedEmails, savedNext;
        out := Rejected(IntegrityError);
      }
    }

    /** `send_reset_email`; `sent` is whether the mail service took the message. */
    method ForgotPassword(email: string, sent: bool, now: int) returns (out: Outcome)
      requires Valid()
      modifies this
      ensures (Tables(), out) == AccountTables.ForgotPassword(old(Tables()), email, sent, now)
      ensures Valid()
      ensures out == Done(None) && accounts == old(accounts) && refreshes == old(refreshes)
    {
      hide Sound;
      StepKeepsSound(Tables(), Event(now, 0, OpForgotPassword(email, sent)));
      out := Done(None);
      var account := AccountByEmail(email);
      if account.None? {
        return;
      }
      if t :| t in resets && resets[t] == ResetToken(account.value, resets[t].expiresAt, false)
            && resets[t].expiresAt > now
      {
        assert LiveReset(Tables(), t, account.value, now);
        return;
      }
      if sent {
        var token := FreshId();
        resets := resets[token := ResetToken(account.value, now + HOUR, false)];
      }
    }

    method ResetPassword(email: string, token: nat, newPassword: string, now: int, lag: nat) returns (out: Outcome)
      requires Valid()
      modifies this
      ensures (Tables(), out) == AccountTables.ResetPassword(old(Tables()), email, token, newPassword, now, lag)
      ensures Valid()
      ensures out.Done? ==> token in resets && resets[token].used
      ensures out.Done? ==>
        token in old(resets) && accounts == old(accounts)[old(resets)[token].account := Account(email, newPassword)]
    {
      hide Sound;
      StepKeepsSound(Tables(), Event(now, lag, OpResetPassword(email, token, newPassword)));
      if token !in resets || resets[token].used || resets[token].expiresAt <= now
        || resets[token].account !in accounts || accounts[resets[token].account].email != email {
        return Rejected(CredentialsError);
      }
      var account := resets[token].account;
      accounts := accounts[account := accounts[account].(password := newPassword)];
      resets := resets[token := resets[token].(used := true)];
      RevokeAllRefreshTokens(account);
      out := Done(Some(next));
      var claims := CreateTrackedRefreshToken(account, false, now, lag, None);
    }

    // ---- Addresses ----

    method RecoverAccount(token: nat, now: int) returns (out: Outcome)
      requires Valid()
      modifies this
      ensures (Tables(), out) == Recover(old(Tables()), token, now)
      ensures Valid()
    {
      hide Sound, Keyed, UniqueEmails, UniqueAddresses, Recovered, HeldByOther, Committable;
      SoundIsUnique(Tables(), 0);
      StepKeepsSound(Tables(), Event(now, 0, OpRecover(token)));
      if token !in recoveries || recoveries[token].used || recoveries[token].expiresAt <= now
        || recoveries[token].account !in accounts {
        return Rejected(CredentialsError);
      }
      RecoverRefusedIff(Tables(), token, now);
      var savedAccounts, savedEmails, savedRecoveries := accounts, emails, recoveries;
      var savedRefreshes, savedResets, savedNext := refreshes, resets, next;
      RestoreAddress(token, now);
      if !Committable(accounts, emails) {
        accounts, emails, recoveries := savedAccounts, savedEmails, savedRecoveries;
        refreshes, resets, next := savedRefreshes, savedResets, savedNext;
        return Rejected(IntegrityError);
      }
      out := Done(None);
    }

    method RestoreAddress(token: nat, now: int)
      requires token in recoveries && recoveries[token].account in accounts
      modifies `accounts, `emails, `recoveries, `refreshes, `resets, `next
      ensures Tables() == Recovered(old(Tables()), token, now)
    {
      hide OtherRows, RevokeAll;
      var account, email := recoveries[token].account, recoveries[token].email;
      recoveries := recoveries[token := recoveries[token].(used := true)];
      DeleteRows(account);
      var row := FreshId();
      emails := emails[row := EmailRow(account, email, true, true)];
      accounts := accounts[account := accounts[account].(email := email)];
      RevokeAllRefreshTokens(account);
      var reset := FreshId();
      resets := resets[reset := ResetToken(account, now + HOUR, false)];
    }

    method DeleteRows(account: nat)
      modifies `emails
      ensures emails == OtherRows(old(emails), account)
    {
      var existing := set i | i in emails && emails[i].account == account;
      var pending := existing;
      while pending != {}
        invariant pending <= existing
        invariant emails == map i | i in old(emails) && i !in existing - pending :: old(emails)[i]
      {
        var i :| i in pending;
        emails := emails - {i};
        pending := pending - {i};
      }
    }

    method AddEmail(actor: nat, newEmail: string, sent: bool, now: int) returns (out: Outcome)
      requires Valid()
      modifies this
      ensures (Tables(), out) == AccountTables.AddEmail(old(Tables()), actor, newEmail, sent, now)
      ensures Valid()
      ensures accounts == old(accounts) && emails == old(emails)
    {
      hide Sound;
      StepKeepsSound(Tables(), Event(now, 0, OpAddEmail(actor, newEmail, sent)));
      if actor !in accounts {
        return Rejected(NotAuthenticated);
      }
      if AddressUsed(emails, newEmail) {
        return Rejected(EmailAlreadyRegistered);
      }
      if |RowsOf(emails, actor)| >= MAX_EMAILS_PER_ACCOUNT {
        return Rejected(MaxEmailsReached);
      }
      out := Done(None);
      if t :| t in verifications && verifications[t].expiresAt > now
            && verifications[t] == VerificationToken(actor, newEmail, verifications[t].expiresAt, false)
      {
        assert LiveVerification(Tables(), t, actor, newEmail, now);
        return;
      }
      if sent {
        var token := FreshId();
        verifications := verifications[token := VerificationToken(actor, newEmail, now + HOUR, false)];
      }
    }

    method VerifyEmail(token: nat, now: int) returns (out: Outcome)
      requires Valid()
      modifies this
      ensures (Tables(), out) == AccountTables.VerifyEmail(old(Tables()), token, now)
      ensures Valid()
      ensures accounts == old(accounts) && forall i :: i in old(emails) ==> i in emails && emails[i] == old(emails)[i]
    {
      hide Sound;
      SoundAccounts(Tables(), "");
      StepKeepsSound(Tables(), Event(now, 0, OpVerifyEmail(token)));
      if token !in verifications || verifications[token].used || verifications[token].expiresAt <= now
        || verifications[token].account !in accounts {
        return Rejected(CredentialsError);
      }
      if AddressUsed(emails, verifications[token].newEmail) {
        return Rejected(EmailAlreadyRegistered);
      }
      var row := FreshId();
      emails := emails[row := EmailRow(verifications[token].account, verifications[token].newEmail, false, true)];
      verifications := verifications[token := verifications[token].(used := true)];
      out := Done(None);
    }

    /** `create_recovery_token`: the token handed back is live for the account and address. */
    method CreateRecoveryToken(account: nat, email: string, now: int) returns (token: nat)
      modifies `recoveries, `next
      ensures Tables() == WithRecovery(old(Tables()), account, email, now)
      ensures LiveRecovery(Tables(), token, account, email, now)
    {
      if t :| t in recoveries && recoveries[t].expiresAt > now
            && recoveries[t] == RecoveryToken(account, email, recoveries[t].expiresAt, false)
      {
        assert LiveRecovery(Tables(), t, account, email, now);
        token := t;
      } else {
        assert forall t :: !LiveRecovery(Tables(), t, account, email, now);
        token := FreshId();
        recoveries := recoveries[token := RecoveryToken(account, email, now + 7 * DAY, false)];
      }
    }

    /** On success the mailed token is live for the address that was primary. */
    method PromoteEmail(actor: nat, emailId: nat, now: int, lag: nat) returns (out: Outcome, mailed: Option<nat>)
      requires Valid()
      modifies this
      ensures (Tables(), out) == Promote(old(Tables()), actor, emailId, now, lag)
      ensures Valid()
      ensures out.Done? && out.issued.Some? ==>
        mailed.Some? && actor in old(accounts)
          && LiveRecovery(Tables(), mailed.value, actor, old(accounts)[actor].email, now)
    {
      hide Sound, UniqueEmails, UniqueAddresses, AtMostOnePrimary, Promoted;
      SoundIsUnique(Tables(), actor);
      StepKeepsSound(Tables(), Event(now, lag, OpPromote(actor, emailId)));
      mailed := None;
      if actor !in accounts {
        return Rejected(NotAuthenticated), None;
      }
      if emailId !in emails || emails[emailId].account != actor {
        return Rejected(EmailNotFound), None;
      }
      if emails[emailId].isPrimary {
        return Done(None), None;
      }
      if !emails[emailId].verified {
        return Rejected(EmailNotVerified), None;
      }
      var oldPrimaryEmail := accounts[actor].email;
      out := CommitSwap(actor, emailId);
      if out.Rejected? {
        return out, None;
      }
      out := Done(Some(next));
      var claims := CreateTrackedRefreshToken(actor, false, now, lag, None);
      var token := CreateRecoveryToken(actor, oldPrimaryEmail, now);
      mailed := Some(token);
    }

    /** Swaps the primary address and commits; a refused commit is rolled back. */
    method CommitSwap(actor: nat, emailId: nat) returns (out: Outcome)
      requires UniqueEmails(accounts) && UniqueAddresses(emails) && AtMostOnePrimary(emails, actor)
      requires actor in accounts && emailId in emails
      modifies `emails, `accounts, `refreshes
      ensures out == if exists b :: b in old(accounts) && b != actor
                         && old(accounts)[b].email == old(emails)[emailId].email
                     then Rejected(IntegrityError) else Done(None)
      ensures Tables() == if out.Rejected? then old(Tables()) else Promoted(old(Tables()), actor, emailId)
      ensures actor in accounts
    {
      PromoteRefusedIff(Tables(), actor, emailId);
      var savedAccounts, savedEmails, savedRefreshes := accounts, emails, refreshes;
      assert actor in Promoted(Tables(), actor, emailId).accounts;
      hide UniqueEmails, UniqueAddresses, AtMostOnePrimary, Committable, Promoted;
      SwapPrimary(actor, emailId);
      out := Done(None);
      if !Committable(accounts, emails) {
        accounts, emails, refreshes := savedAccounts, savedEmails, savedRefreshes;
        out := Rejected(IntegrityError);
      }
    }

    method SwapPrimary(actor: nat, emailId: nat)
      requires AtMostOnePrimary(emails, actor) && actor in accounts && emailId in emails
      modifies `emails, `accounts, `refreshes
      ensures Tables() == Promoted(old(Tables()), actor, emailId)
    {
      var target := emails[emailId];
      if i :| i in emails && emails[i].account == actor && emails[i].isPrimary {
        UniquePrimaryRow(emails, actor, i);
        emails := emails[i := emails[i].(isPrimary := false)];
      }
      hide AtMostOnePrimary;
      emails := emails[emailId := target.(isPrimary := true)];
      accounts := accounts[actor := accounts[actor].(email := target.email)];
      RevokeAllRefreshTokens(actor);
    }

    method RemoveEmail(actor: nat, emailId: nat, now: int) returns (out: Outcome, mailed: Option<nat>)
      requires Valid()
      modifies this
      ensures (Tables(), out) == Remove(old(Tables()), actor, emailId, now)
      ensures Valid()
      ensures out.Done? ==>
        mailed.Some? && emailId in old(emails)
          && LiveRecovery(Tables(), mailed.value, actor, old(emails)[emailId].email, now)
    {
      hide Sound;
      StepKeepsSound(Tables(), Event(now, 0, OpRemove(actor, emailId)));
      if actor !in accounts {
        return Rejected(NotAuthenticated), None;
      }
      if emailId !in emails || emails[emailId].account != actor {
        return Rejected(EmailNotFound), None;
      }
      if emails[emailId].isPrimary {
        return Rejected(CannotRemovePrimary), None;
      }
      var removedAddress := emails[emailId].email;
      emails := emails - {emailId};
      assert Tables() == old(Tables()).(emails := old(emails) - {emailId});
      var token := CreateRecoveryToken(actor, removedAddress, now);
      out, mailed := Done(None), Some(token);
    }

    method DeleteAccount(actor: nat, email: string, password: string) returns (out: Outcome)
      requires Valid()
      modifies this
      ensures (Tables(), out) == AccountTables.DeleteAccount(old(Tables()), actor, email, password)
      ensures Valid()
      ensures out.Done? ==>
        && actor !in accounts && RowsOf(emails, actor) == {}
        && forall j :: j in refreshes ==> refreshes[j].account != actor
    {
      hide Sound, OtherRows;
      NoRowsLeft(emails, actor);
      StepKeepsSound(Tables(), Event(0, 0, OpDeleteAccount(actor, email, password)));
      if actor !in accounts {
        return Rejected(NotAuthenticated);
      }
      if email != accounts[actor].email {
        return Rejected(CredentialsError);
      }
      if password != accounts[actor].password {
        return Rejected(PasswordError);
      }
      CascadeDelete(actor);
      out := Done(None);
    }

    /** The `delete-orphan` cascades from an account. */
    method CascadeDelete(actor: nat)
      requires actor in accounts
      modifies this
      ensures Tables() == AccountTables.DeleteAccount(old(Tables()), actor, old(accounts)[actor].email,
        old(accounts)[actor].password).0
    {
      DeleteRows(actor);
      verifications := map t | t in verifications && verifications[t].account != actor :: verifications[t];
      recoveries := map t | t in recoveries && recoveries[t].account != actor :: recoveries[t];
      resets := map t | t in resets && resets[t].account != actor :: resets[t];
      refreshes := map j | j in refreshes && refreshes[j].account != actor :: refreshes[j];
      accounts := accounts - {actor};
    }

    /** `seed_account_emails` at start-up, before any route runs. A refused commit leaves no trace. */
    method SeedAccountEmails(order: seq<nat>) returns (out: Outcome)
      requires Seedable(Tables()) && Lineages(Tables()) && Lists(order, accounts.Keys)
      modifies this
      ensures (Tables(), out) == Seed(old(Tables()), order)
      ensures out.Done? ==> Valid()
    {
      SeedEstablishes(Tables(), order);
      SeedStep(Tables(), order);
      TokenStepKeepsLineages(Tables(), Seed(Tables(), order).0, Seed(Tables(), order).1);
      hide Seedable, Owned, Lineages;
      hide UniqueAddresses;
      var savedEmails, savedNext := emails, next;
      AddMissingRows(order);
      SeedOnlyAddsRows(old(Tables()), order);
      if UniqueAddresses(emails) {
        out := Done(None);
      } else {
        emails, next := savedEmails, savedNext;
        out := Rejected(IntegrityError);
      }
    }

    method AddMissingRows(order: seq<nat>)
      requires forall a :: a in order ==> a in accounts
      modifies `emails, `next
      ensures Tables() == SeedAll(old(Tables()), order)
    {
      for n := 0 to |order|
        invariant Tables() == SeedAll(old(Tables()), order[..n])
      {
        assert order[..n + 1][..n] == order[..n] && order[..n + 1][n] == order[n];
        var account := order[n];
        if RowsOf(emails, account) == {} {
          var row := FreshId();
          emails := emails[row := EmailRow(account, accounts[account].email, true, true)];
        }
      }
      assert order[..|order|] == order;
    }
  }
}
