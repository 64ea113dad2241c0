/** The private tables of the account system and the meaning of each route on them: a route is one
    step from tables to tables. Ids, one-time tokens and token identifiers are all drawn from one
    counter, so every new one is fresh. Times are microseconds on one clock. */
module AccountTables {
  import opened Options
  import opened Finite

  const SECOND := 1_000_000
  const HOUR := 3600 * SECOND
  const DAY := 24 * HOUR
  const MAX_EMAILS_PER_ACCOUNT := 2

  // A hashed password is represented by the password it verifies.
  datatype Account = Account(email: string, password: string)
  datatype EmailRow = EmailRow(account: nat, email: string, isPrimary: bool, verified: bool)
  datatype VerificationToken = VerificationToken(account: nat, newEmail: string, expiresAt: int, used: bool)
  datatype RecoveryToken = RecoveryToken(account: nat, email: string, expiresAt: int, used: bool)
  datatype ResetToken = ResetToken(account: nat, expiresAt: int, used: bool)
  datatype RefreshToken = RefreshToken(account: nat, expiresAt: int, revoked: bool)

  // The signed contents of a refresh token; tokens older than the `jti` claim carry none.
  datatype Claims = Claims(sub: string, jti: Option<nat>, persistent: bool, exp: int)

  // A refresh token handed out, for whom, and the token it replaced.
  datatype Issue = Issue(account: nat, claims: Claims, parent: Option<nat>)

  /** The tables, keyed by id or by their unique token column. `issued` is no table: it is every
      refresh token ever signed, in the hands of clients. */
  datatype Db = Db(
    accounts: map<nat, Account>,
    emails: map<nat, EmailRow>,
    verifications: map<nat, VerificationToken>,
    recoveries: map<nat, RecoveryToken>,
    resets: map<nat, ResetToken>,
    refreshes: map<nat, RefreshToken>,
    issued: map<nat, Issue>,
    next: nat)

  datatype Error =
    | CredentialsError
    | PasswordError
    | EmailAlreadyRegistered
    | MaxEmailsReached
    | EmailNotFound
    | EmailNotVerified
    | CannotRemovePrimary
    | NotAuthenticated
    | IntegrityError

  datatype Outcome = Done(issued: Option<nat>) | ReuseDetected | Rejected(error: Error)

  // ---- Queries ----

  /** `select(Account).where(Account.email == email)`; the column is unique. */
  ghost function AccountWith(accounts: map<nat, Account>, email: string): (a: Option<nat>)
    ensures a.Some? ==> a.value in accounts && accounts[a.value].email == email
    ensures a.None? ==> forall b :: b in accounts ==> accounts[b].email != email
  {
    if exists b :: b in accounts && accounts[b].email == email then
      var b :| b in accounts && accounts[b].email == email;
      Some(b)
    else None
  }

  predicate AddressUsed(emails: map<nat, EmailRow>, email: string) {
    exists i :: i in emails && emails[i].email == email
  }

  ghost function PrimaryRow(emails: map<nat, EmailRow>, account: nat): (i: Option<nat>)
    ensures i.Some? ==> i.value in emails && emails[i.value].account == account && emails[i.value].isPrimary
    ensures i.None? ==> forall j :: j in emails && emails[j].account == account ==> !emails[j].isPrimary
  {
    if exists j :: j in emails && emails[j].account == account && emails[j].isPrimary then
      var j :| j in emails && emails[j].account == account && emails[j].isPrimary;
      Some(j)
    else None
  }

  function RowsOf(emails: map<nat, EmailRow>, account: nat): set<nat> {
    set i | i in emails && emails[i].account == account
  }

  function OtherRows(emails: map<nat, EmailRow>, account: nat): map<nat, EmailRow> {
    map i | i in emails && emails[i].account != account :: emails[i]
  }

  predicate LiveRecovery(db: Db, token: nat, account: nat, email: string, now: int) {
    token in db.recoveries
      && db.recoveries[token] == RecoveryToken(account, email, db.recoveries[token].expiresAt, false)
      && db.recoveries[token].expiresAt > now
  }

  predicate LiveReset(db: Db, token: nat, account: nat, now: int) {
    token in db.resets && db.resets[token] == ResetToken(account, db.resets[token].expiresAt, false)
      && db.resets[token].expiresAt > now
  }

  predicate LiveVerification(db: Db, token: nat, account: nat, email: string, now: int) {
    token in db.verifications
      && db.verifications[token] == VerificationToken(account, email, db.verifications[token].expiresAt, false)
      && db.verifications[token].expiresAt > now
  }

  /** The session ends on or after `exp` (section 4.1.4 of RFC 7519). */
  predicate ClaimsValid(claims: Claims, now: int) {
    now < claims.exp
  }

  // ---- Refresh tokens ----

  function WholeSeconds(t: int): int {
    t / SECOND * SECOND
  }

  function Lifetime(persistent: bool): int {
    if persistent then 30 * DAY else 12 * HOUR
  }

  /** `create_tracked_refresh_token`: the row's expiry is computed from a first clock read, the signed
      `exp` from a second one `lag` later, and `exp` is kept in whole seconds. */
  function IssueToken(db: Db, account: nat, parent: Option<nat>, persistent: bool, now: int, lag: nat): Db
    requires account in db.accounts
  {
    var j := db.next;
    var exp := WholeSeconds(now + lag + Lifetime(persistent));
    db.(refreshes := db.refreshes[j := RefreshToken(account, now + Lifetime(persistent), false)],
        issued := db.issued[j := Issue(account, Claims(db.accounts[account].email, Some(j), persistent, exp), parent)],
        next := j + 1)
  }

  function RevokeAll(refreshes: map<nat, RefreshToken>, account: nat): map<nat, RefreshToken> {
    map j | j in refreshes ::
      if refreshes[j].account == account then refreshes[j].(revoked := true) else refreshes[j]
  }

  function Revoke(refreshes: map<nat, RefreshToken>, j: nat): map<nat, RefreshToken>
    requires j in refreshes
  {
    refreshes[j := refreshes[j].(revoked := true)]
  }

  // ---- Routes ----

  ghost function Login(db: Db, email: string, password: string, persistent: bool, now: int, lag: nat): (Db, Outcome) {
    match AccountWith(db.accounts, email)
    case None => (db, Rejected(CredentialsError))
    case Some(a) =>
      if db.accounts[a].password != password then (db, Rejected(CredentialsError))
      else (IssueToken(db, a, None, persistent, now, lag), Done(Some(db.next)))
  }

  /** A new account and its primary row. */
  function Registered(db: Db, email: string, password: string): Db {
    var a, row := db.next, db.next + 1;
    db.(accounts := db.accounts[a := Account(email, password)],
        emails := db.emails[row := EmailRow(a, email, true, true)],
        next := db.next + 2)
  }

  ghost function Register(db: Db, email: string, password: string, now: int, lag: nat): (Db, Outcome) {
    if AccountWith(db.accounts, email).Some? then (db, Rejected(EmailAlreadyRegistered))
    else if AddressUsed(db.emails, email) then (db, Rejected(IntegrityError))
    else (IssueToken(Registered(db, email, password), db.next, None, false, now, lag), Done(Some(db.next + 2)))
  }

  /** A presented refresh token: refused, taken as proof of theft, or replaced by a successor. */
  ghost function Rotate(db: Db, claims: Claims, now: int, lag: nat): (Db, Outcome) {
    if !ClaimsValid(claims, now) || claims.jti.None? then (db, Rejected(NotAuthenticated))
    else match AccountWith(db.accounts, claims.sub)
      case None => (db, Rejected(NotAuthenticated))
      case Some(a) =>
        var j := claims.jti.value;
        if j !in db.refreshes || db.refreshes[j].account != a then (db, Rejected(NotAuthenticated))
        else if db.refreshes[j].revoked then (db.(refreshes := RevokeAll(db.refreshes, a)), ReuseDetected)
        else
          (IssueToken(db.(refreshes := Revoke(db.refreshes, j)), a, Some(j), claims.persistent, now, lag),
           Done(Some(db.next)))
  }

  function Logout(db: Db, claims: Claims, now: int): (Db, Outcome) {
    if ClaimsValid(claims, now) && claims.jti.Some? && claims.jti.value in db.refreshes
    then (db.(refreshes := Revoke(db.refreshes, claims.jti.value)), Done(None))
    else (db, Done(None))
  }

  ghost function ForgotPassword(db: Db, email: string, sent: bool, now: int): (Db, Outcome) {
    match AccountWith(db.accounts, email)
    case None => (db, Done(None))
    case Some(a) =>
      if (exists t :: LiveReset(db, t, a, now)) || !sent then (db, Done(None))
      else (db.(resets := db.resets[db.next := ResetToken(a, now + HOUR, false)], next := db.next + 1), Done(None))
  }

  function ResetPassword(db: Db, email: string, token: nat, password: string, now: int, lag: nat): (Db, Outcome) {
    if token !in db.resets || db.resets[token].used || db.resets[token].expiresAt <= now
      || db.resets[token].account !in db.accounts || db.accounts[db.resets[token].account].email != email
    then (db, Rejected(CredentialsError))
    else
      var a := db.resets[token].account;
      var db1 := db.(accounts := db.accounts[a := db.accounts[a].(password := password)],
                     resets := db.resets[token := db.resets[token].(used := true)],
                     refreshes := RevokeAll(db.refreshes, a));
      (IssueToken(db1, a, None, false, now, lag), Done(Some(db.next)))
  }

  /** Some account other than `a` holds the address, as a row or as `Account.email`. */
  predicate HeldByOther(db: Db, email: string, a: nat) {
    || (exists i :: i in db.emails && db.emails[i].email == email && db.emails[i].account != a)
    || (exists b :: b in db.accounts && b != a && db.accounts[b].email == email)
  }

  /** The token's address restored as the account's only one, every session revoked, a reset opened. */
  function Recovered(db: Db, token: nat, now: int): Db
    requires token in db.recoveries && db.recoveries[token].account in db.accounts
  {
    var a, email := db.recoveries[token].account, db.recoveries[token].email;
    db.(accounts := db.accounts[a := db.accounts[a].(email := email)],
        emails := OtherRows(db.emails, a)[db.next := EmailRow(a, email, true, true)],
        recoveries := db.recoveries[token := db.recoveries[token].(used := true)],
        refreshes := RevokeAll(db.refreshes, a),
        resets := db.resets[db.next + 1 := ResetToken(a, now + HOUR, false)],
        next := db.next + 2)
  }

  function Recover(db: Db, token: nat, now: int): (Db, Outcome) {
    if token !in db.recoveries || db.recoveries[token].used || db.recoveries[token].expiresAt <= now
      || db.recoveries[token].account !in db.accounts
    then (db, Rejected(CredentialsError))
    else
      var a, email := db.recoveries[token].account, db.recoveries[token].email;
      if HeldByOther(db, email, a) then (db, Rejected(IntegrityError)) else (Recovered(db, token, now), Done(None))
  }

  ghost function AddEmail(db: Db, actor: nat, newEmail: string, sent: bool, now: int): (Db, Outcome) {
    if actor !in db.accounts then (db, Rejected(NotAuthenticated))
    else if AddressUsed(db.emails, newEmail) then (db, Rejected(EmailAlreadyRegistered))
    else if |RowsOf(db.emails, actor)| >= MAX_EMAILS_PER_ACCOUNT then (db, Rejected(MaxEmailsReached))
    else if (exists t :: LiveVerification(db, t, actor, newEmail, now)) || !sent then (db, Done(None))
    else
      (db.(verifications := db.verifications[db.next := VerificationToken(actor, newEmail, now + HOUR, false)],
           next := db.next + 1),
       Done(None))
  }

  function VerifyEmail(db: Db, token: nat, now: int): (Db, Outcome) {
    if token !in db.verifications || db.verifications[token].used || db.verifications[token].expiresAt <= now
      || db.verifications[token].account !in db.accounts
    then (db, Rejected(CredentialsError))
    else if AddressUsed(db.emails, db.verifications[token].newEmail) then (db, Rejected(EmailAlreadyRegistered))
    else
      var v := db.verifications[token];
      (db.(emails := db.emails[db.next := EmailRow(v.account, v.newEmail, false, true)],
           verifications := db.verifications[token := v.(used := true)],
           next := db.next + 1),
       Done(None))
  }

  /** `create_recovery_token`: a live token for the same account and address is handed out again. */
  ghost function WithRecovery(db: Db, account: nat, email: string, now: int): Db {
    if exists t :: LiveRecovery(db, t, account, email, now) then db
    else db.(recoveries := db.recoveries[db.next := RecoveryToken(account, email, now + 7 * DAY, false)],
             next := db.next + 1)
  }

  /** The primary flag moved to row `emailId`, `Account.email` following, every session revoked. */
  ghost function Promoted(db: Db, actor: nat, emailId: nat): Db
    requires actor in db.accounts && emailId in db.emails
  {
    var primary := PrimaryRow(db.emails, actor);
    var demoted :=
      if primary.Some? then db.emails[primary.value := db.emails[primary.value].(isPrimary := false)] else db.emails;
    db.(emails := demoted[emailId := db.emails[emailId].(isPrimary := true)],
        accounts := db.accounts[actor := db.accounts[actor].(email := db.emails[emailId].email)],
        refreshes := RevokeAll(db.refreshes, actor))
  }

  ghost function Promote(db: Db, actor: nat, emailId: nat, now: int, lag: nat): (Db, Outcome) {
    if actor !in db.accounts then (db, Rejected(NotAuthenticated))
    else if emailId !in db.emails || db.emails[emailId].account != actor then (db, Rejected(EmailNotFound))
    else if db.emails[emailId].isPrimary then (db, Done(None))
    else if !db.emails[emailId].verified then (db, Rejected(EmailNotVerified))
    else if exists b :: b in db.accounts && b != actor && db.accounts[b].email == db.emails[emailId].email
    then (db, Rejected(IntegrityError))
    else
      (WithRecovery(IssueToken(Promoted(db, actor, emailId), actor, None, false, now, lag), actor,
        db.accounts[actor].email, now),
       Done(Some(db.next)))
  }

  ghost function Remove(db: Db, actor: nat, emailId: nat, now: int): (Db, Outcome) {
    if actor !in db.accounts then (db, Rejected(NotAuthenticated))
    else if emailId !in db.emails || db.emails[emailId].account != actor then (db, Rejected(EmailNotFound))
    else if db.emails[emailId].isPrimary then (db, Rejected(CannotRemovePrimary))
    else (WithRecovery(db.(emails := db.emails - {emailId}), actor, db.emails[emailId].email, now), Done(None))
  }

  function DeleteAccount(db: Db, actor: nat, email: string, password: string): (Db, Outcome) {
    if actor !in db.accounts then (db, Rejected(NotAuthenticated))
    else if email != db.accounts[actor].email then (db, Rejected(CredentialsError))
    else if password != db.accounts[actor].password then (db, Rejected(PasswordError))
    else
      (db.(accounts := db.accounts - {actor},
           emails := OtherRows(db.emails, actor),
           verifications := map t | t in db.verifications && db.verifications[t].account != actor
                              :: db.verifications[t],
           recoveries := map t | t in db.recoveries && db.recoveries[t].account != actor :: db.recoveries[t],
           resets := map t | t in db.resets && db.resets[t].account != actor :: db.resets[t],
           refreshes := map j | j in db.refreshes && db.refreshes[j].account != actor :: db.refreshes[j]),
       Done(None))
  }

  function SeedOne(db: Db, a: nat): Db
    requires a in db.accounts
  {
    if RowsOf(db.emails, a) != {} then db
    else db.(emails := db.emails[db.next := EmailRow(a, db.accounts[a].email, true, true)], next := db.next + 1)
  }

  /** The rows `seed_account_emails` adds to its session, taking the accounts in the order read. */
  function SeedAll(db: Db, order: seq<nat>): (r: Db)
    requires forall a :: a in order ==> a in db.accounts
    ensures r.accounts == db.accounts
  {
    if order == [] then db else SeedOne(SeedAll(db, order[..|order| - 1]), order[|order| - 1])
  }

  predicate UniqueAddresses(emails: map<nat, EmailRow>) {
    forall i, j :: i in emails && j in emails && emails[i].email == emails[j].email ==> i == j
  }

  function Seed(db: Db, order: seq<nat>): (Db, Outcome)
    requires forall a :: a in order ==> a in db.accounts
  {
    if UniqueAddresses(SeedAll(db, order).emails) then (SeedAll(db, order), Done(None))
    else (db, Rejected(IntegrityError))
  }

  function Cleanup(db: Db, now: int): (Db, Outcome) {
    (db.(refreshes := map j | j in db.refreshes && !(db.refreshes[j].expiresAt < now) :: db.refreshes[j]), Done(None))
  }

  // ---- Which tables the larger steps touch ----

  lemma PromotedTables(db: Db, a: nat, row: nat)
    requires a in db.accounts && row in db.emails
    ensures Promoted(db, a, row).accounts == db.accounts[a := db.accounts[a].(email := db.emails[row].email)]
    ensures Promoted(db, a, row).refreshes == RevokeAll(db.refreshes, a)
    ensures Promoted(db, a, row).issued == db.issued && Promoted(db, a, row).next == db.next
    ensures Promoted(db, a, row).recoveries == db.recoveries
  {
  }

  lemma IssueTables(db: Db, account: nat, parent: Option<nat>, persistent: bool, now: int, lag: nat)
    requires account in db.accounts
    ensures var db1 := IssueToken(db, account, parent, persistent, now, lag);
      && db1.accounts == db.accounts && db1.emails == db.emails && db1.next == db.next + 1
      && db1.resets == db.resets && db1.recoveries == db.recoveries && db1.verifications == db.verifications
  {
  }

  lemma RecoveryTables(db: Db, account: nat, email: string, now: int)
    ensures var db1 := WithRecovery(db, account, email, now);
      db1.accounts == db.accounts && db1.emails == db.emails && db1.refreshes == db.refreshes && db1.issued == db.issued
      && db1.next >= db.next && db1.resets == db.resets
  {
  }

  // ---- Runs ----

  datatype Op =
    | OpLogin(email: string, password: string, persistent: bool)
    | OpRegister(email: string, password: string)
    | OpRotate(claims: Claims)
    | OpLogout(claims: Claims)
    | OpForgotPassword(email: string, sent: bool)
    | OpResetPassword(email: string, token: nat, password: string)
    | OpRecover(token: nat)
    | OpAddEmail(actor: nat, newEmail: string, sent: bool)
    | OpVerifyEmail(token: nat)
    | OpPromote(actor: nat, emailId: nat)
    | OpRemove(actor: nat, emailId: nat)
    | OpDeleteAccount(actor: nat, email: string, password: string)
    | OpSeed(order: seq<nat>)
    | OpCleanup

  datatype Event = Event(now: int, lag: nat, op: Op)

  /** Signatures: a token naming a `jti` is one the server signed. */
  predicate Genuine(db: Db, claims: Claims) {
    claims.jti.Some? ==> claims.jti.value in db.issued && db.issued[claims.jti.value].claims == claims
  }

  ghost predicate WellFormed(db: Db, e: Event) {
    match e.op
    case OpRotate(claims) => Genuine(db, claims)
    case OpLogout(claims) => Genuine(db, claims)
    case OpSeed(order) => Lists(order, db.accounts.Keys)
    case _ => true
  }

  ghost function Step(db: Db, e: Event): (Db, Outcome)
    requires WellFormed(db, e)
  {
    match e.op
    case OpLogin(email, password, persistent) => Login(db, email, password, persistent, e.now, e.lag)
    case OpRegister(email, password) => Register(db, email, password, e.now, e.lag)
    case OpRotate(claims) => Rotate(db, claims, e.now, e.lag)
    case OpLogout(claims) => Logout(db, claims, e.now)
    case OpForgotPassword(email, sent) => ForgotPassword(db, email, sent, e.now)
    case OpResetPassword(email, token, password) => ResetPassword(db, email, token, password, e.now, e.lag)
    case OpRecover(token) => Recover(db, token, e.now)
    case OpAddEmail(actor, newEmail, sent) => AddEmail(db, actor, newEmail, sent, e.now)
    case OpVerifyEmail(token) => VerifyEmail(db, token, e.now)
    case OpPromote(actor, emailId) => Promote(db, actor, emailId, e.now, e.lag)
    case OpRemove(actor, emailId) => Remove(db, actor, emailId, e.now)
    case OpDeleteAccount(actor, email, password) => DeleteAccount(db, actor, email, password)
    case OpSeed(order) => Seed(db, order)
    case OpCleanup => Cleanup(db, e.now)
  }

  /** A run that can happen from `db`: every event is well formed where it occurs, time never goes back. */
  ghost predicate Possible(db: Db, run: seq<Event>, start: int)
    decreases |run|
  {
    run == [] ||
    (start <= run[0].now && WellFormed(db, run[0]) && Possible(Step(db, run[0]).0, run[1..], run[0].now + run[0].lag))
  }

  ghost function Run(db: Db, run: seq<Event>, start: int): Db
    requires Possible(db, run, start)
    decreases |run|
  {
    if run == [] then db else Run(Step(db, run[0]).0, run[1..], run[0].now + run[0].lag)
  }
}
