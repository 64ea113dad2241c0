/** Who owns which address, on every run. */
module AccountEmails {
  import opened AccountTables
  import opened Options
  import opened Finite

  /** Ids are below the counter and every row belongs to an account that exists. */
  ghost predicate Keyed(db: Db) {
    && (forall a :: a in db.accounts ==> a < db.next)
    && (forall i :: i in db.emails ==> i < db.next)
    && (forall t :: t in db.verifications ==> t < db.next && db.verifications[t].account in db.accounts)
    && (forall t :: t in db.recoveries ==> t < db.next && db.recoveries[t].account in db.accounts)
    && (forall t :: t in db.resets ==> t < db.next && db.resets[t].account in db.accounts)
    && (forall j :: j in db.refreshes ==> j < db.next && db.refreshes[j].account in db.accounts)
  }

  predicate UniqueEmails(accounts: map<nat, Account>) {
    forall a, b :: a in accounts && b in accounts && accounts[a].email == accounts[b].email ==> a == b
  }

  ghost predicate RowsHaveAccounts(accounts: map<nat, Account>, emails: map<nat, EmailRow>) {
    forall i :: i in emails ==> emails[i].account in accounts
  }

  /** A primary row is verified and `Account.email` is a copy of it. */
  ghost predicate PrimariesCopied(accounts: map<nat, Account>, emails: map<nat, EmailRow>) {
    forall i :: i in emails && emails[i].isPrimary ==>
      emails[i].verified && emails[i].account in accounts && emails[i].email == accounts[emails[i].account].email
  }

  ghost predicate Consistent(accounts: map<nat, Account>, emails: map<nat, EmailRow>) {
    && UniqueEmails(accounts) && UniqueAddresses(emails)
    && RowsHaveAccounts(accounts, emails) && PrimariesCopied(accounts, emails)
  }

  ghost predicate HasPrimary(emails: map<nat, EmailRow>, a: nat) {
    exists i :: i in emails && emails[i].account == a && emails[i].isPrimary
  }

  ghost predicate AllHavePrimary(accounts: map<nat, Account>, emails: map<nat, EmailRow>) {
    forall a :: a in accounts ==> HasPrimary(emails, a)
  }

  ghost predicate Owned(db: Db) {
    Keyed(db) && Consistent(db.accounts, db.emails) && AllHavePrimary(db.accounts, db.emails)
  }

  // ---- What ownership says ----

  /** Row `i` is the account's one primary row: verified, and equal to `Account.email`. */
  ghost predicate IsThePrimary(db: Db, a: nat, i: nat) {
    && a in db.accounts && i in db.emails
    && db.emails[i] == EmailRow(a, db.accounts[a].email, true, true)
    && (forall j :: j in db.emails && db.emails[j].account == a && db.emails[j].isPrimary ==> j == i)
  }

  lemma OnePrimaryEach(db: Db, a: nat) returns (i: nat)
    requires Owned(db) && a in db.accounts
    ensures IsThePrimary(db, a, i)
  {
    assert HasPrimary(db.emails, a);
    i :| i in db.emails && db.emails[i].account == a && db.emails[i].isPrimary;
  }

  ghost predicate GoesBy(db: Db, a: nat, email: string) {
    a in db.accounts &&
    (db.accounts[a].email == email
      || exists i :: i in db.emails && db.emails[i].account == a && db.emails[i].email == email)
  }

  /** Whatever an account goes by, in either table, no other account goes by. */
  lemma NobodySharesAnAddress(db: Db, a: nat, b: nat, email: string)
    requires Owned(db) && GoesBy(db, a, email) && GoesBy(db, b, email)
    ensures a == b
  {
    var p := OnePrimaryEach(db, a);
    var q := OnePrimaryEach(db, b);
  }

  // ---- The changes routes make to the two tables ----

  ghost predicate KeepsPrimariesOf(emails: map<nat, EmailRow>, emails': map<nat, EmailRow>, a: nat) {
    forall i :: i in emails && emails[i].account == a && emails[i].isPrimary ==> i in emails' && emails'[i] == emails[i]
  }

  lemma KeptRows(emails: map<nat, EmailRow>, emails': map<nat, EmailRow>)
    ensures forall a :: HasPrimary(emails, a) && KeepsPrimariesOf(emails, emails', a) ==> HasPrimary(emails', a)
  {
    forall a | HasPrimary(emails, a) && KeepsPrimariesOf(emails, emails', a) ensures HasPrimary(emails', a) {
      var i :| i in emails && emails[i].account == a && emails[i].isPrimary;
      assert emails'[i].isPrimary;
    }
  }

  lemma NewAccount(accounts: map<nat, Account>, emails: map<nat, EmailRow>, a: nat, row: nat, email: string,
    password: string)
    requires Consistent(accounts, emails)
    requires a !in accounts && row !in emails && !AddressUsed(emails, email)
    requires forall b :: b in accounts ==> accounts[b].email != email
    ensures var accounts', emails' := accounts[a := Account(email, password)],
      emails[row := EmailRow(a, email, true, true)];
      Consistent(accounts', emails') && (AllHavePrimary(accounts, emails) ==> AllHavePrimary(accounts', emails'))
  {
    var accounts', emails' := accounts[a := Account(email, password)], emails[row := EmailRow(a, email, true, true)];
    KeptRows(emails, emails');
    assert emails'[row].account == a && emails'[row].isPrimary;
    assert HasPrimary(emails', a);
  }

  lemma NewSecondary(accounts: map<nat, Account>, emails: map<nat, EmailRow>, row: nat, a: nat, email: string)
    requires Consistent(accounts, emails) && a in accounts && row !in emails && !AddressUsed(emails, email)
    ensures var emails' := emails[row := EmailRow(a, email, false, true)];
      Consistent(accounts, emails') && (AllHavePrimary(accounts, emails) ==> AllHavePrimary(accounts, emails'))
  {
    KeptRows(emails, emails[row := EmailRow(a, email, false, true)]);
  }

  lemma SecondaryDropped(accounts: map<nat, Account>, emails: map<nat, EmailRow>, row: nat)
    requires Consistent(accounts, emails) && row in emails && !emails[row].isPrimary
    ensures Consistent(accounts, emails - {row})
    ensures AllHavePrimary(accounts, emails) ==> AllHavePrimary(accounts, emails - {row})
  {
    KeptRows(emails, emails - {row});
  }

  /** Promotion changes the primary flags of the actor's rows and nothing else about any row. */
  lemma PromotedShape(db: Db, a: nat, row: nat, i: nat)
    requires Consistent(db.accounts, db.emails) && a in db.accounts
    requires row in db.emails && db.emails[row].account == a && i in db.emails
    ensures i in Promoted(db, a, row).emails
    ensures Promoted(db, a, row).emails[i] ==
      if db.emails[i].account == a then db.emails[i].(isPrimary := i == row) else db.emails[i]
  {
    var primary := PrimaryRow(db.emails, a);
    if db.emails[i].account == a && db.emails[i].isPrimary {
      assert primary.Some? && db.emails[i].email == db.accounts[a].email == db.emails[primary.value].email;
    }
  }

  lemma SwappedEmails(accounts: map<nat, Account>, emails: map<nat, EmailRow>, accounts': map<nat, Account>, a: nat,
    row: nat)
    requires UniqueEmails(accounts) && a in accounts && row in emails
    requires forall b :: b in accounts && b != a ==> accounts[b].email != emails[row].email
    requires accounts' == accounts[a := accounts[a].(email := emails[row].email)]
    ensures UniqueEmails(accounts')
  {
  }

  /** Rows with only their primary flags moved to `row` within account `a`. */
  ghost predicate FlagsMoved(emails: map<nat, EmailRow>, emails': map<nat, EmailRow>, a: nat, row: nat) {
    && emails'.Keys == emails.Keys
    && forall i :: i in emails ==>
      emails'[i] == if emails[i].account == a then emails[i].(isPrimary := i == row) else emails[i]
  }

  lemma SwappedRows(accounts: map<nat, Account>, emails: map<nat, EmailRow>,
                    accounts': map<nat, Account>, emails': map<nat, EmailRow>, a: nat, row: nat)
    requires UniqueAddresses(emails) && RowsHaveAccounts(accounts, emails) && PrimariesCopied(accounts, emails)
    requires a in accounts && row in emails && emails[row].account == a && emails[row].verified
    requires accounts' == accounts[a := accounts[a].(email := emails[row].email)] && FlagsMoved(emails, emails', a, row)
    ensures UniqueAddresses(emails') && RowsHaveAccounts(accounts', emails') && PrimariesCopied(accounts', emails')
  {
    assert forall i :: i in emails' ==> emails'[i].email == emails[i].email && emails'[i].account == emails[i].account;
  }

  lemma SwappedPrimaries(accounts: map<nat, Account>, emails: map<nat, EmailRow>, emails': map<nat, EmailRow>, a: nat,
    row: nat)
    requires AllHavePrimary(accounts, emails) && a in accounts && row in emails && emails[row].account == a
    requires FlagsMoved(emails, emails', a, row)
    ensures AllHavePrimary(accounts, emails')
  {
    assert emails'[row].account == a && emails'[row].isPrimary;
    forall b | b in accounts ensures HasPrimary(emails', b) {
      if b != a {
        assert HasPrimary(emails, b);
        var i :| i in emails && emails[i].account == b && emails[i].isPrimary;
        assert emails'[i] == emails[i];
      }
    }
  }

  lemma SameKeysPrimaries(accounts: map<nat, Account>, accounts': map<nat, Account>, emails: map<nat, EmailRow>)
    requires AllHavePrimary(accounts, emails) && accounts'.Keys == accounts.Keys
    ensures AllHavePrimary(accounts', emails)
  {
    hide HasPrimary;
    assert forall a :: a in accounts' ==> a in accounts'.Keys && a in accounts;
  }

  lemma Swapped(accounts: map<nat, Account>, emails: map<nat, EmailRow>,
                accounts': map<nat, Account>, emails': map<nat, EmailRow>, a: nat, row: nat)
    requires Consistent(accounts, emails) && a in accounts
    requires row in emails && emails[row].account == a && emails[row].verified
    requires forall b :: b in accounts && b != a ==> accounts[b].email != emails[row].email
    requires accounts' == accounts[a := accounts[a].(email := emails[row].email)] && FlagsMoved(emails, emails', a, row)
    ensures Consistent(accounts', emails') && (AllHavePrimary(accounts, emails) ==> AllHavePrimary(accounts', emails'))
  {
    hide FlagsMoved, UniqueEmails, UniqueAddresses, RowsHaveAccounts, PrimariesCopied, AllHavePrimary;
    SwappedEmails(accounts, emails, accounts', a, row);
    SwappedRows(accounts, emails, accounts', emails', a, row);
    if AllHavePrimary(accounts, emails) {
      SwappedPrimaries(accounts, emails, emails', a, row);
      SameKeysPrimaries(accounts, accounts', emails');
    }
  }

  lemma PrimarySwapped(db: Db, a: nat, row: nat)
    requires Consistent(db.accounts, db.emails) && a in db.accounts
    requires row in db.emails && db.emails[row].account == a && db.emails[row].verified
    requires forall b :: b in db.accounts && b != a ==> db.accounts[b].email != db.emails[row].email
    ensures var db1 := Promoted(db, a, row);
      Consistent(db1.accounts, db1.emails)
      && (AllHavePrimary(db.accounts, db.emails) ==> AllHavePrimary(db1.accounts, db1.emails))
  {
    var db1 := Promoted(db, a, row);
    var emails', accounts' := db1.emails, db1.accounts;
    assert emails'.Keys == db.emails.Keys;
    assert accounts' == db.accounts[a := db.accounts[a].(email := db.emails[row].email)];
    forall i | i in db.emails
      ensures emails'[i] == if db.emails[i].account == a then db.emails[i].(isPrimary := i == row) else db.emails[i]
    {
      PromotedShape(db, a, row, i);
    }
    hide Promoted;
    Swapped(db.accounts, db.emails, accounts', emails', a, row);
  }

  lemma RowsPurged(accounts: map<nat, Account>, emails: map<nat, EmailRow>, a: nat, email: string)
    requires Consistent(accounts, emails) && a in accounts
    requires forall b :: b in accounts && b != a ==> accounts[b].email != email
    ensures Consistent(accounts[a := accounts[a].(email := email)], OtherRows(emails, a))
  {
  }

  lemma Restored(accounts: map<nat, Account>, purged: map<nat, EmailRow>, a: nat, row: nat)
    requires Consistent(accounts, purged) && a in accounts
    requires forall i :: i in purged ==> purged[i].email != accounts[a].email
    ensures Consistent(accounts, purged[row := EmailRow(a, accounts[a].email, true, true)])
  {
  }

  lemma OthersKeepPrimary(accounts: map<nat, Account>, emails: map<nat, EmailRow>, a: nat)
    requires AllHavePrimary(accounts, emails)
    ensures forall b :: b in accounts && b != a ==> HasPrimary(OtherRows(emails, a), b)
  {
    KeptRows(emails, OtherRows(emails, a));
  }

  lemma RestoredPrimaries(accounts: map<nat, Account>, emails: map<nat, EmailRow>, a: nat, row: nat, email: string)
    requires AllHavePrimary(accounts, emails) && a in accounts && row !in emails
    ensures AllHavePrimary(accounts[a := accounts[a].(email := email)],
                           OtherRows(emails, a)[row := EmailRow(a, email, true, true)])
  {
    var emails' := OtherRows(emails, a)[row := EmailRow(a, email, true, true)];
    OthersKeepPrimary(accounts, emails, a);
    KeptRows(OtherRows(emails, a), emails');
    assert emails'[row].account == a && emails'[row].isPrimary;
    assert HasPrimary(emails', a);
    forall b | b in accounts ensures HasPrimary(emails', b) {
      assert KeepsPrimariesOf(OtherRows(emails, a), emails', b);
    }
  }

  lemma AddressRestored(accounts: map<nat, Account>, emails: map<nat, EmailRow>, a: nat, row: nat, email: string)
    requires Consistent(accounts, emails) && a in accounts && row !in emails
    requires forall i :: i in emails && emails[i].email == email ==> emails[i].account == a
    requires forall b :: b in accounts && b != a ==> accounts[b].email != email
    ensures var accounts' := accounts[a := accounts[a].(email := email)];
      var emails' := OtherRows(emails, a)[row := EmailRow(a, email, true, true)];
      Consistent(accounts', emails') && (AllHavePrimary(accounts, emails) ==> AllHavePrimary(accounts', emails'))
  {
    hide Consistent, AllHavePrimary;
    RowsPurged(accounts, emails, a, email);
    Restored(accounts[a := accounts[a].(email := email)], OtherRows(emails, a), a, row);
    if AllHavePrimary(accounts, emails) {
      RestoredPrimaries(accounts, emails, a, row, email);
    }
  }

  lemma AccountDropped(accounts: map<nat, Account>, emails: map<nat, EmailRow>, a: nat)
    requires Consistent(accounts, emails)
    ensures Consistent(accounts - {a}, OtherRows(emails, a))
    ensures AllHavePrimary(accounts, emails) ==> AllHavePrimary(accounts - {a}, OtherRows(emails, a))
  {
    if AllHavePrimary(accounts, emails) {
      OthersKeepPrimary(accounts, emails, a);
    }
  }

  lemma PasswordChanged(accounts: map<nat, Account>, emails: map<nat, EmailRow>, a: nat, password: string)
    requires Consistent(accounts, emails) && a in accounts
    ensures var accounts' := accounts[a := accounts[a].(password := password)];
      Consistent(accounts', emails) && (AllHavePrimary(accounts, emails) ==> AllHavePrimary(accounts', emails))
  {
  }

  // ---- Seeding ----

  /** Accounts that have rows have a primary one. */
  ghost predicate RowsIncludePrimary(accounts: map<nat, Account>, emails: map<nat, EmailRow>) {
    forall a :: a in accounts && RowsOf(emails, a) != {} ==> HasPrimary(emails, a)
  }

  /** Before seeding, some accounts may have no rows at all. */
  ghost predicate Seedable(db: Db) {
    Keyed(db) && Consistent(db.accounts, db.emails) && RowsIncludePrimary(db.accounts, db.emails)
  }

  ghost predicate Covered(emails: map<nat, EmailRow>, done: seq<nat>) {
    forall a :: a in done ==> HasPrimary(emails, a)
  }

  /** What is true of the tables while seeding has reached the accounts in `done`. */
  ghost predicate Seeding(db: Db, done: seq<nat>) {
    && Keyed(db)
    && RowsHaveAccounts(db.accounts, db.emails) && PrimariesCopied(db.accounts, db.emails)
    && RowsIncludePrimary(db.accounts, db.emails)
    && Covered(db.emails, done)
  }

  lemma SeedRow(accounts: map<nat, Account>, emails: map<nat, EmailRow>, done: seq<nat>, a: nat, row: nat)
    requires RowsIncludePrimary(accounts, emails) && Covered(emails, done) && row !in emails && RowsOf(emails, a) == {}
    requires a in accounts
    ensures var emails' := emails[row := EmailRow(a, accounts[a].email, true, true)];
      RowsIncludePrimary(accounts, emails') && Covered(emails', done + [a])
  {
    var emails' := emails[row := EmailRow(a, accounts[a].email, true, true)];
    KeptRows(emails, emails');
    assert emails'[row].account == a && emails'[row].isPrimary;
    assert HasPrimary(emails', a);
    forall b | b in accounts && RowsOf(emails', b) != {} ensures HasPrimary(emails', b) {
      if b != a {
        var i :| i in RowsOf(emails', b);
        assert i in RowsOf(emails, b);
        assert KeepsPrimariesOf(emails, emails', b);
      }
    }
  }

  lemma SeedOneStep(db: Db, done: seq<nat>, a: nat)
    requires Seeding(db, done) && a in db.accounts
    ensures Seeding(SeedOne(db, a), done + [a])
  {
    hide RowsOf, HasPrimary;
    if RowsOf(db.emails, a) == {} {
      SeedRow(db.accounts, db.emails, done, a, db.next);
      hide RowsIncludePrimary, Covered;
      assert SeedOne(db, a).emails == db.emails[db.next := EmailRow(a, db.accounts[a].email, true, true)];
    } else {
      assert HasPrimary(db.emails, a);
    }
  }

  lemma {:induction false} SeedAllSteps(db: Db, order: seq<nat>)
    requires Seeding(db, []) && forall a :: a in order ==> a in db.accounts
    ensures Seeding(SeedAll(db, order), order)
  {
    if order != [] {
      var before := order[..|order| - 1];
      SeedAllSteps(db, before);
      SeedOneStep(SeedAll(db, before), before, order[|order| - 1]);
      assert before + [order[|order| - 1]] == order;
    }
  }

  /** Seeding makes every account own its address, or changes nothing. */
  lemma SeedEstablishes(db: Db, order: seq<nat>)
    requires Seedable(db) && Lists(order, db.accounts.Keys)
    ensures Seed(db, order).1.Done? ==> Owned(Seed(db, order).0)
    ensures Seed(db, order).1.Rejected? ==> Seed(db, order).0 == db
  {
    SeedAllSteps(db, order);
  }

  ghost predicate OneEach(db: Db, db1: Db) {
    forall i, j | i in db1.emails && j in db1.emails && i !in db.emails && j !in db.emails
      :: db1.emails[i].account == db1.emails[j].account ==> i == j
  }

  ghost predicate IsAdded(db: Db, db1: Db, order: seq<nat>, i: nat) {
    && i in db1.emails && db1.emails[i].account in order && db1.emails[i].account in db.accounts
    && RowsOf(db.emails, db1.emails[i].account) == {}
    && db1.emails[i].email == db.accounts[db1.emails[i].account].email
  }

  ghost predicate HasAdded(db: Db, db1: Db, a: nat) {
    exists i :: i in db1.emails && i !in db.emails && db1.emails[i].account == a
  }

  /** `db1` adds one row, with the account's own address, for each rowless account in `order`. */
  ghost predicate AddedFor(db: Db, db1: Db, order: seq<nat>) {
    && (forall i :: i in db.emails ==> i in db1.emails && db1.emails[i] == db.emails[i])
    && (forall i :: i in db1.emails && i !in db.emails ==> IsAdded(db, db1, order, i))
    && OneEach(db, db1)
    && (forall a :: a in order && RowsOf(db.emails, a) == {} ==> HasAdded(db, db1, a))
  }

  lemma NoneAddedYet(db: Db, mid: Db, before: seq<nat>, a: nat)
    requires AddedFor(db, mid, before) && a !in before
    ensures forall i :: i in mid.emails && mid.emails[i].account == a ==> i in db.emails
    ensures RowsOf(mid.emails, a) == RowsOf(db.emails, a)
  {
    forall i | i in mid.emails && mid.emails[i].account == a ensures i in db.emails {
      assert i !in db.emails ==> IsAdded(db, mid, before, i);
    }
  }

  lemma AddOneRow(db: Db, mid: Db, db1: Db, before: seq<nat>, a: nat, row: nat)
    requires AddedFor(db, mid, before) && a in db.accounts && row !in mid.emails
    requires RowsOf(db.emails, a) == {} && RowsOf(mid.emails, a) == {}
    requires db1.emails == mid.emails[row := EmailRow(a, db.accounts[a].email, true, true)]
    ensures AddedFor(db, db1, before + [a])
  {
    assert forall i :: i in mid.emails ==> i in RowsOf(mid.emails, mid.emails[i].account);
    assert forall i :: i in mid.emails ==> mid.emails[i].account != a && db1.emails[i] == mid.emails[i];
    hide RowsOf;
    assert OneEach(db, db1);
    hide OneEach;
    forall i | i in db1.emails && i !in db.emails ensures IsAdded(db, db1, before + [a], i) {
      assert i != row ==> IsAdded(db, mid, before, i);
    }
    hide IsAdded;
    forall b | b in before + [a] && RowsOf(db.emails, b) == {} ensures HasAdded(db, db1, b) {
      if b == a {
        assert db1.emails[row].account == a;
      } else {
        assert HasAdded(db, mid, b);
        var i :| i in mid.emails && i !in db.emails && mid.emails[i].account == b;
        assert db1.emails[i].account == b;
      }
    }
  }

  lemma AddOne(db: Db, mid: Db, before: seq<nat>, a: nat)
    requires AddedFor(db, mid, before) && mid.accounts == db.accounts && a in db.accounts && a !in before
    requires mid.next !in mid.emails
    ensures AddedFor(db, SeedOne(mid, a), before + [a])
  {
    NoneAddedYet(db, mid, before, a);
    if RowsOf(db.emails, a) == {} {
      hide AddedFor;
      AddOneRow(db, mid, SeedOne(mid, a), before, a, mid.next);
    } else {
      forall i | i in mid.emails && i !in db.emails ensures IsAdded(db, mid, before + [a], i) {
        assert IsAdded(db, mid, before, i);
      }
    }
  }

  lemma SeedOneKeyed(db: Db, a: nat)
    requires Keyed(db) && a in db.accounts
    ensures Keyed(SeedOne(db, a))
  {
  }

  lemma {:induction false} SeededRows(db: Db, order: seq<nat>)
    requires Keyed(db) && forall a :: a in order ==> a in db.accounts
    requires forall i, j :: 0 <= i < j < |order| ==> order[i] != order[j]
    ensures AddedFor(db, SeedAll(db, order), order) && Keyed(SeedAll(db, order))
  {
    if order != [] {
      var before, a := order[..|order| - 1], order[|order| - 1];
      SeededRows(db, before);
      assert a !in before;
      assert order == before + [a];
      hide AddedFor, RowsOf;
      AddOne(db, SeedAll(db, before), before, a);
      SeedOneKeyed(SeedAll(db, before), a);
    }
  }

  lemma SeedClashes(db: Db, db1: Db, order: seq<nat>, a: nat, i: nat)
    requires AddedFor(db, db1, order) && a in order && a in db.accounts
    requires RowsOf(db.emails, a) == {} && i in db.emails && db.emails[i].email == db.accounts[a].email
    ensures !UniqueAddresses(db1.emails)
  {
    assert HasAdded(db, db1, a);
    var j :| j in db1.emails && j !in db.emails && db1.emails[j].account == a;
    assert IsAdded(db, db1, order, j);
    assert db1.emails[i].email == db1.emails[j].email && i != j;
  }

  lemma SeedFits(db: Db, db1: Db, order: seq<nat>)
    requires AddedFor(db, db1, order) && UniqueAddresses(db.emails) && UniqueEmails(db.accounts)
    requires forall a, i :: a in db.accounts && RowsOf(db.emails, a) == {} && i in db.emails
              ==> db.emails[i].email != db.accounts[a].email
    ensures UniqueAddresses(db1.emails)
  {
    forall i | i in db1.emails && i !in db.emails ensures IsAdded(db, db1, order, i) {
    }
    hide RowsOf;
  }

  /** The seed commits exactly when no unseeded account's address is already somebody's row. */
  lemma SeedCommitsIff(db: Db, order: seq<nat>)
    requires Seedable(db) && Lists(order, db.accounts.Keys)
    ensures Seed(db, order).1.Done? <==>
      forall a, i :: a in db.accounts && RowsOf(db.emails, a) == {} && i in db.emails
        ==> db.emails[i].email != db.accounts[a].email
  {
    SeededRows(db, order);
    assert forall a :: a in order <==> a in db.accounts;
    hide AddedFor, UniqueAddresses, UniqueEmails, RowsHaveAccounts, PrimariesCopied, RowsOf, Lists, SeedAll, Keyed,
      RowsIncludePrimary;
    if a, i :| a in db.accounts && RowsOf(db.emails, a) == {} && i in db.emails
             && db.emails[i].email == db.accounts[a].email
    {
      SeedClashes(db, SeedAll(db, order), order, a, i);
    } else {
      SeedFits(db, SeedAll(db, order), order);
    }
  }

  /** With addresses owned, promoting a verified secondary row never meets the unique constraint. */
  lemma PromoteNeverConflicts(db: Db, actor: nat, emailId: nat, now: int, lag: nat)
    requires Owned(db) && actor in db.accounts && emailId in db.emails && db.emails[emailId].account == actor
    requires !db.emails[emailId].isPrimary && db.emails[emailId].verified
    ensures Promote(db, actor, emailId, now, lag).1 == Done(Some(db.next))
  {
    if b :| b in db.accounts && b != actor && db.accounts[b].email == db.emails[emailId].email {
      NobodySharesAnAddress(db, b, actor, db.emails[emailId].email);
    }
  }

  /** A name is free to register exactly when no account goes by it, in either table. */
  lemma RegisterSucceedsIff(db: Db, email: string, password: string, now: int, lag: nat)
    requires Owned(db)
    ensures Register(db, email, password, now, lag).1.Done? <==> forall a :: !GoesBy(db, a, email)
  {
    if i :| i in db.emails && db.emails[i].email == email {
      assert GoesBy(db, db.emails[i].account, email);
    }
    if a :| a in db.accounts && db.accounts[a].email == email {
      assert GoesBy(db, a, email);
    }
  }

  // ---- Every step, every run ----

  lemma IssueKeepsKeyed(db: Db, account: nat, parent: Option<nat>, persistent: bool, now: int, lag: nat)
    requires Keyed(db) && account in db.accounts
    ensures Keyed(IssueToken(db, account, parent, persistent, now, lag))
  {
  }

  lemma RecoveryKeepsKeyed(db: Db, account: nat, email: string, now: int)
    requires Keyed(db) && account in db.accounts
    ensures Keyed(WithRecovery(db, account, email, now))
  {
  }

  lemma PromotedKeyed(db: Db, a: nat, row: nat)
    requires Keyed(db) && a in db.accounts && row in db.emails
    ensures Keyed(Promoted(db, a, row))
  {
  }

  lemma PromoteKeepsOwned(db: Db, actor: nat, emailId: nat, now: int, lag: nat)
    requires Owned(db)
    ensures Owned(Promote(db, actor, emailId, now, lag).0)
  {
    hide Consistent, AllHavePrimary, Keyed, Promoted, IssueToken, WithRecovery;
    if Promote(db, actor, emailId, now, lag).1 == Done(Some(db.next)) {
      var db1 := Promoted(db, actor, emailId);
      PromotedKeyed(db, actor, emailId);
      PrimarySwapped(db, actor, emailId);
      PromotedTables(db, actor, emailId);
      IssueTables(db1, actor, None, false, now, lag);
      IssueKeepsKeyed(db1, actor, None, false, now, lag);
      var db2 := IssueToken(db1, actor, None, false, now, lag);
      RecoveryKeepsKeyed(db2, actor, db.accounts[actor].email, now);
      RecoveryTables(db2, actor, db.accounts[actor].email, now);
    }
  }

  lemma RemoveKeepsOwned(db: Db, actor: nat, emailId: nat, now: int)
    requires Owned(db)
    ensures Owned(Remove(db, actor, emailId, now).0)
  {
    if Remove(db, actor, emailId, now).1.Done? {
      SecondaryDropped(db.accounts, db.emails, emailId);
      hide Consistent, AllHavePrimary, WithRecovery;
      var db1 := db.(emails := db.emails - {emailId});
      RecoveryKeepsKeyed(db1, actor, db.emails[emailId].email, now);
      RecoveryTables(db1, actor, db.emails[emailId].email, now);
    }
  }

  lemma NewKeysAreFree(db: Db)
    requires Keyed(db)
    ensures db.next !in db.accounts && db.next !in db.emails && db.next + 1 !in db.emails
  {
  }

  lemma RegisteredKeyed(db: Db, db1: Db, email: string, password: string)
    requires Keyed(db)
    requires db1 == db.(accounts := db.accounts[db.next := Account(email, password)],
                        emails := db.emails[db.next + 1 := EmailRow(db.next, email, true, true)],
                        next := db.next + 2)
    ensures Keyed(db1)
  {
  }

  lemma RegisterKeepsOwned(db: Db, email: string, password: string, now: int, lag: nat)
    requires Owned(db)
    ensures Owned(Register(db, email, password, now, lag).0)
  {
    hide Consistent, AllHavePrimary, Keyed, IssueToken, AddressUsed;
    if Register(db, email, password, now, lag).1.Done? {
      NewKeysAreFree(db);
      NewAccount(db.accounts, db.emails, db.next, db.next + 1, email, password);
      var db1 := db.(accounts := db.accounts[db.next := Account(email, password)],
                     emails := db.emails[db.next + 1 := EmailRow(db.next, email, true, true)],
                     next := db.next + 2);
      RegisteredKeyed(db, db1, email, password);
      IssueKeepsKeyed(db1, db.next, None, false, now, lag);
      IssueTables(db1, db.next, None, false, now, lag);
    }
  }

  lemma RecoverKeepsKeyed(db: Db, token: nat, now: int)
    requires Keyed(db)
    ensures Keyed(Recover(db, token, now).0)
  {
    hide HeldByOther;
  }

  /** What `Recover` does to accounts and addresses. */
  lemma RecoverTables(db: Db, token: nat, now: int)
    requires Recover(db, token, now).1.Done?
    ensures token in db.recoveries && !db.recoveries[token].used && db.recoveries[token].expiresAt > now
    ensures var a, email, db1 := db.recoveries[token].account, db.recoveries[token].email, Recover(db, token, now).0;
      && a in db.accounts && !HeldByOther(db, email, a)
      && db1.accounts == db.accounts[a := db.accounts[a].(email := email)]
      && db1.emails == OtherRows(db.emails, a)[db.next := EmailRow(a, email, true, true)]
  {
    hide HeldByOther;
  }

  /** After a recovery no row of the account is left but a new one, and nobody else's rows or account
      changed; nor did the password. */
  lemma RecoverPurges(db: Db, token: nat, now: int)
    requires Keyed(db) && Recover(db, token, now).1.Done?
    ensures token in db.recoveries && db.recoveries[token].account in db.accounts
    ensures var a, email, db1 := db.recoveries[token].account, db.recoveries[token].email, Recover(db, token, now).0;
      && (forall i :: i in db1.emails && db1.emails[i].account == a
           ==> i !in db.emails && db1.emails[i] == EmailRow(a, email, true, true))
      && (forall i :: i in db1.emails && db1.emails[i].account != a ==> i in db.emails && db.emails[i] == db1.emails[i])
      && (forall i :: i in db.emails && db.emails[i].account != a ==> i in db1.emails && db1.emails[i] == db.emails[i])
      && db1.accounts.Keys == db.accounts.Keys && db1.accounts[a].password == db.accounts[a].password
      && (forall b :: b in db.accounts && b != a ==> db1.accounts[b] == db.accounts[b])
  {
    RecoverTables(db, token, now);
    hide Recover, HeldByOther;
  }

  lemma RecoverKeepsOwned(db: Db, token: nat, now: int)
    requires Owned(db)
    ensures Owned(Recover(db, token, now).0)
  {
    hide Consistent, AllHavePrimary, Keyed, OtherRows;
    RecoverKeepsKeyed(db, token, now);
    if Recover(db, token, now).1.Done? {
      RecoverTables(db, token, now);
      hide Recover;
      NewKeysAreFree(db);
      AddressRestored(db.accounts, db.emails, db.recoveries[token].account, db.next, db.recoveries[token].email);
    }
  }

  lemma VerifyKeepsKeyed(db: Db, token: nat, now: int)
    requires Keyed(db)
    ensures Keyed(VerifyEmail(db, token, now).0)
  {
    hide AddressUsed;
  }

  lemma VerifyKeepsOwned(db: Db, token: nat, now: int)
    requires Owned(db)
    ensures Owned(VerifyEmail(db, token, now).0)
  {
    hide Consistent, AllHavePrimary, Keyed, AddressUsed;
    VerifyKeepsKeyed(db, token, now);
    if VerifyEmail(db, token, now).1.Done? {
      NewKeysAreFree(db);
      NewSecondary(db.accounts, db.emails, db.next, db.verifications[token].account, db.verifications[token].newEmail);
    }
  }

  lemma ResetKeepsKeyed(db: Db, email: string, token: nat, password: string, now: int, lag: nat)
    requires Keyed(db)
    ensures Keyed(ResetPassword(db, email, token, password, now, lag).0)
  {
  }

  lemma ResetKeepsOwned(db: Db, email: string, token: nat, password: string, now: int, lag: nat)
    requires Owned(db)
    ensures Owned(ResetPassword(db, email, token, password, now, lag).0)
  {
    hide Consistent, AllHavePrimary, Keyed, RevokeAll;
    ResetKeepsKeyed(db, email, token, password, now, lag);
    if ResetPassword(db, email, token, password, now, lag).1.Done? {
      PasswordChanged(db.accounts, db.emails, db.resets[token].account, password);
    }
  }

  lemma DeleteKeepsKeyed(db: Db, actor: nat, email: string, password: string)
    requires Keyed(db)
    ensures Keyed(DeleteAccount(db, actor, email, password).0)
  {
  }

  lemma DeleteKeepsOwned(db: Db, actor: nat, email: string, password: string)
    requires Owned(db)
    ensures Owned(DeleteAccount(db, actor, email, password).0)
  {
    hide Consistent, AllHavePrimary, Keyed, OtherRows;
    DeleteKeepsKeyed(db, actor, email, password);
    if DeleteAccount(db, actor, email, password).1.Done? {
      AccountDropped(db.accounts, db.emails, actor);
    }
  }

  ghost predicate IsSessionRoute(op: Op) {
    op.OpLogin? || op.OpRotate? || op.OpLogout? || op.OpForgotPassword? || op.OpAddEmail? || op.OpCleanup?
  }

  lemma RefreshesKeepKeyed(db: Db, refreshes: map<nat, RefreshToken>)
    requires Keyed(db) && refreshes.Keys <= db.refreshes.Keys
    requires forall j :: j in refreshes ==> refreshes[j].account == db.refreshes[j].account
    ensures Keyed(db.(refreshes := refreshes))
  {
  }

  lemma RevokingKeepsKeyed(db: Db, a: nat, j: nat)
    requires Keyed(db) && j in db.refreshes
    ensures Keyed(db.(refreshes := RevokeAll(db.refreshes, a))) && Keyed(db.(refreshes := Revoke(db.refreshes, j)))
  {
    hide Keyed;
    RefreshesKeepKeyed(db, RevokeAll(db.refreshes, a));
    RefreshesKeepKeyed(db, Revoke(db.refreshes, j));
  }

  /** Neither accounts nor addresses changed, and ids are still in order. */
  ghost predicate AddressesAlone(db: Db, db1: Db) {
    db1.accounts == db.accounts && db1.emails == db.emails && (Keyed(db) ==> Keyed(db1))
  }

  lemma LoginAlone(db: Db, email: string, password: string, persistent: bool, now: int, lag: nat)
    ensures AddressesAlone(db, Login(db, email, password, persistent, now, lag).0)
  {
    hide Keyed, IssueToken;
    var a := AccountWith(db.accounts, email);
    if a.Some? {
      IssueTables(db, a.value, None, persistent, now, lag);
      if Keyed(db) {
        IssueKeepsKeyed(db, a.value, None, persistent, now, lag);
      }
    }
  }

  lemma RotateAlone(db: Db, claims: Claims, now: int, lag: nat)
    ensures AddressesAlone(db, Rotate(db, claims, now, lag).0)
  {
    hide Keyed, IssueToken, RevokeAll, Revoke, AccountWith;
    var a := AccountWith(db.accounts, claims.sub);
    if a.Some? && claims.jti.Some? && claims.jti.value in db.refreshes {
      var db1 := db.(refreshes := Revoke(db.refreshes, claims.jti.value));
      IssueTables(db1, a.value, claims.jti, claims.persistent, now, lag);
      if Keyed(db) {
        RevokingKeepsKeyed(db, a.value, claims.jti.value);
        IssueKeepsKeyed(db1, a.value, claims.jti, claims.persistent, now, lag);
      }
    }
  }

  lemma LogoutAndCleanupAlone(db: Db, claims: Claims, now: int)
    ensures AddressesAlone(db, Logout(db, claims, now).0) && AddressesAlone(db, Cleanup(db, now).0)
  {
    hide Keyed;
    if Keyed(db) {
      RefreshesKeepKeyed(db, Logout(db, claims, now).0.refreshes);
      RefreshesKeepKeyed(db, Cleanup(db, now).0.refreshes);
    }
  }

  lemma ForgotAlone(db: Db, email: string, sent: bool, now: int)
    ensures AddressesAlone(db, ForgotPassword(db, email, sent, now).0)
  {
  }

  lemma AddEmailAlone(db: Db, actor: nat, newEmail: string, sent: bool, now: int)
    ensures AddressesAlone(db, AddEmail(db, actor, newEmail, sent, now).0)
  {
    hide AddressUsed;
  }

  lemma SessionRoutesAlone(db: Db, e: Event)
    requires WellFormed(db, e) && IsSessionRoute(e.op)
    ensures AddressesAlone(db, Step(db, e).0)
  {
    hide AddressesAlone, Login, Rotate, Logout, ForgotPassword, AddEmail, Cleanup;
    match e.op {
      case OpLogin(email, password, persistent) => LoginAlone(db, email, password, persistent, e.now, e.lag);
      case OpRotate(claims) => RotateAlone(db, claims, e.now, e.lag);
      case OpLogout(claims) => LogoutAndCleanupAlone(db, claims, e.now);
      case OpForgotPassword(email, sent) => ForgotAlone(db, email, sent, e.now);
      case OpAddEmail(actor, newEmail, sent) => AddEmailAlone(db, actor, newEmail, sent, e.now);
      case _ => LogoutAndCleanupAlone(db, Claims("", None, false, 0), e.now);
    }
  }

  lemma SessionRoutesKeepOwned(db: Db, e: Event)
    requires Owned(db) && WellFormed(db, e) && IsSessionRoute(e.op)
    ensures Owned(Step(db, e).0)
  {
    hide Consistent, AllHavePrimary, Keyed, Step, WellFormed;
    SessionRoutesAlone(db, e);
  }

  lemma {:induction false} SeedIsNoOp(db: Db, order: seq<nat>)
    requires AllHavePrimary(db.accounts, db.emails) && forall a :: a in order ==> a in db.accounts
    ensures SeedAll(db, order) == db
  {
    if order != [] {
      SeedIsNoOp(db, order[..|order| - 1]);
      assert HasPrimary(db.emails, order[|order| - 1]);
      var i :| i in db.emails && db.emails[i].account == order[|order| - 1] && db.emails[i].isPrimary;
      assert i in RowsOf(db.emails, order[|order| - 1]);
    }
  }

  lemma OwnedHasPrimaries(db: Db)
    requires Owned(db)
    ensures AllHavePrimary(db.accounts, db.emails)
  {
  }

  lemma StepKeepsOwned(db: Db, e: Event)
    requires Owned(db) && WellFormed(db, e)
    ensures Owned(Step(db, e).0)
  {
    hide Owned, Register, Recover, Promote, Remove, VerifyEmail, ResetPassword, DeleteAccount;
    match e.op {
      case OpRegister(email, password) => RegisterKeepsOwned(db, email, password, e.now, e.lag);
      case OpResetPassword(email, token, password) => ResetKeepsOwned(db, email, token, password, e.now, e.lag);
      case OpRecover(token) => RecoverKeepsOwned(db, token, e.now);
      case OpVerifyEmail(token) => VerifyKeepsOwned(db, token, e.now);
      case OpPromote(actor, emailId) => PromoteKeepsOwned(db, actor, emailId, e.now, e.lag);
      case OpRemove(actor, emailId) => RemoveKeepsOwned(db, actor, emailId, e.now);
      case OpDeleteAccount(actor, email, password) => DeleteKeepsOwned(db, actor, email, password);
      case OpSeed(order) => OwnedHasPrimaries(db); SeedIsNoOp(db, order);
      case _ => SessionRoutesKeepOwned(db, e);
    }
  }

  /** After any run, every account still owns its addresses. */
  lemma {:induction false} RunKeepsOwned(db: Db, run: seq<Event>, start: int)
    requires Owned(db) && Possible(db, run, start)
    ensures Owned(Run(db, run, start))
    decreases |run|
  {
    if run != [] {
      StepKeepsOwned(db, run[0]);
      RunKeepsOwned(Step(db, run[0]).0, run[1..], run[0].now + run[0].lag);
    }
  }

  /** From seeded tables, whatever happens since: one primary row per account, verified and equal to
      `Account.email`, and no address on two accounts. */
  lemma OwnershipOnEveryRun(db: Db, order: seq<nat>, run: seq<Event>, start: int, a: nat, b: nat, email: string)
    returns (i: nat)
    requires Seedable(db) && Lists(order, db.accounts.Keys) && Seed(db, order).1.Done?
    requires Possible(Seed(db, order).0, run, start)
    requires a in Run(Seed(db, order).0, run, start).accounts
    ensures IsThePrimary(Run(Seed(db, order).0, run, start), a, i)
    ensures GoesBy(Run(Seed(db, order).0, run, start), a, email) && GoesBy(Run(Seed(db, order).0, run, start), b, email)
      ==> a == b
  {
    SeedEstablishes(db, order);
    hide Owned, Seed, SeedAll, Seedable, GoesBy, IsThePrimary;
    RunKeepsOwned(Seed(db, order).0, run, start);
    var end := Run(Seed(db, order).0, run, start);
    i := OnePrimaryEach(end, a);
    if GoesBy(end, a, email) && GoesBy(end, b, email) {
      NobodySharesAnAddress(end, a, b, email);
    }
  }
}
