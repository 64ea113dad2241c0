# Verified model of the web template's stateful core

A Dafny 4.11 model of four parts of the application, with proofs over every input and every run.

- **Rate limiter** (`RateLimit*.dfy`). The in-memory limiter, an object whose dictionary is cleaned per key
  and swept now and then, and the Postgres table of attempts. Both are proved against one reference, the log
  of attempts since a key's last reset: each method's answer is `CheckAnswer` or `RemainingAnswer` of that
  log. On the reference stand the exactness of `Retry-After` (section 10.2.3 of RFC 9110) and the bound on
  what interleaved callers can admit between `check` and `record`.
- **Accounts** (`Account*.dfy`). Accounts, addresses, one-time tokens and refresh tokens as one set of
  tables; each route is one step. `AccountTables` gives the meaning of the routes, `AccountStore` the routes
  as they run on mutable tables, each proved to make that step. Proved over all runs: ownership of addresses,
  refresh-token lineages with reuse detection (section 4.14 of RFC 9700), recovery after a takeover, what can
  still undo that (`AccountAftermath`), exactly when the cleanup of expired rows can be noticed
  (`AccountNoticed`), and the address limit (`AccountLimit`). `AccountRoutes` says when each route is granted
  and how long what it hands out lasts.
- **Organizations** (`Org*.dfy`, `RoleSweep.dfy`). Organizations, roles, memberships and invitations in the
  same two layers. Proved over all runs: sound references and unique constraints, the default roles, the life
  of an invitation token, when an acceptance succeeds, whose roles an actor can change (`OrgAcross`), what
  deleting a user takes along, and what the two loops of a role update leave. `OrgRoutes` and `OrgEffects` say
  who is granted each route, what exactly it changes, and by what steps alone members come and go.
- **Password pattern** (`Password*.dfy`). The conversion of the pattern for the
  HTML `pattern` attribute (section 4.10.5.3.6 of the WHATWG HTML standard): where it acts, what it does to
  a class, which passwords both engines accept, and why it is needed (section 22.2.1 of ECMA-262).
- `Options.dfy` and `Finite.dfy` hold what is shared.

Time is a number: reals in the limiter, microseconds elsewhere, never going back. Fresh ids, UUIDs and token
strings come from a counter. A commit that a unique constraint refuses is a rejected step; the methods of the
two stores write first, test the constraint on what they wrote, and roll back. `sent` says whether the mail
service took a message. `order` and `held` are the orders in which rows happened to be loaded.

`dafny verify dfyconfig.toml` checks the project.

## Where the code does not do what its text says

The model follows the code; each of these points is proved.

- The delay of a refusal can be too short when more than `max_attempts` attempts count, which racing callers
  can bring about (`RetryAfterHonestIff`, `RetryAfterTooEarlyWhenOverfull`).
- The signed expiry of a refresh token can lie after its row's, when a second begins between the two clock
  reads; a cleanup in between is noticed (`ExpiryWithinRowIff`, `CleanupNoticedIff`, `CleanupCanBeNoticed`).
- Updating a role removes from the list it walks, so of adjacent permissions that were not requested some stay
  (`UpdateExactIff`).
- With roles in an organization of which some grant a permission and some do not, `has_permission` follows the
  loading order (`OrderIrrelevantIff`, `OrderCanDecide`).
- A former member who joined by invitation can be invited again, but cannot accept while the used invitation is
  on file (`FormerMemberCanBeInvited`, `AcceptSucceedsIff`, `AcceptAtLoginSucceedsIff`, `FormerMemberIsLockedOut`).
- An escaped bracket outside a class is taken for the start of one by the pattern conversion
  (`ConvertTranslatesClasses`, `EscapedBracketsTakenForClass`), and a special character that was already
  escaped, or a quote, adds a backslash to its class, stretches or cuts the range it ends, or turns it
  backwards, which no engine compiles (`SameClassIff`, `BrokenRangeNeverSame`, `RunsBackwardsAfterwards`).
  A class that begins with a closing bracket is another class for ECMAScript (`ReadTheSameIff`).
- A role form is checked against the organization it names, not the role's own (`CanUpdateIff`, `CanDeleteIff`,
  `CrossesOrganizations`).
- A recovery can be undone by another recovery link of the account that is still live, and leaves its pending
  verifications alone (`AddressTakenAgainIff`, `AddressJoinedIff`, `TwiceMovedIsTakenAgain`).
- Browser and server differ on passwords with a line terminator or without an ASCII digit (`BrowserAcceptsIff`).
- Granting a role a permission it already has, without looking first, fails the commit (`CreateDefaultRoles`).
- Only `add_email` looks at `MAX_EMAILS_PER_ACCOUNT`, so completing a verification can exceed it
  (`LimitExceededIff`, `LimitCanBeExceeded`).

## Model

| member | source | states |
|---|---|---|
| `RateLimitHistory.OthersNeverInterfere` | utils/core/rate_limit.py:114-286 | a key's history, and so every answer about it, is that of the run with all other keys, other scopes, checks and prunes taken out |
| `RateLimitHistory.HistoryInOrder` | utils/core/rate_limit.py:153-172 | with a clock that never goes back a history is in time order and not in the future, so its first counted entry is the oldest |
| `RateLimitHistory.RecentIsSuffix` | utils/core/rate_limit.py:114-120 | on a list in time order the attempts strictly later than the cutoff are exactly a suffix |
| `RateLimitHistory.RecentTwice` | utils/core/rate_limit.py:114-120 | cleaning at an earlier cutoff loses nothing a later cutoff would count |
| `RateLimitMemory.UpkeepUnobservable` | utils/core/rate_limit.py:114-143 | neither cleaning a key nor sweeping stale keys changes what counts for any key |
| `RateLimitMemory.RateLimitWindow.constructor` | utils/core/rate_limit.py:101-112 | a new limiter has an empty history |
| `RateLimitMemory.RateLimitWindow.CleanupKey` | utils/core/rate_limit.py:114-120 | the key keeps exactly its attempts later than the cutoff and goes when none is left; other keys are untouched |
| `RateLimitMemory.RateLimitWindow.PruneStaleKeys` | utils/core/rate_limit.py:122-131 | exactly the keys without an attempt later than the cutoff go |
| `RateLimitMemory.RateLimitWindow.MaybePrune` | utils/core/rate_limit.py:133-143 | a sweep when the interval has passed, else nothing |
| `RateLimitMemory.RateLimitWindow.Check` | utils/core/rate_limit.py:145-162 | the answer is that of the log of all attempts since the key's last reset; no history changes; the space bound holds |
| `RateLimitMemory.RateLimitWindow.Record` | utils/core/rate_limit.py:164-172 | the history gains one attempt and nobody else's changes; the space bound holds |
| `RateLimitMemory.RateLimitWindow.Remaining` | utils/core/rate_limit.py:174-180 | the answer is the limit less the attempts of the log that count, not below zero |
| `RateLimitMemory.RateLimitWindow.Reset` | utils/core/rate_limit.py:182-185 | the key's history is empty, every other as before |
| `RateLimitMemory.RateLimitWindow.Prune` | utils/core/rate_limit.py:187-192 | the stale keys go, all and only they; no history changes; the space bound holds |
| `RateLimitMemory.RateLimitWindow.Clear` | utils/core/rate_limit.py:194-197 | every history is empty |
| `RateLimitMemory.RateLimitWindow.BoundedSpace` | utils/core/rate_limit.py:114-143 | after any access no list is empty and, for a positive window, every stored key has a stored attempt later than now less window less prune interval, and the store has no more keys than had an attempt recorded in that span |
| `RateLimitMemory.RateLimitWindow.Enforce` | utils/core/rate_limit.py:362-376 | refused attempts are not recorded, admitted ones are, and no other history changes |
| `RateLimitPostgres.OrderByInOrder` | utils/core/rate_limit.py:216-225 | rows inserted in time order need no sorting, so the first selected is the oldest |
| `RateLimitPostgres.SelectAfterDelete` | utils/core/rate_limit.py:258-286 | what each of the three deletes leaves for a key: nothing, what is later than the cutoff, or nothing of the scope |
| `RateLimitPostgres.InsertAgrees` | utils/core/rate_limit.py:243-250 | an inserted row keeps every scope in agreement with its history |
| `RateLimitPostgres.DeleteAgrees` | utils/core/rate_limit.py:258-286 | reset, prune and clear keep every scope in agreement with its history |
| `RateLimitPostgres.AttemptTable.RecentAttempts` | utils/core/rate_limit.py:216-225 | the query returns the counted attempts of the key's history, oldest first |
| `RateLimitPostgres.AttemptTable.Check` | utils/core/rate_limit.py:227-241 | the same answer as the in-memory limiter gives on the same history |
| `RateLimitPostgres.AttemptTable.Record` | utils/core/rate_limit.py:243-250 | one row more, and the history gains one attempt |
| `RateLimitPostgres.AttemptTable.Remaining` | utils/core/rate_limit.py:252-256 | the same answer as the in-memory limiter gives on the same history |
| `RateLimitPostgres.AttemptTable.Reset` | utils/core/rate_limit.py:258-266 | exactly the key's rows in the scope go, and its history there is empty |
| `RateLimitPostgres.AttemptTable.Prune` | utils/core/rate_limit.py:268-277 | exactly the rows of the scope not later than the cutoff go; no history changes |
| `RateLimitPostgres.AttemptTable.Clear` | utils/core/rate_limit.py:279-286 | exactly the rows of the scope go; every history there is empty, other scopes are as before |
| `RateLimitGuarantees.RemainingIsWhatIsLeft` | utils/core/rate_limit.py:174-180 | after exactly as many more attempts as it says, and not before, check refuses the key |
| `RateLimitGuarantees.LimitedExactlyWhile` | utils/core/rate_limit.py:145-162 | a key is limited at an instant if and only if its max_attempts-th newest attempt is inside the window then |
| `RateLimitGuarantees.RetryAfterNeverTooLate` | utils/core/rate_limit.py:158-161 | the delay is between 1 and the window, and the key is still limited at every whole second before it |
| `RateLimitGuarantees.RetryAfterExact` | utils/core/rate_limit.py:158-161 | with no more than max_attempts counted: limited at exactly the whole seconds before the delay, and the lower limit of one second is redundant |
| `RateLimitGuarantees.RetryAfterHonestIff` | utils/core/rate_limit.py:158-161 | with more counted, the key is free after the promised delay if and only if the max_attempts-th newest attempt leaves the window in the same second as the oldest counted one |
| `RateLimitGuarantees.RetryAfterTooEarlyWhenOverfull` | utils/core/rate_limit.py:158-161 | a run of two callers after which the promised delay is too short: both pass their check, record at 0 and 5, and at 6 the next is told 4 and still refused at 10 |
| `RateLimitGuarantees.StepKeepsBound` | utils/core/rate_limit.py:362-376 | counted attempts plus callers past their check stay within max_attempts + callers - 1 over every check, record and reset |
| `RateLimitGuarantees.OvershootBound` | utils/core/rate_limit.py:362-376 | on every interleaving of k callers, at most max_attempts + k - 1 attempts are admitted in any half-open window between resets |
| `RateLimitGuarantees.OvershootAttained` | utils/core/rate_limit.py:362-376 | some interleaving of k callers attains that bound |
| `RateLimitGuarantees.SequentialRefusalsAreExact` | utils/core/rate_limit.py:362-376 | one caller at a time never counts above the limit, so each of its refusals carries an exact delay |
| `AccountTables.AccountWith` | utils/core/dependencies.py:114-138 | the account an address finds, and none only if no account goes by it |
| `AccountEmails.StepKeepsOwned` | routers/core/account.py:317-1093 | every route keeps: one primary row per account, verified and equal to Account.email, and no address in either table on two accounts |
| `AccountEmails.RunKeepsOwned` | routers/core/account.py:317-1093 | the same over every run of routes |
| `AccountEmails.OwnershipOnEveryRun` | utils/core/models.py:99-110 | from seeded tables, after any run, the primary row of an account is the one that carries its e-mail, and two accounts that go by one address are one |
| `AccountEmails.NobodySharesAnAddress` | utils/core/models.py:99-110 | an address, as a row or as Account.email, belongs to one account |
| `AccountEmails.SeedEstablishes` | utils/core/db.py:275-297 | from tables without the invariant the seed either establishes it or changes nothing |
| `AccountEmails.SeedCommitsIff` | utils/core/db.py:275-297 | the seed commits if and only if no unseeded account's address is already a row |
| `AccountEmails.PromotedShape` | routers/core/account.py:1003-1016 | promotion moves the primary flag within the account and changes no other field of any row |
| `AccountEmails.PromoteNeverConflicts` | routers/core/account.py:959-1026 | promoting a verified secondary address never meets the unique constraint |
| `AccountEmails.RegisterSucceedsIff` | routers/core/account.py:369-425 | registering succeeds if and only if no account goes by the address, as primary or otherwise |
| `AccountEmails.RecoverPurges` | routers/core/account.py:797-824 | after a recovery the account's only row is a new one with the restored address; every other account, with its rows, and the account's password are as before |
| `AccountSessions.LineageIsALine` | utils/core/dependencies.py:78-109 | of two tokens with one root one descends from the other: each token has at most one successor |
| `AccountSessions.OneLivePerLineage` | utils/core/dependencies.py:78-109 | at most one token of a lineage is usable, and it is the one nothing was issued after |
| `AccountSessions.RunKeepsLineages` | routers/core/account.py:317-1045 | every run keeps: parents are older, of the same account and dead once they have a successor |
| `AccountSessions.DeadForGood` | utils/core/auth.py:227-235 | a dead token never becomes usable again, and nothing issued is taken back |
| `AccountSessions.EndsOnlyBy` | routers/core/account.py:166-188 | a usable token ends by rotation, its own logout, an account-wide revocation, deletion of its account or cleanup after expiry, and in no other way |
| `AccountSessions.ReplayNeverAccepted` | utils/core/dependencies.py:78-109 | after any run a rotated token is refused; within its lifetime, row and address still there, presenting it ends every session of the account (section 4.14 of RFC 9700) |
| `AccountSessions.ResetStartsAfresh` | routers/core/account.py:703-743 | after a password reset the only usable token of the account is the one just issued; other accounts keep theirs |
| `AccountSessions.PromoteStartsAfresh` | routers/core/account.py:1003-1022 | the same after a change of primary address |
| `AccountRoutes.LoginGrantedIff` | routers/core/account.py:474-583 | granted exactly for an account with that primary address and password; the session is that account's and is remembered, for thirty days instead of twelve hours, exactly when asked; a refusal does not tell an unknown address from a wrong password |
| `AccountRoutes.RegisteredLogsIn` | routers/core/account.py:317-471 | the password registered, and no other, logs in afterwards; the first session is not remembered |
| `AccountRoutes.RotateGrantedIff` | utils/core/dependencies.py:53-111 | rotated exactly while the presented token is unexpired, unrevoked and its account's; a revoked one is detected; the successor names its parent and is remembered, with the lifetime that goes with it, exactly if the token was |
| `AccountRoutes.RememberedSinceLogin` | utils/core/dependencies.py:103-106 | over every run a token is remembered exactly if the login its lineage started with was |
| `AccountRoutes.ResetGrantedIff` | utils/core/dependencies.py:380-410 | a password is set exactly by an unused, unexpired token of the account with that address; the token is spent, every session ends, and one that is not remembered is opened |
| `AccountRoutes.ResetRefusedForGood` | utils/core/dependencies.py:380-410 | a reset token once used, expired or gone is refused at every later time of every run |
| `AccountRoutes.RecoveryRefusedForGood` | routers/core/account.py:783-797 | the same for a recovery token |
| `AccountRoutes.VerificationRefusedForGood` | routers/core/account.py:905-925 | the same for a verification token |
| `AccountRoutes.RecoverGrantedIff` | routers/core/account.py:783-824 | recovery is granted exactly by an unused, unexpired token while no other account has the address, and spends it |
| `AccountRoutes.VerifyGrantedIff` | routers/core/account.py:905-956 | an address is added exactly by an unused, unexpired token while it is nobody's row: one verified secondary row, and the token is spent |
| `AccountRoutes.ForgottenLeavesToken` | utils/core/auth.py:288-337 | a mail that is taken for a known address leaves a usable reset token, a new one for an hour; otherwise nothing happens |
| `AccountRoutes.AddEmailGrantedIff` | routers/core/account.py:852-902 | asked for exactly by an account below the limit for an address nobody has; a mail that is taken leaves a token, a new one for an hour |
| `AccountRoutes.RecoveryLastsAWeek` | utils/core/auth.py:496-519 | a new recovery token can be used for exactly seven days |
| `AccountRoutes.RemoveGrantedIff` | routers/core/account.py:1048-1093 | exactly own secondary rows can be removed, and just that row goes |
| `AccountRoutes.PromoteGrantedIff` | routers/core/account.py:959-1026 | exactly own verified rows can be made primary; the row then is the one primary, equal to Account.email, and the session opened is not remembered |
| `AccountRoutes.DeleteGrantedIff` | routers/core/account.py:294-311 | an account is deleted exactly with its own address and password; nothing of it is left in any table and nothing else goes |
| `AccountRoutes.LogoutEndsExactly` | routers/core/account.py:166-188 | of all sessions exactly the presented one ends, while its token is unexpired |
| `AccountRecovery.PromotionCanBeUndone` | routers/core/account.py:1003-1026 | after any successful change of primary there is a token for the old address that, after every run that neither uses it nor deletes the account, recovers the account if and only if it is unexpired and the address is on no other account |
| `AccountRecovery.RemovalCanBeUndone` | routers/core/account.py:1062-1093 | the same after any successful removal of an address |
| `AccountRecovery.PromoteIssuesRecovery` | routers/core/account.py:1017-1026 | moving the primary away leaves a live recovery token for the old address |
| `AccountRecovery.RemoveIssuesRecovery` | routers/core/account.py:1075-1085 | removing an address leaves a live recovery token for it |
| `AccountRecovery.TokenSurvives` | utils/core/auth.py:496-519 | a recovery token stays as issued over every run that neither uses it nor deletes its account |
| `AccountRecovery.RecoverRestores` | routers/core/account.py:783-837 | when recovery succeeds, and everything it leaves: one address, primary and verified, equal to Account.email, no usable session, a reset token for one hour |
| `AccountRecovery.RecoveryUndoesTakeover` | routers/core/account.py:783-837 | after any later run: recovery succeeds if and only if the token is unexpired and the address is on no other account, and then restores the account |
| `AccountRecovery.RecoverThenReset` | routers/core/account.py:703-743 | the reset token of a recovery sets a new password within the hour and opens the only session |
| `AccountAftermath.AddressTakenAgainIff` | routers/core/account.py:783-837 | after a recovery some run in which nobody acts in a session of the account leaves it with another primary address if and only if another recovery token of the account, for another address, was live |
| `AccountAftermath.AddressJoinedIff` | routers/core/account.py:783-837 | the same for another address joining the account: if and only if such a token or a verification token for another address was live, which a recovery leaves alone |
| `AccountAftermath.TwiceMovedIsTakenAgain` | routers/core/account.py:1003-1026 | moving the primary twice makes such a token: the recovery of the first address can be undone by the link mailed to the second |
| `AccountCleanup.RunsAlike` | utils/core/auth.py:238-246 | tables that differ by rows of expired tokens answer every run of every route alike and keep differing only so |
| `AccountCleanup.CleanupInvisible` | utils/core/auth.py:238-246 | if no signed expiry outlives its row, no continuation can tell that a cleanup happened (section 4.1.4 of RFC 7519) |
| `AccountCleanup.ExpiryWithinRowIff` | utils/core/auth.py:186-224 | the signed expiry is within the row's if and only if no second begins between the two clock reads |
| `AccountCleanup.RunKeepsWithin` | utils/core/auth.py:200-224 | on runs whose events each fall within one second no cleanup is ever noticed |
| `AccountCleanup.CleanupVisibleIff` | utils/core/auth.py:238-246 | at the instant of the cleanup: some token is answered differently by a rotation if and only if a deleted row had a signed token still in its lifetime for the current address |
| `AccountCleanup.CleanupCanBeNoticed` | utils/core/auth.py:186-224 | such a case from empty tables: a registration with clock reads 20 microseconds apart across a second, then a cleanup |
| `AccountNoticed.CleanupNoticedIff` | utils/core/auth.py:238-246 | some continuation, however long, is answered differently after a cleanup if and only if the cleanup deletes the row of a token still within its signed lifetime: such a run is built for every such state |
| `AccountLimit.LimitExceededIff` | routers/core/account.py:872-956 | from within MAX_EMAILS_PER_ACCOUNT, a step of any route takes an account over it if and only if it verifies with an unused, unexpired token of the account, for an address not in use, while the account has exactly that many |
| `AccountLimit.LimitCanBeExceeded` | routers/core/account.py:905-956 | a run from a one-address account to three: both verifications asked for before either is completed |
| `AccountStore.RegisterRefusedIff` | routers/core/account.py:369-425 | the rows written by registering break a unique constraint if and only if the address is already a row |
| `AccountStore.RecoverRefusedIff` | routers/core/account.py:797-824 | the rows written by recovery break a unique constraint if and only if another account has the address, as primary or as a row |
| `AccountStore.PromoteRefusedIff` | routers/core/account.py:1003-1014 | the rows written by promotion break a unique constraint if and only if another account goes by the address as its primary |
| `AccountStore.StepKeepsSound` | routers/core/account.py:317-1093 | every route keeps ownership of addresses and the token lineages together |
| `AccountStore.Store.CreateTrackedRefreshToken` | utils/core/auth.py:200-224 | one unrevoked row, and claims naming it whose expiry is computed from a later clock read in whole seconds |
| `AccountStore.Store.RevokeAllRefreshTokens` | utils/core/auth.py:227-235 | the loop leaves every token of the account revoked and no other changed |
| `AccountStore.Store.CleanupExpiredRefreshTokens` | utils/core/auth.py:238-246 | exactly the rows past their expiry go, and their number is returned |
| `AccountStore.Store.Login` | routers/core/account.py:474-583 | succeeds exactly for an account with that primary address and password, and then opens one session; otherwise no change |
| `AccountStore.Store.RefreshEndpoint` | routers/core/account.py:587-662 | rejects, revokes all, or rotates keeping persistent: the one change of Rotate |
| `AccountStore.Store.ValidateTokenAndGetAccount` | utils/core/dependencies.py:53-111 | tests in another order and makes the same change as the refresh endpoint, for every state and token; gives back the account exactly when it rotates |
| `AccountStore.Store.Logout` | routers/core/account.py:166-188 | of all sessions exactly the presented one ends, if its token has not expired |
| `AccountStore.Store.CommitRegistration` | routers/core/account.py:369-425 | writes account and row, tests the unique constraints on the written tables and rolls back: refused exactly when the address is already a row |
| `AccountStore.Store.Register` | routers/core/account.py:317-471 | account, primary row and session together, or nothing |
| `AccountStore.Store.ForgotPassword` | utils/core/auth.py:288-337 | a reset token unless one is live or the mail is not taken |
| `AccountStore.Store.ResetPassword` | routers/core/account.py:703-743 | new password, token used, all sessions revoked, one opened |
| `AccountStore.Store.RecoverAccount` | routers/core/account.py:783-837 | the deleting loop and the writes, then the commit: the change of Recover, or a roll-back that leaves no trace |
| `AccountStore.Store.AddEmail` | routers/core/account.py:852-902 | the limit and uniqueness checks, and a verification token unless one is live |
| `AccountStore.Store.VerifyEmail` | routers/core/account.py:905-956 | a verified secondary row unless the address is taken meanwhile |
| `AccountStore.Store.CreateRecoveryToken` | utils/core/auth.py:496-519 | the token returned is live for the account and address, reused if one was |
| `AccountStore.Store.CommitSwap` | routers/core/account.py:1003-1014 | the swap of the primary, its loop over the sessions and the commit, rolled back exactly when another account goes by the address |
| `AccountStore.Store.PromoteEmail` | routers/core/account.py:959-1045 | the change of Promote, and the token mailed is live for the old primary |
| `AccountStore.Store.RemoveEmail` | routers/core/account.py:1048-1093 | the row goes, and the token mailed is live for the removed address |
| `AccountStore.Store.DeleteAccount` | routers/core/account.py:294-311 | the account and every row that hangs on it go |
| `AccountStore.Store.SeedAccountEmails` | utils/core/db.py:275-297 | the loop adds the missing rows; a conflict leaves no trace; on success the invariants hold |
| `RoleSweep.RemoveUnwanted` | routers/core/role.py:182-184 | the loop that removes from the list it iterates over computes Sweep |
| `RoleSweep.AppendMissing` | routers/core/role.py:170-180 | the loop appends what is asked for and missing, in order |
| `RoleSweep.SweepLeavesSurvivors` | routers/core/role.py:182-184 | what stays: the wanted entries and every second one of each run of unwanted ones |
| `RoleSweep.RunKeepsHalf` | routers/core/role.py:182-184 | of n adjacent unwanted entries floor(n/2) stay |
| `RoleSweep.UpdateExactIff` | routers/core/role.py:170-184 | for every order: all requested permissions, none but held or requested ones, and exactly the requested if and only if no two unrequested ones are adjacent |
| `RoleSweep.OneOfThreeStays` | routers/core/role.py:182-184 | three adjacent unwanted permissions of which one stays |
| `OrgInvariants.StepKeepsSound` | utils/core/models.py:188-438 | every step keeps foreign keys, unique role names, unique invitation tokens, at most one unused and one used invitation per organization and address, and invitation roles of the inviting organization |
| `OrgInvariants.RunKeepsSound` | utils/core/models.py:363-387 | the same over every run |
| `OrgInvariants.CreatedWithDefaults` | utils/core/db.py:203-255 | a new organization has Owner with all permissions, Administrator with all but Delete Organization, Member with none, and its creator as Owner |
| `OrgInvariants.StepKeepsDefaultNames` | routers/core/role.py:124-288 | no step changes a role with a default name unless its organization goes |
| `OrgInvariants.DefaultsAreUnique` | utils/core/models.py:338-340 | each default name is borne by exactly one role of the organization |
| `OrgInvariants.DefaultRolesOnEveryRun` | routers/core/role.py:160-265 | after any run an organization that still exists has its three default roles with their permissions |
| `OrgInvariants.GoneForGood` | routers/core/organization.py:229-252 | a deleted organization does not come back |
| `OrgInvariants.PermittedMeansMember` | utils/core/models.py:256-275 | a permission is granted by a role the user holds in that organization |
| `OrgInvitations.RefusedIffUnusable` | utils/core/invitations.py:42-65 | a token is refused if and only if no unused, unexpired invitation carries it |
| `OrgInvitations.RefusedForGood` | utils/core/invitations.py:56-65 | a token once refused is refused at every later time of every run |
| `OrgInvitations.RetiredNeverAccepted` | routers/core/invitation.py:110-314 | a superseded, resent, deleted or used token is rejected without effect by all three ways to accept, after any run |
| `OrgInvitations.AcceptanceIsExact` | utils/core/invitations.py:130-164 | a successful acceptance was active, for an address of the joiner and a role of the organization; it adds that one role, marks that one invitation and leaves all else |
| `OrgInvitations.FormerMemberCanBeInvited` | routers/core/invitation.py:110-193 | a permitted invitation is made and active whether or not an earlier one to the address was used, and is blocked from the start if and only if one was |
| `OrgInvitations.AcceptSucceedsIff` | routers/core/invitation.py:317-385 | accepting by link succeeds if and only if an unused, unexpired invitation carries the token, the actor is the user with its address as primary, and no other invitation of that organization to that address has been used |
| `OrgInvitations.AcceptAtLoginSucceedsIff` | routers/core/account.py:500-555 | the same at login, for any verified address of the account |
| `OrgInvitations.RegisterSucceedsIff` | routers/core/account.py:347-438 | registering succeeds if and only if the address is new and, with a token, the same holds of an invitation to that address |
| `OrgAcross.TouchedOnlyBy` | routers/core/role.py:124-288 | a step changes or deletes a role only with its whole organization, or by a role form of someone permitted in the organization that form names |
| `OrgAcross.CanUpdateIff` | routers/core/role.py:147-202 | an actor can change a custom role, of whichever organization, if and only if permitted to edit roles in some organization |
| `OrgAcross.CanDeleteIff` | routers/core/role.py:244-265 | the same for deleting a role nobody holds |
| `OrgAcross.CrossesOrganizations` | routers/core/role.py:147-202 | sound tables on which a member of one organization only renames and deletes a role of another |
| `OrgRoutes.DoneOnlyIfEntitled` | utils/core/models.py:256-275 | no guarded route succeeds unless a role the actor holds in that organization has the permission it is for |
| `OrgRoutes.InsufficientMeansLacking` | utils/core/models.py:256-275 | nobody who is granted the permission a route looks up is told that it is missing |
| `OrgRoutes.OrganizationDeletedIff` | routers/core/organization.py:229-252 | deleted exactly for who has the permission to delete there; exactly its roles, links, invitations and resources go |
| `OrgRoutes.OrganizationGoesOnlyBy` | routers/core/organization.py:229-252 | whatever the step, an organization goes only by someone entitled to delete it, or with its only member |
| `OrgRoutes.RenamedIff` | routers/core/organization.py:173-214 | renamed exactly by a member permitted to, to a name no other organization has; only the name changes |
| `OrgRoutes.FoundedIff` | routers/core/organization.py:92-169 | founded exactly under a free name; the founder is the only member and nothing else changes |
| `OrgRoutes.StepKeepsOrgNames` | routers/core/organization.py:92-169 | every step keeps: two organizations never share a name |
| `OrgRoutes.RunKeepsOrgNames` | routers/core/organization.py:92-169 | the same over every run |
| `OrgEffects.RoleCreatedIff` | routers/core/role.py:45-97 | made exactly under a name free there by someone permitted; it has exactly the requested permissions that exist, nobody holds it, and nothing else changes |
| `OrgEffects.RoleUpdateIsExact` | routers/core/role.py:165-202 | the stored permissions are all requested ones, none but requested or held, and exactly the requested if and only if no two unrequested ones stood side by side; the name is the requested one and nothing else changes |
| `OrgEffects.RoleUpdatedIff` | routers/core/role.py:147-202 | granted exactly with the permission in the organization named, for a custom role, existing permissions and a name free in both organizations |
| `OrgEffects.RoleDeletionIsExact` | routers/core/role.py:231-265 | a role nobody holds goes, with exactly its invitations |
| `OrgEffects.MemberInvitedIff` | routers/core/organization.py:267-334 | granted exactly by someone permitted for a known user who is no member; exactly they gain exactly the Member role |
| `OrgEffects.UserRolesChangedIff` | routers/core/user.py:223-278 | granted exactly by someone permitted, for a known user, unless the commit refuses a role requested twice; only links change |
| `OrgEffects.UserRemovedIff` | routers/core/user.py:306-352 | granted exactly by someone else who is permitted; exactly the target's roles there go |
| `OrgEffects.InvitationMadeIff` | routers/core/invitation.py:110-193 | made exactly for a role of the organization and an address no member has, by someone permitted whose mail is taken; the one pending there for the address, usable for a week |
| `OrgEffects.InvitationResentIff` | routers/core/invitation.py:205-264 | sent again exactly while unused; a fresh token for another week and nothing else |
| `OrgEffects.InvitationDeletedIff` | routers/core/invitation.py:276-302 | deleted, used or not, exactly by someone permitted in its organization |
| `OrgEffects.WarningMeans` | utils/core/invitations.py:42-65 | expired means an unused invitation past its expiry, invalid that every invitation with the token is used or there is none |
| `OrgEffects.SentElsewhereIff` | routers/core/invitation.py:317-385 | the link of a usable invitation leads to registration exactly when nobody has its address as primary, and to login exactly when somebody other than the visitor has |
| `OrgEffects.RegistrationAddsUser` | routers/core/account.py:347-438 | one user with the address; without an invitation nothing else |
| `OrgEffects.MemberGainedBy` | routers/core/user.py:223-278 | whatever the step, nobody becomes a member but by founding, by an acceptance, or by a form of someone entitled to add them |
| `OrgEffects.MemberLostBy` | routers/core/user.py:306-352 | nobody ceases to be one but with the organization, with the account, or by a form of someone entitled |
| `OrgEffects.InvitationReworkedBy` | routers/core/invitation.py:110-302 | an invitation changes or goes only by someone entitled to invite there, by being accepted, with its organization or role, or when who accepted it is deleted |
| `OrgFormerMember.FormerMemberIsLockedOut` | utils/core/models.py:380-387 | a run from empty tables: two register, one founds an organization and invites the other, who accepts, is removed, is invited again and is refused |
| `OrgMembers.PermissionAgrees` | utils/core/organizations.py:9-15 | what has_permission grants is in the union over roles, and with at most one role in the organization the two agree in every loading order |
| `OrgMembers.OrderIrrelevantIff` | utils/core/models.py:256-275 | has_permission answers as the union over roles in every loading order if and only if, when one role of the user in the organization grants the permission, all do |
| `OrgMembers.OrderCanDecide` | utils/core/models.py:270-275 | sound tables on which two loading orders of two roles give two answers |
| `OrgMembers.UpdateUserRoleExact` | routers/core/user.py:261-276 | exactly the roles elsewhere plus the requested roles of the organization, and nobody else changes |
| `OrgMembers.RemovalNeverEmpties` | routers/core/user.py:319-350 | exactly the target leaves exactly that organization, and the actor is still in it |
| `OrgMembers.DeletionIsExact` | routers/core/account.py:97-125 | an organization goes if and only if the deleted user was its only member; every other keeps name, roles, resources, invitations and other members; nothing dangles |
| `OrgDefaults.DefaultsThere` | utils/core/db.py:203-255 | whatever roles the organization had, afterwards it has the three default ones with at least their permissions |
| `OrgDefaults.OthersUntouched` | utils/core/db.py:203-255 | no role is renamed, no role but its Owner and Administrator changes, and what is new is a missing default role |
| `OrgDefaults.DefaultsOfNew` | utils/core/db.py:203-255 | in an organization without roles it makes the three with exactly their permissions, and no grant is made twice |
| `OrgStore.Store.UserHasPermission` | utils/core/models.py:256-275 | the loop that stops at the first role of the organization |
| `OrgStore.Store.UserPermissionsForOrg` | utils/core/organizations.py:9-15 | the nested loops collect the union of the permissions of all roles held there |
| `OrgStore.Store.UserOrganizations` | utils/core/models.py:243-254 | each organization the user is in, once |
| `OrgStore.Store.OrganizationUsers` | utils/core/models.py:293-306 | each member of the organization, once |
| `OrgStore.Store.CreateOrganization` | routers/core/organization.py:92-169 | organization, default roles and owner link, or nothing when the name is taken |
| `OrgStore.Store.CreateDefaultRoles` | utils/core/db.py:203-255 | the loops find or make the three roles and grant their permissions; without check_first it fails without a trace exactly when a grant is already there |
| `OrgStore.Store.AssignPermissionsToRole` | utils/core/db.py:167-200 | the role gains exactly the permissions given; without check_first the failure of a grant made twice is reported, exactly when there is one |
| `OrgStore.Store.UpdateOrganization` | routers/core/organization.py:173-214 | the name, for a permitted member, unless another organization has it |
| `OrgStore.Store.DeleteOrganization` | routers/core/organization.py:229-252 | the organization and all that cascades, for a permitted member only |
| `OrgStore.Store.InviteMember` | routers/core/organization.py:267-334 | one Member link for a user not in the organization |
| `OrgStore.Store.CreateRole` | routers/core/role.py:45-97 | a role with the requested permissions that exist, under a free name |
| `OrgStore.Store.UpdateRole` | routers/core/role.py:124-202 | both loops, then the name checks; a refusal rolls the loops back |
| `OrgStore.Store.DeleteRole` | routers/core/role.py:231-265 | an unheld role that is no default one, with its invitations |
| `OrgStore.Store.UpdateUserRole` | routers/core/user.py:223-278 | the emptying and refilling loops; a commit refused for a role appended twice is rolled back |
| `OrgStore.Store.RemoveUserFromOrganization` | routers/core/user.py:306-352 | the emptying loop, never for oneself |
| `OrgStore.Store.InvalidatePendingForEmail` | utils/core/models.py:423-438 | exactly the unused invitations for the organization and address go |
| `OrgStore.Store.CreateInvitation` | routers/core/invitation.py:110-193 | pending ones replaced by one with a fresh token, or no change when the mail fails |
| `OrgStore.Store.ResendInvitation` | routers/core/invitation.py:205-264 | a fresh token and expiry, or no change when the mail fails |
| `OrgStore.Store.DeleteInvitation` | routers/core/invitation.py:276-302 | the one invitation goes |
| `OrgStore.Store.InvitationTokenWarning` | utils/core/invitations.py:42-65 | no refusal exactly for the token of an unused invitation not past its expiry |
| `OrgStore.Store.ProcessInvitation` | utils/core/invitations.py:130-164 | one role link and the used mark, or nothing when the unique constraint refuses |
| `OrgStore.Store.AcceptInvitation` | routers/core/invitation.py:317-385 | only for the user behind the invited primary address |
| `OrgStore.Store.AcceptInvitationAtLogin` | routers/core/account.py:500-555 | for any verified address of the account |
| `OrgStore.Store.Register` | routers/core/account.py:347-438 | the user row and the acceptance together, or nothing |
| `OrgStore.Store.DeleteOrganizationsWhereUserIsOnlyMember` | routers/core/account.py:97-125 | the loop deletes exactly the organizations whose only member is the user |
| `OrgStore.Store.DeleteUser` | routers/core/account.py:294-311 | the sweep and the cascades of the user, sound tables after |
| `PasswordPattern.ReplaceNext` | utils/core/auth.py:76-83 | one more str.replace turns the simultaneous substitution by n entries into that by n + 1, if no replacement brings in a later key |
| `PasswordPattern.Replacer` | utils/core/auth.py:76-84 | the ten sequential replacements make one simultaneous substitution |
| `PasswordPattern.MatchIsClose` | utils/core/auth.py:73-74 | for a closed class the backtracking match ends at its first unescaped closing bracket |
| `PasswordPattern.ReadTheSameIff` | utils/core/auth.py:54-87 | for every pattern Python can read: what ECMAScript reads in the result is what Python reads in the pattern, each class body escaped, if and only if no special character stands, after an escaped opening bracket outside a class, before the next unescaped bracket or else the last closing one, and no class begins with a closing bracket |
| `PasswordPattern.ConvertTranslatesClasses` | utils/core/auth.py:54-87 | read by ECMAScript before and after: the result is the same pattern with each class body escaped, token for token and character for character, if and only if the first of these conditions holds |
| `PasswordPattern.ProperTranslatesClasses` | utils/core/auth.py:54-63 | what the conversion is meant to give, each class escaped and the rest copied, reads as the same pattern token for token |
| `PasswordPattern.ConvertIsProperIff` | utils/core/auth.py:73-87 | the conversion gives that under the same condition and no other |
| `PasswordPattern.NothingEscapedIsSafe` | utils/core/auth.py:44-51 | a pattern with no escaped opening bracket outside a class meets the condition |
| `PasswordPattern.EscapedBracketsTakenForClass` | utils/core/auth.py:73-87 | the smallest failure: a dot between two escaped brackets is no class member and yet is escaped |
| `PasswordClasses.AtomsOfEscape` | utils/core/auth.py:76-84 | escaping the text of a class translates its characters one by one |
| `PasswordClasses.ConvertedClassMatches` | utils/core/auth.py:54-87 | for every class: whether the converted one can be compiled, and what it then matches: the members and ranges of the class, a backslash where one was put before a quote or an already escaped character, and from the start of a range that ends in one up to the backslash |
| `PasswordClasses.SameClassIff` | utils/core/auth.py:54-87 | for a class that compiles: the converted one compiles and denotes the same characters if and only if each range ending in a quote or an already escaped character begins no later than the backslash, a backslash is in the class if one is added, what lies between the end of such a range and the backslash is in the class, and what lies between the backslash and the end is in it by other members too |
| `PasswordClasses.ConvertedCompilesIff` | utils/core/auth.py:54-87 | the converted class compiles if and only if each such range begins no later than the backslash |
| `PasswordClasses.SameByPiecesIff` | utils/core/auth.py:54-87 | for every class that compiles, loose dashes included: the converted one compiles and is the same if and only if its ranges are in order, each range or member gained lies within the old class and each one lost within the new |
| `PasswordClasses.UnbrokenSameIff` | utils/core/auth.py:54-87 | with no range ending in a quote or an already escaped character: it compiles and is the same if and only if no backslash was added or the class already held one |
| `PasswordClasses.BrokenRangeNeverSame` | utils/core/auth.py:54-87 | a single range ending in one is never the same, and compiles if and only if it begins no later than the backslash |
| `PasswordClasses.RunsBackwardsAfterwards` | utils/core/auth.py:54-87 | a class that compiles and whose conversion does not: from a brace to itself, the second one escaped |
| `PasswordClasses.RangeEndingInQuote` | utils/core/auth.py:54-87 | a range from space to quote compiles before and after and gains the digits |
| `PasswordClasses.PatternCompiles` | utils/core/auth.py:44-91 | either engine compiles each component of the password pattern, before and after the conversion |
| `PasswordClasses.ConversionKeepsPattern` | utils/core/auth.py:89-91 | in either engine the converted password pattern accepts the passwords the original accepts |
| `PasswordClasses.BrowserAcceptsIff` | utils/core/auth.py:44-51 | the browser accepts by the converted pattern exactly the passwords the server accepts that hold no ECMAScript line terminator and some ASCII digit |
| `PasswordClasses.PatternsAgree` | utils/core/auth.py:44-51 | what the browser accepts the server accepts; on one line and without non-ASCII digits the two accept the same |
| `PasswordClasses.AsciiPasswordsAgree` | utils/core/auth.py:44-91 | ASCII passwords without line breaks are accepted by both or by neither |
| `PasswordClasses.LineBreakTellsThemApart` | routers/core/account.py:148-149 | the server accepts an accepted password with a line break at its end, the browser does not |
| `PasswordFlag.ConvertedReadableIff` | utils/core/auth.py:54-87 | the class can be written so with the flag browsers compile the attribute with, once converted, if and only if what stays bare is no syntax of its stricter grammar, what was escaped stays escaped and may be, and no mark outside the table is doubled |
| `PasswordFlag.ConvertedPatternReadable` | utils/core/auth.py:89-91 | every component of the converted password pattern can be read with that flag; unconverted, the one for special characters cannot |

## Left out

- HTTP, cookies, redirects, HTMX, toasts, templates, logging and JavaScript: presentation only.
- bcrypt: a stored hash is represented by the password it verifies.
- JWT signing and parsing: a token is its claims, and one that names an identifier is one the server issued.
- Access tokens, `get_account_from_tokens` and `_get_user_from_request_sync`: no table depends on access tokens, and the last one loses the rotated token it creates.
- Sending mail: a parameter that decides whether the mail was taken.
- Races between routes on database rows: each route is one step, `create_organization` with its two commits and `register` with its second commit included.
- The clock read before the lock in the limiter: reading the time and updating are one step, except in `Enforce` and the race of callers.
- Floating point and time zones: reals and integers on one time line, with the strictness of each comparison as written.
- A `max_attempts` below one: `check` would index an empty list.
- Environment configuration, client addresses, the engine cache, migrations and the permission table's setup: the set of permissions is fixed.
- Accounts and organizations are two machines: joining them, a registration or login with an invitation runs its account part in one and its acceptance in the other, and a refused invitation part undoes the other. Changes of address reach organizations as steps of their own.
- Avatars, profiles and communication preferences: easy members.
- Organizations created without default roles: the default-role result is for organizations made by `create_organization`.
- SQLAlchemy: whether its commit refuses a role appended twice is the parameter `refused`.
- The `v` flag of ECMAScript, with which browsers compile the attribute: `PasswordFlag` says which converted classes its stricter grammar can read; what a class denotes is read without the flag, so a class nested by an unescaped opening bracket is not modelled.
- PasswordClasses.SameClassIff: not for a class in which a dash standing for itself follows such a range; that case is decided by `SameByPiecesIff`.
- PasswordClasses.PatternsAgree: reads each component as a lookahead for one character or as eight characters, not by a general matcher for regular expressions.
