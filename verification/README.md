# Verification of the authentication core

This project models four parts of the FastAPI template and proves what they promise together.

- **Refresh tokens on an expiring cache.** `RefreshTokenManager` keeps tokens and per-user
  revocation markers in one string-to-string cache whose entries expire lazily, and decides
  revocation by comparing ISO timestamps as strings. The model keeps a history of what was done
  to tokens (issued, revoked, all of a user's revoked) and shows that the cache implements a
  ledger over that history: a token is accepted exactly when it was issued, is within its
  lifetime, was not revoked, and no revoke-all of its user is stamped later than the token. Markers
  expire too; the proof is that no token they cancel outlives them.
- **Login, refresh and logout**, first one request at a time (chains of tokens, conservation of
  tokens against audit rows), then with the steps of any number of requests interleaved.
- **Permissions**: the wildcard language, the role tables and their joins, and the route guards
  with their audit rows.
- **The newline normaliser** of the agent rules, with sync and check.

`Wrappers`, `Text` and `IsoTime` hold the pieces of Python that the rest leans on: string order,
decimals, `split`, and `isoformat` over a proleptic Gregorian calendar; `IsoShape` says where the
colons of an ISO text stand and how its century begins it. `RedisKeys`, `LocalCache`, `TokenCodec`,
`TokenLedger`, `RefreshTokens`, `Audit`, `Sessions`, `AuthService`, `Interleaving` (the steps and
their invariant) and `InterleavedRuns` (what follows for every run) are the token part;
`Permissions`, `RbacStore` and `Guards` the permission part; `AgentRules` the normaliser. Classes of
the source are classes here. Their contracts say what they store, return and log in the caller's own
terms; what follows from that are lemmas about functions on values.

## Assumptions

- One clock for `time()` and `datetime.now`, in whole microseconds since year 1, that does not go
  back. A call with several readings has several parameters: the stamp written into a value and the
  reading behind its expiry, and the two readings of a verification (`g1` for the token, `g2` for
  the marker). Stamps lie in years 1 to 9999, the range of `datetime`.
- SHA-256 is an unknown function without collisions (`Collisionless`), a drawn token was never
  issued before (`NeverIssued`).
- The token manager is the only user of its cache while it runs.
- `authenticate`, the user table and `write_token` are parameters; `user_manager.get` answers with
  a user or nothing. The id 0 is not assumed away: the service turns it away, and so does the model.
- In interleaved runs each cache operation is one step, and the stamp of a new token or marker is
  read in the step that stores it. `LocalCache` never suspends between the two.

## What does not hold of the code

- A device text with a colon (a `User-Agent` may contain one) ends up in front of the timestamp that
  verification compares. The comparison then ignores the token's creation time within a century
  (`CreationTimeIsIgnored`), so that of a token made before a revocation and a token made at it, exactly
  one is misjudged (`ColonMisjudges`), at any two instants of a century. `ColonCounterexample` turns
  this into a run, and `LedgerHoldsForColonFreeDevices` shows that the ledger decides every run of a
  device, in any window of time that holds two instants of a century, if and only if its text has no colon.
- A verification whose second reading falls after the marker's expiry accepts a revoked token, in
  every history that cancels a held token within its lifetime (`StraddlingVerifyRevives`);
  `TwoReadingsMatchLedger` gives the exact condition.
- A refresh can outrun a revoke-all of its user, and the token it mints is not covered by it.
  `OutrunNeedsEarlyCheck` shows when: in every run a refresh or logout is past its check, in spite of
  a revoke-all stamped after its token, only if that check came before the revoke-all or read the
  clock after the revoke-all's marker had expired. `ClearedRefreshMints` is the converse: in every
  run a refresh past the user lookup mints a token that is accepted at once (colon-free device,
  lifetime not negative), whatever revoke-alls came in meanwhile. `RefreshOutrunsRevokeAll` gives such a run for any two instants.
- With overlapping requests a token can be refreshed twice (`TokenRefreshedTwice`); `ConsumersOverlap`
  shows that only overlap makes it possible.
- An audit row is lost when the database raises, and the request returns all the same. The table
  holds the logged rows that were not lost, in order; what its counts still say about the number of
  tokens is `TableCountsTokens`.
- Without the foreign keys the two permission queries can differ; `JoinsAgree` gives the exact condition.
- Matching does not compose through a module wildcard (`MatchComposes`), the requirement `m:*` does
  not ask for every action of `m` (`ModuleIsComplete`), and turning wildcards on loses the exact match
  of a requirement without an action (`WildcardsKeepExactMatches`). The repository's README says a
  requirement must be `module:action`; the code also answers for `*` and `module:*`, and so does the model.

## Model

| member | source | states |
|---|---|---|
| IsoTime.StringOrderIsTimeOrder | src/auth/backend.py:80 | comparing two `isoformat` texts as strings is comparing the instants, with or without fractions, over all four-digit years |
| IsoTime.OrdinalOrder | src/auth/backend.py:55 | calendar dates, as written in the stamp, are ordered as their day numbers and determined by them |
| IsoTime.DateOf | src/auth/backend.py:55 | every day number has a valid date whose day number it is |
| IsoTime.IsoReads | src/auth/backend.py:55 | the text of an instant is `YYYY-MM-DDTHH:MM:SS[.ffffff]+00:00` for a valid date and a time of day that add up to the instant |
| IsoTime.Calendar | src/auth/backend.py:55 | month lengths, leap years and the first day are those of the Gregorian calendar |
| IsoShape.IsoIsShaped | src/auth/backend.py:55 | in the text of an instant each colon is followed by exactly two characters and then the end or a non-digit |
| IsoShape.CenturyIsPrefix | src/auth/backend.py:80 | instants are of one century exactly when their texts begin with the same two characters |
| Text.LessIsLexicographic | src/auth/backend.py:80 | string order without recursion: the first difference decides and a proper prefix is less |
| Text.NatTextIsDigits | src/auth/backend.py:55 | an id is written as its decimal numeral without leading zeros |
| Text.ParseNatDefined | src/auth/backend.py:76 | exactly the non-empty runs of digits are read as a number |
| Text.ParseDigits | src/auth/backend.py:76 | a numeral is read as its number, leading zeros or not |
| RedisKeys.KeysNeverCollide | src/shared/redis_keys.py:10-25 | the two key namespaces are disjoint and each builder is injective |
| LocalCaches.LocalCache.CleanUpExpired | src/cache/local.py:13-17 | removes the key's entry exactly when it is past its expiry, and no other entry |
| LocalCaches.LocalCache.Set | src/cache/local.py:19-21 | without a lifetime, or with 0, the key reads back at every time; with `n` exactly through `now + n` seconds; other keys are untouched at all times |
| LocalCaches.LocalCache.Get | src/cache/local.py:23-28 | returns the entry that is alive, drops the key's entry when it is dead, and changes no later reading |
| LocalCaches.LocalCache.Delete | src/cache/local.py:30-34 | afterwards the key reads as absent at every time; the flag is physical presence |
| LocalCaches.LocalCache.Exists | src/cache/local.py:36-38 | true exactly when the key has a living entry |
| LocalCaches.LocalCache.Close | src/cache/local.py:40-41 | the cache is empty |
| LocalCaches.LazyExpiryUnobservable | src/cache/local.py:8-41 | over every run with a clock that does not go back, all answers but `delete`'s equal those of an eagerly expiring map, and so do the living entries |
| LocalCaches.DeleteReportsPresence | src/cache/local.py:30-34 | `delete` answers differently from the eager map exactly when an expired entry is still stored |
| TokenCodec.EncodeSplits | src/auth/backend.py:55 | on the caller's text: after the id stand the whole device text, or `unknown` for none or an empty one, a colon and the timestamp |
| TokenCodec.ColonFreeMeans | src/auth/backend.py:55 | a device counts as colon-free exactly when the caller passed none or a text without a colon |
| TokenCodec.StampOfColonDevice | src/auth/backend.py:75-77 | for the device text `head:tail`, cut at its first colon, verification takes `tail:timestamp` for the creation time |
| TokenCodec.DecodeExactly | src/auth/backend.py:75-77 | a stored value is read as an id and a creation time exactly when it is a number, a colon, a text without colons, a colon and that creation time |
| TokenCodec.DecodeEncode | src/auth/backend.py:55-77 | splitting a stored value gives back the user id for every device, and the exact timestamp if and only if the device has no colon |
| TokenCodec.CreationTimeIsIgnored | src/auth/backend.py:77-80 | for a device with a colon the comparison gives the same answer for any two creation times of one century |
| TokenCodec.ColonMisjudges | src/auth/backend.py:77-80 | for every device with a colon and any two instants of one century, exactly one of a token made at the earlier and a token made at the later is misjudged against a revocation at the later |
| TokenCodec.RevocationTestIsChronological | src/auth/backend.py:77-80 | in any window of time that holds two instants of one century, the string comparison is `created < revoked` throughout if and only if the device has no colon |
| RefreshTokens.RefreshTokenManager.constructor | src/auth/backend.py:36-38 | an empty cache implements the empty history |
| RefreshTokens.RefreshTokenManager.CreateRefreshToken | src/auth/backend.py:40-62 | stores `id:device:timestamp` with the caller's device text under the token's key, alive exactly for the lifetime, and nothing else; records one issue with cache and history in step |
| RefreshTokens.RefreshTokenManager.VerifyRefreshToken | src/auth/backend.py:64-83 | never raises, changes nothing a later reader could see, and with one reading accepts a colon-free token for a user exactly when the ledger honours it |
| RefreshTokens.RefreshTokenManager.RevokeToken | src/auth/backend.py:85-88 | the token's key reads as absent at all times and other keys as before; records one revocation with cache and history in step |
| RefreshTokens.RefreshTokenManager.RevokeAllUserTokens | src/auth/backend.py:90-97 | stores the timestamp under the user's key, alive exactly for the lifetime, and nothing else; records one revoke-all with cache and history in step |
| RefreshTokens.CreatedTokenVerifies | src/auth/backend.py:40-83 | after an issue the new token verifies for the user it was issued to |
| RefreshTokens.RotatedTokenVerifies | src/auth/service.py:95-98 | after an issue and the revocation of another token the new token verifies for the user it was issued to |
| RefreshTokens.RevokedTokenRejected | src/auth/backend.py:85-88 | after its revocation a token is rejected at all later readings |
| RefreshTokens.RevokedUserRejected | src/auth/backend.py:90-97 | after a revoke-all no token of the user stamped before it is accepted, then or later |
| TokenLedger.VerifyReads | src/auth/backend.py:71-83 | on any cache contents: accepted for a user exactly when the token's key holds a composed text of that user and the user's key no text later than its creation time |
| TokenLedger.VerifyExactly | src/auth/backend.py:64-83 | with two readings: accepted exactly when issued, alive at the first, not revoked, and no revoke-all with a later stamp is still stored at the second |
| TokenLedger.VerifyMatchesLedger | src/auth/backend.py:40-97 | with one reading the expired markers do not matter: accepted exactly when the ledger honours the token |
| TokenLedger.MarkerOutlivesToken | src/auth/backend.py:92-97 | while a token lives, so does the marker of every revoke-all stamped after it |
| TokenLedger.StraddlingVerifyRevives | src/auth/backend.py:71-79 | in every history that cancels a held token within its lifetime, a verification that reads the token in time and the marker after its expiry accepts the token, against the ledger |
| TokenLedger.TwoReadingsMatchLedger | src/auth/backend.py:71-79 | a held, living token is judged as by the ledger if and only if no revoke-all cancels it or some revoke-all that cancels it is still in force at the second reading |
| TokenLedger.ColonDeviceVerdict | src/auth/backend.py:75-81 | a held, living token of the device `head:tail` is rejected exactly when `tail:timestamp` is a smaller string than the living marker |
| TokenLedger.RevokeAllIsPermanent | src/auth/backend.py:90-97 | after a revoke-all no token stamped before it is ever accepted, whatever happens later and however late |
| TokenLedger.RevokeAllSparesTheRest | src/auth/backend.py:79-83 | removing a revoke-all from any run changes no verification of another user's token or of one stamped at or after it |
| TokenLedger.RevokedTokenStaysRevoked | src/auth/backend.py:85-88 | a token revoked after its issue is never accepted again, for all devices and readings |
| TokenLedger.UsersAreIsolated | src/shared/redis_keys.py:15-25 | deleting everything done to one user, and nothing else, from any run changes no verification of another user's token |
| TokenLedger.OthersExactly | src/shared/redis_keys.py:15-25 | the run without a user keeps exactly the events that touch neither the user's tokens nor their marker |
| TokenLedger.ColonCounterexample | src/auth/backend.py:77-81 | for a device with a colon and any two instants of one century, an issue and a revoke-all at the later instant that verification and ledger decide differently |
| TokenLedger.LedgerHoldsForColonFreeDevices | src/auth/backend.py:55-81 | in any window of time that holds two instants of one century, the ledger decides every run of a device if and only if the device has no colon or lifetimes are negative |
| Sessions.TokensAreConserved | src/auth/service.py:50-131 | in runs without overlap the unconsumed tokens number the LOGIN successes minus the LOGOUT successes among the rows handed to the audit service |
| Sessions.TableCountsTokens | src/audit/service.py:58-72 | over a table that lost rows: with LOGINs counted as logged and LOGOUTs as stored the difference bounds the unconsumed tokens from above, the other way round from below, and the difference over the table alone is exact when no row is lost |
| Sessions.LiveTokensAreConserved | src/auth/service.py:50-131 | the same count for the tokens that verify, while nothing expires and no password is reset |
| Sessions.RootIsDescent | src/auth/service.py:69-108 | the root of a token is the login token from which a path of refreshes leads to it |
| Sessions.OneTokenPerChain | src/auth/service.py:69-108 | in each chain of refreshes that starts at a login at most one token is unconsumed |
| Sessions.OneLiveTokenPerChain | src/auth/service.py:69-108 | two different tokens of one chain are never both accepted, whatever the readings |
| Sessions.LogoutEndsChain | src/auth/service.py:110-131 | after a logout the token's chain holds no token |
| Sessions.EndedChainStaysEnded | src/auth/service.py:32-131 | no later request puts a token into an ended chain |
| Sessions.ConsumedNeverAccepted | src/auth/service.py:98-123 | a token spent by a refresh or a logout is never accepted in any continuation without overlap |
| Audit.AuditService.Log | src/audit/service.py:45-72 | the row joins the table with all that was pending, or on a database error the table is unchanged; nothing stays pending, and the table keeps holding logged rows in order |
| Audit.SubsequenceCounts | src/audit/service.py:70-72 | a table that is what is left of the logged rows counts no more of any kind than were logged, and is all of them when it is as long |
| AuthService.AuthenticationService.Login | src/auth/service.py:32-67 | a raise leaves cache and tokens untouched; otherwise the response carries the access token and the drawn token, and exactly that token is issued to the authenticated user; one LOGIN row with result and actor, in the table unless the database raises |
| AuthService.AuthenticationService.Refresh | src/auth/service.py:69-108 | tokens come back as access and drawn token, for an active user with a non-zero id who held the given token; the new token is issued to that user and the given one revoked; which of the two codes is raised is fixed by the ledger and the user table; one REFRESH row with result and actor; a raise changes nothing a later reader could see |
| AuthService.AuthenticationService.Logout | src/auth/service.py:110-131 | returns exactly when the ledger honours the token for a non-zero id, and then revokes it; one LOGOUT row with result and actor; a raise changes nothing a later reader could see |
| AuthService.AuthenticationService.OnAfterResetPassword | src/auth/manager.py:47-50 | a password reset records one revoke-all of that user and keeps the log in step |
| AuthService.RotationMovesTheToken | src/auth/service.py:94-98 | after a successful refresh the spent token is gone and the new one is held |
| AuthService.RotatedHolding | src/auth/service.py:95-98 | after a refresh the new token is held as issued and the given one is held by nobody |
| AuthService.OutcomesFollowLedger | src/auth/service.py:72-123 | a refresh returns the access and the drawn token exactly when the ledger honours the token for an active user with a non-zero id, raises `UserInactive` exactly when that user is missing or inactive, and `TokenInvalid` exactly when no non-zero id is honoured; a logout returns exactly when one is |
| Interleaving.RunsKeepInv | src/auth/service.py:32-131 | in every interleaved run the cache implements the history, each request past its read saw its token held and knows its user and stamp, and each finished consumer revoked the token afterwards |
| InterleavedRuns.FetchThenCheckIsVerify | src/auth/backend.py:64-83 | a read of the token followed at once by the marker check passes exactly when verification with those two readings accepts the token for a non-zero user |
| InterleavedRuns.UninterruptedRefresh | src/auth/service.py:72-98 | a refresh whose steps nothing interrupts does what the sequential service does: the verified user gets the new token, the given one is revoked, and an inactive user is refused |
| InterleavedRuns.UninterruptedLogout | src/auth/service.py:112-123 | a logout whose steps nothing interrupts revokes exactly the given token |
| InterleavedRuns.InactiveNeverMints | src/auth/service.py:84-92 | a refresh whose user is missing or inactive records nothing and in every continuation stays refused, without minting or revoking |
| InterleavedRuns.SuccessReadBeforeRevocation | src/auth/service.py:72-98 | a successful refresh or logout read its token before the first revocation after the token's issue |
| InterleavedRuns.ReadAfterRevocationFails | src/auth/service.py:72-81 | once a token is revoked every later read of it is refused |
| InterleavedRuns.CheckFollowsLedger | src/auth/backend.py:79-83 | in every interleaved run the marker check refuses a colon-free token exactly when a revoke-all still alive, come in at any time before the check, is stamped after the token's issue, or the user id is 0 |
| InterleavedRuns.RefreshKeepsUser | src/auth/service.py:94-97 | in every interleaved run a refresh issues its new token to the user of the token it was given |
| InterleavedRuns.ConsumersOverlap | src/auth/service.py:69-131 | two requests that consumed one token each read it before the other revoked it |
| InterleavedRuns.TokenRefreshedTwice | src/auth/service.py:72-98 | a run in which one token is refreshed twice and both new tokens are held |
| InterleavedRuns.OutrunNeedsEarlyCheck | src/auth/backend.py:79-83 | in every run a request is past its check in spite of a revoke-all stamped after its token only if the check came before the revoke-all or after the marker's expiry |
| InterleavedRuns.ClearedRefreshMints | src/auth/service.py:94-98 | in every run a refresh past the user lookup mints a token that, unless its device has a colon or lifetimes are negative, is accepted at once, before and after it revokes the old one, whatever revoke-alls came in meanwhile |
| InterleavedRuns.RefreshOutrunsRevokeAll | src/auth/service.py:72-98 | for any two instants, a run in which a refresh checked before a revoke-all yields a token that is accepted after it |
| Permissions.SplitJoin | src/auth/rbac/service.py:12-18 | a colon-free module and an action come back from their joined form, the empty action as absent |
| Permissions.SplitInverts | src/auth/rbac/service.py:12-18 | the split of any string determines it, up to one trailing colon |
| Permissions.ConcreteMatch | src/auth/rbac/service.py:20-57 | a concrete `m:a` is matched by exactly five held strings |
| Permissions.MatchMeansGrants | src/auth/rbac/service.py:20-57 | matching as a set: membership for `m:a`, a non-empty meet for `m:*`, only `*` for a requirement without an action |
| Permissions.StarIsComplete | src/auth/rbac/service.py:30-68 | a finite set satisfies `*` if and only if it satisfies every concrete requirement |
| Permissions.ModuleIsComplete | src/auth/rbac/service.py:48-68 | a finite set satisfies every action of a module if and only if it holds `*`, `m`, `m:` or `m:*` |
| Permissions.WithoutWildcards | src/auth/rbac/service.py:26-28 | with wildcards off a set satisfies a requirement exactly when it holds that very string |
| Permissions.MatchComposes | src/auth/rbac/service.py:37-57 | matching is transitive through a permission if and only if its action is not `*` |
| Permissions.WildcardsKeepExactMatches | src/auth/rbac/service.py:26-46 | turning wildcards on keeps all exact matches of a requirement if and only if it is `*` or has an action |
| RbacStore.JoinIsUnionOfRoles | src/auth/rbac/repository.py:11-20 | under the foreign keys the three-table join is the union of the codes of the user's roles, and equals the four-table join |
| RbacStore.JoinsAgree | src/auth/rbac/repository.py:11-20 | without the foreign keys the two joins agree on a user if and only if each missing role still assigned to them adds no code to those of their existing roles |
| RbacStore.OrphanedAssignment | src/auth/rbac/repository.py:11-20 | without the foreign keys, for a user whose every assignment is to one role that is gone, one join finds the role's codes and the other finds nothing |
| RbacStore.DeletedUser | migrations/versions/5b7a7f7f3f6a_add_rbac_tables.py:92-93 | the cascade keeps the foreign keys and removes the user and their assignments only; the user has no permissions and roles left and others keep theirs |
| RbacStore.DeletedRole | migrations/versions/5b7a7f7f3f6a_add_rbac_tables.py:92-110 | the cascade keeps the foreign keys and removes the role and its rows only; each user keeps exactly what their other roles carry, and their names |
| RbacStore.DeletedPermission | migrations/versions/5b7a7f7f3f6a_add_rbac_tables.py:107-110 | the cascade keeps the foreign keys; exactly that permission's rows go, and nobody's roles change |
| Guards.CheckIsSatisfied | src/auth/rbac/service.py:70-90 | the check over the joined permissions is the quantified statement about roles and their permissions, and fails with `ValueError` exactly for other modes |
| Guards.ExactCheck | src/auth/rbac/service.py:70-90 | with wildcards off, `all` holds exactly when each required code is carried by one of the user's roles, and `any` exactly when some is |
| Guards.CheckRolesIsSatisfied | src/auth/rbac/service.py:92-105 | the same for role names |
| Guards.ExactRoles | src/auth/rbac/service.py:92-105 | `all` holds exactly when each required name is that of an assigned role, and `any` exactly when some is |
| Guards.RequirePermissions | src/auth/rbac/dependencies.py:29-88 | returns exactly for a bypassing superuser or a satisfied requirement; logs GRANTED for the actor when it returns, DENIED when it refuses, in the table unless the database raises; `ValueError` exactly for no permissions or a mode other than `all` and `any`, without a row |
| Guards.OwnerOrPerm | src/auth/rbac/dependencies.py:151-229 | the same with ownership as a further ground and no objection to an empty list |
| Guards.RequireRoles | src/auth/rbac/dependencies.py:91-148 | the same for roles |
| Guards.AuthorisationIsMonotone | src/auth/rbac/service.py:70-105 | adding assignments, roles or permissions never turns a satisfied requirement into an unsatisfied one |
| Guards.ConcreteRequirement | src/auth/rbac/dependencies.py:59-64 | a user is granted `m:a` if and only if one of their roles carries one of its five spellings |
| Guards.RoleDeletionRevokes | src/auth/rbac/repository.py:11-20 | after a role is deleted a user is granted exactly what a code of another of their roles matches |
| AgentRules.TwoPassesAreOne | scripts/agent_rules.py:13 | the two `replace` calls equal one pass that reads CR LF, CR and LF as line ends |
| AgentRules.NormalFormIsLines | scripts/agent_rules.py:11-16 | the normal form is the file's lines, each ended by one LF |
| AgentRules.LineEnds | scripts/agent_rules.py:13 | a line ends at byte 10, at 13 and 10 together, or at 13 alone; the lines of a file are the first line and the lines of what follows its end |
| AgentRules.LastLine | scripts/agent_rules.py:14-15 | a last line without an end counts as a line unless it is empty |
| AgentRules.SameNormalFormSameLines | scripts/agent_rules.py:34-48 | two files have the same normal form if and only if they have the same lines |
| AgentRules.NormalFormIsNormal | scripts/agent_rules.py:11-16 | the normal form has no byte 13, ends in byte 10 and is a fixed point |
| AgentRules.Repository.NormalizedBytes | scripts/agent_rules.py:11-16 | returns the file's lines with LF ends, or fails for a missing file |
| AgentRules.Repository.SyncTargets | scripts/agent_rules.py:32-35 | the loop overwrites exactly the stale targets, one write each, and leaves every other file as it was |
| AgentRules.Repository.Sync | scripts/agent_rules.py:27-37 | leaves all targets in sync, writes the source's normal form to exactly the stale or missing ones, and touches nothing when the source is missing |
| AgentRules.Repository.Check | scripts/agent_rules.py:40-56 | 0 if and only if `AGENTS.md` and the three targets exist and the targets have its lines |
| AgentRules.UpdateEstablishesInSync | scripts/agent_rules.py:27-56 | after a sync the source is unchanged, the check passes, and a second sync has nothing to write |

## Left out

- src/cache/redis.py: a wrapper over a server that is not visible here; only `LocalCache` is modelled.
- JWT signing, password hashing, OAuth, the fastapi-users routers: library behaviour; access tokens are opaque parameters.
- `int()` on texts that the manager did not write (spaces, underscores, non-ASCII digits): `ParseInt` covers signed ASCII decimals.
- Audit columns: rows keep action, result and actor; user agent, address, request id and `extra` are not modelled.
- Interleaving: the audit call of a request is not a step, and the gap between reading a stamp and storing it is not one either.
- Guards: the access row that `current_user` writes before a guard runs; the path parameters' `int()` coercion and `get_owner_id` are replaced by the owner's id.
- The role tables: timestamps, descriptions and the uniqueness of names and codes, which no property here needs.
- AgentRules: creation of parent directories, the list printed by a failing check, and `main`.
- Middleware, handlers, retry, logging, settings, and the rest of the migrations.
