# Verified model of the session, permission-cache, metrics and rate-limit logic

This project models the stateful parts of a NestJS service and proves properties of them in Dafny 4.11.
`dafny verify dfyconfig.toml` checks everything.

## What is modelled

* **Sessions and credentials.** `Sessions` gives the refresh-token, reset-token and user tables and the effect of each
  service call on them; `AuthService` is the service as a class whose methods change the tables in place and are proved
  to have exactly those effects. `SessionEffects` says when each call succeeds, which rows it touches and which it leaves
  alone. `SessionInvariants` proves what every call keeps, `SessionRuns` and `CredentialRuns` prove theorems about whole
  runs. The scheme is the refresh token rotation of section 4.14.2 of RFC 9700.
* **Permissions.** `JoinRows` and `Rbac` give the role, permission and join tables with their foreign keys, cascades and
  unique constraints, the join that grants permissions, and every mutation; `RbacEffects` says row by row what each
  mutation answers, changes and grants. `RbacService` is the class over them and the
  Redis cache. `RbacCache` treats the cache call by call. `CacheInterleaving` and `CacheCoherence` split every reader into
  get, load and set and every mutating call into capture, commit and one delete per key, and let the steps of any number
  of calls interleave.
* **Metrics and alerts.** `MetricsHistory` says what the numbers mean over the whole request history; `Metrics` is the
  bounded in-memory service, with the history as a ghost field; `ErrorRateMonitor` is the alert.
* **Rate limits.** `WsThrottle` is the per-socket window guard; `ConnectLimit` is the Redis connection counter with the
  awaits of concurrent handlers as interleaved steps.
* **Naming and seeding.** `NamingStrategy` is the two-pass regular-expression rewriting; `Seeder` the seeding script.

## Assumptions

* A table row's id is its position in `Sessions`; in `Rbac` and `Seeder` a generated uuid is one that was never generated
  before. Random family ids are new. A random token that happens to be in use hits the unique index on its hash, and that
  outcome is modelled.
* SHA-256 and argon2 are injective. Emails are taken after trimming and lower-casing; the seeding script passes its email
  as configured, and the citext column ignores the case of its ASCII letters.
* Each database transaction is one atomic step. `login`, `register`, `logout` and `forgotPassword` are not transactions in
  the service; here each whole call is one step. The theorems that mention them hold of runs of such calls.
* One reading of the clock per call; clocks do not run backwards in the session, cache and connection-limit models, and in
  the throttle and alert theorems that say `Monotone`. The metrics refinement needs no such assumption.
* Redis is a map with expiry: a key set with a TTL is gone once the TTL has passed. In the connection limiter a failed
  command may or may not have been executed, and a handler may die, between commands or while it waits for a reply.
* Permission lookups are for user ids the service has issued.
* Numbers are exact: rates are reals, durations integers.

## What the proofs found

* The metrics comment says the route table evicts on overflow; the code drops new routes. The model drops
  (`src/shared/metrics/metrics.service.ts:18` and `:53-57`).
* `recentErrorRate` is documented as the fraction of the requests of the last `windowMs`. The rate is that fraction
  exactly when no request of the window was pushed out of the buffer, or those pushed out failed at the same rate as those
  kept (`RateTrueExactly`, `SampledRateTrueExactly`). With a monotone clock rate and sample count are both right exactly
  when at most 20000 requests were recorded or the newest sample pushed out is older than the window
  (`WindowCompleteExactly`). `BusyWindowForgets` is an input on which the rate is 0 although the window contains an error.
* `logout` is commented as leaving sibling sessions of the family alone. A family has at most one live token, so logging
  that one out ends the family (`WhatBarsAFamily`).
* The monitor's re-arm limit of twice the cooldown never decides anything, and alerts past the escalation rate are not
  debounced at all (`Monitor.Check`, `EscalationIsNotDebounced`).
* A role or user call can change the tables and still answer with an error: exactly `setRoles` on a soft-deleted user with
  known roles that differ from the ones the user has (`ErrorAfterCommitExactly`).
* The throttle accepts up to 2 * limit - 1 events in an interval of `windowMs`, not 2 * limit, and every limit reaches it
  when the window has at least two milliseconds (`BurstMeetsBound`); a window of one millisecond accepts at most the limit
  (`OneMillisecondBound`). A rejected event does not follow exactly `limit` events accepted in the preceding `windowMs`, but
  at least that many, and exactly that many if and only if no event of an earlier window was accepted within that time
  (`RejectedAfterExactly`). A limit below 1 still lets the first event of each window through.
* The permission cache is not coherent under interleaving, even with Redis healthy: every mutation that changes a user's
  join has a run that leaves the old rules cached (`RaceLeavesStaleEntry`). The exact exceptions and the staleness bound are
  proved.
* The connection counter loses its TTL for good exactly when its EXPIRE is not executed, the reply to the INCR that
  created it is lost, or the handler that created it dies before its EXPIRE (`StuckExactly`).
* The connection limit can let more than `limit` of the connections it counted in, because the error handler also lets in
  a connection whose INCR was executed and whose reply was lost (`LostRepliesLetMoreIn`). A connection counted past the
  limit is let in if and only if that happened to it, in every run (`PastLimitExactly`) and also once the key is stuck
  (`StuckForGood`); besides those at most `limit` are let in (`LetInAtMost`). A connection whose INCR was not executed is let
  in without being counted.

## Model

| member | source | states |
|---|---|---|
| SessionInvariants.ReachableFamiliesAreChains | src/modules/auth/auth.service.ts:127-186 | in every reachable state a rotation family is one chain: one owner, each row but the last used, revoked and linked to a later row of the family that no other row links to; used exactly when linked |
| SessionInvariants.ReachableValid | src/modules/auth/auth.service.ts:60-321 | every state reached by any run of calls satisfies the chain, lifetime, uniqueness and reset-token invariants |
| SessionInvariants.StepKeepsValid | src/modules/auth/auth.service.ts:60-321 | each call keeps them |
| SessionInvariants.RotationKeepsChains | src/modules/auth/auth.service.ts:166-183 | inserting a successor and linking the presented row keeps every family a chain |
| SessionRuns.RunEvolves | src/modules/auth/auth.service.ts:60-321 | over a run rows keep their identity, revoked rows and spent reset tokens are frozen, and no row joins a family without a live row |
| SessionRuns.RefreshSpendsLiveRow | src/modules/auth/auth.service.ts:138-185 | a successful refresh presented the unrevoked, unexpired tail of its family for an active user and leaves it revoked with one new row |
| SessionRuns.DeadFamiliesStayDead | src/modules/auth/auth.service.ts:138-154 | a family whose rows are all revoked or expired is never refreshed again in any run |
| SessionRuns.WhatBarsAFamily | src/modules/auth/auth.service.ts:138-154 | presenting a revoked or used token is exactly the theft outcome; theft, expiry and logout of a live token bar the whole family; logout of a revoked token changes nothing |
| SessionRuns.EachTokenRefreshesAtMostOnce | src/modules/auth/auth.service.ts:138-185 | over any run each token refreshes successfully at most once |
| SessionRuns.FamilySizeCountsRefreshes | src/modules/auth/auth.service.ts:166-185 | a reachable family holds one row more than its successful refreshes |
| SessionRuns.StepGrowsFamily | src/modules/auth/auth.service.ts:303-318 | a call adds a row to a family exactly when it refreshes or opens it |
| SessionRuns.SlidingDeadline | src/modules/auth/auth.service.ts:347-349 | the k-th refresh of a family happens within k refresh lifetimes of its opening |
| SessionRuns.ConsecutiveRefreshes | src/modules/auth/auth.service.ts:149-176 | two consecutive refreshes of a family are at most one refresh lifetime apart |
| SessionRuns.IdleFamiliesDie | src/modules/auth/auth.service.ts:149-154 | a family not refreshed for longer than the refresh lifetime between two calls of a run is never refreshed again |
| CredentialRuns.FamilyOrigin | src/modules/auth/auth.service.ts:303-318 | every family a run adds was opened by one register or login call of the run, for the user that owns its rows |
| CredentialRuns.RefreshNeedsLaterLogin | src/modules/auth/auth.service.ts:294-299 | once all of a user's rows are revoked, any later refresh for the user belongs to a family a later login opened |
| CredentialRuns.ResetForcesLogin | src/modules/auth/auth.service.ts:259-300 | after a successful password reset every later refresh for that user comes from a later login |
| CredentialRuns.ResetReplacesPassword | src/modules/auth/auth.service.ts:287-288 | after a reset, login succeeds with the new password and with no other |
| CredentialRuns.SoftDeleteIsFinal | src/modules/users/users.service.ts:162-187 | after a soft delete no later login, refresh or reset succeeds for the user in any run, and none of its rows is ever live |
| CredentialRuns.OnlyLatestResetTokenWorks | src/modules/auth/auth.service.ts:239-252 | at most one unspent reset token per user, and only the last one issued can reset |
| CredentialRuns.EachResetTokenWorksAtMostOnce | src/modules/auth/auth.service.ts:262-292 | over any run each reset token succeeds at most once |
| CredentialRuns.ComesBackExactly | src/modules/auth/auth.service.ts:138-164 | some run refreshes a family again if and only if it has an unrevoked, unexpired row whose owner is not deleted |
| AuthService.Service.Refresh | src/modules/auth/auth.service.ts:114-201 | the method has the effect and the reply of the refresh step and keeps the invariants |
| AuthService.Service.Rotation | src/modules/auth/auth.service.ts:127-186 | the locked transaction: theft, expiry, inactive user, collision and rotation, in that order |
| AuthService.Service.Register | src/modules/auth/auth.service.ts:60-89 | email check, new active user unless its role is missing, new family |
| AuthService.Service.Login | src/modules/auth/auth.service.ts:91-112 | password and status checks, new family |
| AuthService.Service.Logout | src/modules/auth/auth.service.ts:203-222 | revokes the presented row if it is live, and nothing else |
| AuthService.Service.ForgotPassword | src/modules/auth/auth.service.ts:224-257 | spends the user's unspent reset tokens, then issues one |
| AuthService.Service.ResetPassword | src/modules/auth/auth.service.ts:259-301 | new password, token spent, every live refresh row of the user revoked; or nothing |
| AuthService.Service.UpdateUser | src/modules/users/users.service.ts:138-160 | changes the status of a live user other than the caller |
| AuthService.Service.SoftDelete | src/modules/users/users.service.ts:162-185 | marks the user deleted, revokes its rows, spends its reset tokens |
| SessionEffects.RefreshAnswers | src/modules/auth/auth.service.ts:127-201 | each answer to a presented refresh token is given exactly under its condition: used or revoked, expired, owner not live and active, new token already in use, or success |
| SessionEffects.RowTouchedExactly | src/modules/auth/auth.service.ts:127-186 | the only calls that change a refresh-token row and how: theft revokes what is left of the presented family, other refreshes and logout touch the presented row, reset and deletion the user's live rows |
| SessionEffects.RefreshLeavesOtherFamilies | src/modules/auth/auth.service.ts:138-147 | presenting a token, theft included, leaves every row of other families and the other tables alone |
| SessionEffects.SessionAddsRow | src/modules/auth/auth.service.ts:303-318 | a row is added exactly with a session, for its user and token, living the refresh lifetime from now |
| SessionEffects.SessionFamily | src/modules/auth/auth.service.ts:303-318 | a refresh continues the presented family; any other session opens a family no row belongs to |
| SessionEffects.SessionWorksExactly | src/modules/auth/auth.service.ts:127-186 | over any run a session's refresh token works until the refresh lifetime after its issue, exactly while no call has touched its row and its user is live and active |
| SessionEffects.LoginAnswers | src/modules/auth/auth.service.ts:91-112 | a session exactly for the live, active user with this email and password; the two refusals exactly when no credentials match or the matching user is not active |
| SessionEffects.RegisterAnswers | src/modules/auth/auth.service.ts:60-89 | email taken, role missing or a session, each exactly under its condition |
| SessionEffects.CreatedAccountLogsIn | src/modules/auth/auth.service.ts:91-112 | over any run without a reset a new account logs in with its password and no other, exactly while it is live and active |
| SessionEffects.UserRowAfter | src/modules/users/users.service.ts:138-187 | a reset writes the password hash, an update the given status, a deletion the deletion time, each of its own user; nothing else changes a user |
| SessionEffects.AccountAnswers | src/modules/users/users.service.ts:138-187 | updating, deleting and creating a user are refused exactly for the own account, a missing user, a taken email or a missing role |
| SessionEffects.ResetAnswers | src/modules/auth/auth.service.ts:267-285 | a password is reset exactly with an unspent, unexpired token of a live, active user |
| SessionEffects.ResetTokenIssued | src/modules/auth/auth.service.ts:224-257 | a reset token is issued exactly to a live, active user who asks, living the reset lifetime from now |
| SessionEffects.ResetRowAfter | src/modules/auth/auth.service.ts:239-242 | the only calls that spend a reset token: its own reset, a new request by its owner, the owner's deletion |
| SessionEffects.ResetTokenWorksExactly | src/modules/auth/auth.service.ts:259-292 | over any run an issued reset token works until its lifetime ends, exactly while it is not used or replaced and its user is live and active |
| JoinRows.ReplaceJoinRows | src/common/utils/replace-join-rows.ts:20-54 | succeeds exactly when all ids are known and the owner exists; then the owner's rows are exactly the ids and others are unchanged; otherwise nothing changes and exactly the unknown ids are reported |
| JoinRows.CountDetectsUnknown | src/common/utils/replace-join-rows.ts:31-42 | comparing the number of found rows with the number of distinct ids detects an unknown id |
| Rbac.ApplyKeepsValid | src/database/migrations/1787036058541-InitSchema.ts:42-53 | every mutation, cascades included, keeps the primary, foreign and unique keys: every join row references existing rows |
| Rbac.InvalidationCoversChange | src/modules/permissions/permissions.service.ts:135-148 | each mutation's captured user set contains every existing user whose join it changes, cascades included |
| Rbac.ErrorAfterCommitExactly | src/modules/users/users.service.ts:189-197 | a call changes the tables and answers with an error if and only if it is setRoles on a soft-deleted user with known roles other than its own |
| Rbac.JoinMeans | src/modules/permissions/permissions.service.ts:150-168 | a user is granted exactly the rules that one of the user's roles is linked to |
| RbacEffects.SetRolesAnswers | src/modules/users/users.service.ts:189-197 | success, unknown roles, unknown owner and missing or deleted user, each exactly under its condition |
| RbacEffects.SetPermissionsAnswers | src/modules/roles/roles.service.ts:104-123 | success, missing role, system role and unknown permissions, each exactly under its condition |
| RbacEffects.OtherAnswers | src/modules/roles/roles.service.ts:42-102 | system roles are refused, names and rules are unique, the own account is not deleted, each refusal exactly under its condition |
| RbacEffects.CreateUserAnswers | src/modules/users/users.service.ts:199-230 | taken email, missing default role, unknown roles or success, each exactly under its condition |
| RbacEffects.UserRolesAfter | src/modules/users/users.service.ts:232-246 | which roles each user holds after each call |
| RbacEffects.RolePermissionsAfter | src/modules/roles/roles.service.ts:104-118 | which permissions each role has after each call |
| RbacEffects.InvalidatedExactly | src/modules/permissions/permissions.service.ts:69-91 | the cache keys each call deletes: of the holders or granted users it names, and no others |
| RbacEffects.RemovedPermissionIsGone | src/modules/permissions/permissions.service.ts:135-148 | after a deletion the permission, its links and its rule are gone from every role and user, and every other row stays |
| RbacEffects.RemovedRoleIsGone | src/modules/roles/roles.service.ts:92-102 | after a deletion the role and its links are gone, and its holders keep exactly the rules another of their roles grants |
| RbacEffects.SetRolesGrants | src/modules/users/users.service.ts:189-197 | afterwards the user holds exactly the rules of the named roles |
| RbacEffects.SetPermissionsGrants | src/modules/roles/roles.service.ts:104-123 | afterwards a holder has exactly the named rules and those of the holder's other roles |
| RbacEffects.LookupAnswers | src/modules/permissions/permissions.service.ts:48-59 | a hit answers what is cached; a miss answers the granted rules and caches them for this user only, unless the write fails |
| RbacCache.CoherentExactlyWhenReached | src/modules/permissions/permissions.service.ts:209-234 | after a mutation the cache equals the join if and only if Redis deleted the key of every cached user whose join changed |
| RbacCache.RunKeepsCoherent | src/modules/permissions/permissions.service.ts:48-59 | with Redis available, after any sequence of calls every entry and every lookup equals the join |
| RbacCache.LastAssignmentWins | src/modules/users/users.service.ts:232-246 | over any run, whatever Redis does, a user's roles are the ids of its last setRoles with known roles, less the roles deleted since |
| RbacCache.LastPermissionsWin | src/modules/roles/roles.service.ts:104-118 | over any run, whatever Redis does, a role's permissions are the ids of its last setPermissions that was not refused, less those deleted since |
| RbacService.Service.GetPermissionRulesForUser | src/modules/permissions/permissions.service.ts:48-59 | cache hit, or load and set, with failed reads and writes swallowed; on a coherent cache exactly the rules the user's roles are linked to |
| RbacService.Service.SetRoles | src/modules/users/users.service.ts:189-197 | replaces the user's roles, then invalidates the user, then reports a missing or deleted user |
| RbacService.Service.SetPermissions | src/modules/roles/roles.service.ts:104-123 | replaces the role's permissions, then invalidates the holders of the role |
| RbacService.Service.RemoveRole | src/modules/roles/roles.service.ts:92-102 | captures the holders, deletes with cascade, invalidates the captured; system roles refused |
| RbacService.Service.RemovePermission | src/modules/permissions/permissions.service.ts:135-148 | captures the users granted it, deletes with cascade, invalidates the captured |
| RbacService.Service.CreateUser | src/modules/users/users.service.ts:199-230 | inserts the user with the named roles, or the default role when none is named, or rolls back; a taken email is refused |
| RbacService.Service.CreateRole | src/modules/roles/roles.service.ts:42-61 | inserts a non-system role under an unused name |
| RbacService.Service.UpdateRole | src/modules/roles/roles.service.ts:63-90 | renames a non-system role to an unused name |
| CacheInterleaving.HitsAreRecent | src/modules/permissions/permissions.service.ts:48-59 | under every interleaving and any Redis failures a hit returns rules that were exactly the join at a moment less than the TTL plus the load-to-set delay ago |
| CacheInterleaving.StepKeepsTruthful | src/modules/permissions/permissions.service.ts:182-207 | each step keeps every loaded or cached rule set equal to the join of the version it was loaded from |
| CacheInterleaving.ReaderSteps | src/modules/permissions/permissions.service.ts:182-207 | a read is answered only from an entry within its TTL, a failed set writes nothing, a set writes what was loaded for its user only |
| CacheInterleaving.CapturedFirst | src/modules/permissions/permissions.service.ts:135-148 | deleting calls name their users before the delete, by the rows of that moment, or fail at once |
| CacheCoherence.StaleEntriesExplained | src/modules/permissions/permissions.service.ts:141-147 | with one mutating call at a time and deletes succeeding, a stale entry was loaded before a commit that changed it, and the call still owes its deletion or the entry was set after it |
| CacheCoherence.StepKeepsInv | src/modules/roles/roles.service.ts:92-123 | each step of such a run keeps: every owed invalidation is pending or done, and entries older than it were removed |
| CacheCoherence.QuiescentStaleMeansSetLate | src/modules/roles/roles.service.ts:96-101 | with no mutating call at work a stale entry was loaded before a commit that changed the join and set after that commit's deletion of the key |
| CacheCoherence.RaceLeavesStaleEntry | src/modules/permissions/permissions.service.ts:141-147 | every mutation that changes a join has a serial run with healthy Redis that ends quiescent with the old rules cached within their TTL, so that the next read returns them |
| MetricsHistory.WindowCompleteExactly | src/shared/metrics/metrics.service.ts:62-82 | with a monotone clock the buffer counts every request of the time window, and rate and count are both the true ones, if and only if at most its capacity were recorded or the newest one pushed out is older than the window |
| MetricsHistory.RateTrueExactly | src/shared/metrics/metrics.service.ts:62-82 | the rate of the last samples is that of all samples in the window if and only if none of the window was pushed out or those pushed out have the same rate |
| MetricsHistory.RateMeans | src/shared/metrics/metrics.service.ts:81 | the rate times the number of samples is the number of errors, and 0 without samples |
| MetricsHistory.BusyWindowForgets | src/shared/metrics/metrics.service.ts:114-126 | an input on which the sampled rate is 0 although the window contains an error |
| MetricsHistory.TrackedExactly | src/shared/metrics/metrics.service.ts:36-57 | a route is tracked if and only if fewer than the maximum of distinct routes had been seen before some request on it |
| MetricsHistory.TrackedNeverLost | src/shared/metrics/metrics.service.ts:53-57 | a tracked route stays tracked |
| MetricsHistory.CountsConserve | src/shared/metrics/metrics.service.ts:33-60 | the counts of the tracked routes and the dropped requests add up to the total |
| MetricsHistory.RouteCountsAreSizes | src/shared/metrics/metrics.service.ts:36-43 | count and errors are the numbers of requests and of 5xx requests on the route |
| MetricsHistory.LatencyAdds | src/shared/metrics/metrics.service.ts:44 | the latency sum adds up over the requests on the route |
| MetricsHistory.RoundedAverageInRange | src/shared/metrics/metrics.service.ts:93 | the rounded average is a nearest integer to the average and lies between minimum and maximum |
| Metrics.WindowPush | src/shared/metrics/metrics.service.ts:114-126 | for every capacity, growing, then overwriting at the wrapping index, keeps the rotated buffer equal to the last samples of the history |
| Metrics.RoutesPush | src/shared/metrics/metrics.service.ts:36-57 | recording keeps each tracked route's aggregate equal to that of the whole history on that route |
| Metrics.ServiceConserves | src/shared/metrics/metrics.service.ts:33-60 | in every valid state counts plus drops equal totalRequests and at most 500 routes are tracked |
| Metrics.TracksUpTo500 | src/shared/metrics/metrics.service.ts:45-57 | every route seen is tracked unless 500 routes are |
| Metrics.MetricsService.Record | src/shared/metrics/metrics.service.ts:33-60 | extends the history by the request and keeps the summary exact |
| Metrics.MetricsService.RecentErrorRate | src/shared/metrics/metrics.service.ts:66-82 | returns the number of the last 20000 requests not older than the cutoff, and the number of 5xx among them divided by it |
| Metrics.SampledRateTrueExactly | src/shared/metrics/metrics.service.ts:62-82 | the service reports the true 5xx fraction of the window if and only if none of its requests was pushed out of the 20000 or those pushed out failed at the same rate |
| Metrics.MetricsService.TakeSnapshot | src/shared/metrics/metrics.service.ts:84-112 | every tracked route once, in descending order of count, with the sizes, the extremes and the rounded average of its whole history; the sampled rate to the nearest thousandth |
| Metrics.RankedSorts | src/shared/metrics/metrics.service.ts:98 | sorting by count keeps exactly the rows and puts them in descending order |
| ErrorRateMonitor.Monitor.Check | src/shared/metrics/error-rate.monitor.ts:57-88 | alerts if and only if samples reach the floor, the rate of the last 20000 requests in the window exceeds the threshold, and the cooldown has passed or the rate exceeds the threshold by more than 0.2 |
| ErrorRateMonitor.CalmAlertsAreSpaced | src/shared/metrics/error-rate.monitor.ts:72-84 | n alerts at non-escalated rates take at least n - 1 cooldowns |
| ErrorRateMonitor.CalmAlertsBounded | src/shared/metrics/error-rate.monitor.ts:72-84 | a span of T milliseconds holds at most T / cooldown + 1 of them |
| WsThrottle.Guard.CanActivate | src/common/guards/ws-throttle.guard.ts:23-54 | changes only the event's own entry: a new window, or one more in it, allowed up to the limit |
| WsThrottle.NamesAreIndependent | src/common/guards/ws-throttle.guard.ts:36-47 | an event name's entry depends only on the earlier events of that name |
| WsThrottle.AllowedByItsOwnName | src/common/guards/ws-throttle.guard.ts:43-53 | an event is let through exactly when the throttle of its own name alone accepts it |
| WsThrottle.WindowInvariant | src/common/guards/ws-throttle.guard.ts:43-53 | the counter is the number of events since the window was opened, and the accepted ones are the first limit of them |
| WsThrottle.RejectedExactly | src/common/guards/ws-throttle.guard.ts:49-52 | an event is rejected if and only if its window, opened less than windowMs ago, has accepted exactly limit events |
| WsThrottle.RejectedAfterExactly | src/common/guards/ws-throttle.guard.ts:49-52 | a rejected event follows at least limit events accepted within the preceding windowMs, and exactly limit if and only if no event of an earlier window was accepted within that time |
| WsThrottle.AnyIntervalBound | src/common/guards/ws-throttle.guard.ts:34-53 | any half-open interval of windowMs holds at most 2 * limit - 1 accepted events |
| WsThrottle.OneMillisecondBound | src/common/guards/ws-throttle.guard.ts:43-47 | with a window of one millisecond at most limit events are accepted in it |
| WsThrottle.BurstMeetsBound | src/common/guards/ws-throttle.guard.ts:34-53 | for windows of at least two milliseconds every limit has a run that meets this bound and whose next event is rejected |
| ConnectLimit.TtlOrPendingExpire | src/modules/realtime/redis-io.adapter.ts:135-139 | without Redis errors or deaths, under any interleaving, the counter has a TTL or exactly one pending EXPIRE, its creator's |
| ConnectLimit.TtlNeverExtended | src/modules/realtime/redis-io.adapter.ts:137-139 | whatever fails or dies, the TTL, once set, does not change while the key lives |
| ConnectLimit.LivesSixtySeconds | src/modules/realtime/redis-io.adapter.ts:137-139 | a lifetime lasts exactly sixty seconds from the execution of its EXPIRE, whatever happens in between |
| ConnectLimit.CountsExactly | src/modules/realtime/redis-io.adapter.ts:136 | exactly the executed INCRs count, one at a time, the first one creating the key |
| ConnectLimit.AdmitsExactly | src/modules/realtime/redis-io.adapter.ts:136-144 | without errors or deaths, of n connections counted in a lifetime exactly min(n, limit) are admitted |
| ConnectLimit.VerdictsExactly | src/modules/realtime/redis-io.adapter.ts:136-152 | every way a connection is let in, refused, or let in uncounted |
| ConnectLimit.PastLimitExactly | src/modules/realtime/redis-io.adapter.ts:136-152 | over any run with a limit of at least 1, a connection counted past the limit is let in if and only if the reply to the INCR that counted it was lost |
| ConnectLimit.LetInAtMost | src/modules/realtime/redis-io.adapter.ts:136-152 | whatever fails or dies, of the connections counted in a lifetime at most limit are admitted, and at most limit are let in besides those past the limit |
| ConnectLimit.LostRepliesLetMoreIn | src/modules/realtime/redis-io.adapter.ts:145-152 | an input on which a limit of 1 lets three counted connections in |
| ConnectLimit.StuckExactly | src/modules/realtime/redis-io.adapter.ts:145-152 | a step leaves the key without TTL and without pending EXPIRE if and only if it was so already, the EXPIRE was not executed, the reply to the creating INCR was lost, or the creator died |
| ConnectLimit.StuckForGood | src/modules/realtime/redis-io.adapter.ts:136-152 | such a key never expires; once its count has reached the limit a newly counted connection is let in if and only if the reply to its INCR is lost |
| NamingStrategy.SnakeCaseIsOnePass | src/database/naming-strategy.ts:3-8 | the two passes and lower-casing equal one pass that inserts an underscore exactly at word boundaries |
| NamingStrategy.SnakeCaseSplitsWords | src/database/naming-strategy.ts:3-8 | an underscore goes exactly before a capital after a small letter or digit, or after a capital and before a small letter; capitals become small, the rest stays |
| NamingStrategy.SnakeCaseIdempotent | src/database/naming-strategy.ts:3-8 | naming twice is naming once |
| NamingStrategy.SnakeCaseOnlyInsertsUnderscores | src/database/naming-strategy.ts:3-8 | without underscores the result is the lower-cased input |
| NamingStrategy.SnakeCaseOfJoined | src/database/naming-strategy.ts:19 | naming a joined path joins the named parts |
| NamingStrategy.ColumnNameJoinsParts | src/database/naming-strategy.ts:11-20 | a custom name is used as it is, otherwise the named parts are joined |
| NamingStrategy.JoinColumnNameJoinsParts | src/database/naming-strategy.ts:22-27 | a join column is named after its two parts, each named on its own |
| NamingStrategy.JoinTableColumnNameJoinsParts | src/database/naming-strategy.ts:29-35 | named after the table and the column, or the property when no column is named |
| Seeder.PermissionKeyInjective | src/common/constants/permissions.enum.ts:16-24 | different rules have different keys |
| Seeder.PermissionKeyMeans | src/common/constants/permissions.enum.ts:16-24 | a key is the action, a colon and the subject |
| Seeder.SeedRolesList | src/database/seeds/seed-roles-permissions.ts:24-45 | the two system roles and exactly their rules |
| Seeder.Seed.SeedPermissions | src/database/seeds/seed-roles-permissions.ts:47-77 | every listed permission exists and is in the map under its key; only listed ones are added; nothing is written when all exist |
| Seeder.Seed.SeedRoleLinks | src/database/seeds/seed-roles-permissions.ts:100-123 | every listed link of the role exists and only those are added; the missing-permission branch is unreachable |
| Seeder.Seed.SeedRoles | src/database/seeds/seed-roles-permissions.ts:79-125 | every listed role and link exists, nothing else is added or changed |
| Seeder.Seed.SeedBootstrapAdmin | src/database/seeds/seed-roles-permissions.ts:127-174 | the configured account, found regardless of case, exists with the admin role; an existing account keeps its password; no other account is granted anything |
| Seeder.Seed.Run | src/database/seeds/seed-roles-permissions.ts:176-187 | one run seeds everything, changes and deletes nothing, adds only what is listed and the configured admin, and writes nothing when everything is there |
| Seeder.Seed.RunTwice | src/database/seeds/seed-roles-permissions.ts:176-187 | a second run leaves the tables as the first left them |

## Left out

- Isolation below a transaction, and the gaps between the statements of login, register, logout and forgotPassword: each call is one step.
- Concurrent mutating calls in the coherence theorem: it takes one at a time; the staleness bound takes any number.
- ConnectLimit: the handler is modelled as steps on values instead of a class, because its awaits interleave with those of other handlers; keys of other addresses and a limit of 0, which disables the check, are not modelled.
- WsThrottle: event names that collide with the members every JavaScript object inherits are not modelled.
- NamingStrategy: lower-casing is ASCII; non-ASCII letters stay as they are.
- Metrics.MetricsService.TakeSnapshot: its timestamps, and the order of routes with equal counts, are not modelled; the routes are a map.
- User names, descriptions, IP addresses, user agents, access tokens, mail delivery and timing equalisation: no modelled decision depends on them.
- The role lookup of a new user is in the permission model and the email check in the session model; each takes the other's outcome as a parameter of the call.
- Floating-point rounding of rates and averages: exact reals and integers stand in.
- HTTP controllers, guards, DTO validation, serializers, logging, health probes, the Redis adapter's attach and retry logic, configuration parsing and deployment scripts: plumbing.
