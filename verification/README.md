# Job radar: a verified model

A Dafny model of the stateful protocols of the job radar backend, with proofs of what they keep over every run. PostgreSQL tables are sequences and maps, Redis is a set of locks and a store of expiring counters, time is an integer, and SHA-256, case folding and password checks are arbitrary functions handed in as parameters.

| file | models |
|---|---|
| `Text.dfy`, `Normalizer.dfy` | string cleaning and the job candidate |
| `Catalog.dfy`, `Jobs.dfy` | two-level deduplication, hash-guarded update, append-only source records |
| `Fetching.dfy`, `Ingestion.dfy` | retries over a shared list, starting and executing runs, the scheduler's pass |
| `RunProtocol.dfy` | the run and lock protocol as interleaved steps |
| `Accounts.dfy`, `Auth.dfy` | login, lockout, refresh rotation, sessions, one-time codes: the steps, and the code that takes them |
| `AccountRules.dfy` | what each of them reports and writes, row by row |
| `SessionSafety.dfy`, `AccountSafety.dfy` | what holds over every run of those operations |
| `Profiles.dfy`, `Preferences.dfy` | preference validation, and versioning as optimistic concurrency |
| `Limiter.dfy` | the fixed-window limiter over an expiring store |
| `RuleEngine.dfy`, `Notifications.dfy` | matching, and at-most-once delivery behind it |
| `Audit.dfy` | retention with archiving |

How it is built. Each class (`JobRepository`, `IngestionService`, `AuthRepository`, `AuthService`, `PreferenceRepository`, `RateLimiter`, `NotificationService`, `AuditService`) updates its tables step by step as the Python does, and what its methods do is proved equal to a function on table values or to a run of protocol steps. The laws are lemmas about those functions and steps, over all inputs and over all runs. What the environment decides (the outcome of a fetch, a failing write, the row a query picks) is a parameter.

Names. A job is named by its position in creation order, so equal tables have equal rows, order and fields. A user is named by the e-mail address, which is unique and never changes. A refresh token is named by its hash, which is unique. Where a query has no order, the model lets it return any matching row: `FindExisting` picks any, and `PickCode` takes the choice as an argument.

What turned out not to hold without a condition, and the exact condition:

- Mutual exclusion of runs needs every caller to have Redis, no lock expiry, no second delivery of a task, and no execution that dies of something other than an adapter error. `MutualExclusion` proves that it holds over all interleavings exactly in these deployments; each of the four lemmas `WithoutRedis`, `WithExpiry`, `WithRedelivery`, `WithStrayFault` gives the run that breaks it. The API's own ingestion service is built without Redis (app/dependencies/sources.py:16-17), so the deployment as wired is not one of them.
- The lock outlives its holder when the insert of the run row fails (`WithFailingInsert`), and when the release fails or the worker is killed before it (`WithFailingUnlock`); `LockIsExact` adds these two conditions and no more. A run that dies of a database failure is executed again by the task queue (app/workers/tasks/ingestion.py:18-25), which is a second delivery for `MutualExclusion`; `InterruptedRunRecovers` shows that the jobs table does not suffer from it.
- Retention keeps every event exactly when archiving is on and no event is stored more than a day, the shortest retention that can be configured (app/config.py:54), after its creation time (`RetentionConserves`); `StoredLate` is the run that loses an event recorded between the reading and the deletion. Creation time is the start of the storing transaction (app/domain/preferences/models.py:113), so the condition bounds how long such a transaction may stay open.

Where code and documentation disagree, the model follows the code:

- The written requirements on authentication have reuse of a token revoke the whole token family. Every issued token takes a fresh family, so a family is one token; chains go through the session.
- Those on rate limiting ask for an independent limit on auth paths. Both limits count on one key, so the counting results are stated for any mix of limits.
- Those on deduplication list similarity and normalized URLs. The code has two exact keys.
- Those on ingestion have every run end as succeeded, partial or failed. A fault that is not an adapter error leaves the run running.
- Those on notifications stop retrying after a permanent error. `deliver` tries again whenever it is called for a key that is not delivered.

## Model

| member | source | states |
|---|---|---|
| Text.StripIsProjection | app/domain/preferences/schemas.py:16 | stripping yields a string without outer white space, and exactly these strings are left alone |
| Text.StripTakesSpace | app/domain/preferences/schemas.py:16 | what stripping takes away is white space at the two ends, and nothing else |
| Text.StripSqueeze | app/domain/jobs/normalizer.py:21-22 | replacing runs of separators by a space and stripping is joining the words |
| Text.WordsKeep | app/domain/jobs/normalizer.py:32 | splitting and joining loses no character but separators and reorders none |
| Normalizer.CompanyKeysAgree | app/domain/jobs/normalizer.py:21-22 | two company names share a key exactly when their folded alphanumeric words agree |
| Normalizer.NormalizationIsProjection | app/domain/jobs/normalizer.py:29-41 | normalizing a normalized title or company key changes nothing |
| Normalizer.KeysKeepText | app/domain/jobs/normalizer.py:21-32 | a company key is made of a-z, digits and spaces and holds exactly the letters and digits of the folded name; a title keeps all but white space |
| Normalizer.StoredRows | app/domain/jobs/normalizer.py:29-41 | after any batch a row is unchanged or holds title, description, hash and locations of one fetched record that belongs to it; its creator gave it URL and company for good |
| Normalizer.IngestKeepsHashes | app/repositories/jobs.py:54-59 | every stored hash is the hash of the stored description, after any batch |
| Catalog.JobByListing | app/repositories/jobs.py:29-34 | the second lookup finds a job of that URL and company whenever there is one |
| Catalog.MergeKeepsValid | app/repositories/jobs.py:36-71 | an upsert keeps listings distinct and never moves a known external id to another job |
| Catalog.SettleStep | app/repositories/jobs.py:54-59 | the hash-guarded overwrite computes the closed form: the first candidate of the last block of equal hashes |
| Catalog.JobHistory | app/repositories/jobs.py:36-71 | after a batch every row is the closed form of the candidates that resolved to it |
| Catalog.RerunIdempotent | app/repositories/jobs.py:36-71 | ingesting any batch twice leaves the jobs and the lookups as ingesting it once, and creates nothing the second time |
| Catalog.RetryAbsorption | app/domain/jobs/ingestion_service.py:70-90 | failed attempts that delivered prefixes of the final list leave no trace in the jobs table |
| Catalog.CountsAddUp | app/domain/jobs/ingestion_service.py:81-90 | created and updated never overlap and the table grows by exactly created |
| Catalog.CountersMean | app/domain/jobs/ingestion_service.py:84-90 | created counts the candidates that add a job, updated those that alter one; all the others leave the jobs table as it is |
| Catalog.TouchedJobHash | app/repositories/jobs.py:54-59 | a touched job ends with the hash of the last record that resolved to it |
| Jobs.UpsertKeepsDeduplicated | app/repositories/jobs.py:36-71 | one upsert keeps both deduplication keys functional on the stored records |
| Jobs.DedupKeysFunctional | app/repositories/jobs.py:16-53 | over any upserts from any sources, one (source, external id) names one job and no two jobs share URL and company |
| Jobs.FindResolves | app/repositories/jobs.py:16-34 | the job of a record with that source and external id, else the one with that URL and company, else none |
| Jobs.UpsertInFields | app/repositories/jobs.py:36-71 | every field of a created, changed or untouched job, of every other row, and of the appended record |
| Jobs.JobRepository.FindExisting | app/repositories/jobs.py:16-34 | the answer does not depend on which matching rows the two queries return |
| Jobs.JobRepository.Upsert | app/repositories/jobs.py:36-71 | which job the candidate belongs to, which branch was taken, and every field of the jobs and records it leaves |
| Fetching.WithRetries | app/ingestion/base.py:40-48 | the outcome is that of the first attempt not retried, over all records of all attempts so far |
| Fetching.OutcomeUnique | app/ingestion/base.py:40-48 | a provider's script fixes the outcome |
| Fetching.RetriedFetch | app/domain/jobs/ingestion_service.py:70-90 | a retried fetch stores the jobs and the created count of the final list alone |
| Ingestion.RetriedRunStores | app/domain/jobs/ingestion_service.py:70-90 | on the whole store: the same jobs, and one source record per record of every attempt |
| Ingestion.UpsertBatchCatalog | app/domain/jobs/ingestion_service.py:83-87 | a batch on the store is the batch on the catalogue, and appends one record per candidate |
| Ingestion.RecordsAppended | app/repositories/jobs.py:60-69 | one source record per fetched record, in order, with its id, URL, payload and payload hash |
| Ingestion.StartFollowsProtocol | app/domain/jobs/ingestion_service.py:44-52 | an uninterrupted start is the protocol's check, lock and insert steps, also when the insert fails |
| Ingestion.ExecutionFollowsProtocol | app/domain/jobs/ingestion_service.py:77-116 | an uninterrupted execution is the protocol's delivery, finish or fault, and unlock steps, also when the database or the unlock fails |
| Ingestion.EndedAccounts | app/domain/jobs/ingestion_service.py:81-101 | created, updated and duplicate of a finished run add up to what was fetched, and the jobs table grew by created |
| Ingestion.RunEndsInFields | app/domain/jobs/ingestion_service.py:91-116 | status, counters and summary of the finished row for each way of ending, and that nothing is written when the execution dies |
| Ingestion.InterruptedRunRecovers | app/workers/tasks/ingestion.py:18-25 | a run that dies after any number of records and is executed again leaves the jobs of one complete execution, and the created counts of both add up to its own |
| Ingestion.IngestionService.GetActiveRun | app/repositories/sources.py:40-52 | the running run of the source that started last, when there is one |
| Ingestion.IngestionService.StartRun | app/domain/jobs/ingestion_service.py:32-52 | which outcome each case has, and the runs and locks it leaves; a failed insert leaves the lock |
| Ingestion.IngestionService.FinishRun | app/repositories/sources.py:66-90 | exactly this run gets the given status and counters |
| Ingestion.IngestionService.StoreFetched | app/domain/jobs/ingestion_service.py:78-101 | the records before a database failure are stored, and without one the run is finished with their counts |
| Ingestion.IngestionService.ExecuteRun | app/domain/jobs/ingestion_service.py:60-116 | on success all records of all attempts are upserted in order, up to a database failure, and the finished row accounts for them; otherwise no job changes; which rows and locks each way of ending leaves |
| Ingestion.IngestionService.IngestRecords | app/domain/jobs/ingestion_service.py:81-90 | the loop's store and counters are those of the batch |
| Ingestion.IngestionService.ScheduleDueSources | app/processes/scheduler.py:23-39 | every due source that can be started is queued once, up to the first failing insert, under a run of its own, and nothing else is |
| RunProtocol.StepKeepsInv | app/domain/jobs/ingestion_service.py:44-116 | each step of a sound deployment keeps one holder per source, under its lock |
| RunProtocol.MutualExclusion | app/domain/jobs/ingestion_service.py:44-116 | no source ever has two running runs, over every interleaving, if and only if the deployment is sound |
| RunProtocol.LockIsExact | app/domain/jobs/ingestion_service.py:44-116 | the lock is there exactly while one creator, running run or finisher is in flight, if and only if besides no insert and no release of a lock fails |
| RunProtocol.WithoutRedis | app/dependencies/sources.py:16-17 | two callers without Redis reach two running runs |
| RunProtocol.WithExpiry | app/domain/jobs/ingestion_service.py:49 | an expired lock reaches two running runs |
| RunProtocol.WithRedelivery | app/workers/celery_app.py:24-25 | a second worker of one run gives back another run's lock |
| RunProtocol.WithStrayFault | app/domain/jobs/ingestion_service.py:114-116 | an execution that dies of another error leaves its run running without a lock |
| RunProtocol.WithFailingInsert | app/domain/jobs/ingestion_service.py:48-52 | a failed insert leaves a lock nobody holds |
| RunProtocol.WithFailingUnlock | app/domain/jobs/ingestion_service.py:114-116 | a release that fails, or is never reached, leaves a lock nobody holds |
| Accounts.PickCode | app/repositories/auth.py:118-126 | any usable row may be picked, and one is picked whenever there is one |
| SessionSafety.RevokeFamilyKeeps | app/repositories/auth.py:50-55 | exactly the live tokens of the family stop being live; owners, closed sessions, one live token per session and all earlier revocations are kept |
| Auth.AuthRepository.RevokeAuthSession | app/repositories/auth.py:83-94 | revokes the user's open session and its live tokens, or nothing |
| Auth.AuthRepository.AuthSessions | app/repositories/auth.py:75-81 | lists exactly the open sessions of the user, each once |
| Auth.AuthRepository.RevokeOtherAuthSessions | app/repositories/auth.py:96-116 | the loop and the update revoke every other open session and its tokens, and count the sessions |
| SessionSafety.RevokeUserExact | app/repositories/auth.py:132-143 | what stays live or open is exactly what other users have; the invariants and all earlier revocations are kept |
| Auth.AuthService.Register | app/domain/auth/service.py:43-54 | adds the user, pending when verification is on, unless the address is taken |
| Auth.AuthService.Authenticate | app/domain/auth/service.py:71-103 | the order of the checks, the failure counter and lock, and the reset on success |
| Auth.AuthService.IssueTokens | app/domain/auth/service.py:105-126 | one token, in a new session when sessions are managed and none is given; a collision leaves nothing behind |
| Auth.AuthService.Login | app/api/v1/auth.py:108-119 | is the model's login step |
| AccountRules.LoginExact | app/domain/auth/service.py:71-103 | the outcome case by case: a user gets through exactly when known, not locked, with a password the stored hash accepts, an admitted status, and verified if that is on |
| AccountRules.LoginWritesUser | app/domain/auth/service.py:90-102 | a failure counts up and locks from the maximum on, a success clears both, without lockout nothing is written, and no other user is touched |
| AccountRules.LoginIssues | app/domain/auth/service.py:105-126 | one live token with the drawn family and the full lifetime, in a new session exactly when sessions are managed |
| AccountRules.RegisterAdds | app/domain/auth/service.py:43-54 | one user with that hash, pending exactly when verification is on |
| AccountRules.RefreshReports | app/domain/auth/service.py:138-154 | the outcome of a refresh case by case |
| AccountRules.RefreshWrites | app/domain/auth/service.py:138-154 | the family's live tokens die and one new token takes user and session over; nothing else changes |
| AccountRules.LogoutEnds | app/api/v1/auth.py:274-287 | exactly the family's live tokens end, and with sessions managed the session and its tokens |
| AccountRules.RotationTouchesOne | app/domain/auth/service.py:118-126 | with fresh families, over any run, a refresh replaces just its token, and a logout without managed sessions ends just its token |
| AccountRules.RevokeSessionEnds | app/domain/auth/service.py:161-167 | succeeds exactly for an open session of the user, and ends just it and its tokens |
| AccountRules.RevokeOthersEnds | app/domain/auth/service.py:169-176 | ends exactly the other open sessions of the user with their tokens |
| AccountRules.TokensStamped | app/repositories/auth.py:50-143 | whatever token any operation revokes carries its time, and nothing else of a stored token ever changes |
| AccountRules.SessionsStamped | app/repositories/auth.py:83-143 | the same for sessions |
| AccountRules.IssueCodeAdds | app/domain/auth/service.py:178-194 | one unconsumed code of that purpose and lifetime for a known user |
| AccountRules.AcceptsExact | app/repositories/auth.py:118-126 | which codes are accepted, and that exactly one matching, unexpired row is consumed |
| AccountRules.VerifyMarks | app/domain/auth/service.py:196-212 | the user becomes verified and active, and nothing else changes but the code |
| AccountRules.ResetStores | app/domain/auth/service.py:214-229 | the new hash is stored and exactly that user's tokens and sessions end |
| AccountRules.NewPasswordHolds | app/domain/auth/service.py:214-229 | from a reset until the next one no login gets through with a password the new hash refuses |
| Auth.AuthService.Refresh | app/domain/auth/service.py:138-154 | is the model's refresh step |
| Auth.AuthService.Logout | app/api/v1/auth.py:274-287 | is the model's logout step |
| Auth.AuthService.RevokeSession | app/domain/auth/service.py:161-167 | is the model's session revocation |
| Auth.AuthService.RevokeOthers | app/domain/auth/service.py:169-176 | is the model's revocation of the other sessions |
| Auth.AuthService.IssueCode | app/domain/auth/service.py:178-194 | adds an unconsumed code for a known user |
| Auth.AuthService.VerifyEmail | app/domain/auth/service.py:196-212 | consumes an unexpired code and verifies the user, or changes nothing |
| Auth.AuthService.ResetPassword | app/domain/auth/service.py:214-229 | consumes an unexpired code, sets the password and revokes everything of the user, or changes nothing |
| SessionSafety.StepKeeps | app/domain/auth/service.py:43-229 | every operation keeps token owners, closed sessions and one live token per session, and never rewrites a revocation |
| SessionSafety.RunExtends | app/repositories/auth.py:50-143 | over any run rows stay, owners stay, and a revocation time once set never changes |
| SessionSafety.RevokedSessionStaysClosed | app/repositories/auth.py:83-94 | no later call redeems any token of a revoked session |
| SessionSafety.LogoutIsFinal | app/api/v1/auth.py:274-287 | logging out with any token ever issued in a session ends every token of it |
| SessionSafety.RevocationIsFinal | app/repositories/auth.py:83-116 | so does revoking the session, or revoking the others from another one |
| SessionSafety.RefreshExact | app/domain/auth/service.py:138-154 | a refresh gets through exactly for a live, unexpired token of an active user; the token is dead afterwards either way, and the next one is the only live token of an open session of that user |
| SessionSafety.RedeemedInTime | app/domain/auth/service.py:118-125 | a token is redeemed only within its lifetime from the call that issued it |
| SessionSafety.RedeemedOnce | app/domain/auth/service.py:105-154 | each token is redeemed at most once, and none is issued twice, by logins and refreshes together |
| SessionSafety.LiveTokensBounded | app/domain/auth/service.py:105-154 | never more live tokens than logins, never two in one session |
| SessionSafety.ResetCut | app/domain/auth/service.py:214-229 | after a reset every live token of the user descends from a login after it |
| AccountSafety.LockoutBound | app/domain/auth/service.py:71-103 | k failures since the last success reach over at least (k - max) lockout times from the max-th one |
| AccountSafety.LockIsEarned | app/domain/auth/service.py:71-96 | a login is refused as locked exactly when the user failed at least max times since the last success, the last time less than a lock time ago |
| AccountSafety.CodesUsedAtMostIssued | app/domain/auth/service.py:178-229 | verifications and resets are the consumed codes, and never outnumber the issued ones |
| AccountSafety.CodeUsedInTime | app/domain/auth/service.py:196-229 | a success used a code issued to that user for that purpose, within its lifetime |
| AccountSafety.VerificationChain | app/domain/auth/service.py:97-98 | with verification on throughout, a token's user is verified, and a verified user consumed a code |
| Profiles.CleanValuesAccepts | app/domain/preferences/schemas.py:15-22 | a list is accepted exactly when its trimmed values are non-blank and fold to distinct forms |
| Profiles.CleanValuesIdempotent | app/domain/preferences/schemas.py:15-22 | cleaning a clean list returns it |
| Profiles.ProfileRoundTrip | app/domain/preferences/schemas.py:72-107 | validation is a projection onto exactly the valid documents |
| Profiles.ValidateExact | app/domain/preferences/schemas.py:15-103 | every raw document is accepted exactly when it is valid once trimmed, and then as the trimmed document |
| Preferences.CommitConflicts | app/repositories/preferences.py:49-68 | a commit fails exactly when another update of the user committed since the read, and never through the active-row index alone |
| Preferences.StepKeepsInv | app/domain/preferences/service.py:38-47 | each step of any transaction keeps versions and views consistent |
| Preferences.OptimisticVersioning | alembic/versions/20260909_001_preferences.py:46-57 | over every interleaving of both writers, versions are exactly 1..n and the only active row is version n |
| Preferences.StoredConfigsReadBack | app/domain/preferences/v2_service.py:21-34 | every stored configuration re-validates to itself |
| Preferences.StoredAsRequested | app/domain/preferences/service.py:38-47 | over every interleaving a stored version is the trimmed document some update of that user asked for |
| Preferences.HistoryKept | app/repositories/preferences.py:38-68 | no run ever removes a committed version or changes its user, number or configuration |
| Preferences.PreferenceRepository.GetActive | app/repositories/preferences.py:18-27 | the active row is the latest version, and there is one as soon as there is any version |
| Preferences.PreferenceRepository.Update | app/domain/preferences/service.py:32-53 | an update alone always commits the next version, active, with the validated configuration |
| Limiter.LimiterRefinesIdeal | app/observability/rate_limit.py:33-48 | every check on the expiring store answers as a count that never forgets |
| Limiter.AllowedIff | app/observability/rate_limit.py:37-43 | a request passes exactly when fewer than its limit came before it in its bucket, whatever limits those had |
| Limiter.RemainingIsExact | app/observability/rate_limit.py:42-48 | remaining is exactly how many more requests of that limit pass in the bucket |
| Limiter.CapBound | app/observability/rate_limit.py:110-116 | however limits are mixed on one key, at most L of the requests of a bucket whose own limit is at most L pass |
| Limiter.MixedLimitsPass | app/observability/rate_limit.py:110-116 | of n requests of a bucket with limits between low and high, between min(n, low) and min(n, high) pass |
| Limiter.ExactlyLimitPass | app/observability/rate_limit.py:37-43 | of n requests in a bucket with one limit exactly min(n, limit) pass |
| Limiter.SlidingBound | app/observability/rate_limit.py:33-48 | any interval of k windows admits at most (k + 1) * L of a key's requests with a limit up to L, whatever other limits the key's requests carry |
| Limiter.RetryAfterIsLeastWait | app/observability/rate_limit.py:40-41 | waiting retry_after (Retry-After, section 10.2.3 of RFC 9110) is the least wait that reaches the next bucket |
| Limiter.RateLimiter.Incr | app/observability/rate_limit.py:37-39 | counts on the living key and sets its expiry with the first count |
| Limiter.RateLimiter.Check | app/observability/rate_limit.py:33-48 | the result is that of the ideal count over all earlier checks |
| RuleEngine.SkillsConserved | app/matching/rule_engine.py:11-16 | each must-have skill is matched or missing, once, and matched adds only occurring nice-to-have skills |
| RuleEngine.SkillsExact | app/matching/rule_engine.py:9-16 | a skill is matched exactly when it occurs in title and description, missing exactly when a must-have does not |
| RuleEngine.OccursMeans | app/matching/rule_engine.py:9-16 | occurring is being a contiguous part |
| RuleEngine.ScoreShape | app/matching/rule_engine.py:28-47 | the score is at most 70, the sum of its parts unless excluded, and the skills part is full exactly when every skill occurs |
| RuleEngine.WeightsExact | app/matching/rule_engine.py:17-42 | 70 exactly when everything is hit, and which hits each lower score stands for |
| RuleEngine.DecisionExact | app/matching/rule_engine.py:43-47 | rejected exactly when an exclusion occurs, notified exactly when none does and the parts reach the minimum |
| RuleEngine.ExclusionAnywhereRejects | app/matching/rule_engine.py:9-10 | an exclusion in the title alone or the description alone rejects |
| Notifications.DeliverKeeps | app/domain/notifications/service.py:32-49 | a delivery keeps every row in step with the attempts made |
| Notifications.AtMostOnce | app/domain/notifications/service.py:32-49 | over any run a key has one row and at most one successful send; attempts, message id and error agree with it |
| Notifications.LastAttemptShown | app/domain/notifications/service.py:39-46 | over any run a row shows the last attempt of its key: the message id, or the error and whether it is retryable |
| Notifications.DeliveredIsFinal | app/domain/notifications/service.py:37-38 | a delivered row never changes and its key never reaches the provider again |
| Notifications.MatchToSend | app/domain/notifications/service.py:32-38 | matching then delivering reaches the provider exactly when no exclusion occurs, the score suffices, and the key is not delivered |
| Notifications.NotificationService.GetOrCreate | app/repositories/notifications.py:11-22 | returns the key's row, creating it exactly when there is none |
| Notifications.NotificationService.Deliver | app/domain/notifications/service.py:22-49 | is the model's delivery |
| Audit.RetentionConserves | app/domain/audit/service.py:50-86 | no event is lost over any interleaving of recording, retention processes and crashes, if and only if archiving is on and no event is stored more than a day after its creation |
| Audit.DeletedIsArchived | app/repositories/audit.py:57-66 | what a process deletes is already in the archive |
| Audit.SingleProcessExact | app/domain/audit/service.py:50-86 | a process that is alone deletes exactly what it read and archived, whatever is recorded meanwhile, if and only if no event is stored more than a day after its creation |
| Audit.PassResult | app/domain/audit/service.py:50-86 | an uninterrupted pass archives and deletes exactly what it read |
| Audit.AuditService.Before | app/repositories/audit.py:57-61 | lists the events before the cutoff, each once |
| Audit.AuditService.ApplyRetention | app/domain/audit/service.py:50-86 | archives and deletes exactly the old events, reports how many, and is a pass of the retention steps |

## Left out

- HTTP routing, middleware, response envelopes, error mapping, telemetry, roles and access tokens: thin wrappers over libraries.
- Provider HTTP and JSON handling: a provider is any script of attempts; e-mail and Telegram sending is any outcome.
- Ids are drawn by the caller: a run id is fresh; token hashes and session ids may collide and then fail as the unique columns do. Random job ids become positions in creation order.
- Commits that take effect and are then reported as failed: a write that fails is one that left nothing.
- A queue that refuses a task the scheduler hands it.
- Source deletion, user deletion and their cascades, so a running run never disappears.
- SessionSafety.StepKeeps: concurrent refreshes of one token are not modelled; each operation is one step, and its several readings of the clock are one instant.
- Database row locks in `Preferences`: a blocked deactivation is modelled as running at once; either way that transaction fails on the version.
- Profiles.ProfileRoundTrip: which message a rejected document gets is not modelled.
- RuleEngine.ScoreShape: the skills share is floored on integers, where the code floors a float quotient.
- Limiter.LimiterRefinesIdeal: INCR and EXPIRE are one step, and the server's clock is the caller's.
- Audit.AuditService.Before: the order of the listed events is left open.
- Crashes between a provider's send and the commit that records it.
- The scheduler's cadence: nothing writes the last success of a source.
- Job listing, feedback, and the search, export and paging of audit events: they only filter, order and cut tables, and nothing modelled here depends on them.
