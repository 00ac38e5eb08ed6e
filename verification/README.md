# Casino bot: verified model

A Dafny model of the stateful core of the casino bot, and proofs about it: the token ledger and
its idempotent game rounds, the game engine, the two retention planners, the two rate limiters,
the admin login lockout and sessions, the billing webhooks, and the token amount printer and
parser. `dafny verify dfyconfig.toml` checks everything.

## How it is organised

Code that changes state step by step is a class whose methods follow the source statement by
statement. Each method's `ensures` equates the new state with a function of the old one
(`Execute`, `Step`, `Next`, `Process`, ...), and the theorems are about those functions over whole
runs. Lemmas with names like `RoundMeans` or `RefusedIff` say what one call does, in the terms of the
stored data and in numbers, without the functions that compute it.

| module | source | main results |
|---|---|---|
| `Ledger`, `Compliance`, `GameRounds`, `RoundOutcomes` | models, compliance registry, economy and game round services | the database as one client changes it, and what each call means for balances, rows and entries |
| `RoundProtocol` | game round service | the same calls as interleaved steps of any number of clients: idempotency, stability, rounds against ledger entries |
| `RoundConservation` | game round and economy services | exactly when balances equal ledger sums in every state of a concurrent run |
| `RoundExecution` | game round service | the sequential call is a run of the protocol with one client |
| `Games`, `Engine`, `EngineLaws`, `EngineDecisions` | games, engine, metrics | exact odds, engine gates imply the ledger's check, the refusals as a table, cooldown over runs, counters against the table |
| `Selection`, `BackupRetention`, `EvidenceRetention` | retention scripts | incremental pruning equals batch pruning, planner loops compute the policy |
| `TelegramRateLimit`, `HttpRateLimit` | rate limiters | refinement of a recounting limiter, tight bound for overlapping requests, exact limit for serial ones |
| `LoginLockout`, `AdminSessions` | admin security service | attempt bound and one live session per login, each with its exact condition |
| `Billing`, `BillingEffects`, `BillingLaws` | billing service | what each event writes, unique subscriptions, exactly when repeated replays come to an end, deliveries that nothing picks up again |
| `TokenAmounts`, `TokenParsing` | token amounts | exactly when printing is exact, injectivity, and the round trip, for every scale; what the parser accepts |

## Assumptions

- The clock never goes back within a run, and settings are fixed during a run.
- Each user has one token account, as `create_user` makes it (src/casino_bot/services/economy_service.py:31-33);
  the table itself has no unique constraint (src/casino_bot/db/models.py:143-151).
- In `RoundProtocol` an account row is locked from the adjustment to the end of the transaction. A session
  keeps the balance of an account object it has already loaded when the locking query returns the same
  row, which is SQLAlchemy's default for queries that do not ask for `populate_existing`. The engine's
  balance gate loads the object at src/casino_bot/games/service.py:91, before the locking query at
  src/casino_bot/services/economy_service.py:76-80. If the locking query did refresh it, the loads would not
  matter and `ConservedWithoutLoads` would be the whole story.
- Isolation is READ COMMITTED. An insert waits while another transaction holds an uncommitted row
  of the same key and conflicts with a committed one, as PostgreSQL's unique indexes behave.
  Whether foreign keys are enforced is a parameter.
- uuid4 values are numbered in order of creation, and a refresh-token hash is injective.
- `.first()` without an ordering takes the first row in table order. The two laws of the
  subscription upsert, `UpsertUniqueIff` and `ReprocessChangesNothing`, hold whichever matching row it takes.
- Floats are idealised: clock readings, draws and cumulative weights are reals. Draws lie in [0, 1).
- A login-lock row's default `first_attempt_at` is the time it is created.
- The HTTP limit of one key is the same for all its requests. The calendar bucketings of the backup
  planner are arbitrary functions of the modification time; only `OnePerDay` uses that a day lies
  within one week and one month.
- Billing times are whole seconds, as providers send them, up to the last second a datetime holds.
- Provider adapters parse deterministically, and an empty payload to an event without an id. The
  payout volume counter is kept in units instead of float tokens.

## Where the code does not do what is said of it

- A report whose name was used before replaces the archived one, so a FAIL report can be lost, although
  the header of scripts/ops/evidence_retention.sh (lines 9-15) says FAIL reports are never deleted:
  `ReusedNameLosesReport`, and exactly when an apply loses something, `ApplyLosslessIff`.
- docs/ops/backup-retention-policy.md (lines 37-41) says that one artifact of each encryption tool may be
  kept for the same day. The planner never keeps two artifacts of one day: `OnePerDay`.
- The lockout bounds failed logins per window only if the lockout is longer than the window:
  `LockoutBoundIff`, with a run that breaks the bound for every shorter lockout.
- A balance can lose an update: a credit that commits between the engine's balance gate and the lock of
  the same play is overwritten by the play, so the balance no longer is the sum of the ledger.
  `OverlappingCreditIsLost` for every state and `CreditIsLost` from the empty database; `ConservedIff`
  says exactly which runs conserve.
- In serial runs, rounds that end `failed` are never counted, although the metrics code has a branch for
  them (src/casino_bot/core/metrics.py:84-85): the exception passes `run_game_detailed` before the
  counters. `FailedCounterAgreesIff`, `FaultIsNotCounted`. (When calls overlap, the branch is reached by a
  client that is handed the failed row another client has just written.)
- docs/runbooks/webhook-dead-letter.md tells operators to look for failed and dead-letter events (lines 14-16)
  and to recover with the failed-event batch (line 30). A delivery whose processing raises is stored as
  `received` with the error code `processing_error` (exactly when: `UnprocessedIff`). That row is in neither
  list until its attempts reach the dead-letter threshold, and whatever deliveries, batches, cleanups and new
  users follow, it stays as it is and its redeliveries are answered as idempotent: `ReceivedStays`. Only a
  replay or an undelete of that one event by its id reaches it. `OverflowStaysReceived` is a delivery that
  ends this way: a period end too late to add the grace period to.
- A provider event with an empty subscription id is looked up as if it had none but stored as an
  empty text. A second such row violates the unique key; the replay raises, nothing is stored, and
  each later batch stops at the same row, as it does at a failed row whose period end overflows:
  `UpsertUniqueIff`, `StuckForever`, `RepeatFinishesIff`, `EmptyIdStallsReplay`.
- The repository's README.md says that reuse of a rotated refresh token is rejected (line 166) and that
  logout-all revokes all active sessions (line 168). A refresh checks its session and writes later without
  a lock: two overlapping refreshes of one token leave two live sessions (`DoubleRefreshBranches`), and a
  revoke-all between the two halves misses the session about to be made (`RevokeAllMissesRefresh`).
  `OverlapKeepsForestIff` says exactly which runs keep one live session per login.

## Model

| member | source | states |
|---|---|---|
| Compliance.ValidateOperation | src/casino_bot/compliance/registry.py:83-87 | the run of checks succeeds exactly when no registered check is violated, and otherwise raises the first violated one in registration order |
| Compliance.AdjustmentAllowedIff | src/casino_bot/compliance/registry.py:21-80 | from any balance, an adjustment passes exactly when a debit leaves no negative balance and a non-zero change meets no pending transfer or cash-out; a credit needs no balance |
| Compliance.AdjustmentRaises | src/casino_bot/compliance/registry.py:21-87 | the violation a refused adjustment raises: the balance first, then a pending cash-out, then a pending transfer |
| Compliance.TransfersAndCashOutNeverAllowed | src/casino_bot/compliance/registry.py:54-63 | transfers and cash-outs are refused in every context |
| Ledger.MatchedJoin | src/casino_bot/db/models.py:156-208 | two consistent sets of rounds and ledger entries with disjoint keys and ids stay consistent when put together, which is what a commit does |
| Ledger.EntryIsUnique | src/casino_bot/db/models.py:156-165 | a round counted at most once in the ledger has at most one ledger position |
| GameRounds.Store.CreateUser | src/casino_bot/services/economy_service.py:14-44 | a new user and an empty account, and nothing else |
| GameRounds.Store.AdjustUserTokens | src/casino_bot/services/economy_service.py:47-118 | balance and ledger change together by the same delta or not at all; unknown users and violations are reported, the missing account of a known user is created either way |
| GameRounds.Store.FindRound | src/casino_bot/services/game_round_service.py:49-59 | the first row of the key, or none |
| GameRounds.Store.ExecuteGameRound | src/casino_bot/services/game_round_service.py:27-205 | one call against the database for every bet, fault and outcome: replay, bad bet, integrity failure, committed, rejected, or an exception whose transaction is undone and leaves a failed row |
| GameRounds.Store.Rollback | src/casino_bot/services/game_round_service.py:174-175 | users, accounts, ledger and rounds are as before the transaction; drawn ids stay used |
| GameRounds.Store.RecordFailure | src/casino_bot/services/game_round_service.py:174-205 | a failed row with payout zero in a transaction of its own, unless it cannot be written |
| RoundOutcomes.AdjustmentMeans | src/casino_bot/services/economy_service.py:67-118 | a known user's adjustment passes exactly when a debit is covered and nothing is pending against a change; it then moves the balance by the delta, reports the new balance and writes one entry, else it at most creates the account |
| RoundOutcomes.RoundIsRefused | src/casino_bot/services/game_round_service.py:49-75 | a repeated key returns a row of that key and a bet outside 1 to 10000 is refused, both without effect |
| RoundOutcomes.RoundMeans | src/casino_bot/services/game_round_service.py:77-154 | a new fault-free round of a known user is committed with its payout, or the debit of its stake, when the balance covers it and rejected with payout zero otherwise; only a committed one moves a balance, the user's, and has an entry |
| RoundOutcomes.RoundFails | src/casino_bot/services/game_round_service.py:155-205 | a fault or an unknown user moves no balance and books nothing, and leaves exactly one failed row unless that cannot be written |
| RoundProtocol.StepInv | src/casino_bot/services/game_round_service.py:81-205 | each step of any client (read, insert or conflict, adjust, set status, exception, record failure, poll, load an account, commit, rollback, admin adjustment) keeps the invariant that ties pending writes of all clients to the committed database |
| RoundProtocol.RoundsMatchLedger | src/casino_bot/services/game_round_service.py:102-154 | in every state of every run of any number of clients, however stale the balances they loaded, committed rounds and game-round entries correspond one to one with equal user, game and amount, rejected and failed rounds pay nothing and have no entry, and no balance is negative |
| RoundProtocol.RoundsAreIdempotent | src/casino_bot/services/game_round_service.py:49-59 | in every state of every run a key has at most one committed row and that row at most one ledger entry, and all calls for the key that returned in committed transactions were given that same row |
| RoundProtocol.CommittedIsForever | src/casino_bot/db/models.py:196-202 | committed rounds, ledger entries and confirmed results are never changed or removed later in a run |
| RoundProtocol.MergedOrderly | src/casino_bot/services/game_round_service.py:81-154 | committing a finished transaction keeps rounds and ledger in correspondence and balances non-negative |
| RoundProtocol.MergedOther | src/casino_bot/services/economy_service.py:76-98 | a commit leaves the pending work of every client with other keys and other locked accounts valid |
| RoundProtocol.LostRaceFindsWinner | src/casino_bot/services/game_round_service.py:155-173 | when users exist before they play, a client whose insert conflicted finds a committed row of its key at its first poll, in every run |
| RoundProtocol.PollReturnsWinner | src/casino_bot/services/game_round_service.py:155-173 | in every such run that poll returns the committed row to the caller |
| RoundProtocol.UndoneLeavesNothing | src/casino_bot/services/game_round_service.py:155-175 | after a rollback, an exception or a conflicting insert the client has no pending row, entry, balance, lock or result and the tables are as before |
| RoundConservation.CommitBalancedIff | src/casino_bot/services/economy_service.py:95-106 | a commit keeps every balance equal to its ledger sum exactly when it writes no balance computed from a loaded one that is no longer the committed one |
| RoundConservation.ConservedIff | src/casino_bot/services/economy_service.py:67-118 | all states of a run of any number of clients are consistent (balances equal ledger sums and are not negative, rounds and entries correspond one to one) if and only if no step commits a transaction that wrote a stale balance |
| RoundConservation.StepFresh | src/casino_bot/services/economy_service.py:76-80 | a balance that is current when its account is locked stays current until the transaction ends, whatever other clients do |
| RoundConservation.LedgerConserved | src/casino_bot/services/economy_service.py:67-118 | a run in which no adjustment locks an account that its session loaded and another transaction has changed since keeps every state consistent |
| RoundConservation.ConservedWithoutLoads | src/casino_bot/services/game_round_service.py:102-109 | every run of rounds and admin adjustments that load no account before locking it keeps every state consistent, including after an exception at any point |
| RoundConservation.OverlappingCreditIsLost | src/casino_bot/games/service.py:90-101 | from every consistent state with two idle clients, a credit committed between a play's balance gate and its lock makes the database inconsistent once the play commits |
| RoundConservation.CreditIsLost | src/casino_bot/games/service.py:90-101 | such a run from the empty database |
| RoundExecution.ExecuteIsARun | src/casino_bot/services/game_round_service.py:27-205 | the sequential call has exactly the effect and result of some run of the concurrent protocol with a single client, for every fault |
| RoundExecution.ExecuteConsistent | src/casino_bot/services/game_round_service.py:81-205 | every sequential call keeps rounds, ledger and balances consistent, including after an exception at any point of the transaction |
| RoundExecution.AdminIsAdjust | src/casino_bot/services/economy_service.py:67-118 | an admin adjustment run as protocol steps by one client is the sequential adjustment |
| Games.SelectTier | src/casino_bot/games/bonus_wheel.py:65-75 | for any positive weights and any draw in [0, 1) the loop returns a tier whose half-open cumulative interval contains the draw; the default last tier is never needed |
| Games.HitIsUnique | src/casino_bot/games/bonus_wheel.py:70-75 | no draw falls into two tiers |
| Games.SelectedHits | src/casino_bot/games/bonus_wheel.py:65-75 | the selection as a function of the draw lands in the draw's interval |
| Games.OddsAreExact | src/casino_bot/games/bonus_wheel.py:65-75 | of total_w equally spaced draws, at any offset, exactly w_i select tier i |
| Games.HouseEdge | src/casino_bot/games/bonus_wheel.py:19-36 | the 100 equally spaced draws of the shipped table pay exactly -10.5 stakes, 16.5 units less for an odd stake, hence a loss for every stake of at least one unit |
| Games.WheelOutcome | src/casino_bot/games/bonus_wheel.py:58-91 | outcome and payout of a spin are those of the tier the draw falls into |
| Games.Spin | src/casino_bot/games/bonus_wheel.py:27-36 | a spin pays between minus the stake and five halves of it, has one of four labels, and is a bust exactly for draws below 0.55 |
| Games.SpinPays | src/casino_bot/games/bonus_wheel.py:19-91 | name and payout of a spin in numbers: bust and minus the stake below 0.55, bronze and half of it below 0.80, silver and the stake below 0.92, else gold and five halves |
| Games.FlipIsEven | src/casino_bot/games/coin_flip.py:31-46 | of any even number of equally spaced draws exactly half win, and together they pay nothing |
| Engine.GameEngine.LastCommittedAt | src/casino_bot/games/service.py:106-117 | the latest commit time among the user's committed rounds of the game, none if there are none |
| Engine.GameEngine.DrawOutcome | src/casino_bot/games/coin_flip.py:31-46 | the outcome of either game from one draw |
| Engine.GameEngine.RunGameInner | src/casino_bot/games/service.py:51-164 | the engine's gates in their order, each with its refusal code and no effect, then replay or execution |
| Engine.GameEngine.RunGameDetailed | src/casino_bot/games/service.py:167-224 | the same, with the counters that go with each kind of answer |
| EngineLaws.DrawDecides | src/casino_bot/games/coin_flip.py:31-46 | a coin_flip draw wins the stake below 0.5 and loses it otherwise, a bonus_wheel draw pays as the wheel does |
| EngineDecisions.RefusedIff | src/casino_bot/games/service.py:62-137 | a play is refused, without effect, exactly with the first code that applies of a table written in terms of the bet, the limits, the balance and the user's committed rounds; a stored key skips balance and cooldown but not the bet limits |
| EngineDecisions.RefusalsCounted | src/casino_bot/core/metrics.py:55-59 | after every serial run each refusal has been counted once under its game and code, and each answered play has one duration |
| EngineDecisions.OutcomesCounted | src/casino_bot/core/metrics.py:41-47 | after every serial run the counters show, for each game, how many committed rounds had each of the six outcomes and how many rounds were rejected |
| EngineLaws.PassedGatesCommit | src/casino_bot/games/service.py:62-164 | in any consistent database a fault-free fresh round that passes the gates is of one of the two games and ends committed at the given time, never rejected, with the stake, with the outcome and payout of its draw in numbers, leaves a non-negative balance, and adds exactly its row and its ledger entry |
| EngineLaws.ReplayChangesNothing | src/casino_bot/games/service.py:78-88 | one repeated key with an allowed bet on an enabled game gets the old row and changes nothing stored; of the metrics only the duration observations change |
| EngineLaws.ReportedIsStored | src/casino_bot/games/service.py:154-164 | whatever round a play reports is in the table under the play's key |
| EngineLaws.ReplaysReportFirstRound | src/casino_bot/games/service.py:78-88 | once a key has a row, every later play of that key with an allowed bet, after any further plays, faults, users and credits, reports that same row and changes nothing stored and no counter, whatever the balance, cooldown or fault |
| EngineLaws.WaitIsExact | src/casino_bot/games/service.py:104-126 | if no round commits in between, a retry after the reported seconds is not refused for the cooldown and a retry one second earlier is |
| EngineLaws.PlayAppends | src/casino_bot/games/service.py:154-164 | a play appends at most one row, after passing the gates, reports it unless it failed, and stamps a committed row with the commit time |
| EngineLaws.SerialRunConsistent | src/casino_bot/games/service.py:51-164 | every serial run of plays with any faults, new users and credits keeps balances, ledger and rounds consistent |
| EngineLaws.CooldownKept | src/casino_bot/games/service.py:104-126 | over every serial run the committed rounds of one user and game are at least one cooldown apart |
| EngineLaws.CooldownBound | src/casino_bot/games/service.py:104-126 | so any stretch of a given length holds at most length / cooldown + 1 of them |
| EngineLaws.CountersAgree | src/casino_bot/core/metrics.py:62-85 | after every serial run the stake counter times the scale is the sum of committed bets, the payout counter the sum of positive payouts, and the counters of committed and rejected rounds, by game and outcome, are row counts, while failed rounds are not counted; replays and refusals never disturb this |
| EngineLaws.FailedRowIff | src/casino_bot/services/game_round_service.py:174-205 | in any consistent database a play leaves a failed row exactly when it passes every gate of the engine and the round service, then meets a fault, and its failed row can be written |
| EngineLaws.FailedCounterAgreesIff | src/casino_bot/core/metrics.py:84-85 | over any serial run the counters of failed rounds agree with the table exactly when no play of it meets that condition in the state it starts from |
| EngineLaws.FaultIsNotCounted | src/casino_bot/games/service.py:195-202 | a concrete run that leaves one failed row and all counters empty |
| Selection.SelectionRepresents | scripts/ops/backup_retention.sh:124-137 | the selected files alone already put as many distinct buckets ahead of any file as all files do, up to n |
| Selection.SelectIgnoresRejected | scripts/ops/backup_retention.sh:124-137 | discarding any files that were not selected does not change the selection |
| Selection.SelectSize | scripts/ops/backup_retention.sh:136-137 | at most n files are selected |
| Selection.SortedListing | scripts/ops/backup_retention.sh:119-120 | sorting a listing loses nothing and orders it from the latest modification time to the earliest, at equal times in listing order |
| BackupRetention.CollectWinners | scripts/ops/backup_retention.sh:124-137 | a bucket loop adds exactly the paths of the files that are first in their bucket with fewer than n distinct buckets before them |
| BackupRetention.ScanBuckets | scripts/ops/backup_retention.sh:125-131 | the seen list holds the distinct buckets in order of appearance and each winner is the first file of its bucket |
| BackupRetention.Plan | scripts/ops/backup_retention.sh:119-169 | KEEP is the union of the daily, weekly and monthly selections, DELETE is the rest, nothing is lost or listed twice, both newest first, at most daily + weekly + monthly files are kept, and the latest file is kept whenever any is |
| BackupRetention.KeptIff | scripts/ops/backup_retention.sh:119-160 | in modification times: a file is kept exactly when for days, weeks or months it is the latest of its bucket and the later files lie in fewer than the kept number of buckets |
| BackupRetention.LastBucketsKept | scripts/ops/backup_retention.sh:124-160 | so for bucket numbers that grow with time a selection is the latest file of each of the last n buckets that have files |
| BackupRetention.NewestIsKept | scripts/ops/backup_retention.sh:119-160 | the latest file is kept unless all three numbers are zero |
| BackupRetention.OnePerDay | scripts/ops/backup_retention.sh:124-160 | two artifacts of one day are never both kept |
| BackupRetention.KeepAbsorbsPrune | scripts/ops/backup_retention.sh:119-169 | pruning before more files arrive loses nothing that a later prune would have kept |
| BackupRetention.KeepIdempotent | scripts/ops/backup_retention.sh:119-169 | a second prune keeps everything the first one kept |
| BackupRetention.IncrementalEqualsBatch | scripts/ops/backup_retention.sh:119-197 | a history of arrivals and prunes in any order that ends with a prune leaves exactly what one prune of every file ever seen leaves, for all three keep values |
| BackupRetention.Directory.DeleteOne | scripts/ops/backup_retention.sh:188-194 | one artifact and those of its two sidecars that exist are removed and counted |
| BackupRetention.Directory.DeleteAll | scripts/ops/backup_retention.sh:183-197 | removes exactly the listed artifacts with their sidecars, keeps the sidecars of all others, and counts the artifacts and sidecars that were there |
| BackupRetention.Directory.Apply | scripts/ops/backup_retention.sh:98-197 | after an apply the directory holds what the policy keeps, a sidecar is gone exactly when its artifact is, the reported count is the number of files lost, the latest artifact is still there, and an apply to a directory that needs no pruning removes no file |
| EvidenceRetention.PlanReports | scripts/ops/evidence_retention.sh:108-126 | DELETE is every PASS report with at least KEEP_LAST later PASS reports, never the latest one, and ARCHIVE every report whose result is not PASS |
| EvidenceRetention.KeptIff | scripts/ops/evidence_retention.sh:108-116 | a report is kept exactly when it is a PASS report with fewer than n later PASS reports, in modification times |
| EvidenceRetention.SliceIsNewest | scripts/ops/evidence_retention.sh:114-116 | cutting the sorted PASS list at n separates the newest n from the rest |
| EvidenceRetention.Partition | scripts/ops/evidence_retention.sh:111-112 | PASS and non-PASS reports, each in the sorted order |
| EvidenceRetention.ReportStore.Apply | scripts/ops/evidence_retention.sh:81-158 | the directory afterwards holds the newest KEEP_LAST PASS reports, the latest among them, the archive gains every report that is not PASS, unreadable ones included, and both counts are right |
| EvidenceRetention.ReportStore.MoveReports | scripts/ops/evidence_retention.sh:151-156 | moving reports one by one puts all of them in the archive and replaces archived reports of the same names |
| EvidenceRetention.RunIsSound | scripts/ops/evidence_retention.sh:144-156 | over any history of writes and applies without reused names no non-PASS report and no archived report is ever lost, and the newest n PASS reports ever written are still on top |
| EvidenceRetention.AppliedHistory | scripts/ops/evidence_retention.sh:108-156 | right after an apply the top level holds exactly the newest n PASS reports ever written, and every non-PASS report ever written is archived |
| EvidenceRetention.SecondApplyIsNoOp | scripts/ops/evidence_retention.sh:108-156 | a second apply changes neither directory |
| EvidenceRetention.ApplyLosslessIff | scripts/ops/evidence_retention.sh:151-156 | whatever the names, an apply loses no archived or non-PASS report exactly when none it moves has the name of a different archived report |
| EvidenceRetention.ReusedNameLosesReport | scripts/ops/evidence_retention.sh:12-15 | two FAIL reports of one name, each applied: the first is gone |
| TelegramRateLimit.Limiter.Prune | src/casino_bot/telegram_bot/rate_limit.py:26-28 | drops the stale front of one user's deque and touches no other |
| TelegramRateLimit.Limiter.Allow | src/casino_bot/telegram_bot/rate_limit.py:31-48 | answer and deques after one call, with the limit off, on, or reached |
| TelegramRateLimit.RefinesNaive | src/casino_bot/telegram_bot/rate_limit.py:31-48 | for calls in time order every answer equals recounting all previously accepted calls of the user at or after now - window, and each deque is sorted and the tail of that history |
| TelegramRateLimit.WindowBound | src/casino_bot/telegram_bot/rate_limit.py:43-48 | no closed interval of one window's length ever holds more than max_events accepted calls of one user |
| TelegramRateLimit.UsersAreIndependent | src/casino_bot/telegram_bot/rate_limit.py:31-48 | a user's answers and deque are those of a run in which nobody else calls |
| HttpRateLimit.Middleware.Arrive | src/casino_bot/core/security_middleware.py:63-76 | before the await: the key's queue is pruned, the request admitted exactly when fewer than limit entries remain, other keys untouched |
| HttpRateLimit.Middleware.Respond | src/casino_bot/core/security_middleware.py:78-85 | after the await: the arrival time is recorded, for logins only after a 401, and the remaining allowance is never negative |
| HttpRateLimit.StepBound | src/casino_bot/core/security_middleware.py:57-85 | each arrival, response or failure keeps the queue equal to the recorded requests that are not stale, in whatever order they were recorded, and keeps the bound |
| HttpRateLimit.OverlapBound | src/casino_bot/core/security_middleware.py:57-85 | with at most k requests of a key in flight, at most limit - 1 + k of those admitted in any closed 60-second window are recorded (none if limit <= 0) |
| HttpRateLimit.OverlapBoundIsTight | src/casino_bot/core/security_middleware.py:63-81 | for every positive limit and k some run reaches that number |
| HttpRateLimit.RecordedIff | src/casino_bot/core/security_middleware.py:78-81 | in every run a request is recorded exactly when it was answered, for a login with 401 |
| HttpRateLimit.AdmittedIff | src/casino_bot/core/security_middleware.py:63-76 | with the queue in order, a request is admitted exactly when fewer than limit recorded requests of its key started in the last 60 seconds |
| HttpRateLimit.SerialLimitIsExact | src/casino_bot/core/security_middleware.py:57-85 | so the limit is exact in every run whose requests do not overlap |
| LoginLockout.LockTable.RecordLoginFailure | src/casino_bot/admin/security_service.py:64-102 | the row of this identity and address after one more failure: restarted outside the window, counted inside it, locked from the maximum on |
| LoginLockout.LockTable.ClearLoginFailures | src/casino_bot/admin/security_service.py:105-111 | every row of the identity is reset, its two times at clock readings of their own, every other row kept |
| LoginLockout.LockTable.PerformAdminLogin | src/casino_bot/admin/security_service.py:147-195 | blocked without a trace under an active lock of the address or of all addresses, else refused and recorded, or logged in and cleared |
| LoginLockout.AttemptMeans | src/casino_bot/admin/security_service.py:31-61 | an attempt is blocked exactly when the row of its own identity for its address (a missing one is unknown) or for all addresses is locked beyond the check; otherwise it logs in or is refused by its credentials |
| LoginLockout.AttemptWrites | src/casino_bot/admin/security_service.py:147-195 | a blocked attempt writes nothing, a refused one only the row of its identity and address, a login empties and unlocks all rows of its identity and no other |
| LoginLockout.FailureMeans | src/casino_bot/admin/security_service.py:79-96 | a failure is counted if the count started within the window and starts a new count otherwise, and locks the row for one lockout from the maximum on |
| LoginLockout.LocksAtMaximum | src/casino_bot/admin/security_service.py:79-111 | a client that fails n <= max times at any times within one window is refused each time and blocked afterwards exactly if n is the maximum, until one lockout after its last failure |
| LoginLockout.RunInvariant | src/casino_bot/admin/security_service.py:79-111 | over every serial run with lockout > window the row's counter and times account for all failures of the interval |
| LoginLockout.LockoutBound | src/casino_bot/admin/security_service.py:79-111 | with lockout > window, an interval of one window's length without a login of the identity holds at most 2 * max - 1 failed verifications for one identity and address |
| LoginLockout.BoundFailsForShortLockout | src/casino_bot/admin/security_service.py:95-96 | for every lockout <= window a serial run with 2 * max failures in one window |
| LoginLockout.LockoutBoundIff | src/casino_bot/admin/security_service.py:79-111 | the bound holds of all serial runs exactly when lockout > window (or the window is negative) |
| LoginLockout.LockStands | src/casino_bot/admin/security_service.py:31-61 | until a lock expires every attempt from its identity and address is blocked and its row unchanged, unless the identity logs in from elsewhere |
| AdminSessions.SessionTable.Create | src/casino_bot/admin/security_service.py:114-144 | appends one session with its predecessor and a token that names it |
| AdminSessions.SessionTable.LoginSession | src/casino_bot/admin/security_service.py:177-195 | a login starts a new chain |
| AdminSessions.SessionTable.RefreshSession | src/casino_bot/admin/security_service.py:198-261 | refused without effect, or the presented session is revoked and its successor appended |
| AdminSessions.SessionTable.RevokeSession | src/casino_bot/admin/security_service.py:264-283 | by token or by id, the token taking precedence; nothing without either |
| AdminSessions.SessionTable.RevokeAllSessions | src/casino_bot/admin/security_service.py:286-310 | revokes every live session of the user and no other, and counts them |
| AdminSessions.RefusalIff | src/casino_bot/admin/security_service.py:198-224 | a refresh token is accepted exactly if it decodes, is the one its session was issued with, and the session is neither revoked nor expired; which of the two refusals it gets otherwise |
| AdminSessions.LoginMeans | src/casino_bot/admin/security_service.py:114-144 | a login adds one session of the user and answers with its token, which works until it expires |
| AdminSessions.RefreshMeans | src/casino_bot/admin/security_service.py:227-261 | a refused token or an inactive user changes nothing; otherwise exactly the token's session is revoked and one session of the same user added, whose token is the answer |
| AdminSessions.LogoutMeans | src/casino_bot/admin/security_service.py:264-283 | a logout by an accepted token revokes exactly its session, answers one, and the token is refused from then on; otherwise nothing changes |
| AdminSessions.LogoutByIdMeans | src/casino_bot/admin/security_service.py:264-283 | the same by session id for a live session; nothing for any other |
| AdminSessions.StepKeepsForest | src/casino_bot/admin/security_service.py:198-310 | every whole operation keeps the forest: each predecessor is older, of the same user, revoked, and has one successor; existing rows are at most stamped, and a revocation never changes |
| AdminSessions.OneLiveSessionPerLogin | src/casino_bot/admin/security_service.py:114-310 | in every state of every serial run a session with a successor is revoked, and a login's chain has at most one unrevoked session, its last |
| AdminSessions.ChainIsLinear | src/casino_bot/admin/security_service.py:227-261 | login and depth determine the session: chains never branch |
| AdminSessions.RefusedForever | src/casino_bot/admin/security_service.py:214-223 | a token once refused as revoked or expired is refused in every later state |
| AdminSessions.RotationHandsOver | src/casino_bot/admin/security_service.py:227-261 | after a rotation the old token is refused at once, the new one works until it expires and is the next of the same chain |
| AdminSessions.RevokeAllEndsSessions | src/casino_bot/admin/security_service.py:286-310 | afterwards no session of the user is live, exactly the user's live sessions were revoked and all other rows are untouched, and the reported count is the number of those sessions |
| AdminSessions.RotationKeepsForestIff | src/casino_bot/admin/security_service.py:227-261 | the writing half of a refresh, whenever it comes, keeps the forest exactly when its session has no successor yet |
| AdminSessions.OverlapKeepsForestIff | src/casino_bot/admin/security_service.py:198-310 | with refreshes split into check and write and any other operations between, every state of a run is a forest if and only if no refresh is written for a session replaced since it was checked |
| AdminSessions.DoubleRefreshBranches | src/casino_bot/admin/security_service.py:198-261 | from every forest, two refreshes of one usable token that are both checked before either is written leave two live sessions with the same predecessor |
| AdminSessions.RevokeAllMissesRefresh | src/casino_bot/admin/security_service.py:227-310 | a revoke-all between the two halves of a refresh leaves exactly the refreshed session live |
| AdminSessions.OverlapAfterLogin | src/casino_bot/admin/security_service.py:198-261 | the smallest such run: one login and two overlapping refreshes |
| Billing.Service.FindUser | src/casino_bot/services/billing_service.py:123-134 | the hinted user if it exists, else the first with the customer id |
| Billing.Service.FindSubscription | src/casino_bot/services/billing_service.py:140-159 | the row of the subscription id, else the user's row of the customer id, else none |
| Billing.Service.UpsertSubscription | src/casino_bot/services/billing_service.py:137-190 | one row takes all of the event's fields and keeps its plan if the event has none; the table is unchanged when the unique key would break or the entitlement's date overflows |
| Billing.UpsertUniqueIff | src/casino_bot/services/billing_service.py:137-181 | whichever matching row the lookups take, the upsert keeps (provider, subscription id) unique exactly unless another row already holds the event's id, which only happens for an empty id |
| Billing.ReprocessChangesNothing | src/casino_bot/services/billing_service.py:137-190 | re-processing an event with a subscription id finds the same row and changes only its updated_at and its time-dependent entitlement |
| BillingEffects.UserMeans | src/casino_bot/services/billing_service.py:123-134 | the hinted user if it exists, else the first with the event's non-empty customer id, else nobody |
| BillingEffects.ChosenIsTarget | src/casino_bot/services/billing_service.py:140-159 | the row written is the first of the provider with the non-empty subscription id, else the user's first with the non-empty customer id, else a new one |
| BillingEffects.ProcessedMeans | src/casino_bot/services/billing_service.py:137-190 | a processed event puts user, provider, customer, subscription, status, plan, period end and cancellation into that row and changes no other; the row is entitled exactly for an active or trialing status whose period with its grace time is not over |
| Billing.Service.ProcessEvent | src/casino_bot/services/billing_service.py:54-120 | status, attempts, error code and dead letter of the row, and the subscriptions, after one attempt |
| BillingEffects.AttemptMeans | src/casino_bot/services/billing_service.py:54-120 | which attempts are ignored, fail, crash or are processed, and what each makes of its event row: one more attempt, status, error code, and dead letter for a failure at the threshold; nothing else changes |
| Billing.Service.ReplayEvent | src/casino_bot/services/billing_service.py:420-442 | not found for an unknown event, refused without payload or provider, else one attempt, and dead letter from the threshold on whatever the status |
| BillingEffects.ReplayMeans | src/casino_bot/services/billing_service.py:420-442 | the refusals of a replay, and for any other the effect of one attempt plus dead letter exactly from the threshold on |
| Billing.Service.ReplayFailed | src/casino_bot/services/billing_service.py:471-485 | replays the first limit failed rows outside the dead letters in id order and stops at a crash |
| Billing.Service.SelectCandidates | src/casino_bot/services/billing_service.py:472-478 | the positions of those rows |
| BillingEffects.SelectedIff | src/casino_bot/services/billing_service.py:472-478 | a row is selected exactly when it failed, is no dead letter, is of the provider if one is named, and fewer than limit such rows precede it |
| BillingEffects.BatchMeans | src/casino_bot/services/billing_service.py:478-485 | a batch gives each selected row one more attempt, in order, up to the first that crashes, and touches no other row |
| Billing.Service.Receive | src/casino_bot/billing/api_v1.py:37-59 | unknown providers are ignored, known events idempotent, new ones stored with their first attempt, with its error when it raises, or, when the unique key would break, not at all |
| BillingEffects.DeliveryIsRefused | src/casino_bot/billing/api_v1.py:37-59 | deliveries of unknown providers and known events change nothing |
| BillingEffects.DeliveryMeans | src/casino_bot/billing/api_v1.py:37-59 | any other delivery appends one row with the event's ids, time and payload and its first attempt, with the status it answers or received if the attempt raised, unless it crashes |
| Billing.Service.ProcessInterrupted | src/casino_bot/services/billing_service.py:214-243 | an attempt that raises while the user is looked up or the entitlement computed leaves the row received with its attempt and error code counted, dead letter at the threshold, and the fields already assigned to the subscription |
| BillingEffects.InterruptedMeans | src/casino_bot/services/billing_service.py:137-190 | an overflowing delivery leaves the event's fields in its target row but keeps the entitlement |
| Billing.Service.AssignSubscription | src/casino_bot/services/billing_service.py:137-177 | the chosen or new row takes the event's fields but keeps its entitlement |
| Billing.Service.UndeleteDeadLetter | src/casino_bot/services/billing_service.py:445-455 | clears dead letter and error code of one row |
| BillingEffects.UndeleteMeans | src/casino_bot/services/billing_service.py:445-455 | no other row changes, and a failed one is selected by batches again |
| Billing.Service.CleanupOldEvents | src/casino_bot/services/billing_service.py:458-468 | drops the expired rows, keeps the order of the others, and counts the dropped |
| Billing.CleanupKeeps | src/casino_bot/services/billing_service.py:460-466 | a row survives a cleanup exactly when it is not older than the cutoff or still received or failed |
| BillingEffects.CleanupKeepsOrder | src/casino_bot/services/billing_service.py:458-468 | a cleanup does not reorder what it keeps |
| BillingLaws.RunIsSound | src/casino_bot/services/billing_service.py:34-120 | every run of deliveries, replays, undeletes and cleanups keeps subscriptions unique and every failed row with a payload of a known provider |
| BillingLaws.ReplayLessens | src/casino_bot/services/billing_service.py:420-442 | replaying a failed row either crashes, exactly when it would break the unique key or overflow, or strictly lowers the sum of max(1, threshold - attempts) over failed rows |
| BillingLaws.BatchProgressIff | src/casino_bot/services/billing_service.py:471-485 | a non-empty batch lowers that sum exactly when its first row does not crash; otherwise it changes nothing |
| BillingLaws.StuckForever | src/casino_bot/services/billing_service.py:471-485 | from a state whose first candidate would break the unique key or overflow, no number of repeated batches changes anything |
| BillingLaws.RepeatFinishesIff | src/casino_bot/services/billing_service.py:471-485 | repeating the batch at least as often as that sum leaves no failed row of the provider outside the dead letters if and only if no batch of the repetition starts with such a row |
| BillingLaws.RepeatedReplayFinishes | src/casino_bot/services/billing_service.py:471-485 | in particular it always finishes when no failed row of the provider outside the dead letters has an empty subscription id or an overflowing period end |
| BillingLaws.EmptyIdStallsReplay | src/casino_bot/services/billing_service.py:137-181 | a run of two users and two deliveries after which a failed row exists, every batch of every size at every time crashes and changes nothing, and so does every repetition |
| BillingLaws.UnprocessedIff | src/casino_bot/services/billing_service.py:214-243 | a delivery adds a row that stays received, with one attempt and the code processing_error, exactly when its event is new and of a known provider and its attempt raises something other than a key violation |
| BillingLaws.ReceivedStays | src/casino_bot/services/billing_service.py:458-485 | over every further run of deliveries, batch replays, cleanups and new users a received row stays as it is, is never a candidate of a batch, and every redelivery of its event is answered as idempotent and changes nothing |
| BillingLaws.OverflowStaysReceived | src/casino_bot/services/billing_service.py:184-190 | with any positive grace period a Stripe event that is active up to the last second of the year 9999, for a known user, leaves such a row |
| TokenAmounts.NormalizeExact | src/casino_bot/services/token_amounts.py:59-60 | normalising keeps the value and leaves no trailing zero in the coefficient |
| TokenAmounts.RoundsToEven | src/casino_bot/services/token_amounts.py:59 | the quotient is rounded to the nearest whole number and half way to the even one |
| TokenAmounts.PrintIsExactIff | src/casino_bot/services/token_amounts.py:51-63 | for every amount and every scale >= 1 the text is a decimal without redundant zeros, negative exactly for negative amounts, within half a unit of its 28th digit of units / scale, and equal to it if and only if that quotient has at most 28 significant digits |
| TokenAmounts.PrintIsExact | src/casino_bot/services/token_amounts.py:51-63 | with a power-of-ten scale every amount below 10^28, so every BIGINT, prints exactly |
| TokenAmounts.PrintIsInjective | src/casino_bot/services/token_amounts.py:51-63 | for every scale, different amounts below 10^27 print differently even where the text is rounded |
| TokenAmounts.WholeTokensRoundTripIff | src/casino_bot/services/token_amounts.py:20-82 | for every scale, printing the units of a whole number of tokens and parsing the text gives the same units back if and only if the number has at most 28 significant digits |
| TokenAmounts.WholeTokensRoundTrip | src/casino_bot/services/token_amounts.py:20-82 | so for every scale and every number of tokens below 10^28 |
| TokenParsing.ParseMeans | src/casino_bot/services/token_amounts.py:66-82 | any plain number between white space is refused when it has a fraction, is negative, or the scale is below one, in this order, and otherwise parses to its whole part times the scale; minus zero is zero |
| TokenParsing.BlankIsEmpty | src/casino_bot/services/token_amounts.py:68-70 | text of white space only is refused as empty |
| TokenParsing.InvalidIff | src/casino_bot/services/token_amounts.py:71-74 | in plain notation, every other text and only that is refused as invalid |

## Left out

- HTTP routes, Telegram handlers, message texts, voice delivery, logging and audit rows: presentation and I/O.
- Password hashing, JWT and webhook signatures: foreign libraries, represented by input bits.
- The float mirror columns of balances, bets and payouts: deprecated copies whose rounding need not preserve sums.
- `_get_limit` of the HTTP limiter (which path has which key and limit) and the settings validators.
- Values of the duration histogram: only the number of observations is modelled.
- Calendar arithmetic for dates, ISO weeks and months.
- Dry runs and the printing of plans; sidecar file names; how the shell expands the glob.
- Checkout, portal, cancel and resume, and the billing metrics report.
- Cooldown and counters under concurrent plays: the engine checks the cooldown without a lock, so these are claimed for serial runs only.
- Two first adjustments of a user without an account, made at once: the table would accept two accounts.
- `RoundProtocol` creates a user and its account in one committed step, and a waiting insert or lock is a step that is not yet enabled; deadlocks between waiting clients are not modelled.
- Concurrent failures of one login-lock row: the source takes no lock there, and the lockout's runs are serial. In `AdminSessions` only refreshes are split in two; logins and revocations are single steps.
- The rejection reason and attempted delta in `details_json`, and the `prize` field.
- Type checks for booleans and non-integers, and the BIGINT range: amounts are unbounded integers.
- Billing.Service.Receive: a concurrent delivery of the same event is not modelled, the uniqueness check sees all earlier rows; of exceptions, any raised while the user is looked up and the overflow of the entitlement's date are modelled, not database errors other than a key violation.
- Billing.Service.ReplayEvent: of exceptions, a key violation and the overflow of the entitlement's date are modelled; any other would store nothing and end a batch just as these do.
- TokenAmounts.PrintIsExactIff: the limits of decimal exponents are not modelled.
- TokenAmounts.WholeTokensRoundTrip: the parser's model covers plain notation (sign, digits, one point), not exponents, underscores, NaN, infinities or digits of other scripts, none of which the printer produces.
- TokenParsing.InvalidIff: for the same reason it says nothing of such texts, which Python's Decimal reads.
