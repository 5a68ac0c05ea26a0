# Bollwark: verified model

Bollwark is a proof-of-work captcha service. This project models the parts of
it whose guarantees range over interleavings, restarts, unbounded event
sequences or all weight vectors, and proves those guarantees.

| file | component |
|---|---|
| `ChallengeStore.dfy`, `ChallengeProtocol.dfy`, `ProtocolSafety.dfy`, `ProtocolLifetime.dfy`, `ProtocolOverrun.dfy`, `ProtocolHandlers.dfy` | the challenge lifecycle as a concurrent protocol: any number of puzzle and verify handlers, up to K, interleaved with each other, with sweeps, with expiry deletes and with cancelled requests |
| `RateCounters.dfy` | the striped, swept tumbling-window rate counters |
| `DecisionTables.dfy`, `DecisionRetention.dfy`, `DecisionEffects.dfy`, `DecisionLog.dfy`, `DecisionWriter.dfy` | the decision log: four tables, retention, erasure and labels, and the bounded lossy queue with its batching writer |
| `Failover.dfy`, `FailoverOutages.dfy`, `FailoverBounds.dfy` | the client-failover guard: outage windows attested across crashes, and the rate-capped accept decision |
| `Scoring.dfy`, `Replay.dfy`, `TuningData.dfy`, `Tuning.dfy`, `Wilson.dfy` | verify-time scoring, the offline replay of recorded rows, which decisions reach the tuner at all, the bounded coordinate search and the statistical acceptance gate |
| `ProofOfWork.dfy` | the leading-zero check in the server and in the browser worker, nonce byte layout, and the solvers |
| `Origins.dfy`, `SiteRegistry.dfy` | origin normalisation, the two site indexes and their write-through table |

Time is a parameter wherever the source reads the clock. Ids and secrets are
parameters too, with freshness stated where the source relies on it. SHA-256
and Argon2id are uninterpreted functions of their inputs; Argon2id may fail.
A disk write or a transaction succeeds or fails as a parameter says.

Objects the source updates in place are classes whose methods are proved
against specification functions: `ShardedRates`, `ChallengeMap`, `Server` (the
handlers), `Database`, `Log`, `FailoverGuard` and `Registry`. The theorems are
about those functions, over whole runs. What each function itself means is
stated once more without it, in the records' own fields and in plain numbers:
`StepOnLive`, `ErasureIsScoped`, `MessagesTakeEffect`, `VerdictInNumbers`,
`SearchIsSafe`, `ScoreOfFacts`, `CallTakesEffect`, `NormalizeOriginIff`,
`TargetIsLeadingZeros` and their neighbours.

Results worth knowing before reading further:

- The declaration endpoint accepts any explicit interval
  (src/api/handlers.rs:820-838), but the prune that follows also drops windows
  that have not started yet, so one declared ahead of its start is lost at once.
  `DeclarationKeptIff` says exactly which declarations survive, and
  `FutureDeclarationLost` gives a concrete one that does not.
- The tuner replays a recorded row faithfully for every weight vector exactly
  when the baseline gives nonzero weight to the three checks a row keeps only
  as a score (`ReplayFaithfulIff`). The runner's own guard, which refuses any
  zero (examples/tune_weights.rs:153-159), is therefore sufficient and stricter
  than it needs to be.
- The worker writes a nonce as a 32-bit word, so it hashes what the server
  hashes exactly below 2^32 (`WorkerNonceAgrees`), and beyond that repeats
  itself (`WorkerNonceRepeats`).
- An in-memory registry, with no table to enforce uniqueness, keeps its two
  indexes inverse exactly when no operation clashes with an existing secret
  (`InMemoryConsistentIff`); with a table it always does.
- Labelling before a prune and after it leave the same tables, but the two
  acknowledgements differ exactly when the decision does not outlive the prune
  (`LabelPruneCommute`).
- An erasure reaches a verify row only through its decision, so the verify row
  of a dropped puzzle record stays (`ErasureFindsVerifies`).
- The failover accept counters live in memory, so the accept cap is not kept
  across restarts. Under a cap of one, three claims at one instant are accepted
  around two restarts (`RestartsBreakTheCap`). Each restart costs at most one
  more cap (`AcceptCapAcrossRestarts`), and at one minute runs come within one
  claim of that for every cap and every number of restarts (`CapIsAttained`).
  The bound of a single lifetime survives exactly no restart, or one restart
  under a cap of one (`SingleLifeBoundIff`).
- The training copy keeps a challenge's first verify row, so a visitor who sent
  one wrong nonce before succeeding leaves a sample that the tuner skips.
  `DecisionReachesTunerIff` says exactly which labelled decisions reach the
  tuner, and `RetryIsLost` gives one that does not.
- A refresh inherits a dwell anchor only if the cited challenge is in the map at
  the very step that reads it; a stale, consumed or foreign id starts a new one
  (`InheritanceNeedsPossession`).

## Model

| member | source | states |
|---|---|---|
| `ChallengeStore.EvictedAtCap` | src/storage/memory.rs:332-349 | a challenge absorbs exactly its cap of failed attempts before it is evicted, and no other challenge changes |
| `ChallengeStore.ChallengeMap.StoreChallenge` | src/storage/memory.rs:304-308 | a store adds or replaces one challenge and nothing else |
| `ChallengeStore.ChallengeMap.GetChallenge` | src/storage/memory.rs:310-313 | a lookup finds a challenge exactly when it is live and returns a copy |
| `ChallengeStore.ChallengeMap.DeleteChallenge` | src/storage/memory.rs:315-319 | a delete removes one challenge and nothing else |
| `ChallengeStore.ChallengeMap.ConsumeChallenge` | src/storage/memory.rs:321-330 | consuming succeeds exactly for the caller that finds the challenge, and removes it |
| `ChallengeStore.ChallengeMap.RegisterFailedAttempt` | src/storage/memory.rs:332-349 | a failed attempt is counted, evicting exactly at the cap; a cap of zero or a missing challenge changes nothing, and no other challenge is touched |
| `ChallengeStore.ChallengeMap.CleanupExpired` | src/storage/memory.rs:555-562 | the sweep keeps, unchanged, exactly the challenges that expire strictly after its stamp, and adds none |
| `ChallengeStore.ChallengeMap.ChallengeCount` | src/storage/memory.rs:167-171 | the count is the number of live challenges |
| `ProtocolHandlers.Server.Verify` | src/api/handlers.rs:410-523 | an undisturbed verify replies not-found, unauthorized, expired, wrong-nonce or solved exactly as the live challenge, its site, its expiry and its hash dictate, changes the store accordingly, and is a run of the concurrent protocol |
| `ProtocolHandlers.Server.GetPuzzle` | src/api/handlers.rs:138-372 | an undisturbed issuance is refused exactly by the load sheds and the enforced tier; otherwise it stores one fresh challenge with the stamped site, difficulty, prefix and expiry, its dwell anchor inherited exactly from a live same-site citation; it is a run of the protocol |
| `ProtocolHandlers.Server.Fetch` | src/api/handlers.rs:410-419 | the lookup is one step; the handler goes on only with a snapshot of its own site's challenge |
| `ProtocolHandlers.Server.CheckFresh` | src/api/handlers.rs:421-426 | a snapshot past its expiry at verify_at is deleted and refused, any other goes on unchanged |
| `ProtocolHandlers.Server.Hash` | src/api/handlers.rs:441-482 | the hash runs with no store access and its result is acceptance of the nonce |
| `ProtocolHandlers.Server.ReportFailure` | src/api/handlers.rs:484-491 | a wrong nonce costs the challenge one attempt |
| `ProtocolHandlers.Server.ReportSuccess` | src/api/handlers.rs:520-523 | only the handler that removes the challenge records a success, with the dwell measured from the anchor in whole milliseconds |
| `ProtocolHandlers.Server.Admit` | src/api/handlers.rs:119-182 | a handler goes on exactly when issuance is not refused, and is otherwise gone; either way it is a run of the protocol |
| `ProtocolHandlers.Server.Refuses` | src/api/handlers.rs:119-182 | issuance is refused exactly at a nonzero ceiling, at four fifths of it for a source past its hard limit, or for a scored block that neither the hard limit nor monitor mode has downgraded |
| `ProtocolHandlers.RefusedWhen` | src/api/handlers.rs:119-182 | in numbers: everyone is refused at the ceiling, a source over its hard limit from four fifths of it, and otherwise only a visitor scoring blocks on a site that enforces, if not over that limit |
| `ProtocolHandlers.Server.InheritedDwell` | src/api/handlers.rs:323-336 | a refresh inherits an anchor only from a live challenge of the same site; anything else degrades to none |
| `ProtocolHandlers.Server.MintAndStore` | src/puzzle/challenge.rs:21-55 | the minted challenge carries exactly the given stamps and becomes live under its id |
| `ProtocolHandlers.ServingStaysSafe` | src/api/handlers.rs:385-523 | any continuation of a safe state, by these handlers or others beside them, is safe |
| `ProtocolSafety.StepKeepsInv` | src/api/handlers.rs:318-523 | every step of every handler, sweep, tick and cancellation keeps the mint log, the live map, what handlers hold and the solve history mutually consistent |
| `ProtocolSafety.RunPreservesInv` | src/api/handlers.rs:318-523 | so does every interleaving of any length |
| `ProtocolSafety.ConsumedAtMostOnce` | src/storage/memory.rs:321-330 | over every interleaving no challenge id is consumed twice or comes back, and solved-path successes are exactly the consumptions, in order |
| `ProtocolSafety.SuccessIsEarned` | src/api/handlers.rs:410-523 | every success names a challenge minted for the authenticated site, unexpired at the handler's verify_at, with a nonce whose digest is below the target stamped at issuance |
| `ProtocolSafety.LiveBelowAttemptCap` | src/storage/memory.rs:332-349 | every live challenge has fewer attempts than a nonzero cap |
| `ProtocolLifetime.StepOnLive` | src/storage/memory.rs:303-349 | any step leaves a live challenge in the map and as it was, but for an attempt charged to it, unless the step sweeps it at or past its expiry, evicts it, takes its last attempt or consumes it |
| `ProtocolLifetime.StepOnAbsent` | src/storage/memory.rs:304-308 | a challenge appears exactly when a handler stores the one it minted, which was never stored before |
| `ProtocolLifetime.LivesUntilDeparture` | src/storage/memory.rs:555-562 | over any run a live challenge goes only at a step that consumes it, that registers its last allowed wrong nonce, or once the clock has reached its expiry |
| `ProtocolLifetime.AttemptsAreCharges` | src/storage/memory.rs:332-349 | a live challenge's attempt counter is the number of wrong nonces registered against it |
| `ProtocolLifetime.LiveIsAsMinted` | src/puzzle/challenge.rs:21-55 | a live challenge is the one minted under its id, with only its attempts changed |
| `ProtocolSafety.DwellIsRootCreation` | src/puzzle/challenge.rs:21-55 | an anchor equals the creation time of the root of its same-site inheritance chain |
| `ProtocolSafety.EarnedDwell` | src/api/handlers.rs:323-340 | in every reachable state a live challenge's dwell_since is its root's created_at, on the same site and not in the future |
| `ProtocolSafety.SolvedDwellIsElapsed` | src/api/handlers.rs:438-439 | the scored time on page is the time since that root in whole milliseconds, never more and short by less than one, and its clamp at zero never acts |
| `ProtocolSafety.InheritanceNeedsPossession` | src/api/handlers.rs:318-336 | each minted challenge comes from one handler that read its citation at an earlier step and held it until the mint; if the cited id was live on the same site at that step the anchor and parent are its own, otherwise there is no parent and dwell starts at its own creation |
| `ProtocolOverrun.HashOverrun` | src/api/handlers.rs:441-491 | with cap C > 0 and K slots, the hashes a run starts for one challenge are at most C - 1 + K plus the handlers cancelled mid-hash, hence C - 1 + K with no cancellation |
| `ProtocolOverrun.CountsAreSteps` | src/api/handlers.rs:441-491 | the recorded hashes and abandoned hashes are exactly the run's hash starts and mid-hash cancellations |
| `ProtocolOverrun.AccountStep` | src/api/handlers.rs:441-491 | every step keeps the account of hashes run against attempts counted, results still unreported and snapshots still held |
| `ProtocolOverrun.LiveChallengeOverrun` | src/api/handlers.rs:138-158 | although check and store are separate steps, live challenges never exceed the ceiling - 1 + K |
| `ProtocolOverrun.CapacityStep` | src/api/handlers.rs:138-372 | every step keeps live challenges plus handlers past the check within that bound |
| `RateCounters.ShardedRates.constructor` | src/storage/memory.rs:43-49 | sixteen empty stripes |
| `RateCounters.ShardedRates.Increment` | src/storage/memory.rs:59-72 | one increment of a key in its stripe joins a window younger than its length or opens a new one, returns the new count, and no other key or stripe changes |
| `RateCounters.ShardedRates.RetainFresh` | src/storage/memory.rs:75-81 | a sweep forgets exactly the windows at least two lengths old, in every stripe, and leaves the rest as they are |
| `RateCounters.StripesAgree` | src/storage/memory.rs:35-82 | after any run each key's stripe holds the unstriped, never-swept window, or a sweep found it two lengths old |
| `RateCounters.CounterRefinement` | src/storage/memory.rs:35-82 | striping and sweeping are invisible: every returned count is that of one plain tumbling counter, for every run, key and stripe hash |
| `RateCounters.TumbleShape` | src/storage/memory.rs:59-72 | the open window is exactly the last `count` increments of the key and spans less than its length |
| `RateCounters.RateNeverOvercounts` | src/storage/memory.rs:59-72 | a returned count never exceeds the key's true increments in the last window length |
| `RateCounters.RateDetection` | src/storage/memory.rs:59-72 | any half-open interval one window long with N increments of a key contains a returned count of at least N / 2, rounded up |
| `DecisionTables.Database.InsertPuzzleRow` | src/dashboard/log.rs:781-832 | a puzzle record becomes the last row, stamped at insertion, behind the rows already there |
| `DecisionTables.Database.InsertVerifyRow` | src/dashboard/log.rs:834-880 | a verify record becomes the last row, stamped at insertion, behind the rows already there |
| `DecisionTables.Database.constructor` | src/dashboard/log.rs:310-322 | opening takes the tables on disk and expires their training samples |
| `DecisionTables.Database.CopyRow` | src/dashboard/log.rs:145-181 | joining one decision with all its verify rows and inserting-or-ignoring each leaves one sample, with the earliest verify, unless its challenge had one |
| `DecisionTables.Database.CopyToTraining` | src/dashboard/log.rs:701-730 | the row-by-row copy folds every decision older than the cutoff into at most one sample |
| `DecisionTables.Database.Prune` | src/dashboard/log.rs:672-697 | the transaction copies when a training window is set, expires samples, deletes old rows and orphaned labels, and returns how many rows went |
| `DecisionTables.Database.EraseRecords` | src/dashboard/log.rs:628-646 | deletes verify rows through the decisions that own them, then the site's labels, samples and puzzle rows in scope |
| `DecisionTables.Database.Clear` | src/dashboard/log.rs:648-664 | empties live rows and labels and leaves training samples alone |
| `DecisionTables.Database.MarkSamples` | src/dashboard/log.rs:754-761 | the update marks, in place, exactly the samples of that challenge and site and reports whether there was one |
| `DecisionTables.Database.LabelDecision` | src/dashboard/log.rs:747-779 | a verdict lands on the sample if there is one, else on a live row of the site, else is refused; it is acknowledged exactly when there was one of the two |
| `DecisionRetention.PruneIsComplete` | src/dashboard/log.rs:672-697 | after any prune, whatever the tables held, no row older than the cutoff remains, every younger one does, no sample is past its window and every label annotates a live row |
| `DecisionRetention.PruneFoldsDecisions` | src/dashboard/log.rs:701-730 | with unique ids the samples after a prune are exactly the unexpired earlier samples and the unexpired folds of the pruned decisions |
| `DecisionEffects.PruneKeepsYoungRows` | src/dashboard/log.rs:672-697 | a prune keeps the young rows in order, the labels of live rows with their values, and the unexpired samples |
| `DecisionEffects.PruneCarriesDecisions` | src/dashboard/log.rs:701-730 | every pruned decision inside the training window becomes a sample with its challenge, site, columns, hour, first verify row and label, and every new sample comes from one |
| `DecisionEffects.OpeningKeepsRows` | src/dashboard/log.rs:310-322 | opening expires samples, in order, and touches no other table |
| `DecisionRetention.CopiedMembers` | src/dashboard/log.rs:701-730 | a copy keeps earlier samples in place, adds only folds of old decisions, and leaves every old challenge with a sample |
| `DecisionRetention.StepKeepsSound` | src/dashboard/log.rs:566-613 | every operation that does not reuse an id keeps each decision in one place and each label on a live row of its site |
| `DecisionRetention.TablesStaySound` | src/dashboard/log.rs:566-613 | over any run whose puzzle ids are distinct and new to sound starting tables, live rows and samples never share a challenge, none is duplicated, and every label annotates a live row of the site that set it |
| `DecisionRetention.OpeningOnlyForgets` | src/dashboard/log.rs:310-322 | opening keeps soundness, makes no challenge known and leaves no new trace of an erased site |
| `DecisionRetention.ErasureIsFinal` | src/dashboard/log.rs:628-646 | after an erasure no later prune, label, reset, verify insert or other site's record brings back a puzzle, label or training row in its scope, unless a new puzzle record in scope arrives |
| `DecisionRetention.ErasureSparesOthers` | src/dashboard/log.rs:628-646 | other sites' puzzle, label and training rows are untouched and in the same order |
| `DecisionEffects.ErasureIsScoped` | src/dashboard/log.rs:628-646 | an erasure keeps, in order, exactly the rows, samples and labels of other sites and, when it names a challenge, of other challenges; it takes exactly the verify rows in scope whose challenge the site owns |
| `DecisionEffects.ErasureSparesOtherChallenges` | src/dashboard/log.rs:628-646 | erasing one challenge leaves every row, sample and label of any other |
| `DecisionRetention.ErasureFindsVerifies` | src/dashboard/log.rs:628-636 | a verify row in scope stays exactly when no live row or sample of the site carries its challenge |
| `DecisionRetention.SurvivorHasPlace` | src/dashboard/log.rs:672-697 | a decision has a row or sample after the prune exactly when its row is young or its hour is inside the training window |
| `DecisionRetention.LabelPruneCommute` | src/dashboard/log.rs:747-779 | label and prune give the same tables in either order; labelling first is acknowledged whenever the site has the decision, labelling second exactly when it also outlives the prune |
| `DecisionRetention.LabelSurvivesPrune` | src/dashboard/log.rs:747-779 | in either order a surviving decision lives in exactly one place and carries the new verdict there |
| `DecisionEffects.LabelTouchesOneDecision` | src/dashboard/log.rs:747-779 | a label marks the samples of its decision, or else sets the label of its live row, which keeps the site it had, and changes nothing else |
| `DecisionLog.BatchIsOneAtATime` | src/dashboard/log.rs:547-562 | one transaction of inserts leaves the tables as its records one at a time would, and a failed one as none of them would |
| `DecisionLog.StepKeepsInv` | src/dashboard/log.rs:324-378 | every step of sender or writer keeps the tables equal to the one-at-a-time reference, the accepted order, the limits on queue and batch, the record count and transaction atomicity |
| `DecisionLog.WriterRefinesFifo` | src/dashboard/log.rs:324-378 | over every interleaving, batching and deferral give the tables of a writer that runs the accepted messages one at a time in order, and an idle writer with an empty queue has run them all |
| `DecisionLog.MessagesTakeEffect` | src/dashboard/log.rs:566-613 | over every run the tables go from the opened ones to the current ones by one effect per message in acceptance order: its row appended, everything live cleared, rows pruned at its own cutoffs, its own verdict set, its scope erased, nothing for a flush or a failed transaction |
| `DecisionLog.VerdictTakesForce` | src/dashboard/log.rs:593-600 | in a log opened on sound tables and fed new ids, a handled label leaves exactly its verdict on the owner's decision, wherever that lives |
| `DecisionLog.RecordsAreConserved` | src/dashboard/log.rs:411-430 | records attempted are dropped, queued, in the writer's hand, committed or in a failed transaction, with nothing lost or counted twice |
| `DecisionLog.QueueIsHonest` | src/dashboard/log.rs:411-430 | the accepted messages are exactly the control messages sent and the records that found room, in order; a record is dropped exactly when it finds 8192 messages queued, and a transaction holds at most 256 records |
| `DecisionLog.FlushIsBarrier` | src/dashboard/log.rs:522-528 | once a flush is acknowledged, every record accepted before it is either in the tables as of its transaction or was in a transaction that failed as a whole |
| `DecisionLog.LogStaysSound` | src/dashboard/log.rs:566-613 | opened on any sound tables, a log whose accepted records have unique puzzle ids not on disk keeps each decision in one place in every state it can reach |
| `DecisionLog.LogErasureIsFinal` | src/dashboard/log.rs:479-492 | an acknowledged erasure also covers records queued before it, and stays final until a new puzzle record in scope is accepted |
| `DecisionWriter.Log.Offer` | src/dashboard/log.rs:411-430 | a send never blocks: it enqueues with room and otherwise only counts a drop |
| `DecisionWriter.Log.FlushBatch` | src/dashboard/log.rs:547-562 | a batch is inserted whole or not at all |
| `DecisionWriter.Log.HandleControl` | src/dashboard/log.rs:566-613 | a control message runs alone in its own transaction, as the machine's step whose effect MessagesTakeEffect states |
| `DecisionWriter.Log.WriterTurn` | src/dashboard/log.rs:324-378 | one turn of the writer's loop, with any messages arriving between its looks at the queue, is a run of the machine and settles at least one message |
| `Failover.FailoverGuard.Load` | src/failover/mod.rs:193-232 | boot reads the file, attests a long enough heartbeat gap, keeps exactly the windows covering now and writes back |
| `Failover.FailoverGuard.Persist` | src/failover/mod.rs:397-420 | the file becomes the guard's state when there is a path and the write succeeds, and is otherwise left alone |
| `Failover.FailoverGuard.PruneWindows` | src/failover/mod.rs:424-427 | the in-place retain keeps, in order, exactly the windows covering now |
| `Failover.FailoverGuard.Heartbeat` | src/failover/mod.rs:254-262 | a tick moves the heartbeat, keeps exactly the windows covering now and persists |
| `Failover.FailoverGuard.DeclareOutage` | src/failover/mod.rs:269-289 | a declaration is added, exactly the windows covering now are kept, and the list is persisted |
| `Failover.FailoverGuard.Evaluate` | src/failover/mod.rs:314-322 | each claim is decided once and counted once as accepted or refused |
| `Failover.FailoverGuard.EvaluateAt` | src/failover/mod.rs:326-367 | the verdict and the counters follow from configuration, the first covering window, the claim's own time and the site's counter |
| `Failover.VerdictInNumbers` | src/failover/mod.rs:326-389 | each verdict has its exact condition in numbers: a claim is stale exactly when its timestamp is missing, over 300 s ahead, or over grace plus 300 s behind; rate limited exactly when its site's window younger than 60 s is full; accepted with the source of the first covering window |
| `Failover.CountersInNumbers` | src/failover/mod.rs:371-389 | only an accepted claim under a nonzero cap moves a counter: its own site's, by one, in a window younger than 60 s or a new one |
| `Failover.FailoverGuard.AdmitClaim` | src/failover/mod.rs:371-389 | one site's minute counter admits up to the cap; a cap of zero admits everything |
| `Failover.PruneIsLive` | src/failover/mod.rs:424-427 | on windows that have started, pruning forgets exactly those that can never cover again |
| `Failover.StepKeepsRelated` | src/failover/mod.rs:193-289 | every boot, tick, declaration and claim keeps the pruning guard and the never-forgetting one in agreement on the future, and both answer alike |
| `Failover.FailoverRefinement` | src/failover/mod.rs:193-367 | from the first boot on, across any run of restarts, ticks, declarations that have started and claims, pruning and reloading change no verdict and no source |
| `Failover.DeclarationKeptIff` | src/failover/mod.rs:269-289 | a declared window stays available for every later moment it covers exactly when it has already started or covers nothing |
| `Failover.FutureDeclarationLost` | src/failover/mod.rs:424-427 | a window declared one minute ahead refuses the claim it should have accepted |
| `FailoverOutages.AttestedWindows` | src/failover/mod.rs:193-232 | at every point of every run, with declarations and claims among the ticks, the heartbeat windows the pruning guard holds are gaps between consecutive lives, in order and disjoint |
| `FailoverOutages.HeartbeatWindowsAreOutages` | src/main.rs:410-421 | with ticks at most H apart, the heartbeat windows held at any point are pairwise disjoint, each ends at a boot and contains at most H of time the process was alive |
| `FailoverOutages.LongDowntimeIsAttested` | src/failover/mod.rs:193-232 | a downtime of at least the minimum gap lies in a window held at the boot that ends it, exactly when the grace is positive |
| `FailoverBounds.AcceptCap` | src/failover/mod.rs:326-389 | within one process lifetime any half-open interval of length L accepts fewer than (ceil(L / 60 s) + 1) times the cap for one site |
| `FailoverBounds.AcceptCapPerMinute` | src/failover/mod.rs:326-389 | no minute of one lifetime accepts as many as twice the cap |
| `FailoverBounds.AcceptCapAcrossRestarts` | src/failover/mod.rs:371-389 | with R restarts a site gets fewer than (ceil(L / 60 s) + R + 1) times the cap |
| `FailoverBounds.CapIsAttained` | src/failover/mod.rs:371-389 | at one minute that is exact: for every cap and every R some run accepts one claim less than the bound |
| `FailoverBounds.SingleLifeBoundIff` | src/failover/mod.rs:371-389 | every run with R restarts keeps the single-lifetime bound exactly when R times the cap is at most one |
| `FailoverBounds.RestartsBreakTheCap` | src/failover/mod.rs:371-389 | a concrete run with two restarts accepts three claims at one instant under a cap of one |
| `FailoverBounds.OneOutageTotal` | src/failover/mod.rs:326-389 | while one window is attested, a site's accepted claims are bounded by the window's length plus grace, however long the run |
| `FailoverBounds.AcceptedClaimsAreTimely` | src/failover/mod.rs:326-367 | wherever a run accepts a claim, a window covers that moment and the claim's timestamp is within 300 s ahead and grace plus 300 s behind it |
| `Scoring.ScoreBehaviorWith` | src/risk/behavior.rs:292-336 | the accumulating scorer adds one weight for each independent fact about the blob |
| `Scoring.ScoreOfFacts` | src/risk/verify.rs:125-203 | the total adds each weight exactly when its fact holds, in plain numbers, and alone decides block, shadow failure or pass |
| `Replay.ActivationsAreFeatures` | examples/tune_weights.rs:56-114 | probing with unit weights recovers exactly which checks a row fires |
| `Replay.ProbeIsLinear` | examples/tune_weights.rs:56-114 | the branching scorer equals the sum of the recovered active weights, for every weight vector |
| `Replay.ApplyVector` | examples/tune_weights.rs:32-43 | applying a vector and reading it back are inverse |
| `Replay.AcceptedRowsReconstruct` | examples/tune_weights.rs:56-114 | an accepted row scores under the baseline exactly what was recorded |
| `Replay.RebuildRecorded` | src/dashboard/log.rs:834-880 | recording and rebuilding a blob loses only the size of a first-interaction time past the column's range |
| `Replay.RecordedRowsAreAccepted` | src/api/handlers.rs:583-647 | every recorded verify with a blob yields a row the tuner accepts |
| `Replay.ReplayFidelity` | examples/tune_weights.rs:56-114 | under a baseline that leaves traces, every recorded context scores and blocks in the replay as production would, for every other weight vector |
| `Replay.ReplayFaithfulIff` | examples/tune_weights.rs:56-114 | a baseline replays every context the handler can record faithfully exactly when its mismatch, impossible-timing and duplicate weights are nonzero |
| `Replay.ZeroWeightLosesActivation` | examples/tune_weights.rs:56-114 | a zero among those three misreplays a concrete context the handler can record |
| `Replay.LimitedWeightsCannotOverflow` | examples/tune_weights.rs:153-159 | with weights at most 1000 no production total exceeds 9000 |
| `Replay.EvaluateMatchesProduction` | crates/bollwark-tuning/src/lib.rs:55-76 | over the recorded rows that reach the tuner its blocked counts are production's, in each class, for every candidate vector |
| `TuningData.FoldCarriesFirst` | src/dashboard/log.rs:145-181 | a labelled decision past the cutoff leaves a labelled sample that carries the earliest live verify row of its challenge |
| `TuningData.DecisionReachesTunerIff` | examples/tune_weights.rs:164-189 | a labelled, scored decision reaches the tuner exactly when its scored row is that earliest one, and then scores and blocks as production would under every weight vector |
| `TuningData.RetryIsLost` | src/dashboard/log.rs:145-161 | one wrong nonce before the success loses the decision; without that row it is a sample |
| `Tuning.Evaluate` | crates/bollwark-tuning/src/lib.rs:55-76 | the counting loop returns the class sizes and blocked counts of the sample set |
| `Tuning.TryMove` | crates/bollwark-tuning/src/lib.rs:104-148 | one candidate step, with every signed 32-bit cast and clamp bound valid, leaves the specified next vector and its metrics |
| `Tuning.Search` | crates/bollwark-tuning/src/lib.rs:104-148 | the search fails exactly on an invalid policy, an out-of-range baseline or too few labels; otherwise it returns the last of the 180 moves, near the baseline, blocking at least as much spam and no more legitimate samples, and if changed a strict gain |
| `Tuning.SearchStaysWithinBounds` | crates/bollwark-tuning/src/lib.rs:104-148 | every weight stays in [max(1, b / 2), b + b / 2] |
| `Tuning.SearchIsSafe` | crates/bollwark-tuning/src/lib.rs:104-148 | at any move: no weight leaves its interval, no more legitimate samples and no less spam are blocked than by the baseline, and changed weights are a strict gain within dwell order, the single-probe bound and the ceiling, all in the samples' own counts |
| `Tuning.SearchClimbs` | crates/bollwark-tuning/src/lib.rs:104-148 | along the moves spam blocked never falls, with equal spam legitimate blocks never rise, and any change of weights is a strict gain |
| `Tuning.SearchBeatsEveryCandidate` | crates/bollwark-tuning/src/lib.rs:104-148 | at every sweep, weight and step of 5, 10 or 15 either way, an eligible candidate blocks no more spam than the result, and with as much spam no fewer legitimate samples |
| `Tuning.QuietTailIsLocalOptimum` | TUNING.md:59 | after a last sweep that changed nothing no such step from the result gives eligible weights that are strictly better |
| `Wilson.UpperBoundIsLargerRoot` | crates/bollwark-tuning/src/lib.rs:43-52 | the closed form solves the score-interval equation, and any point inside the interval is at most it |
| `Wilson.UpperBoundRange` | crates/bollwark-tuning/src/lib.rs:43-52 | the bound lies between the observed rate and one, and is at least z^2 / (n + z^2) |
| `Wilson.UpperBoundMonotone` | crates/bollwark-tuning/src/lib.rs:43-52 | blocking more legitimate samples never lowers it |
| `Wilson.Compare` | crates/bollwark-tuning/src/lib.rs:160-179 | acceptance is exactly a valid policy, enough labels, strictly more spam blocked, no more legitimate blocked and the bound under the ceiling; the observed rate is then under it too |
| `Wilson.GateNeedsEvidence` | TUNING.md:61 | acceptance at ceiling r needs at least z^2 (1 - r) / r legitimate samples, 381 at one percent, and never happens at zero |
| `Wilson.CleanGateIffEvidence` | TUNING.md:61 | with no legitimate sample blocked that much evidence is also enough |
| `ProofOfWork.HasLeadingZeroBits` | src/puzzle/challenge.rs:106-125 | the byte loop answers whether the hash, read big-endian, is below 2^(256 - d), false past 256 |
| `ProofOfWork.WorkerHasLeadingZeroBits` | static/captcha-worker.js:106-119 | the browser's loop with its 32-bit mask answers the same question |
| `ProofOfWork.WordMask` | static/captcha-worker.js:114-115 | the 32-bit mask tests the same bits as the server's 8-bit one |
| `ProofOfWork.TargetIsLeadingZeros` | src/puzzle/challenge.rs:106-125 | being below 2^(256 - d) is having d leading zero bits |
| `ProofOfWork.LittleEndianStandsFor` | src/puzzle/challenge.rs:57-69 | the nonce bytes stand for the nonce, least significant first |
| `ProofOfWork.WorkerNonceAgrees` | static/captcha-worker.js:36-41 | the worker's eight bytes are the server's little-endian u64 exactly for nonces below 2^32 |
| `ProofOfWork.WorkerNonceRepeats` | static/captcha-worker.js:36-41 | beyond that the worker only repeats earlier byte strings |
| `ProofOfWork.WriteNonce` | static/captcha-worker.js:36-41 | writing a nonce in place leaves the prefix and puts four bytes standing for its value modulo 2^32 and four zeros behind it |
| `ProofOfWork.VerifyNonce` | src/puzzle/challenge.rs:57-69 | the engine accepts a nonce exactly when its digest exists and meets the difficulty |
| `ProofOfWork.Solve` | src/puzzle/challenge.rs:128-148 | a returned nonce is the least u64 the engine accepts |
| `ProofOfWork.WorkerSolve` | static/captcha-worker.js:32-54 | the worker finds the server's least solution when it is below 2^32 |
| `ProofOfWork.WorkerSolveArgon2id` | static/captcha-worker.js:69-102 | so does its Argon2id search, which stops with nothing when the hash rejects its parameters |
| `Origins.ColumnIsLossless` | src/storage/memory.rs:218-295 | joining with spaces and splitting on whitespace returns the list exactly when every entry is a non-empty whitespace-free token |
| `Origins.NormalFormIsStable` | src/site/types.rs:258-276 | a normalised origin is a token, and normalising it again changes nothing |
| `Origins.NormalizeOriginIff` | src/site/types.rs:258-276 | exactly the whitespace-padded http and https origins without path, query, fragment or inner whitespace are accepted, as their lower case |
| `Origins.NormalizeOrigins` | src/site/types.rs:282-291 | an accepted list is within the cap, entry by entry the normal form of its input, and reloads losslessly |
| `SiteRegistry.Registry.WithSitePersistence` | src/storage/memory.rs:137-162 | boot rebuilds both indexes from the table |
| `SiteRegistry.Registry.StoreSite` | src/storage/memory.rs:351-367 | a site is written through and indexed, or nothing changes |
| `SiteRegistry.Registry.RotateSiteSecret` | src/storage/memory.rs:386-420 | a rotation re-indexes the secret after the table accepts it, or changes nothing |
| `SiteRegistry.Registry.DeleteSite` | src/storage/memory.rs:506-533 | a deletion removes the row and both index entries, or changes nothing |
| `SiteRegistry.Registry.UpdateSite` | src/storage/memory.rs:422-504 | an origin, name or policy change is written through, or nothing changes |
| `SiteRegistry.Registry.GetSiteBySecret` | src/storage/memory.rs:374-384 | a secret finds the site it indexes |
| `SiteRegistry.CallTakesEffect` | src/storage/memory.rs:351-533 | a call makes its one change or none; it succeeds exactly when its site is there and, with a table, the write goes through and no other site has the key or secret |
| `SiteRegistry.PersistentAlwaysConsistent` | src/storage/memory.rs:351-533 | with a table, every operation keeps the indexes inverse and the table an encoding of memory, because the table refuses every clash |
| `SiteRegistry.InMemoryConsistentIff` | src/storage/memory.rs:351-420 | without one, they stay inverse exactly when the operation does not clash |
| `SiteRegistry.SiteRoundTrip` | src/storage/memory.rs:218-295 | encoding and decoding a site returns it exactly when its origins are tokens; an empty policy and an absent one are the same |
| `SiteRegistry.ReloadIsIdentity` | src/storage/memory.rs:137-162 | the only state a consistent table can boot to is the one that wrote it |
| `SiteRegistry.RegistryAgreement` | src/storage/memory.rs:137-533 | after any operations, each possibly failing its write, the indexes are exact inverses and a restart reproduces the registry |
| `SiteRegistry.RotationIsImmediate` | src/storage/memory.rs:386-420 | a rotated site answers to its new secret at once, to the old one never, and other sites are unaffected |
| `SiteRegistry.DeletionIsImmediate` | src/storage/memory.rs:506-533 | a deleted site is gone at once with its secret and its row, and other sites are unaffected |

## Left out

- RateCounters.ShardedRates.Increment: does not model the 32-bit wrap of a count, which takes 2^32 increments of one key inside one window.
- Wilson.UpperBoundIsLargerRoot: is proved over the reals with an exact non-negative square root given as a parameter; floating-point rounding is not modelled.
- ProofOfWork.Solve: the source's loop has no upper end; the model stops after the last u64 nonce and reports that there is none.
- ProtocolHandlers.Server.GetPuzzle: whether the source is over its hard limit, whether scoring blocks it and whether the site monitors are inputs, as are the difficulty and prefix; scoring of the request, CORS and the response body are not modelled.
- ProtocolHandlers.Server.Verify: starts from the authenticated site; the scoring after consumption is the subject of Scoring and Replay, and its rate counter of RateCounters.
- DecisionTables.Database.CopyRow: row columns that are only carried along are one value, and the browser family derived from the user agent is part of it; several verify rows of one challenge join in rowid order.
- DecisionTables.Database.Clear: does not model the reset of row numbering.
- TuningData.DecisionReachesTunerIff: is about the projection of one row; the runner's further selection by site, time window, split date and label time, and its counts of skipped rows, are not modelled.
- DecisionWriter.Log.Offer: does not model a channel whose writer thread has exited, where the source drops silently.
- SiteRegistry.Registry.GetSiteBySecret: is one atomic read, where the source releases the secret index before it takes the key index; a rotation in between can return the site already carrying its new secret.
- SiteRegistry.SiteRoundTrip: the JSON text of a policy is abstracted to the policy itself, absent when empty; display names are opaque strings.
- Failover.FailoverGuard.Load: a missing, unreadable and corrupt state file are all the same absent one; the temporary-file rename is one atomic write.
- Origins.NormalizeOrigins: lower-casing is ASCII and whitespace is a fixed set of characters; Unicode case mapping is not modelled.
- HTTP routing, CORS, timeouts, extractors, assets, tracing and environment parsing: they belong to axum, tower and the operating system; the model starts at a parsed request with an authenticated site.
- SQLite, tokio, serde, chrono and argon2 internals: atomic transactions, atomic steps, total encoders, integers and uninterpreted hashes.
- Aggregate queries and dashboard transfer types (src/dashboard/query.rs, routes.rs, types.rs): they read the tables for display and change nothing; their SQL is not modelled.
- Tier classification, load ladder, header and TLS signals, IP anonymisation, config validation: each decides one request from its own inputs and keeps no state, and their results enter the model as parameters (difficulty, risk, weights, limits).
- Schema migrations, GeoIP, reputation watcher, load generator, end-to-end harness, the client crate, the widget's DOM code: they act on a database file, a network or a browser the model does not contain, and no property above depends on them.
