# Duende: models and proofs

Duende manages daemons: it restarts them with backoff, signals them, watches their health,
traces their system calls, protects them with a circuit breaker, and loads them in tests.
This project models its small stateful components in Dafny and proves what they keep.  It
verifies with `dafny verify dfyconfig.toml`.

Three kinds of model are used.

- An object whose methods update its fields is a class.  A ghost history of its calls, or an
  abstract value, ties every method to a specification that the lemmas are about.
- Where several threads, tasks or callers share an object, a second model takes one step for
  each lock acquisition, atomic operation or channel operation, and the theorems quantify
  over every interleaving of any number of them.  For the circuit breaker and the manager,
  lemmas show that an operation nothing interleaves with does exactly what the class does.
- Expressions and parsers are functions.

Where a stated promise of the repository does not hold of its code, the model keeps the code,
a lemma exhibits the input or the run, and another says when the promise does hold.

## The components

| module | what it models |
|---|---|
| `CircuitBreakers` | the breaker called by one thread at a time, over whole histories of calls |
| `CircuitBreakerThreads` | the same breaker with one step per lock or atomic operation |
| `DaemonTracers` | the z-score and ratio detectors over the histogram of system calls |
| `DurationMetrics` | the sum, count and compare-exchange maximum of recorded durations |
| `ManagerLocks` | the manager's map lock, daemon mutexes and signal channels, step by step |
| `DaemonManagers` | the manager's operations one at a time, and `shutdown_all` |
| `StatusUpdates` | what concurrent operations do to a daemon's status |
| `Backoff` | restart policies and restart delays |
| `DaemonContexts` | a daemon's bounded signal channel and its shutdown flag |
| `HealthMonitors` | health checks, thresholds and recovery events |
| `UblkControls` | commands on a ring without distinguishing tags, and the orphan scan |
| `WosAdapters` | the process table with its two-phase removal |
| `LoadTesters` | the load test's workers, counters and percentiles |
| `StatLine` | the parser of `/proc/<pid>/stat` |
| `Decimal` | decimal printing and Rust's parsing of unsigned integers |
| `Signals`, `Sums`, `Seqs`, `Reals`, `Widths`, `Options` | shared definitions |

## Where code and documents disagree

- Claim F066 of the design document has the circuit close after its timeout.  In the code the
  first look after the timeout finds it half-open (`CircuitBreakers.FirstLatePoll`), and it
  closes on the third success (`CircuitBreakers.HalfOpenPeriod`).
- A circuit is meant to recover by itself.  If a reset overlaps the failure that trips it, it
  can be left open with no recovery time, for any threshold and with two threads
  (`CircuitBreakerThreads.StuckIsReachable`), and only another reset ends that.  Without
  overlaps it cannot (`NoOverlapMeansCoherent`), and of the overlaps exactly those in an open
  circuit can end like that by themselves (`StickIff`).
- F015 (`crates/duende-core/src/tests/falsification.rs:266-271`) has every delay at least the
  multiplier times the one before.  `Backoff.ExponentialIff` says for which configurations and
  counts that holds.  It fails where the uncapped delay would exceed the maximum, which the
  default configuration does from its tenth delay on (`DefaultStopsDoubling`), and it fails
  at count 2^31, where the exponent turns negative, even for delays that are nowhere near the
  maximum (`UncappedDelayDrops`).  The delay drops there once and then grows again
  (`WrappedDelaysIncrease`).
- F004 and F005 (`crates/duende-core/src/tests/falsification.rs:198-209`) have statuses follow
  a state machine with final states.  `update_status` allows every change
  (`DaemonManagers.EveryStatusIsLeft`).  Runs keep to a state machine exactly if no update
  takes effect against it (`StatusUpdates.TransitionsIff`), and to final statuses exactly if
  none takes effect on one (`FinalStaysIff`).  One task that looks before each update ensures
  that (`OneCarefulUpdater`), two such tasks do not (`TwoCarefulUpdaters`).
- F060 (`crates/duende-core/src/tests/falsification.rs:550-555`) has snapshots taken
  atomically.  `snapshot` loads field by field.  In every reachable state, all snapshots that
  start there report an average within their maximum exactly if nothing is counted yet, or no
  choice of pending additions to the sum brings the average with the present count above the
  present maximum (`DurationMetrics.ConsistentIff`).  While the sum does not overflow, that
  compares the total of all durations, recorded or not, divided by the present count with the
  present maximum (`ConsistentWithoutOverflowIff`).  A caller can ensure more, that the
  reported values are also those of one moment: no recorder halfway when the snapshot starts,
  none stepping while it loads, and a count that has not wrapped around (`QuietSnapshot`).
  None of these three can be dropped (`HalfwayBreaks`, `StepsBreak`, `OverflowBreaks`).
- `Recovered` carries the number of failures before the recovery
  (`crates/duende-observe/src/health.rs:52-57`).  The code reports all failures ever counted
  less the recovery threshold, which is never that number (`HealthMonitors.ReportIsShort`),
  and the subtraction underflows in some history exactly when the recovery threshold is the
  larger one (`HealthMonitors.UnderflowIff`).
- `crates/duende-test/README.md:57-63` asserts that a load test without a handler passes.  The
  default handler's failure rate is at least one per cent, and passing demands less, so a test
  passes only if it sent no request at all (`LoadTesters.DefaultHandlerNeverPasses`), and a
  configuration always passes exactly if no user may send one (`AlwaysPassesIff`).
- `parse_stat_content` returns an error on a malformed line, but panics on a line that ends
  with its last closing parenthesis (`StatLine.PanicsIff`).

## Model

| member | source | states |
|---|---|---|
| CircuitBreakers.RunConsistent | crates/duende-policy/src/circuit_breaker.rs:45-233 | After every history: Closed exactly when the failure count is below max(1, threshold), exactly when there is no opening time; the count equals it otherwise; fewer than 3 successes in HalfOpen and none elsewhere |
| CircuitBreakers.OpenIff | crates/duende-policy/src/circuit_breaker.rs:153-232 | The circuit is open exactly while some failure in the history opened it and since then there was no reset and no look after the recovery timeout; it carries that failure's time |
| CircuitBreakers.HeldIsOpen | crates/duende-policy/src/circuit_breaker.rs:116-232 | No recorded success or failure, and no early look, moves an open circuit or its opening time |
| CircuitBreakers.OpenIsHeld | crates/duende-policy/src/circuit_breaker.rs:116-173 | Every open circuit has such an opening failure in its history |
| CircuitBreakers.RefusedIff | crates/duende-policy/src/circuit_breaker.rs:75-86 | A request is refused exactly when such a failure holds the circuit open and the recovery timeout since it has not elapsed |
| CircuitBreakers.FirstLatePoll | crates/duende-policy/src/circuit_breaker.rs:200-232 | The first `allow` or `state` at or after the recovery timeout makes the circuit half-open, and requests pass from then on |
| CircuitBreakers.EveryHistoryHasAPeriod | crates/duende-policy/src/circuit_breaker.rs:15-22 | Every history ends in a maximal period in one state, so the statements about periods cover every history |
| CircuitBreakers.ClosedCount | crates/duende-policy/src/circuit_breaker.rs:89-139 | While closed, the counter is the number of failures since the last success or closing |
| CircuitBreakers.ClosedPeriod | crates/duende-policy/src/circuit_breaker.rs:116-139 | A closed circuit leaves Closed exactly on the failure that is the max(1, threshold)-th in a row |
| CircuitBreakers.HalfOpenCount | crates/duende-policy/src/circuit_breaker.rs:89-113 | A half-open period contains no failure and no reset, and the success counter counts its successes, fewer than 3 |
| CircuitBreakers.HalfOpenPeriod | crates/duende-policy/src/circuit_breaker.rs:89-197 | A half-open circuit closes exactly on a reset or its third success and opens exactly on its first failure |
| CircuitBreakers.ClosedStep | crates/duende-policy/src/circuit_breaker.rs:89-139 | After every history, each call on a closed circuit, in all four cells: a failure counts and opens it exactly when it reaches the threshold (a threshold of 0 acts as 1), a success or a reset sets the count to 0 |
| CircuitBreakers.OpenStep | crates/duende-policy/src/circuit_breaker.rs:65-232 | Each call on an open circuit, in all four cells: a reset closes it, a look at or after the timeout half-opens it, and nothing else changes anything |
| CircuitBreakers.HalfOpenStep | crates/duende-policy/src/circuit_breaker.rs:89-197 | Each call on a half-open circuit, in all four cells: the third success or a reset closes it, a failure opens it with its own time, and a look changes nothing |
| CircuitBreakers.ResetCloses | crates/duende-policy/src/circuit_breaker.rs:148-197 | After every history a reset leaves the circuit closed, without an opening time and with both counters 0, as it was created |
| CircuitBreakers.CircuitBreaker.constructor | crates/duende-policy/src/circuit_breaker.rs:52-61 | A new breaker is the breaker of the empty history |
| CircuitBreakers.CircuitBreaker.State | crates/duende-policy/src/circuit_breaker.rs:65-71 | Returns the state of the history including this look |
| CircuitBreakers.CircuitBreaker.Allow | crates/duende-policy/src/circuit_breaker.rs:75-86 | False exactly when an opening failure in the history holds the circuit open and its recovery timeout has not elapsed |
| CircuitBreakers.CircuitBreaker.RecordSuccess | crates/duende-policy/src/circuit_breaker.rs:89-113 | The cells become those of the history with this success |
| CircuitBreakers.CircuitBreaker.RecordFailure | crates/duende-policy/src/circuit_breaker.rs:116-139 | The cells become those of the history with this failure |
| CircuitBreakers.CircuitBreaker.Reset | crates/duende-policy/src/circuit_breaker.rs:148-150 | Closed, no opening time, both counters 0, and so the cells of the history with this reset |
| CircuitBreakers.CircuitBreaker.OpenNow | crates/duende-policy/src/circuit_breaker.rs:153-173 | Open, this opening time, no successes; the failure count stays |
| CircuitBreakers.CircuitBreaker.Close | crates/duende-policy/src/circuit_breaker.rs:176-197 | The cells of a new breaker |
| CircuitBreakers.CircuitBreaker.MaybeTransition | crates/duende-policy/src/circuit_breaker.rs:200-232 | An open circuit whose timeout has elapsed becomes half-open; all else stays |
| CircuitBreakerThreads.SoloIsSequential | crates/duende-policy/src/circuit_breaker.rs:65-232 | A call whose steps nothing interleaves with does to the cells exactly what the sequential model says |
| CircuitBreakerThreads.LoneReset | crates/duende-policy/src/circuit_breaker.rs:148-197 | A lone reset, step by step, leaves the circuit closed, without an opening time and with both counters 0 |
| CircuitBreakerThreads.NextKeepsInv | crates/duende-policy/src/circuit_breaker.rs:153-197 | Every step of every thread keeps the invariant, as long as no open is halfway while a close is |
| CircuitBreakerThreads.NoOverlapMeansCoherent | crates/duende-policy/src/circuit_breaker.rs:153-197 | In every run of any number of threads without such an overlap, whenever nobody is halfway, the circuit is closed exactly when it has no opening time |
| CircuitBreakerThreads.OverlapCanBreak | crates/duende-policy/src/circuit_breaker.rs:153-197 | From every overlap there is a schedule of the halfway calls alone after which nobody is halfway and the circuit is incoherent, so the condition cannot be weakened |
| CircuitBreakerThreads.StickIff | crates/duende-policy/src/circuit_breaker.rs:153-197 | The halfway calls of an overlap can leave the circuit open without a recovery time exactly if it is open at the overlap |
| CircuitBreakerThreads.HalfwayKeepsState | crates/duende-policy/src/circuit_breaker.rs:153-197 | The remaining writes of halfway calls never change the state |
| CircuitBreakerThreads.RequestComesEarly | crates/duende-policy/src/circuit_breaker.rs:75-232 | For every threshold and positive timeout, two threads reach a state in which a failure is opening the circuit and a request at the same instant is let through |
| CircuitBreakerThreads.FinishOpening | crates/duende-policy/src/circuit_breaker.rs:153-173 | Letting all halfway opens write their times changes no state and leaves an opening time |
| CircuitBreakerThreads.FinishClosing | crates/duende-policy/src/circuit_breaker.rs:176-197 | Letting all halfway closes finish changes no state and leaves no opening time |
| CircuitBreakerThreads.StuckIsReachable | crates/duende-policy/src/circuit_breaker.rs:116-197 | For every threshold, two threads reach a state with nobody in a call, the circuit open, and no opening time |
| CircuitBreakerThreads.QuiescentOpenWithoutTimeIsForever | crates/duende-policy/src/circuit_breaker.rs:75-232 | From such a state no continuation without a reset, of any number of threads, ever leaves Open without a time |
| CircuitBreakerThreads.SomeThreadCanStep | crates/duende-policy/src/circuit_breaker.rs:65-232 | Whenever a call is unfinished some thread can take a step: the breaker's locks cannot deadlock |
| DaemonTracers.SumSquared | crates/duende-observe/src/tracer.rs:301-312 | The square of a sum of n deviations is at most n times the sum of their squares |
| DaemonTracers.Samuelson | crates/duende-observe/src/tracer.rs:281-333 | Samuelson's inequality: a count's squared deviation is at most n - 1 times the variance of n counts |
| DaemonTracers.ComparingSquares | crates/duende-observe/src/tracer.rs:312-318 | Comparing squares decides exactly as the detector's square root, its cut-off at 0.001 and its quotient do |
| DaemonTracers.ReportNeedsManySyscalls | crates/duende-observe/src/tracer.rs:281-333 | An anomaly is reported only with n >= 2 distinct system calls seen and, unless the threshold is negative, n - 1 above its square |
| DaemonTracers.DetectIff | crates/duende-observe/src/tracer.rs:281-333 | Exactly what is reported, in whole numbers over the counts: at least 10 samples, n^2 times the variance at least n^2 / 1000000, and the squared n-fold deviation above the squared threshold times n^2 times the variance; LatencySpike exactly for a count times n above the total, ResourceExhaustion otherwise |
| DaemonTracers.AverageIsNotReported | crates/duende-observe/src/tracer.rs:314-323 | With a threshold that is not negative a call at the average is never reported, so ResourceExhaustion means below it |
| DaemonTracers.TwoLevelIsExtreme | crates/duende-observe/src/tracer.rs:281-333 | Samuelson's bound is met with equality when all other counts are equal |
| DaemonTracers.EightyAndFourFives | crates/duende-observe/src/tracer.rs:281-333 | 80 and four times 5 meets the default threshold exactly and is not reported |
| DaemonTracers.ReportableIff | crates/duende-observe/src/tracer.rs:281-333 | For every n and threshold, some histogram of n system calls is reported exactly when n is at least 2 and, unless the threshold is negative, n - 1 exceeds its square |
| DaemonTracers.DistinctNamesAreAPart | crates/duende-observe/src/tracer.rs:345-384 | The counts of different system calls add up to at most all samples |
| DaemonTracers.NeverAllThree | crates/duende-observe/src/tracer.rs:336-397 | No histogram shows busy polling, lock contention and memory churn at once |
| DaemonTracers.ShowsIff | crates/duende-observe/src/tracer.rs:345-394 | Each pattern, in whole numbers over the counts of its named calls: polls more than half and more than 100, futexes more than three tenths and more than 100, allocations more than a fifth and more than 50 |
| DaemonTracers.ReportedInOrder | crates/duende-observe/src/tracer.rs:336-397 | The report lists each pattern shown once, polling before contention before churn |
| DaemonTracers.CombinationIff | crates/duende-observe/src/tracer.rs:336-397 | A combination of the three patterns is shown by some histogram of sampled calls exactly when it is not all three |
| DaemonTracers.DaemonTracer.constructor | crates/duende-observe/src/tracer.rs:44-64 | A new tracer has counted nothing |
| DaemonTracers.DaemonTracer.Attach | crates/duende-observe/src/tracer.rs:71-87 | Attaching to an existing process starts an empty histogram; otherwise nothing changes; the sample count stays the sum of the histogram |
| DaemonTracers.DaemonTracer.Detach | crates/duende-observe/src/tracer.rs:90-97 | Detaching empties the histogram and keeps the sample count its sum |
| DaemonTracers.DaemonTracer.Collect | crates/duende-observe/src/tracer.rs:104-173 | One observed call raises one count by one and keeps the sample count the sum of the histogram; an anomaly at the default threshold comes only with 6 distinct calls, and never more than 2 patterns |
| DaemonTracers.DaemonTracer.DetectFrequencyAnomaly | crates/duende-observe/src/tracer.rs:281-333 | Reports exactly the anomaly that the specification over all counts defines |
| DaemonTracers.DaemonTracer.DetectAntiPatterns | crates/duende-observe/src/tracer.rs:336-397 | Reports exactly the patterns that the histogram shows, in order, and never more than two |
| DaemonTracers.DaemonTracer.SumOfCounts | crates/duende-observe/src/tracer.rs:287-287 | The iterated sum is the total, whatever the order of the map |
| DaemonTracers.DaemonTracer.SumOfSquares | crates/duende-observe/src/tracer.rs:299-307 | The iterated sum of squared deviations, whatever the order of the map |
| DurationMetrics.NextKeepsInv | crates/duende-core/src/metrics.rs:129-147 | Every step of every recorder keeps the invariant, and the maximum never decreases |
| DurationMetrics.RunKeepsInv | crates/duende-core/src/metrics.rs:129-147 | So does every run of any number of recorders |
| DurationMetrics.MaxIsSound | crates/duende-core/src/metrics.rs:129-165 | At every moment of every run, the maximum is 0 or one of the recorded durations, is at least every finished one, and never decreases later |
| DurationMetrics.FinalMaximum | crates/duende-core/src/metrics.rs:129-165 | When all recorders have finished, the maximum is the largest duration recorded |
| DurationMetrics.LargestIsLargest | crates/duende-core/src/metrics.rs:162-165 | The reference maximum is an upper bound that is attained |
| DurationMetrics.FinalAverage | crates/duende-core/src/metrics.rs:129-159 | When all have finished, sum and count are exact modulo 2^64; the average is at most the maximum unless the count has wrapped around, and exact unless the sum has |
| DurationMetrics.AllFinish | crates/duende-core/src/metrics.rs:129-147 | From every reachable state the recorders can all finish |
| DurationMetrics.LoadsOfOneMoment | crates/duende-core/src/metrics.rs:264-280 | The separate loads of a snapshot during which no recorder steps give the average and the maximum of one moment |
| DurationMetrics.ConsistentIff | crates/duende-core/src/metrics.rs:151-165 | In every run: all snapshots whose first load is made now report an average within their maximum, whatever the recorders do meanwhile, exactly if the count is 0 or every choice of pending additions keeps the sum, modulo 2^64, over the present count within the present maximum |
| DurationMetrics.ConsistentWithoutOverflowIff | crates/duende-core/src/metrics.rs:151-165 | While the durations do not overflow the sum: exactly if the count is 0 or the total of all durations over the present count is within the present maximum |
| DurationMetrics.AddChosen | crates/duende-core/src/metrics.rs:129-131 | Any choice of pending recorders has a schedule in which they add to the sum and nothing else happens |
| DurationMetrics.QuietSnapshot | crates/duende-core/src/metrics.rs:264-280 | A caller's sufficient condition, in every run: a snapshot that starts with no recorder halfway and sees no step reports the largest finished duration, and an average that is at most that unless the count has wrapped around and exact unless the sum has |
| DurationMetrics.HalfwayBreaks | crates/duende-core/src/metrics.rs:264-280 | With one recorder halfway and no step during the snapshot, the average is above the maximum, for every duration but 0 |
| DurationMetrics.StepsBreak | crates/duende-core/src/metrics.rs:151-159 | With nobody halfway at any load but a recorder running between the loads of count and sum, the average is twice the maximum |
| DurationMetrics.OverflowBreaks | crates/duende-core/src/metrics.rs:151-165 | With everybody finished and nobody stepping but more than 2^64 recordings, the average is above the maximum |
| DurationMetrics.GenuineFailureProgresses | crates/duende-core/src/metrics.rs:136-146 | Every compare-exchange that fails because of another thread strictly decreases the distance to the maximum |
| DurationMetrics.RunsAreBounded | crates/duende-core/src/metrics.rs:136-146 | The length of every run is bounded by the durations and the number of spurious failures |
| DurationMetrics.DaemonMetrics.RecordDuration | crates/duende-core/src/metrics.rs:129-147 | The compare-exchange loop, under any interference, ends with a maximum at least the old one, the duration and all interference seen, and equal to one of them |
| DurationMetrics.DaemonMetrics.DurationAvg | crates/duende-core/src/metrics.rs:151-159 | Whatever others add between its two loads, the result is the largest whole number that, times the count found first, does not exceed the sum found then, and 0 without recordings |
| ManagerLocks.NextKeepsInv | crates/duende-core/src/manager.rs:246-496 | Every step of every operation keeps the books of the map lock, of every daemon's mutex and of the channels |
| ManagerLocks.RunKeepsInv | crates/duende-core/src/manager.rs:246-496 | So does every run, with calls, with daemons draining or closing channels and with other senders |
| ManagerLocks.SomeoneMoves | crates/duende-core/src/manager.rs:246-496 | With an unfinished operation, some task can step or some signal waits at a full channel, because mutexes are only held under the map lock |
| ManagerLocks.NoDeadlock | crates/duende-core/src/manager.rs:246-496 | The same in every reachable state, for any number of tasks and daemons |
| ManagerLocks.StepDecreases | crates/duende-core/src/manager.rs:246-496 | Every step of every task decreases a well-founded measure, `shutdown_all` included |
| ManagerLocks.ComesToRest | crates/duende-core/src/manager.rs:246-496 | From every such state the steps come to rest, with every operation finished or a signal waiting for room |
| ManagerLocks.StallSurvives | crates/duende-core/src/manager.rs:329-349 | While a signal waits for room and a writer is first in line, no action but a drain of that channel changes that |
| ManagerLocks.StallLasts | crates/duende-core/src/manager.rs:329-349 | In every continuation in which that one daemon does not drain its channel, no operation waiting for the map proceeds, for whichever daemon |
| DaemonManagers.OperationAlone | crates/duende-core/src/manager.rs:246-477 | The lock steps of an operation that nothing interleaves with end at rest with exactly the effect of the sequential model, unless it is a signal that waits for room |
| DaemonManagers.TermsAddUp | crates/duende-core/src/manager.rs:483-496 | In whatever order the daemons are listed, signalling them leaves the same channels: one Term for each daemon that takes signals |
| DaemonManagers.WaitMeansNoRoom | crates/duende-core/src/manager.rs:483-496 | A shutdown waits in the middle only if some channel has no room for all Terms meant for it |
| DaemonManagers.ShutdownAlone | crates/duende-core/src/manager.rs:483-496 | The lock steps of an undisturbed `shutdown_all` end with that result if the channels have room |
| DaemonManagers.EveryStatusIsLeft | crates/duende-core/src/manager.rs:362-376 | From every status, the final ones included, a daemon reaches every other |
| StatusUpdates.StatusAfter | crates/duende-core/src/manager.rs:246-477 | In every reachable state, an action changes the status of a registered daemon only if it is the critical section of an `update_status` of that daemon, and then to that status; a new daemon is `Created` |
| StatusUpdates.FieldsAfter | crates/duende-core/src/manager.rs:362-415 | In every reachable state, an action changes at most the field of a registered daemon that its update is for, and a new daemon is `Created`, without restarts and without a handle |
| StatusUpdates.FieldsAreHistory | crates/duende-core/src/manager.rs:362-415 | In every run from an empty manager, at every moment, a registered daemon's status is the last one set since it was registered, its handle the last one set, and its restart count the number of increments modulo 2^32 |
| StatusUpdates.TransitionsIff | crates/duende-core/src/tests/falsification.rs:198-203 | For every state machine: a run of any number of tasks keeps all registered daemons to it exactly if no update takes effect against it |
| StatusUpdates.FinalStaysIff | crates/duende-core/src/tests/falsification.rs:204-209 | In every run, stopped and failed daemons keep their status for as long as they are registered exactly if no update takes effect on such a status, repetitions aside |
| StatusUpdates.OneCarefulUpdater | crates/duende-core/src/manager.rs:304-376 | If one task does all status updates and queries before each, then final statuses stay final, whatever all other tasks do |
| StatusUpdates.TwoCarefulUpdaters | crates/duende-core/src/manager.rs:304-376 | Two tasks that both query before each update can overwrite a final status |
| DaemonManagers.StallIsReachable | crates/duende-core/src/manager.rs:329-349 | Two tasks and one daemon that does not drain its channel reach such a stall |
| DaemonManagers.DaemonManager.constructor | crates/duende-core/src/manager.rs:220-226 | A new manager has no daemons |
| DaemonManagers.DaemonManager.Register | crates/duende-core/src/manager.rs:246-272 | Adds a daemon that is `Created`, without restarts and without a handle, or refuses an id that is registered; every other daemon stays as it is |
| DaemonManagers.DaemonManager.Unregister | crates/duende-core/src/manager.rs:278-298 | Removes exactly a registered daemon that is neither running nor paused |
| DaemonManagers.DaemonManager.UpdateStatus | crates/duende-core/src/manager.rs:362-376 | Sets the status of that daemon and keeps its restart count, its handle and every other daemon |
| DaemonManagers.DaemonManager.SetContextHandle | crates/duende-core/src/manager.rs:382-398 | Sets the handle of that daemon and keeps its status, its restart count and every other daemon |
| DaemonManagers.DaemonManager.IncrementRestartCount | crates/duende-core/src/manager.rs:404-415 | Counts one restart of that daemon modulo 2^32, returns the new count, and keeps its status, its handle and every other daemon |
| DaemonManagers.DaemonManager.SendSignal | crates/duende-core/src/manager.rs:329-356 | Appends the signal exactly when the daemon is there, takes signals and has an open channel with room; says which of these failed, and waits exactly at a full channel |
| DaemonManagers.DaemonManager.ShutdownAll | crates/duende-core/src/manager.rs:483-496 | Returns exactly when every open channel has room for its Terms, and each has then got one for every daemon that leads to it |
| Backoff.DelayPanicsIff | crates/duende-core/src/manager.rs:136-142 | The conversion of a delay panics exactly for a negative multiplier, a positive initial delay and an odd count; otherwise the delay lies between 0 and the maximum |
| Backoff.DelayIsClosedForm | crates/duende-core/src/manager.rs:136-142 | Below 2^31 and for every multiplier that is not negative, the delay is the capped closed form |
| Backoff.DelayInFull | crates/duende-core/src/manager.rs:136-142 | The delay for every configuration and every 32-bit count, negative and zero multipliers and wrapped exponents included |
| Backoff.RestartDelayIs | crates/duende-core/src/manager.rs:67-72 | One second with every policy but a backoff, and with a backoff the uncapped exponential or the maximum, whichever is smaller |
| Backoff.CappedRecurrence | crates/duende-core/src/manager.rs:136-142 | The closed form satisfies d(0) = min(initial, max) and d(n+1) = min(multiplier d(n), max) |
| Backoff.DelaysIncrease | crates/duende-core/src/manager.rs:136-142 | Delays never decrease, and stay at the maximum once there |
| Backoff.ExponentialIff | crates/duende-core/src/tests/falsification.rs:266-271 | For every configuration and every 32-bit count with a successor: the next delay is at least the multiplier times this one exactly where nothing grows, or where the next count is not 2^31 and the uncapped delay there is within the maximum; with a negative multiplier exactly if the initial delay is 0 |
| Backoff.AlwaysExponentialIff | crates/duende-core/src/tests/falsification.rs:266-271 | It holds for all counts exactly for configurations whose delays do not grow |
| Backoff.WrappingStep | crates/duende-core/src/manager.rs:138-139 | At 2^31 it holds exactly where nothing grows, whether or not the maximum has been reached |
| Backoff.UncappedDelayDrops | crates/duende-core/src/manager.rs:138-139 | A configuration whose delays never reach the maximum and still drop below the initial delay at 2^31 |
| Backoff.DefaultStopsDoubling | crates/duende-core/src/manager.rs:88-97 | Below 2^31, the default delays at least double exactly up to 256 seconds at count 8; count 9 waits 300 |
| Backoff.WrappedDelay | crates/duende-core/src/manager.rs:138-139 | From 2^31 on the exponent wraps to a negative one, and a growing delay is at most the initial one |
| Backoff.WrappedDelaysIncrease | crates/duende-core/src/manager.rs:138-139 | From there on growing delays never decrease again |
| Backoff.DelayDropsIff | crates/duende-core/src/manager.rs:138-139 | Exactly when the delay after the wrap is smaller than the delay before it |
| Backoff.RestartsExactly | crates/duende-core/src/manager.rs:46-63 | For every policy and every sequence of exits, the number of restarts in closed form |
| Backoff.DelayIsBounded | crates/duende-core/src/tests/falsification.rs:272-277 | For every 32-bit count and every multiplier that is not negative, no delay exceeds the maximum, nor the uncapped exponential unless a shrinking one has wrapped |
| Backoff.GeometricSum | crates/duende-core/src/manager.rs:136-142 | The closed form of the geometric sum |
| Backoff.TotalWaitBounds | crates/duende-core/src/manager.rs:67-72 | The total wait over n restarts is at most n times the maximum and, unless a shrinking delay wraps, at most the geometric sum |
| Backoff.BackoffIsBounded | crates/duende-core/src/manager.rs:46-72 | For every sequence of exits, a backoff policy restarts at most `max_retries` times, and the total wait is bounded both ways |
| DaemonContexts.Fifo | crates/duende-core/src/daemon.rs:171-228 | In every history, the signals sent are those received, in order, followed by those still waiting |
| DaemonContexts.QueueIsBounded | crates/duende-core/src/daemon.rs:173-173 | Never more than 16 signals wait |
| Signals.UnixNumbers | crates/duende-core/src/types.rs:151-163 | The signal numbers, and the channel's sixteen places |
| DaemonContexts.ShutdownIff | crates/duende-core/src/daemon.rs:193-228 | The flag is set exactly when a shutdown was requested or a Term, Int or Quit was received |
| DaemonContexts.PollsReceive | crates/duende-core/src/daemon.rs:200-211 | Polls receive everything sent before them, as far as there are polls |
| DaemonContexts.SixteenPollsSuffice | crates/duende-core/src/daemon.rs:200-211 | A termination signal that was sent sets the flag within sixteen polls, whatever is sent meanwhile |
| DaemonContexts.FifteenPollsAreNotEnough | crates/duende-core/src/daemon.rs:200-211 | Fifteen polls can leave the flag unset |
| DaemonContexts.DaemonContext.constructor | crates/duende-core/src/daemon.rs:172-184 | A new context has received nothing |
| DaemonContexts.DaemonContext.RequestShutdown | crates/duende-core/src/daemon.rs:193-195 | The contents become those of the history with this request |
| DaemonContexts.DaemonContext.TryRecvSignal | crates/duende-core/src/daemon.rs:200-211 | Returns the first signal not yet received, or None exactly when all have been; a termination signal sets the flag |
| DaemonContexts.DaemonContext.Drop | crates/duende-core/src/daemon.rs:233-250 | The context is gone; what was sent and received stays as it was |
| DaemonContexts.DaemonContext.SendSignal | crates/duende-core/src/daemon.rs:245-250 | Appends the signal, or fails exactly if the context is gone, or must wait exactly when 16 signals are sent and not received |
| HealthMonitors.UnhealthyExtends | crates/duende-observe/src/health.rs:299-387 | How one more check changes the history's verdict, in terms of the current streaks |
| HealthMonitors.FlagBounds | crates/duende-observe/src/health.rs:299-387 | In every history an unhealthy daemon has a success streak below the recovery threshold and enough failures, and a healthy one a failure streak below the failure threshold |
| HealthMonitors.TrailingIsBlock | crates/duende-observe/src/health.rs:164-180 | The consecutive counters are the longest block at the end of the history |
| HealthMonitors.FailureJudged | crates/duende-observe/src/health.rs:332-355 | After a failure, comparing the wrapped counter with the threshold decides exactly what the history says |
| HealthMonitors.SuccessJudged | crates/duende-observe/src/health.rs:308-331 | After a success, the comparison decides exactly whether the history recovers |
| HealthMonitors.RecoveryIsExact | crates/duende-observe/src/health.rs:312-318 | At every recovery the success streak is exactly the recovery threshold, and the total failures reach the failure threshold |
| HealthMonitors.ReportIsShort | crates/duende-observe/src/health.rs:312-321 | At every recovery of every history, the reported number is the number of failures so far less the recovery threshold modulo 2^32, and so never that number |
| HealthMonitors.UnderflowIff | crates/duende-observe/src/health.rs:312-314 | Some history underflows the recovery bookkeeping exactly when max(1, failure threshold) is less than max(1, recovery threshold) |
| HealthMonitors.FailuresThenSuccesses | crates/duende-observe/src/health.rs:299-325 | The state after exactly enough failures and then too few successes |
| HealthMonitors.FailuresFromTheStart | crates/duende-observe/src/health.rs:332-348 | After n failures from the start a daemon is unhealthy exactly if n is at least 1 and at least the failure threshold |
| HealthMonitors.SuccessesFromTheStart | crates/duende-observe/src/health.rs:308-325 | And after m successes it still is exactly if m is 0 or below the recovery threshold |
| HealthMonitors.DaemonHealthState.constructor | crates/duende-observe/src/health.rs:150-161 | A new state is that of the empty history, healthy |
| HealthMonitors.DaemonHealthState.RecordSuccess | crates/duende-observe/src/health.rs:164-170 | The counters become those of the history with this success; the flag stays |
| HealthMonitors.DaemonHealthState.RecordFailure | crates/duende-observe/src/health.rs:173-180 | The counters become those of the history with this failure; the flag stays |
| HealthMonitors.HealthMonitor.constructor | crates/duende-observe/src/health.rs:221-231 | A new monitor has no daemons |
| HealthMonitors.HealthMonitor.Register | crates/duende-observe/src/health.rs:251-255 | Gives that daemon a state with an empty history and leaves the others theirs |
| HealthMonitors.HealthMonitor.Unregister | crates/duende-observe/src/health.rs:258-262 | Removes that daemon's state |
| HealthMonitors.HealthMonitor.RecordCheck | crates/duende-observe/src/health.rs:299-358 | The flag is unhealthy exactly when the history with this check has a block of failures of the threshold's length and no later block of successes of the recovery threshold's; the events follow from the history |
| HealthMonitors.HealthMonitor.CheckSucceeded | crates/duende-observe/src/health.rs:308-331 | The success branch, with the recovery event exactly at a recovery |
| HealthMonitors.HealthMonitor.CheckFailed | crates/duende-observe/src/health.rs:332-355 | The failure branch, with the failure streak in the event |
| HealthMonitors.HealthMonitor.RecordTimeout | crates/duende-observe/src/health.rs:361-387 | A timeout counts as a failed check in the history and leaves no status; only a timeout event is sent, even where the flag turns |
| UblkControls.Interpret | crates/duende-ublk/src/control.rs:407-423 | Success exactly for a result that is not negative, a missing device exactly for ENOENT, a busy one exactly for EBUSY, and otherwise the error carries the result; never a timeout |
| UblkControls.UblkControl.constructor | crates/duende-ublk/src/control.rs:48-75 | A new ring has nothing outstanding |
| UblkControls.UblkControl.KernelFinishes | crates/duende-ublk/src/control.rs:60-62 | The kernel finishing commands, in any order, moves exactly these to the completions, in that order and with these results, and loses none |
| UblkControls.UblkControl.Submit | crates/duende-ublk/src/control.rs:160-175 | A command is pushed unless the ring is full, and stays outstanding even where the submission fails |
| UblkControls.UblkControl.AwaitCompletion | crates/duende-ublk/src/control.rs:177-205 | The polling loop takes the oldest waiting completion, or else the first that turns up in the looks up to and including the first late one; it times out only if nothing did, and counts that |
| UblkControls.UblkControl.SendCommand | crates/duende-ublk/src/control.rs:152-206 | With an in-order kernel a submitted command is answered exactly if a completion was waiting or the kernel finishes something by the first late look; with any kernel a waiting completion is taken, and a timeout means that nothing turned up. The commands outstanding between calls number exactly the timeouts and failed submissions so far; without a backlog the answer is that of the command just sent; with k outstanding and a kernel that finishes in order it is that of the command k calls earlier |
| UblkControls.UblkControl.ForceDelete | crates/duende-ublk/src/control.rs:216-223 | After a stop that completed, the answer is the deletion's; after a stop that timed out, with an in-order kernel, it is the stop's |
| UblkControls.CharDeviceIdIff | crates/duende-ublk/src/control.rs:346-348 | A name parses to an id exactly when it is the prefix followed by a spelling of that 32-bit id; printing an id and parsing it gives it back |
| UblkControls.ReportedIff | crates/duende-ublk/src/control.rs:372-398 | An id is reported exactly when some name parses to it and its block device is absent |
| UblkControls.RepeatsIff | crates/duende-ublk/src/control.rs:372-398 | An id is reported twice exactly when two names of orphans spell the same id |
| UblkControls.AliasExample | crates/duende-ublk/src/control.rs:346-348 | Every id has a second spelling, with a leading zero, and both are reported |
| UblkControls.DetectOrphansInDir | crates/duende-ublk/src/control.rs:372-398 | A missing directory has no orphans; an error while reading is an error; otherwise exactly the orphans of the listing |
| UblkControls.ScanEntries | crates/duende-ublk/src/control.rs:381-397 | The loop fails on the first unreadable entry and otherwise reports the orphans in order |
| Decimal.ParseDigitsIff | crates/duende-ublk/src/control.rs:346-348 | Digit by digit parsing with overflow checks succeeds exactly on digits whose value is in range, with that value |
| Decimal.PrintValue | crates/duende-ublk/src/control.rs:359-367 | Printing gives digits whose value is the number |
| Decimal.ParseIff | crates/duende-ublk/src/control.rs:346-348 | A text parses to n exactly when n is in range and the text is n's print with leading zeros and at most one leading plus sign |
| Decimal.ParsePrint | crates/duende-ublk/src/control.rs:346-367 | Parsing undoes printing for every number in range |
| Decimal.BaseTen | crates/duende-ublk/src/control.rs:359-367 | Printing appends the last decimal digit to the print of the tenth part |
| WosAdapters.FreshPid | crates/duende-platform/src/wos.rs:186-188 | The first 2^32 allocated ids are all different |
| WosAdapters.ActKeepsInv | crates/duende-platform/src/wos.rs:270-336 | Every step of every caller keeps the invariant that each id is in at most one place: about to be inserted, in the table or about to be removed, or finished |
| WosAdapters.RunKeepsInv | crates/duende-platform/src/wos.rs:270-336 | So does every run, and finished processes stay finished |
| WosAdapters.KillGoesOnToRemove | crates/duende-platform/src/wos.rs:247-335 | Kill and Term on a process in the table always go on to remove it |
| WosAdapters.TerminationIsFinal | crates/duende-platform/src/wos.rs:308-354 | Once a call that terminated a process has returned, in every continuation within 2^32 allocations the process is never in the table again and its status is Stopped |
| WosAdapters.KilledThenRunning | crates/duende-platform/src/wos.rs:325-333 | Before the call returns, a Stop in the gap turns the status from failed back to running |
| WosAdapters.WraparoundReusesPid | crates/duende-platform/src/wos.rs:33-33 | With one allocation more than 2^32, a killed process can be in the table again |
| WosAdapters.WosAdapter.constructor | crates/duende-platform/src/wos.rs:155-163 | A new table is empty |
| WosAdapters.WosAdapter.Spawn | crates/duende-platform/src/wos.rs:270-306 | Adds a running process, and the handle's text parses back to its id |
| WosAdapters.WosAdapter.Signal | crates/duende-platform/src/wos.rs:308-336 | Kill and Term remove the process, Stop blocks it, Cont wakes a blocked one, and the others leave it, as they all do every other process; says exactly when the handle or its id is wrong or the process is absent |
| WosAdapters.WosAdapter.Status | crates/duende-platform/src/wos.rs:338-354 | Stopped exactly for a process that is absent or has exited with 0, running for ready, running and blocked ones, created for created ones, and failed with the exit code or with signal 9 or 15 |
| LoadTesters.NextConserves | crates/duende-test/src/load.rs:109-121 | Every step of every worker keeps the counters' balance |
| LoadTesters.RunConserves | crates/duende-test/src/load.rs:109-249 | At every moment of every run, total = successful + failed + workers between their two increments, and successful = latencies + workers about to push |
| LoadTesters.FinalCounts | crates/duende-test/src/load.rs:194-257 | When all workers have finished the counters agree exactly; under a cap m per user the total is at most users times m, with equality if no deadline is hit |
| LoadTesters.FailuresBelow | crates/duende-test/src/load.rs:224-228 | The default handler fails exactly the multiples of 100, and the request numbers below n that it fails number n/100 rounded up |
| LoadTesters.RunKeepsDefault | crates/duende-test/src/load.rs:203-244 | Every worker keeps that count in every interleaving |
| LoadTesters.DefaultHandlerNeverPasses | crates/duende-test/src/load.rs:203-355 | With the default handler, each worker fails exactly n/100 rounded up of its n requests, and the report passes exactly when there were no requests |
| LoadTesters.PassedIff | crates/duende-test/src/load.rs:353-355 | A report passes exactly if there was no request or 100 times the failures are fewer than the requests |
| LoadTesters.AlwaysPassesIff | crates/duende-test/src/load.rs:203-355 | With the default handler, every finished test of a configuration passes exactly if it has no users or a cap of 0 requests per user |
| LoadTesters.OneRequest | crates/duende-test/src/load.rs:203-244 | Any other configuration has a finished test of one request, which fails |
| LoadTesters.LoadMetrics.RecordSuccess | crates/duende-test/src/load.rs:110-116 | Counts one success with its latency and nothing else |
| LoadTesters.LoadMetrics.RecordFailure | crates/duende-test/src/load.rs:118-121 | Counts one failure and nothing else |
| LoadTesters.RunWorker | crates/duende-test/src/load.rs:203-244 | With a supplied or the default handler, the worker's loop stops at the deadline or the cap, whichever comes first, counts each request once by its outcome, and keeps the latencies of the successful ones in order |
| LoadTesters.CountPermuted | crates/duende-test/src/load.rs:259-260 | How many samples are at most or at least a value does not depend on their order |
| LoadTesters.PercentileIsOrderStatistic | crates/duende-test/src/load.rs:259-327 | Of L unsorted samples, at least idx + 1 are at most the reported percentile and at least L - idx are at least it, and it is one of them |
| LoadTesters.PercentileRank | crates/duende-test/src/load.rs:259-327 | In numbers, for L unsorted samples and p below 100: more than L p / 100 of them are at most the reported value and at most L p / 100 are below it; from p = 100 on it is the largest |
| LoadTesters.PercentilesIncrease | crates/duende-test/src/load.rs:262-270 | Higher percentiles are at least as large |
| LoadTesters.SortedIsUnique | crates/duende-test/src/load.rs:259-260 | The samples have only one sorted arrangement, so the unstable sort gives a definite result |
| StatLine.LastParen | crates/duende-observe/src/monitor.rs:210-212 | The position of the last closing parenthesis, and None exactly without one |
| StatLine.SliceIff | crates/duende-observe/src/monitor.rs:214-214 | Slicing at a byte offset gives the suffix that starts there, and panics exactly where no character starts |
| StatLine.PanicsIff | crates/duende-observe/src/monitor.rs:210-214 | With the two bytes counted in UTF-8, the parser panics exactly on a text whose last closing parenthesis ends it or is followed by a character outside ASCII |
| StatLine.FieldsOfJoin | crates/duende-observe/src/monitor.rs:215-215 | Splitting at white space undoes joining the fields |
| StatLine.CommandNameIsIgnored | crates/duende-observe/src/monitor.rs:208-222 | The parser reads exactly the fields after the command name, whatever spaces and parentheses the name contains |
| StatLine.RoundTrip | crates/duende-observe/src/monitor.rs:208-251 | Printing a line with these counters and parsing it gives back state, both times and the thread count |
| StatLine.StateLetters | crates/duende-observe/src/monitor.rs:226-233 | The state for every first letter of its field: R, S, D, Z, and T or t |
| StatLine.ParseFieldsIff | crates/duende-observe/src/monitor.rs:218-250 | Exactly when each error is returned, by the number of fields and the spellings of fields 11, 12 and 17, and that a result carries the numbers spelled there |
| StatLine.FieldsAreWords | crates/duende-observe/src/monitor.rs:215-215 | Splitting keeps every character but the white space, in order, and makes no empty field |
| StatLine.PrintIsField | crates/duende-observe/src/monitor.rs:234-243 | Printed numbers are fields, so such lines exist for all counters |

## Left out

- Objects shared between threads are values in the step models, so that every interleaving can be quantified over; the classes beside them are called by one thread at a time.
- `LoadTester::run` itself is not a method: its workers are steps, its loop is `RunWorker`, and its in-place unstable sort is any sorted arrangement of the samples, of which there is only one.
- Memory ordering weaker than interleaving, lock poisoning and panics inside a lock.
- CircuitBreakers.CircuitBreaker.Allow: is stated for one thread at a time, because with more it is false: `CircuitBreakerThreads.RequestComesEarly` is a run in which a request is let through early.
- DaemonTracers.Samuelson: is over the reals; rounding, infinities and NaN of floating point are not modelled, here or in the backoff and the load report, and the histogram's 64-bit counts do not wrap.
- Backoff.DelayIsClosedForm: is over the reals, so a delay too large for a `Duration` does not occur.
- WosAdapters.TerminationIsFinal: is bounded by 2^32 allocations because the id counter wraps, and `WraparoundReusesPid` shows that the bound is needed.
- DaemonManagers.DaemonManager.IncrementRestartCount: wraps around as release builds do; a debug build panics instead.
- DaemonManagers.DaemonManager.SendSignal: returns `WouldWait` where the source waits; what happens while it waits is the subject of the step model.
- DaemonContexts.DaemonContext.SendSignal: returns `MustWait` where the source waits; senders that wait are in the manager's step model. `recv_signal` is a poll that found a signal.
- UblkControls.UblkControl.SendCommand: takes what the kernel does during the call as a parameter, in which the five seconds do elapse unless a completion is found.
- HealthMonitors.HealthMonitor.RecordCheck: wraps its 32-bit streaks as release builds do, and does not wrap its 64-bit totals; event subscription, timestamps and statistics are not modelled.
- `crates/duende-observe/src/health.rs` is not declared in `crates/duende-observe/src/lib.rs:36-38` and uses an error variant that does not exist; its logic is modelled as written.
- The manager's read-only operations are one kind of step, `Query`, without their results; `last_started` and `last_health` are not kept.
- `get_device_info`, the ring's mapping and command layout, and `cleanup_orphaned_devices`: foreign memory and device files. `detect_orphaned_devices` is the same scan over `/dev`.
- The tracer's reading of `/proc`, its names for system call numbers, its critical path, and the texts and severities of its findings.
- The monitor's CPU and memory readings, its history buffer and the readers of `statm` and `io`.
- Other counters and gauges of the metrics, which are single stores.
- WOS priorities, aging and memory limits, which no modelled operation reads.
- Adapters for systemd, launchd, containers and virtual machines: commands run elsewhere and their output.
- Memory locking, cgroup limits and platform detection: single system calls or file writes.
- Serialization, display, builders and getters.
- `QualityGate`, `JidokaGate`, the chaos injector and the signal number tables: one branch each or a finite table.
