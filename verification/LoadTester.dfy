/** The load tester: concurrent workers that share counters, and the report. */
module LoadTesters {
  import opened Options
  import opened Reals
  import opened Sums

  // ----- any number of workers

  /** Where a worker is in its loop.  `Finished.byDeadline` says which test ended it. */
  datatype Pc =
    | Check
    | Execute
    | CountTotal(success: bool, latency: nat)
    | CountOutcome(success: bool, latency: nat)
    | PushLatency(latency: nat)
    | Finished(byDeadline: bool)

  /** `succeeded` and `failed` are the outcomes this worker has counted. */
  datatype Worker = Worker(pc: Pc, requestId: nat, succeeded: nat, failed: nat)

  datatype System = System(total: nat, successful: nat, failed: nat, latencies: seq<nat>, workers: seq<Worker>)

  /** A step of a worker, with what the clock, the handler and the stopwatch say. */
  datatype Step = Step(worker: nat, late: bool, success: bool, latency: nat)

  predicate Enabled(s: System, st: Step) {
    st.worker < |s.workers| && !s.workers[st.worker].pc.Finished?
  }

  function NextRequest(w: Worker): Worker {
    w.(pc := Check, requestId := w.requestId + 1)
  }

  function Next(cap: Option<nat>, s: System, st: Step): System
    requires Enabled(s, st)
  {
    var w := s.workers[st.worker];
    match w.pc
    case Check =>
      With(s, st, w.(pc := if st.late then Finished(true)
                           else if cap.Some? && w.requestId >= cap.value then Finished(false)
                           else Execute))
    case Execute => With(s, st, w.(pc := CountTotal(st.success, st.latency)))
    case CountTotal(success, latency) =>
      With(s, st, w.(pc := CountOutcome(success, latency))).(total := s.total + 1)
    case CountOutcome(success, latency) =>
      if success then
        With(s, st, w.(pc := PushLatency(latency), succeeded := w.succeeded + 1)).(successful := s.successful + 1)
      else With(s, st, NextRequest(w).(failed := w.failed + 1)).(failed := s.failed + 1)
    case PushLatency(latency) => With(s, st, NextRequest(w)).(latencies := s.latencies + [latency])
    case Finished(_) => s
  }

  function With(s: System, st: Step, w: Worker): System
    requires st.worker < |s.workers|
  {
    s.(workers := s.workers[st.worker := w])
  }

  function Start(users: nat): System {
    System(0, 0, 0, [], seq(users, _ => Worker(Check, 0, 0, 0)))
  }

  predicate Runs(cap: Option<nat>, s: System, run: seq<Step>, s': System)
    decreases |run|
  {
    if run == [] then s' == s else Enabled(s, run[0]) && Runs(cap, Next(cap, s, run[0]), run[1..], s')
  }

  ghost predicate AllFinished(s: System) {
    forall i | 0 <= i < |s.workers| :: s.workers[i].pc.Finished?
  }

  // ----- conservation

  /** Between its first and its second increment; between its second and its push. */
  function HalfCounted(w: Worker): nat {
    if w.pc.CountOutcome? then 1 else 0
  }

  function AboutToPush(w: Worker): nat {
    if w.pc.PushLatency? then 1 else 0
  }

  function SucceededOf(w: Worker): nat {
    w.succeeded
  }

  function FailedOf(w: Worker): nat {
    w.failed
  }

  function RequestsOf(w: Worker): nat {
    w.requestId
  }

  ghost predicate Conserved(s: System) {
    && s.total == s.successful + s.failed + SumOf(s.workers, HalfCounted)
    && s.successful == |s.latencies| + SumOf(s.workers, AboutToPush)
    && s.successful == SumOf(s.workers, SucceededOf)
    && s.failed == SumOf(s.workers, FailedOf)
  }

  ghost predicate WorkersInv(cap: Option<nat>, s: System) {
    forall i | 0 <= i < |s.workers| ::
      var w := s.workers[i];
      && w.succeeded + w.failed == w.requestId + AboutToPush(w)
      && (cap.Some? ==> w.requestId <= cap.value)
      && (cap.Some? && !w.pc.Check? && !w.pc.Finished? ==> w.requestId < cap.value)
      && (w.pc.Finished? && !w.pc.byDeadline ==> cap == Some(w.requestId))
  }

  lemma NextConserves(cap: Option<nat>, s: System, st: Step)
    requires Conserved(s) && Enabled(s, st)
    ensures Conserved(Next(cap, s, st))
  {
    var i, w' := st.worker, Next(cap, s, st).workers[st.worker];
    SumUpdate(s.workers, i, w', HalfCounted);
    SumUpdate(s.workers, i, w', AboutToPush);
    SumUpdate(s.workers, i, w', SucceededOf);
    SumUpdate(s.workers, i, w', FailedOf);
  }

  lemma NextKeepsWorkers(cap: Option<nat>, s: System, st: Step)
    requires WorkersInv(cap, s) && Enabled(s, st)
    ensures WorkersInv(cap, Next(cap, s, st))
  {}

  /** In every interleaving: the total is what has succeeded, what has failed, and the
      workers caught between their two increments; every success has its latency or a worker
      about to push it. */
  lemma {:induction false} RunConserves(cap: Option<nat>, s: System, run: seq<Step>, s': System)
    requires Conserved(s) && WorkersInv(cap, s) && Runs(cap, s, run, s')
    ensures Conserved(s') && WorkersInv(cap, s') && |s'.workers| == |s.workers|
    decreases |run|
  {
    if run == [] {
    } else {
      NextConserves(cap, s, run[0]);
      NextKeepsWorkers(cap, s, run[0]);
      RunConserves(cap, Next(cap, s, run[0]), run[1..], s');
    }
  }

  lemma StartConserved(cap: Option<nat>, users: nat)
    ensures Conserved(Start(users)) && WorkersInv(cap, Start(users))
  {
    var ws := Start(users).workers;
    SumBound(ws, HalfCounted, 0);
    SumBound(ws, AboutToPush, 0);
    SumBound(ws, SucceededOf, 0);
    SumBound(ws, FailedOf, 0);
  }

  lemma {:induction false} OutcomesAreRequests(ws: seq<Worker>)
    requires forall i | 0 <= i < |ws| :: ws[i].succeeded + ws[i].failed == ws[i].requestId
    ensures SumOf(ws, SucceededOf) + SumOf(ws, FailedOf) == SumOf(ws, RequestsOf)
  {
    if ws == [] {
    } else {
      OutcomesAreRequests(ws[..|ws| - 1]);
    }
  }

  lemma {:induction false} SumExactly(ws: seq<Worker>, n: nat)
    requires forall i | 0 <= i < |ws| :: ws[i].requestId == n
    ensures SumOf(ws, RequestsOf) == |ws| * n
  {
    if ws == [] {
    } else {
      SumExactly(ws[..|ws| - 1], n);
      assert |ws| * n == (|ws| - 1) * n + n;
    }
  }

  /** When all workers have finished, the three counters and the latencies agree exactly with
      the requests made; under a cap they are at most users times the cap, with equality if
      no worker was ended by the deadline. */
  lemma FinalCounts(cap: Option<nat>, users: nat, run: seq<Step>, s: System)
    requires Runs(cap, Start(users), run, s) && AllFinished(s)
    ensures s.total == s.successful + s.failed == SumOf(s.workers, RequestsOf)
    ensures |s.latencies| == s.successful
    ensures cap.Some? ==> s.total <= users * cap.value
    ensures cap.Some? && (forall i | 0 <= i < |s.workers| :: !s.workers[i].pc.byDeadline) ==>
              s.total == users * cap.value
  {
    StartConserved(cap, users);
    RunConserves(cap, Start(users), run, s);
    SumBound(s.workers, HalfCounted, 0);
    SumBound(s.workers, AboutToPush, 0);
    OutcomesAreRequests(s.workers);
    if cap.Some? {
      SumBound(s.workers, RequestsOf, cap.value);
      if forall i | 0 <= i < |s.workers| :: !s.workers[i].pc.byDeadline {
        SumExactly(s.workers, cap.value);
      }
    }
  }

  // ----- the default handler

  /** A request fails when its number is a multiple of 100. */
  predicate DefaultSucceeds(requestId: nat) {
    requestId % 100 != 0
  }

  ghost predicate ByDefault(cap: Option<nat>, s: System, run: seq<Step>, s': System)
    requires Runs(cap, s, run, s')
    decreases |run|
  {
    run == [] ||
    (&& (s.workers[run[0].worker].pc.Execute? ==> run[0].success == DefaultSucceeds(s.workers[run[0].worker].requestId))
     && ByDefault(cap, Next(cap, s, run[0]), run[1..], s'))
  }

  /** One hundredth, rounded up. */
  function Hundredth(n: nat): nat {
    (n + 99) / 100
  }

  ghost predicate DefaultInv(s: System) {
    forall i | 0 <= i < |s.workers| ::
      var w := s.workers[i];
      && w.failed == Hundredth(w.requestId)
      && (w.pc.CountTotal? || w.pc.CountOutcome? ==> w.pc.success == DefaultSucceeds(w.requestId))
      && (w.pc.PushLatency? ==> DefaultSucceeds(w.requestId))
  }

  lemma HundredthStep(n: nat)
    ensures Hundredth(n + 1) == Hundredth(n) + if DefaultSucceeds(n) then 0 else 1
  {}

  /** Among the first n requests, the default handler fails n/100, rounded up. */
  lemma {:induction false} FailuresBelow(n: nat)
    ensures |set k: nat | k < n && !DefaultSucceeds(k)| == Hundredth(n)
    ensures n <= 100 * Hundredth(n) < n + 100
    ensures forall k: nat :: !DefaultSucceeds(k) <==> k % 100 == 0
  {
    if n == 0 {
      assert (set k: nat | k < n && !DefaultSucceeds(k)) == {};
    } else {
      FailuresBelow(n - 1);
      HundredthStep(n - 1);
      var before, after := set k: nat | k < n - 1 && !DefaultSucceeds(k), set k: nat | k < n && !DefaultSucceeds(k);
      assert after == if DefaultSucceeds(n - 1) then before else before + {n - 1};
    }
  }

  lemma {:induction false} RunKeepsDefault(cap: Option<nat>, s: System, run: seq<Step>, s': System)
    requires DefaultInv(s) && Runs(cap, s, run, s') && ByDefault(cap, s, run, s')
    ensures DefaultInv(s')
    decreases |run|
  {
    if run == [] {
    } else {
      HundredthStep(s.workers[run[0].worker].requestId);
      RunKeepsDefault(cap, Next(cap, s, run[0]), run[1..], s');
    }
  }

  lemma {:induction false} FailuresAreHundredths(ws: seq<Worker>)
    requires forall i | 0 <= i < |ws| :: ws[i].failed == Hundredth(ws[i].requestId)
    ensures 100 * SumOf(ws, FailedOf) >= SumOf(ws, RequestsOf)
  {
    if ws == [] {
    } else {
      FailuresAreHundredths(ws[..|ws| - 1]);
    }
  }

  /** The report's error rate, and whether the test passed: below 1%. */
  function ErrorRate(total: nat, failed: nat): real {
    if total > 0 then failed as real / total as real else 0.0
  }

  predicate Passed(errorRate: real) {
    errorRate < 0.01
  }

  /** Passing means that fewer than one request in a hundred failed, or that there was none. */
  lemma PassedIff(total: nat, failed: nat)
    ensures Passed(ErrorRate(total, failed)) <==> total == 0 || 100 * failed < total
  {
    if total > 0 {
      RateIs(total, failed);
    }
  }

  lemma RateIs(total: nat, failed: nat)
    requires total > 0
    ensures failed as real / total as real < 0.01 <==> 100 * failed < total
  {
    var t, f := total as real, failed as real;
    DivideAndMultiply(f, t);
    ScaledLe(t, 0.01, f / t);
    assert (100 * failed) as real == 100.0 * f;
  }

  /** With the default handler a worker that made n requests fails exactly n/100 of them,
      rounded up, so a load test that made any request at all never passes. */
  lemma DefaultHandlerNeverPasses(cap: Option<nat>, users: nat, run: seq<Step>, s: System)
    requires Runs(cap, Start(users), run, s) && ByDefault(cap, Start(users), run, s) && AllFinished(s)
    ensures forall i | 0 <= i < |s.workers| :: s.workers[i].failed == Hundredth(s.workers[i].requestId)
    ensures s.failed == SumOf(s.workers, FailedOf)
    ensures Passed(ErrorRate(s.total, s.failed)) <==> s.total == 0
  {
    StartConserved(cap, users);
    RunConserves(cap, Start(users), run, s);
    RunKeepsDefault(cap, Start(users), run, s);
    FinalCounts(cap, users, run, s);
    FailuresAreHundredths(s.workers);
    if s.total > 0 {
      RateBound(s.total, s.failed);
    }
  }

  /** Some run with the default handler ends there, with all workers finished. */
  ghost predicate CanEnd(cap: Option<nat>, s: System, s': System) {
    AllFinished(s') && exists run :: Runs(cap, s, run, s') && ByDefault(cap, s, run, s')
  }

  /** One step before a default run that finishes. */
  lemma OneStepMore(cap: Option<nat>, s: System, st: Step, s': System)
    requires Enabled(s, st)
    requires s.workers[st.worker].pc.Execute? ==> st.success == DefaultSucceeds(s.workers[st.worker].requestId)
    requires CanEnd(cap, Next(cap, s, st), s')
    ensures CanEnd(cap, s, s')
  {
    var next := Next(cap, s, st);
    var run :| Runs(cap, next, run, s') && ByDefault(cap, next, run, s');
    assert ([st] + run)[1..] == run;
    assert Runs(cap, s, [st] + run, s') && ByDefault(cap, s, [st] + run, s');
  }

  /** The deadline passes: all workers from the i-th on check it and finish. */
  lemma {:induction false} AllEnd(cap: Option<nat>, s: System, i: nat) returns (s': System)
    requires i <= |s.workers|
    requires forall j | 0 <= j < |s.workers| :: if j < i then s.workers[j].pc.Finished? else s.workers[j].pc.Check?
    ensures CanEnd(cap, s, s') && s'.total == s.total && s'.failed == s.failed
    decreases |s.workers| - i
  {
    if i == |s.workers| {
      s' := s;
      assert Runs(cap, s, [], s') && ByDefault(cap, s, [], s');
    } else {
      var st := Step(i, true, false, 0);
      s' := AllEnd(cap, Next(cap, s, st), i + 1);
      OneStepMore(cap, s, st, s');
    }
  }

  /** The first worker makes one request, and then the deadline passes. */
  lemma OneRequest(cap: Option<nat>, users: nat) returns (s: System)
    requires users > 0 && cap != Some(0)
    ensures CanEnd(cap, Start(users), s) && s.total == s.failed == 1
  {
    var st := Step(0, false, false, 0);
    var s0 := Start(users);
    var s1 := Next(cap, s0, st);
    var s2 := Next(cap, s1, st);
    var s3 := Next(cap, s2, st);
    var s4 := Next(cap, s3, st);
    s := AllEnd(cap, s4, 0);
    OneStepMore(cap, s3, st, s);
    OneStepMore(cap, s2, st, s);
    OneStepMore(cap, s1, st, s);
    OneStepMore(cap, s0, st, s);
  }

  /** Every finished load test with the default handler passes. */
  ghost predicate AlwaysPasses(cap: Option<nat>, users: nat) {
    forall run, s | Runs(cap, Start(users), run, s) && ByDefault(cap, Start(users), run, s) && AllFinished(s) ::
      Passed(ErrorRate(s.total, s.failed))
  }

  /** By the configuration: exactly where no user may make a request. */
  lemma AlwaysPassesIff(cap: Option<nat>, users: nat)
    ensures AlwaysPasses(cap, users) <==> users == 0 || cap == Some(0)
  {
    if users == 0 || cap == Some(0) {
      forall run, s | Runs(cap, Start(users), run, s) && ByDefault(cap, Start(users), run, s) && AllFinished(s)
        ensures Passed(ErrorRate(s.total, s.failed))
      {
        NoRequests(cap, users, run, s);
      }
    } else {
      var s := OneRequest(cap, users);
    }
  }

  lemma NoRequests(cap: Option<nat>, users: nat, run: seq<Step>, s: System)
    requires users == 0 || cap == Some(0)
    requires Runs(cap, Start(users), run, s) && AllFinished(s)
    ensures s.total == 0
  {
    FinalCounts(cap, users, run, s);
    StartConserved(cap, users);
    RunConserves(cap, Start(users), run, s);
  }

  lemma RateBound(total: nat, failed: nat)
    requires total > 0 && 100 * failed >= total
    ensures failed as real / total as real >= 0.01
  {
    assert failed as real >= 0.01 * total as real;
  }

  // ----- one worker, as the program runs it

  class LoadMetrics {
    var totalRequests: nat
    var successful: nat
    var failed: nat
    var latencies: seq<nat>

    constructor ()
      ensures totalRequests == successful == failed == 0 && latencies == []
    {
      totalRequests, successful, failed, latencies := 0, 0, 0, [];
    }

    method RecordSuccess(latency: nat)
      modifies this
      ensures totalRequests == old(totalRequests) + 1 && successful == old(successful) + 1
      ensures failed == old(failed) && latencies == old(latencies) + [latency]
    {
      totalRequests := totalRequests + 1;
      successful := successful + 1;
      latencies := latencies + [latency];
    }

    method RecordFailure()
      modifies this
      ensures totalRequests == old(totalRequests) + 1 && failed == old(failed) + 1
      ensures successful == old(successful) && latencies == old(latencies)
    {
      totalRequests := totalRequests + 1;
      failed := failed + 1;
    }
  }

  /** A round of the worker's loop: what the clock says first, what a supplied handler
      answers, and the request's latency. */
  datatype Round = Round(late: bool, answer: bool, latency: nat)

  /** Request k succeeds, by the supplied handler or by the default one. */
  predicate Succeeds(supplied: bool, rounds: seq<Round>, k: nat)
    requires k < |rounds|
  {
    if supplied then rounds[k].answer else DefaultSucceeds(k)
  }

  /** The failed ones of the first n requests, and the latencies of the others in order. */
  function FailedOnes(supplied: bool, rounds: seq<Round>, n: nat): set<nat>
    requires n <= |rounds|
  {
    set k: nat | k < n && !Succeeds(supplied, rounds, k)
  }

  function LatenciesOf(supplied: bool, rounds: seq<Round>, n: nat): seq<nat>
    requires n <= |rounds|
  {
    if n == 0 then []
    else
      LatenciesOf(supplied, rounds, n - 1)
      + if Succeeds(supplied, rounds, n - 1) then [rounds[n - 1].latency] else []
  }

  lemma OneMoreRequest(supplied: bool, rounds: seq<Round>, n: nat)
    requires n < |rounds|
    ensures |FailedOnes(supplied, rounds, n + 1)| ==
            |FailedOnes(supplied, rounds, n)| + if Succeeds(supplied, rounds, n) then 0 else 1
  {
    var before, after := FailedOnes(supplied, rounds, n), FailedOnes(supplied, rounds, n + 1);
    assert after == if Succeeds(supplied, rounds, n) then before else before + {n};
  }

  lemma DefaultFails(rounds: seq<Round>, n: nat)
    requires n <= |rounds|
    ensures |FailedOnes(false, rounds, n)| == Hundredth(n)
  {
    FailuresBelow(n);
    assert FailedOnes(false, rounds, n) == set k: nat | k < n && !DefaultSucceeds(k);
  }

  /** The worker loop, run by itself: it makes one request in each round until the deadline or
      the cap, whichever comes first, and counts each of them once. */
  method RunWorker(metrics: LoadMetrics, cap: Option<nat>, supplied: bool, rounds: seq<Round>) returns (requests: nat)
    requires exists k :: 0 <= k < |rounds| && rounds[k].late
    modifies metrics
    ensures requests < |rounds| && forall k | 0 <= k < requests :: !rounds[k].late
    ensures rounds[requests].late || cap == Some(requests)
    ensures cap.Some? ==> requests <= cap.value
    ensures metrics.totalRequests == old(metrics.totalRequests) + requests
    ensures metrics.failed == old(metrics.failed) + |FailedOnes(supplied, rounds, requests)|
    ensures metrics.successful - old(metrics.successful) == requests - |FailedOnes(supplied, rounds, requests)|
    ensures metrics.latencies == old(metrics.latencies) + LatenciesOf(supplied, rounds, requests)
    ensures !supplied ==> metrics.failed == old(metrics.failed) + Hundredth(requests)
  {
    requests := 0;
    while true
      invariant exists k :: requests <= k < |rounds| && rounds[k].late
      invariant forall k | 0 <= k < requests :: !rounds[k].late
      invariant cap.Some? ==> requests <= cap.value
      invariant metrics.totalRequests == old(metrics.totalRequests) + requests
      invariant metrics.failed == old(metrics.failed) + |FailedOnes(supplied, rounds, requests)|
      invariant metrics.successful - old(metrics.successful) == requests - |FailedOnes(supplied, rounds, requests)|
      invariant metrics.latencies == old(metrics.latencies) + LatenciesOf(supplied, rounds, requests)
      decreases |rounds| - requests
    {
      if rounds[requests].late {
        break;
      }
      if cap.Some? && requests >= cap.value {
        break;
      }
      OneMoreRequest(supplied, rounds, requests);
      var success := if supplied then rounds[requests].answer else DefaultSucceeds(requests);
      if success {
        metrics.RecordSuccess(rounds[requests].latency);
      } else {
        metrics.RecordFailure();
      }
      requests := requests + 1;
    }
    DefaultFails(rounds, requests);
  }

  // ----- percentiles

  predicate Sorted(s: seq<nat>) {
    forall i, j | 0 <= i < j < |s| :: s[i] <= s[j]
  }

  /** The index that `percentile` reads in a nonempty sorted sequence. */
  function PercentileIndex(length: nat, p: nat): (i: nat)
    requires length > 0
    ensures i < length
  {
    var i := length * p / 100;
    if i <= length - 1 then i else length - 1
  }

  function Percentile(sorted: seq<nat>, p: nat): nat {
    if sorted == [] then 0 else sorted[PercentileIndex(|sorted|, p)]
  }

  function AtMost(s: seq<nat>, v: nat): nat {
    if s == [] then 0 else AtMost(s[..|s| - 1], v) + if s[|s| - 1] <= v then 1 else 0
  }

  function AtLeast(s: seq<nat>, v: nat): nat {
    if s == [] then 0 else AtLeast(s[..|s| - 1], v) + if s[|s| - 1] >= v then 1 else 0
  }

  lemma {:induction false} CountWithout(s: seq<nat>, i: nat, v: nat)
    requires i < |s|
    ensures var rest := s[..i] + s[i + 1..];
            && AtMost(s, v) == AtMost(rest, v) + (if s[i] <= v then 1 else 0)
            && AtLeast(s, v) == AtLeast(rest, v) + (if s[i] >= v then 1 else 0)
  {
    var n, rest := |s| - 1, s[..i] + s[i + 1..];
    if i == n {
      assert rest == s[..n];
    } else {
      var front := s[..n];
      CountWithout(front, i, v);
      assert rest[..|rest| - 1] == front[..i] + front[i + 1..];
      assert rest[|rest| - 1] == s[n];
    }
  }

  lemma TakeOut(t: seq<nat>, x: nat) returns (i: nat)
    requires x in multiset(t)
    ensures i < |t| && t[i] == x && multiset(t[..i] + t[i + 1..]) == multiset(t) - multiset{x}
  {
    assert x in t;
    i :| 0 <= i < |t| && t[i] == x;
    assert t == t[..i] + [x] + t[i + 1..];
  }

  /** Counting does not depend on the order. */
  lemma {:induction false} CountPermuted(s: seq<nat>, t: seq<nat>, v: nat)
    requires multiset(s) == multiset(t)
    ensures AtMost(s, v) == AtMost(t, v) && AtLeast(s, v) == AtLeast(t, v) && |s| == |t|
    decreases |s|
  {
    if s == [] {
      assert |multiset(t)| == 0;
    } else {
      var x := s[|s| - 1];
      WithoutLast(s);
      var i := TakeOut(t, x);
      CountPermuted(s[..|s| - 1], t[..i] + t[i + 1..], v);
      CountWithout(t, i, v);
    }
  }

  lemma {:induction false} SortedCounts(s: seq<nat>, k: nat, v: nat)
    requires Sorted(s) && k < |s| && v == s[k]
    ensures AtMost(s, v) >= k + 1 && AtLeast(s, v) >= |s| - k
  {
    var n := |s| - 1;
    var front := s[..n];
    if k < n {
      SortedCounts(front, k, v);
    } else {
      AllAtMost(s, v);
    }
  }

  lemma {:induction false} AllAtMost(s: seq<nat>, v: nat)
    requires forall i | 0 <= i < |s| :: s[i] <= v
    ensures AtMost(s, v) == |s|
  {
    if s == [] {
    } else {
      AllAtMost(s[..|s| - 1], v);
    }
  }

  /** Percentiles are order statistics of the samples as they were collected: at least
      idx + 1 of them are at most the reported value, and at least L - idx are at least it. */
  lemma PercentileIsOrderStatistic(samples: seq<nat>, sorted: seq<nat>, p: nat)
    requires samples != [] && Sorted(sorted) && multiset(sorted) == multiset(samples)
    ensures |sorted| == |samples|
    ensures var idx := PercentileIndex(|samples|, p);
            var v := Percentile(sorted, p);
            v in samples && AtMost(samples, v) >= idx + 1 && AtLeast(samples, v) >= |samples| - idx
  {
    CountPermuted(samples, sorted, 0);
    var idx, v := PercentileIndex(|samples|, p), Percentile(sorted, p);
    SortedCounts(sorted, idx, v);
    CountPermuted(samples, sorted, v);
    assert v in multiset(sorted);
  }

  /** In numbers, for a sample of L: more than p per cent of the samples are at most the
      reported value, and at most p per cent are below it; from 100 on it is the largest. */
  lemma PercentileRank(samples: seq<nat>, sorted: seq<nat>, p: nat)
    requires samples != [] && Sorted(sorted) && multiset(sorted) == multiset(samples)
    ensures var v := Percentile(sorted, p);
            && v in samples
            && (p < 100 ==>
                  && 100 * AtMost(samples, v) > |samples| * p
                  && 100 * (|samples| - AtLeast(samples, v)) <= |samples| * p)
            && (p >= 100 ==> forall i | 0 <= i < |samples| :: samples[i] <= v)
  {
    PercentileIsOrderStatistic(samples, sorted, p);
    IndexIs(|samples|, p);
    if p >= 100 {
      forall i | 0 <= i < |samples| ensures samples[i] <= sorted[|sorted| - 1] {
        assert samples[i] in multiset(sorted);
        assert samples[i] in sorted;
      }
    }
  }

  lemma IndexIs(length: nat, p: nat)
    requires length > 0
    ensures var i := PercentileIndex(length, p);
            if p < 100 then 100 * i <= length * p < 100 * (i + 1) else i == length - 1
  {
    if p < 100 {
      assert length * p < length * 100;
    } else {
      assert length * p >= length * 100;
    }
  }

  lemma IndexGrows(length: nat, p: nat, q: nat)
    requires length > 0 && p <= q
    ensures PercentileIndex(length, p) <= PercentileIndex(length, q)
  {
    assert length * p <= length * q;
  }

  /** Higher percentiles are at least as large, so p50 <= p95 <= p99. */
  lemma PercentilesIncrease(sorted: seq<nat>, p: nat, q: nat)
    requires Sorted(sorted) && p <= q
    ensures Percentile(sorted, p) <= Percentile(sorted, q)
  {
    if sorted != [] {
      IndexGrows(|sorted|, p, q);
    }
  }

  lemma LastsAgree(s: seq<nat>, t: seq<nat>)
    requires Sorted(s) && Sorted(t) && s != [] && t != []
    requires multiset(s) == multiset(t)
    ensures s[|s| - 1] == t[|t| - 1]
  {
    assert s[|s| - 1] in multiset(t) && t[|t| - 1] in multiset(s);
    assert s[|s| - 1] in t && t[|t| - 1] in s;
  }

  lemma WithoutLast(s: seq<nat>)
    requires s != []
    ensures multiset(s) == multiset(s[..|s| - 1]) + multiset{s[|s| - 1]}
  {
    assert s == s[..|s| - 1] + [s[|s| - 1]];
  }

  lemma SameMinus(a: multiset<nat>, b: multiset<nat>, x: nat)
    requires a + multiset{x} == b + multiset{x}
    ensures a == b
  {
    assert a == (a + multiset{x}) - multiset{x} && b == (b + multiset{x}) - multiset{x};
  }

  /** Any two sorted arrangements of the samples are the same, so it does not matter that the
      program's sort is unstable. */
  lemma {:induction false} SortedIsUnique(s: seq<nat>, t: seq<nat>)
    requires Sorted(s) && Sorted(t) && multiset(s) == multiset(t)
    ensures s == t
    decreases |s|
  {
    CountPermuted(s, t, 0);
    if s == [] {
    } else {
      var n := |s| - 1;
      LastsAgree(s, t);
      WithoutLast(s);
      WithoutLast(t);
      SameMinus(multiset(s[..n]), multiset(t[..n]), s[n]);
      SortedIsUnique(s[..n], t[..n]);
      assert s == s[..n] + [s[n]];
    }
  }
}
