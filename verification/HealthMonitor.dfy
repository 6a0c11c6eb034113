/**
 Health monitoring with hysteresis: counters that are updated with every check, and a flag
 that equals a statement about the whole history of checks.
 */
module HealthMonitors {
  import opened Options
  import opened Widths

  type Threshold = n: nat | n < U32

  datatype HealthConfig = HealthConfig(failureThreshold: Threshold, recoveryThreshold: Threshold) {
    /** Failures, and successes, in a row that change the flag: a threshold of 0 acts as 1. */
    function F(): nat {
      if failureThreshold == 0 then 1 else failureThreshold
    }

    function R(): nat {
      if recoveryThreshold == 0 then 1 else recoveryThreshold
    }
  }

  // ----- histories: true for a successful check, false for a failed one or a timeout

  type History = seq<bool>

  /** The `n` checks before position `i` all had this outcome. */
  predicate Block(h: History, i: nat, n: nat, outcome: bool) {
    n <= i <= |h| && forall k | i - n <= k < i :: h[k] == outcome
  }

  /** F consecutive failures have not been followed by R consecutive successes. */
  ghost predicate Unhealthy(cfg: HealthConfig, h: History) {
    exists i: nat :: Block(h, i, cfg.F(), false) && NoRecovery(cfg, h, i)
  }

  ghost predicate NoRecovery(cfg: HealthConfig, h: History, i: nat) {
    forall j: nat | i + cfg.R() <= j <= |h| :: !Block(h, j, cfg.R(), true)
  }

  /** How many checks at the end had this outcome. */
  function Trailing(h: History, outcome: bool): nat {
    if h == [] || h[|h| - 1] != outcome then 0 else Trailing(h[..|h| - 1], outcome) + 1
  }

  function Failures(h: History): nat {
    if h == [] then 0 else Failures(h[..|h| - 1]) + if h[|h| - 1] then 0 else 1
  }

  lemma {:induction false} TrailingIsBlock(h: History, n: nat, outcome: bool)
    ensures Block(h, |h|, n, outcome) <==> n <= Trailing(h, outcome)
    ensures Trailing(h, outcome) <= |h|
  {
    if h == [] {
    } else {
      var g := h[..|h| - 1];
      TrailingIsBlock(g, if n == 0 then 0 else n - 1, outcome);
      if n > 0 && h[|h| - 1] == outcome {
        if Block(h, |h|, n, outcome) {
          assert forall k | |g| - (n - 1) <= k < |g| :: g[k] == h[k];
        }
        if Block(g, |g|, n - 1, outcome) {
          assert forall k | |h| - n <= k < |h| - 1 :: h[k] == g[k];
        }
      }
    }
  }

  lemma BlockExtends(h: History, check: bool, i: nat, n: nat, outcome: bool)
    requires i <= |h|
    ensures Block(h + [check], i, n, outcome) <==> Block(h, i, n, outcome)
  {
    assert forall k | 0 <= k < |h| :: (h + [check])[k] == h[k];
  }

  lemma TrailingExtends(h: History, check: bool)
    ensures Trailing(h + [check], check) == Trailing(h, check) + 1
    ensures Trailing(h + [check], !check) == 0
    ensures Failures(h + [check]) == Failures(h) + if check then 0 else 1
  {
    assert (h + [check])[..|h|] == h;
  }

  lemma NoRecoveryExtends(cfg: HealthConfig, h: History, check: bool, i: nat)
    requires i <= |h|
    ensures NoRecovery(cfg, h + [check], i)
       <==> NoRecovery(cfg, h, i) && (i + cfg.R() <= |h| + 1 ==> !Block(h + [check], |h| + 1, cfg.R(), true))
  {
    var g := h + [check];
    forall j: nat | j <= |h| ensures Block(g, j, cfg.R(), true) <==> Block(h, j, cfg.R(), true) {
      BlockExtends(h, check, j, cfg.R(), true);
    }
    if NoRecovery(cfg, g, i) {
      assert forall j: nat | i + cfg.R() <= j <= |h| :: Block(h, j, cfg.R(), true) ==> Block(g, j, cfg.R(), true);
    }
  }

  /** A failure block ends at or before any success block at the end begins. */
  lemma BlocksAreApart(cfg: HealthConfig, h: History, i: nat)
    requires Block(h, i, cfg.F(), false) && Block(h, |h|, cfg.R(), true)
    ensures i + cfg.R() <= |h|
  {
    assert !h[i - 1];
  }

  /** How one more check changes the history statement. */
  lemma UnhealthyExtends(cfg: HealthConfig, h: History, check: bool)
    ensures Unhealthy(cfg, h + [check]) <==>
              if check then Unhealthy(cfg, h) && Trailing(h, true) + 1 < cfg.R()
              else Unhealthy(cfg, h) || Trailing(h, false) + 1 >= cfg.F()
  {
    var g := h + [check];
    TrailingExtends(h, check);
    TrailingIsBlock(g, cfg.R(), true);
    TrailingIsBlock(g, cfg.F(), false);
    if Unhealthy(cfg, g) {
      var i: nat :| Block(g, i, cfg.F(), false) && NoRecovery(cfg, g, i);
      assert !g[i - 1];
      if i <= |h| {
        BlockExtends(h, check, i, cfg.F(), false);
        NoRecoveryExtends(cfg, h, check, i);
        if Block(g, |g|, cfg.R(), true) {
          BlocksAreApart(cfg, g, i);
        }
      }
    }
    if Unhealthy(cfg, h) && (check ==> Trailing(h, true) + 1 < cfg.R()) {
      var i: nat :| Block(h, i, cfg.F(), false) && NoRecovery(cfg, h, i);
      BlockExtends(h, check, i, cfg.F(), false);
      NoRecoveryExtends(cfg, h, check, i);
    }
    if !check && Trailing(h, false) + 1 >= cfg.F() {
      assert Block(g, |g|, cfg.F(), false) && NoRecovery(cfg, g, |g|);
    }
  }

  /** While healthy, the failures at the end are fewer than F; while unhealthy, the successes
      at the end are fewer than R, and there have been at least F failures. */
  lemma {:induction false} FlagBounds(cfg: HealthConfig, h: History)
    ensures if Unhealthy(cfg, h) then Trailing(h, true) < cfg.R() && Failures(h) >= cfg.F()
            else Trailing(h, false) < cfg.F()
    ensures Trailing(h, false) <= Failures(h)
  {
    if h == [] {
      assert forall i: nat :: !Block(h, i, cfg.F(), false);
    } else {
      var g, check := h[..|h| - 1], h[|h| - 1];
      assert h == g + [check];
      FlagBounds(cfg, g);
      UnhealthyExtends(cfg, g, check);
      TrailingExtends(g, check);
    }
  }

  // ----- recovery

  /** The check that ends the history `h + [true]` is a recovery. */
  ghost predicate Recovers(cfg: HealthConfig, h: History) {
    Unhealthy(cfg, h) && !Unhealthy(cfg, h + [true])
  }

  /** At a recovery the successes in a row are exactly R, and there have been at least F
      failures. */
  lemma RecoveryIsExact(cfg: HealthConfig, h: History)
    requires Recovers(cfg, h)
    ensures Trailing(h + [true], true) == cfg.R()
    ensures Failures(h + [true]) >= cfg.F()
  {
    FlagBounds(cfg, h);
    UnhealthyExtends(cfg, h, true);
    TrailingExtends(h, true);
  }

  /** What a recovery reports is never the number of failures so far: it is smaller by R,
      modulo 2^32. */
  lemma ReportIsShort(cfg: HealthConfig, h: History)
    requires Recovers(cfg, h)
    ensures var failures := Failures(h + [true]);
            var reported := (failures - Trailing(h + [true], true)) % U64 % U32;
            failures == Failures(h) && (reported + cfg.R()) % U32 == failures % U32 && reported != failures % U32
  {
    RecoveryIsExact(cfg, h);
    TrailingExtends(h, true);
    Truncates(Failures(h) - cfg.R());
    Short(Failures(h), cfg.R());
  }

  /** Wrapping to 64 bits does not change the 32 low ones. */
  lemma Truncates(n: int)
    ensures n % U64 % U32 == n % U32
  {
    assert n == U64 * (n / U64) + n % U64 && U64 == U32 * U32;
    LowBits(n % U64, U32 * (n / U64));
  }

  lemma LowBits(n: int, k: int)
    ensures (n + U32 * k) % U32 == n % U32
  {}

  lemma Short(n: nat, r: nat)
    requires 0 < r < U32
    ensures ((n - r) % U32 + r) % U32 == n % U32 && (n - r) % U32 != n % U32
  {}

  /** `total_failures - consecutive_successes` at the recovery is negative. */
  ghost predicate Underflows(cfg: HealthConfig, h: History) {
    Recovers(cfg, h) && Failures(h + [true]) < Trailing(h + [true], true)
  }

  function Repeat(n: nat, outcome: bool): History {
    seq(n, _ => outcome)
  }

  lemma {:induction false} FailuresThenSuccesses(cfg: HealthConfig, n: nat)
    requires n < cfg.R()
    ensures var h := Repeat(cfg.F(), false) + Repeat(n, true);
            Unhealthy(cfg, h) && Trailing(h, true) == n && Failures(h) == cfg.F()
  {
    var h := Repeat(cfg.F(), false) + Repeat(n, true);
    if n == 0 {
      assert h == Repeat(cfg.F(), false);
      assert Block(h, |h|, cfg.F(), false) && NoRecovery(cfg, h, |h|);
      OnlyFailures(cfg.F());
    } else {
      var g := Repeat(cfg.F(), false) + Repeat(n - 1, true);
      FailuresThenSuccesses(cfg, n - 1);
      assert h == g + [true];
      UnhealthyExtends(cfg, g, true);
      TrailingExtends(g, true);
    }
  }

  /** From the start, a daemon is unhealthy after n failures exactly if n is 1 or more and has
      reached the failure threshold. */
  lemma {:induction false} FailuresFromTheStart(cfg: HealthConfig, n: nat)
    ensures var h := Repeat(n, false);
            && (Unhealthy(cfg, h) <==> n >= 1 && n >= cfg.failureThreshold)
            && Trailing(h, true) == 0 && Trailing(h, false) == n
  {
    if n == 0 {
      HealthyAtFirst(cfg);
      assert Repeat(0, false) == [];
    } else {
      var g := Repeat(n - 1, false);
      FailuresFromTheStart(cfg, n - 1);
      assert Repeat(n, false) == g + [false];
      OneFailureMore(cfg, g, n - 1);
    }
  }

  lemma HealthyAtFirst(cfg: HealthConfig)
    ensures !Unhealthy(cfg, [])
  {
    assert forall i: nat :: !Block([], i, cfg.F(), false);
  }

  lemma OneFailureMore(cfg: HealthConfig, g: History, n: nat)
    requires Trailing(g, false) == n && (Unhealthy(cfg, g) <==> n >= 1 && n >= cfg.failureThreshold)
    ensures var h := g + [false];
            && (Unhealthy(cfg, h) <==> n + 1 >= cfg.failureThreshold)
            && Trailing(h, true) == 0 && Trailing(h, false) == n + 1
  {
    UnhealthyExtends(cfg, g, false);
    TrailingExtends(g, false);
  }

  /** And then after m successes it still is exactly if m is 0 or below the recovery threshold. */
  lemma {:induction false} SuccessesFromTheStart(cfg: HealthConfig, n: nat, m: nat)
    requires n >= 1 && n >= cfg.failureThreshold
    ensures var h := Repeat(n, false) + Repeat(m, true);
            (Unhealthy(cfg, h) <==> m == 0 || m < cfg.recoveryThreshold) && Trailing(h, true) == m
  {
    var h := Repeat(n, false) + Repeat(m, true);
    if m == 0 {
      FailuresFromTheStart(cfg, n);
      assert h == Repeat(n, false);
    } else {
      var g := Repeat(n, false) + Repeat(m - 1, true);
      SuccessesFromTheStart(cfg, n, m - 1);
      assert h == g + [true];
      UnhealthyExtends(cfg, g, true);
      TrailingExtends(g, true);
    }
  }

  lemma {:induction false} OnlyFailures(n: nat)
    ensures Failures(Repeat(n, false)) == n
    ensures Trailing(Repeat(n, false), true) == 0
  {
    if n == 0 {
    } else {
      OnlyFailures(n - 1);
      assert Repeat(n, false)[..n - 1] == Repeat(n - 1, false);
    }
  }

  /** Some run makes the subtraction underflow exactly when F < R; exactly F failures and
      then R successes do. */
  lemma UnderflowIff(cfg: HealthConfig)
    ensures (exists h :: Underflows(cfg, h)) <==> cfg.F() < cfg.R()
  {
    forall h | Underflows(cfg, h) ensures cfg.F() < cfg.R() {
      RecoveryIsExact(cfg, h);
    }
    if cfg.F() < cfg.R() {
      var h := Repeat(cfg.F(), false) + Repeat(cfg.R() - 1, true);
      FailuresThenSuccesses(cfg, cfg.R() - 1);
      UnhealthyExtends(cfg, h, true);
      TrailingExtends(h, true);
      assert Underflows(cfg, h);
    }
  }

  // ----- the classes

  datatype HealthStatus = HealthStatus(healthy: bool, latencyMs: nat)

  datatype HealthEvent =
    | BecameHealthy(id: nat, status: HealthStatus)
    | BecameUnhealthy(id: nat, status: HealthStatus, failureCount: nat)
    | TimedOut(id: nat)
    | Recovered(id: nat, failuresBefore: nat)

  function Increment(n: Threshold): Threshold {
    (n + 1) % U32
  }

  lemma IncrementWraps(n: nat)
    ensures Increment(n % U32) == (n + 1) % U32
  {}

  /** What the threshold comparisons of `record_check` decide after a failure. */
  lemma FailureJudged(cfg: HealthConfig, h: History)
    ensures Unhealthy(cfg, h + [false]) <==>
              Unhealthy(cfg, h) || Trailing(h + [false], false) % U32 >= cfg.failureThreshold
  {
    FlagBounds(cfg, h);
    UnhealthyExtends(cfg, h, false);
    TrailingExtends(h, false);
  }

  /** And after a success. */
  lemma SuccessJudged(cfg: HealthConfig, h: History)
    ensures var g := h + [true];
            && (Recovers(cfg, h) <==> Unhealthy(cfg, h) && Trailing(g, true) % U32 >= cfg.recoveryThreshold)
            && (Unhealthy(cfg, g) <==> Unhealthy(cfg, h) && !Recovers(cfg, h))
            && (Recovers(cfg, h) ==> Trailing(g, true) == cfg.R())
  {
    FlagBounds(cfg, h);
    UnhealthyExtends(cfg, h, true);
    TrailingExtends(h, true);
  }

  class DaemonHealthState {
    var lastStatus: Option<HealthStatus>
    var consecutiveFailures: Threshold
    var consecutiveSuccesses: Threshold
    var isHealthy: bool
    var totalChecks: nat
    var totalFailures: nat
    ghost var history: History

    /** The counters are those of the history; the 32-bit ones wrap around. */
    ghost predicate Counted()
      reads this
    {
      && consecutiveFailures == Trailing(history, false) % U32
      && consecutiveSuccesses == Trailing(history, true) % U32
      && totalChecks == |history|
      && totalFailures == Failures(history)
    }

    ghost predicate Valid(cfg: HealthConfig)
      reads this
    {
      Counted() && isHealthy == !Unhealthy(cfg, history)
    }

    constructor ()
      ensures history == [] && forall cfg :: Valid(cfg)
    {
      lastStatus := None;
      consecutiveFailures, consecutiveSuccesses := 0, 0;
      isHealthy := true;
      totalChecks, totalFailures := 0, 0;
      history := [];
      new;
      forall cfg ensures Valid(cfg) {
        assert forall i: nat :: !Block([], i, cfg.F(), false);
      }
    }

    method RecordSuccess(status: HealthStatus)
      requires Counted()
      modifies this
      ensures Counted() && history == old(history) + [true]
      ensures isHealthy == old(isHealthy) && lastStatus == Some(status)
    {
      TrailingExtends(history, true);
      IncrementWraps(Trailing(history, true));
      lastStatus := Some(status);
      consecutiveFailures := 0;
      consecutiveSuccesses := Increment(consecutiveSuccesses);
      totalChecks := totalChecks + 1;
      history := history + [true];
    }

    method RecordFailure(status: Option<HealthStatus>)
      requires Counted()
      modifies this
      ensures Counted() && history == old(history) + [false]
      ensures isHealthy == old(isHealthy) && lastStatus == status
    {
      TrailingExtends(history, false);
      IncrementWraps(Trailing(history, false));
      lastStatus := status;
      consecutiveFailures := Increment(consecutiveFailures);
      consecutiveSuccesses := 0;
      totalChecks := totalChecks + 1;
      totalFailures := totalFailures + 1;
      history := history + [false];
    }
  }

  class HealthMonitor {
    const config: HealthConfig
    var states: map<nat, DaemonHealthState>

    /** Every daemon's flag is the statement about its own history. */
    ghost predicate Valid()
      reads this, states.Values
    {
      && (forall id | id in states :: states[id].Valid(config))
      && (forall i, j | i in states && j in states && i != j :: states[i] != states[j])
    }

    constructor (config: HealthConfig)
      ensures Valid() && this.config == config && states == map[]
    {
      this.config := config;
      states := map[];
    }

    method Register(id: nat)
      requires Valid()
      modifies this
      ensures Valid() && states.Keys == old(states).Keys + {id}
      ensures fresh(states[id]) && states[id].history == []
      ensures forall i | i in old(states) && i != id :: states[i] == old(states)[i]
    {
      var state := new DaemonHealthState();
      states := states[id := state];
    }

    method Unregister(id: nat)
      requires Valid()
      modifies this
      ensures Valid() && states == old(states) - {id}
    {
      states := states - {id};
    }

    /** Records a check; the events say whether it made the daemon recover.  For an unknown
        daemon nothing happens and `ok` is false. */
    method RecordCheck(id: nat, status: HealthStatus) returns (ok: bool, events: seq<HealthEvent>)
      requires Valid()
      modifies if id in states then {states[id]} else {}
      ensures Valid() && ok == (id in states)
      ensures !ok ==> events == []
      ensures ok ==> states[id].history == old(states[id].history) + [status.healthy]
      ensures ok ==> states[id].lastStatus == Some(status)
      ensures ok && status.healthy ==>
                events == (if Recovers(config, old(states[id].history))
                           then [Recovered(id, (Failures(states[id].history) - config.R()) % U64 % U32)] else [])
                        + (if states[id].isHealthy then [BecameHealthy(id, status)] else [])
      ensures ok && !status.healthy ==>
                events == [BecameUnhealthy(id, status, Trailing(states[id].history, false) % U32)]
    {
      if id !in states {
        return false, [];
      }
      ok := true;
      if status.healthy {
        events := CheckSucceeded(id, states[id], status);
      } else {
        events := CheckFailed(id, states[id], status);
      }
    }

    method CheckSucceeded(id: nat, state: DaemonHealthState, status: HealthStatus) returns (events: seq<HealthEvent>)
      requires state.Valid(config)
      modifies state
      ensures state.Valid(config) && state.history == old(state.history) + [true]
      ensures state.lastStatus == Some(status)
      ensures events == (if Recovers(config, old(state.history))
                         then [Recovered(id, (Failures(state.history) - config.R()) % U64 % U32)] else [])
                      + (if state.isHealthy then [BecameHealthy(id, status)] else [])
    {
      SuccessJudged(config, state.history);
      var wasHealthy := state.isHealthy;
      state.RecordSuccess(status);
      events := [];
      if !wasHealthy && state.consecutiveSuccesses >= config.recoveryThreshold {
        var failuresBefore := (state.totalFailures - state.consecutiveSuccesses) % U64;
        state.isHealthy := true;
        events := events + [Recovered(id, failuresBefore % U32)];
      }
      if state.isHealthy {
        events := events + [BecameHealthy(id, status)];
      }
    }

    method CheckFailed(id: nat, state: DaemonHealthState, status: HealthStatus) returns (events: seq<HealthEvent>)
      requires state.Valid(config)
      modifies state
      ensures state.Valid(config) && state.history == old(state.history) + [false]
      ensures state.lastStatus == Some(status)
      ensures events == [BecameUnhealthy(id, status, Trailing(state.history, false) % U32)]
    {
      FailureJudged(config, state.history);
      var wasHealthy := state.isHealthy;
      state.RecordFailure(Some(status));
      if wasHealthy && state.consecutiveFailures >= config.failureThreshold {
        state.isHealthy := false;
        events := [BecameUnhealthy(id, status, state.consecutiveFailures)];
      } else {
        events := [BecameUnhealthy(id, status, state.consecutiveFailures)];
      }
    }

    method RecordTimeout(id: nat) returns (ok: bool, events: seq<HealthEvent>)
      requires Valid()
      modifies if id in states then {states[id]} else {}
      ensures Valid() && ok == (id in states)
      ensures events == if ok then [TimedOut(id)] else []
      ensures ok ==> states[id].history == old(states[id].history) + [false] && states[id].lastStatus == None
    {
      if id !in states {
        return false, [];
      }
      ok := true;
      var state := states[id];
      FailureJudged(config, state.history);
      state.RecordFailure(None);
      events := [TimedOut(id)];
      if state.isHealthy && state.consecutiveFailures >= config.failureThreshold {
        state.isHealthy := false;
      }
    }
  }
}
