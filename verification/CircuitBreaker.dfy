/**
 The circuit breaker used by one caller at a time: a class whose fields are the cells of
 the program, and the theorems about every history of calls.  Time is a clock reading
 that each call takes as an argument.
 */
module CircuitBreakers {
  import opened Options
  import opened Widths

  datatype CircuitState = Closed | Open | HalfOpen

  /** The two constructor arguments; durations and instants are in clock ticks. */
  datatype Config = Config(threshold: Uint32, recoveryTimeout: nat) {
    /** The failure that opens the circuit, counted from one: a threshold of 0 acts as 1. */
    function Trip(): nat {
      if threshold == 0 then 1 else threshold
    }
  }

  /** `Instant::elapsed`, which saturates at zero. */
  function Elapsed(since: nat, now: nat): nat {
    if now < since then 0 else now - since
  }

  // ----- the value of the cells, and one call as a function of it

  datatype Cells = Cells(state: CircuitState, openedAt: Option<nat>, failures: nat, successes: nat)

  const NEW_CELLS := Cells(Closed, None, 0, 0)

  datatype Call =
    | QueryState(now: nat)
    | Allow(now: nat)
    | RecordSuccess
    | RecordFailure(now: nat)
    | Reset
  {
    predicate IsPoll() {
      QueryState? || Allow?
    }
  }

  function Opened(c: Cells, now: nat): Cells {
    c.(state := Open, openedAt := Some(now), successes := 0)
  }

  function Polled(cfg: Config, c: Cells, now: nat): Cells {
    if c.state == Open && c.openedAt.Some? && Elapsed(c.openedAt.value, now) >= cfg.recoveryTimeout
    then c.(state := HalfOpen, successes := 0)
    else c
  }

  function AfterSuccess(c: Cells): Cells {
    match c.state
    case Closed => c.(failures := 0)
    case HalfOpen => if c.successes + 1 >= 3 then NEW_CELLS else c.(successes := (c.successes + 1) % U64)
    case Open => c
  }

  function AfterFailure(cfg: Config, c: Cells, now: nat): Cells {
    match c.state
    case Closed =>
      var counted := c.(failures := (c.failures + 1) % U64);
      if c.failures + 1 >= cfg.threshold then Opened(counted, now) else counted
    case HalfOpen => Opened(c, now)
    case Open => c
  }

  function After(cfg: Config, c: Cells, call: Call): Cells {
    match call
    case QueryState(now) => Polled(cfg, c, now)
    case Allow(now) => Polled(cfg, c, now)
    case RecordSuccess => AfterSuccess(c)
    case RecordFailure(now) => AfterFailure(cfg, c, now)
    case Reset => NEW_CELLS
  }

  /** The cells after a history of calls on a new breaker. */
  function Run(cfg: Config, h: seq<Call>): Cells {
    if h == [] then NEW_CELLS else After(cfg, Run(cfg, h[..|h| - 1]), h[|h| - 1])
  }

  // ----- what every history keeps

  /** How the four cells hang together when no call is in progress. */
  predicate Consistent(cfg: Config, c: Cells) {
    && (c.state == Closed <==> c.failures < cfg.Trip())
    && (c.state == Closed <==> c.openedAt == None)
    && (c.state != Closed ==> c.failures == cfg.Trip())
    && (if c.state == HalfOpen then c.successes < 3 else c.successes == 0)
  }

  lemma {:induction false} RunConsistent(cfg: Config, h: seq<Call>)
    ensures Consistent(cfg, Run(cfg, h))
  {
    if h == [] {
    } else {
      RunConsistent(cfg, h[..|h| - 1]);
    }
  }

  // ----- when the circuit is open

  /** Call `i` of the history is the failure that opened the circuit. */
  ghost predicate OpensAt(cfg: Config, h: seq<Call>, i: nat) {
    && i < |h|
    && h[i].RecordFailure?
    && Run(cfg, h[..i]).state != Open
    && Run(cfg, h[..i + 1]).state == Open
  }

  /** Fewer ticks than the timeout have passed; a clock that went back has seen none. */
  predicate Early(cfg: Config, since: nat, now: nat) {
    (if now >= since then now - since else 0) < cfg.recoveryTimeout
  }

  predicate TooEarly(cfg: Config, call: Call, openedAt: nat) {
    call.QueryState? || call.Allow? ==> Early(cfg, openedAt, call.now)
  }

  /** Call `i` opened the circuit; nobody has reset it since, and nobody has looked at it late. */
  ghost predicate HeldOpen(cfg: Config, h: seq<Call>, i: nat) {
    && OpensAt(cfg, h, i)
    && forall k {:trigger h[k]} | i < k < |h| :: !h[k].Reset? && TooEarly(cfg, h[k], h[i].now)
  }

  lemma HeldOpenExtends(cfg: Config, h: seq<Call>, i: nat)
    requires i + 1 < |h|
    ensures var n := |h| - 1;
            HeldOpen(cfg, h, i) <==> HeldOpen(cfg, h[..n], i) && !h[n].Reset? && TooEarly(cfg, h[n], h[i].now)
  {
    var n := |h| - 1;
    assert h[..n][..i] == h[..i] && h[..n][..i + 1] == h[..i + 1];
    forall k | i < k < n ensures h[..n][k] == h[k] {}
    if HeldOpen(cfg, h, i) {
      assert forall k {:trigger h[..n][k]} | i < k < n :: !h[..n][k].Reset? && TooEarly(cfg, h[..n][k], h[i].now);
    }
  }

  /** A failure that holds the circuit open keeps it open with its own time, whatever results
      were recorded in between. */
  lemma {:induction false} HeldIsOpen(cfg: Config, h: seq<Call>, i: nat)
    requires HeldOpen(cfg, h, i)
    ensures Run(cfg, h).state == Open && Run(cfg, h).openedAt == Some(h[i].now)
    decreases |h|
  {
    var n := |h| - 1;
    if i == n {
      assert h[..n + 1] == h;
    } else {
      HeldOpenExtends(cfg, h, i);
      HeldIsOpen(cfg, h[..n], i);
    }
  }

  lemma {:induction false} OpenIsHeld(cfg: Config, h: seq<Call>) returns (i: nat)
    requires Run(cfg, h).state == Open
    ensures HeldOpen(cfg, h, i)
    decreases |h|
  {
    var n := |h| - 1;
    assert h[..n + 1] == h;
    if Run(cfg, h[..n]).state == Open {
      i := OpenIsHeld(cfg, h[..n]);
      HeldIsOpen(cfg, h[..n], i);
      HeldOpenExtends(cfg, h, i);
    } else {
      i := n;
    }
  }

  /** The circuit is open exactly while some opening failure holds it open, and it then
      carries that failure's time. */
  lemma OpenIff(cfg: Config, h: seq<Call>)
    ensures Run(cfg, h).state == Open <==> exists i: nat :: HeldOpen(cfg, h, i)
    ensures forall i: nat :: HeldOpen(cfg, h, i) ==> Run(cfg, h).openedAt == Some(h[i].now)
  {
    forall i: nat | HeldOpen(cfg, h, i) ensures Run(cfg, h).state == Open && Run(cfg, h).openedAt == Some(h[i].now) {
      HeldIsOpen(cfg, h, i);
    }
    if Run(cfg, h).state == Open {
      var i := OpenIsHeld(cfg, h);
    }
  }

  /** The answer `allow` gives after a history. */
  function Allowed(cfg: Config, h: seq<Call>, now: nat): bool {
    Polled(cfg, Run(cfg, h), now).state != Open
  }

  /** A request is refused exactly when an opening failure holds the circuit open and its
      recovery timeout has not elapsed. */
  lemma RefusedIff(cfg: Config, h: seq<Call>, now: nat)
    ensures !Allowed(cfg, h, now)
       <==> exists i: nat :: HeldOpen(cfg, h, i) && (now >= h[i].now ==> now - h[i].now < cfg.recoveryTimeout)
                             && cfg.recoveryTimeout > 0
  {
    OpenIff(cfg, h);
    RunConsistent(cfg, h);
  }

  /** The first look at the circuit once the timeout has elapsed moves it to half-open, and
      requests are permitted from there on. */
  lemma FirstLatePoll(cfg: Config, h: seq<Call>, i: nat, poll: Call)
    requires HeldOpen(cfg, h, i)
    requires poll.QueryState? || poll.Allow?
    requires if poll.now >= h[i].now then poll.now - h[i].now >= cfg.recoveryTimeout else cfg.recoveryTimeout == 0
    ensures Run(cfg, h + [poll]).state == HalfOpen
    ensures forall now :: Allowed(cfg, h + [poll], now)
  {
    OpenIff(cfg, h);
    assert (h + [poll])[..|h|] == h;
  }

  // ----- leaving Closed and leaving HalfOpen

  /** Failures since the last success or reset. */
  function Streak(h: seq<Call>): nat {
    if h == [] then 0
    else
      var front, last := h[..|h| - 1], h[|h| - 1];
      if last.RecordFailure? then Streak(front) + 1
      else if last.IsPoll() then Streak(front)
      else 0
  }

  function Successes(h: seq<Call>): nat {
    if h == [] then 0
    else Successes(h[..|h| - 1]) + if h[|h| - 1].RecordSuccess? then 1 else 0
  }

  function StateAt(cfg: Config, h: seq<Call>, k: nat): CircuitState
    requires k <= |h|
  {
    Run(cfg, h[..k]).state
  }

  /** The circuit entered `s` with call `i - 1` (or was created in it) and has stayed in it. */
  ghost predicate InSince(cfg: Config, h: seq<Call>, s: CircuitState, i: nat) {
    && i <= |h|
    && (if i == 0 then s == Closed else StateAt(cfg, h, i - 1) != s)
    && forall k | i <= k <= |h| :: StateAt(cfg, h, k) == s
  }

  lemma RunExtends(cfg: Config, h: seq<Call>, call: Call)
    ensures Run(cfg, h + [call]) == After(cfg, Run(cfg, h), call)
  {
    assert (h + [call])[..|h|] == h;
  }

  lemma StateAtFront(cfg: Config, h: seq<Call>, k: nat)
    requires h != [] && k < |h|
    ensures StateAt(cfg, h[..|h| - 1], k) == StateAt(cfg, h, k)
  {
    assert h[..|h| - 1][..k] == h[..k];
  }

  lemma InSinceFront(cfg: Config, h: seq<Call>, s: CircuitState, i: nat)
    requires i < |h|
    ensures InSince(cfg, h, s, i) <==> InSince(cfg, h[..|h| - 1], s, i) && Run(cfg, h).state == s
  {
    assert h[..|h|] == h;
    assert StateAt(cfg, h, |h|) == Run(cfg, h).state;
    var g := h[..|h| - 1];
    forall k: nat | k < |h| ensures StateAt(cfg, g, k) == StateAt(cfg, h, k) {
      StateAtFront(cfg, h, k);
    }
    if InSince(cfg, g, s, i) && Run(cfg, h).state == s {
      forall k | i <= k <= |h| ensures StateAt(cfg, h, k) == s {
        if k < |h| {
          assert StateAt(cfg, g, k) == s;
        }
      }
    }
  }

  lemma {:induction false} EveryHistoryHasAPeriod(cfg: Config, h: seq<Call>) returns (i: nat)
    ensures InSince(cfg, h, Run(cfg, h).state, i)
  {
    assert h[..|h|] == h;
    if h == [] {
      i := 0;
    } else {
      var g := h[..|h| - 1];
      if Run(cfg, g).state == Run(cfg, h).state {
        i := EveryHistoryHasAPeriod(cfg, g);
        InSinceFront(cfg, h, Run(cfg, h).state, i);
      } else {
        i := |h|;
      }
    }
  }

  /** While closed, the counter is the current run of failures. */
  lemma {:induction false} ClosedCount(cfg: Config, h: seq<Call>, i: nat)
    requires InSince(cfg, h, Closed, i)
    ensures Run(cfg, h).failures == Streak(h[i..]) < cfg.Trip()
  {
    assert h[..|h|] == h;
    assert StateAt(cfg, h, |h|) == Closed;
    RunConsistent(cfg, h);
    if i == |h| {
      StartsAtZero(cfg, h);
    } else {
      var g := h[..|h| - 1];
      InSinceFront(cfg, h, Closed, i);
      ClosedCount(cfg, g, i);
      assert h[i..][..|h[i..]| - 1] == g[i..];
    }
  }

  lemma StartsAtZero(cfg: Config, h: seq<Call>)
    requires InSince(cfg, h, Closed, |h|)
    ensures Run(cfg, h).failures == 0
  {
    assert h[..|h|] == h;
    if h == [] {
    } else {
      assert StateAt(cfg, h, |h|) == Closed;
      RunConsistent(cfg, h[..|h| - 1]);
    }
  }

  /** The circuit leaves Closed exactly on the failure that makes the current run of
      failures reach the trip count. */
  lemma ClosedPeriod(cfg: Config, h: seq<Call>, i: nat, call: Call)
    requires InSince(cfg, h, Closed, i)
    ensures Run(cfg, h + [call]).state != Closed
       <==> call.RecordFailure? && Streak(h[i..]) + 1 == if cfg.threshold == 0 then 1 else cfg.threshold
  {
    assert StateAt(cfg, h, |h|) == Closed && h[..|h|] == h;
    ClosedCount(cfg, h, i);
    RunConsistent(cfg, h);
    RunExtends(cfg, h, call);
  }

  /** A half-open period sees no failure and no reset, and counts its successes. */
  lemma {:induction false} HalfOpenCount(cfg: Config, h: seq<Call>, i: nat)
    requires InSince(cfg, h, HalfOpen, i)
    ensures Run(cfg, h).successes == Successes(h[i..]) < 3
    ensures forall k | i <= k < |h| :: !h[k].RecordFailure? && !h[k].Reset?
  {
    assert h[..|h|] == h;
    assert StateAt(cfg, h, |h|) == HalfOpen;
    RunConsistent(cfg, h);
    var g := h[..|h| - 1];
    if i < |h| {
      InSinceFront(cfg, h, HalfOpen, i);
      HalfOpenCount(cfg, g, i);
      assert h[i..][..|h[i..]| - 1] == g[i..];
      assert forall k | i <= k < |g| :: g[k] == h[k];
      assert StateAt(cfg, g, |g|) == HalfOpen && g[..|g|] == g;
    } else {
      RunConsistent(cfg, g);
    }
  }

  /** A half-open period ends closed exactly on a reset or on its third success, and open
      exactly on its first failure. */
  lemma HalfOpenPeriod(cfg: Config, h: seq<Call>, i: nat, call: Call)
    requires InSince(cfg, h, HalfOpen, i)
    ensures Run(cfg, h + [call]).state == Closed
       <==> call.Reset? || (call.RecordSuccess? && Successes(h[i..]) + 1 == 3)
    ensures Run(cfg, h + [call]).state == Open <==> call.RecordFailure?
  {
    assert StateAt(cfg, h, |h|) == HalfOpen && h[..|h|] == h;
    HalfOpenCount(cfg, h, i);
    RunExtends(cfg, h, call);
  }

  // ----- every call in every state

  /** An open circuit closes exactly on a reset and half-opens exactly on a late look;
      everything else leaves all its cells alone. */
  lemma OpenStep(cfg: Config, h: seq<Call>, call: Call)
    requires Run(cfg, h).state == Open
    ensures var before, after := Run(cfg, h), Run(cfg, h + [call]);
            && before.openedAt.Some?
            && after == match call
                        case Reset => Cells(Closed, None, 0, 0)
                        case QueryState(now) =>
                          if Early(cfg, before.openedAt.value, now) then before else before.(state := HalfOpen)
                        case Allow(now) =>
                          if Early(cfg, before.openedAt.value, now) then before else before.(state := HalfOpen)
                        case RecordSuccess => before
                        case RecordFailure(_) => before
  {
    RunConsistent(cfg, h);
    RunExtends(cfg, h, call);
  }

  /** A half-open circuit opens anew exactly on a failure, closes exactly on a reset or its
      third success, and otherwise counts its successes. */
  lemma HalfOpenStep(cfg: Config, h: seq<Call>, call: Call)
    requires Run(cfg, h).state == HalfOpen
    ensures var before, after := Run(cfg, h), Run(cfg, h + [call]);
            after == match call
                     case Reset => Cells(Closed, None, 0, 0)
                     case QueryState(_) => before
                     case Allow(_) => before
                     case RecordSuccess =>
                       if before.successes == 2 then Cells(Closed, None, 0, 0)
                       else before.(successes := before.successes + 1)
                     case RecordFailure(now) => before.(state := Open, openedAt := Some(now), successes := 0)
  {
    RunConsistent(cfg, h);
    RunExtends(cfg, h, call);
  }

  /** A closed circuit opens exactly on the failure that reaches the threshold, and otherwise
      counts its failures since the last success or reset. */
  lemma ClosedStep(cfg: Config, h: seq<Call>, call: Call)
    requires Run(cfg, h).state == Closed
    ensures var before, after := Run(cfg, h), Run(cfg, h + [call]);
            && before == Cells(Closed, None, before.failures, 0)
            && after == match call
                        case Reset => Cells(Closed, None, 0, 0)
                        case QueryState(_) => before
                        case Allow(_) => before
                        case RecordSuccess => Cells(Closed, None, 0, 0)
                        case RecordFailure(now) =>
                          var failures := before.failures + 1;
                          if failures == 1 && cfg.threshold == 0 then Cells(Open, Some(now), 1, 0)
                          else if failures == cfg.threshold then Cells(Open, Some(now), failures, 0)
                          else Cells(Closed, None, failures, 0)
  {
    RunConsistent(cfg, h);
    RunExtends(cfg, h, call);
  }

  /** Whatever happened before, a reset leaves the breaker as it was created. */
  lemma ResetCloses(cfg: Config, h: seq<Call>)
    ensures Run(cfg, h + [Reset]) == Run(cfg, []) == Cells(Closed, None, 0, 0)
  {
    RunExtends(cfg, h, Reset);
  }

  // ----- the class

  class CircuitBreaker {
    const config: Config
    var state: CircuitState
    var openedAt: Option<nat>
    var failureCount: nat
    var successCount: nat
    ghost var history: seq<Call>

    ghost function Contents(): Cells
      reads this
    {
      Cells(state, openedAt, failureCount, successCount)
    }

    ghost predicate Valid()
      reads this
    {
      Contents() == Run(config, history)
    }

    constructor (config: Config)
      ensures Valid() && this.config == config && history == []
    {
      this.config := config;
      state, openedAt, failureCount, successCount := Closed, None, 0, 0;
      history := [];
    }

    method State(now: nat) returns (s: CircuitState)
      requires Valid()
      modifies this
      ensures Valid() && history == old(history) + [QueryState(now)]
      ensures s == Run(config, history).state
    {
      MaybeTransition(now);
      s := state;
      Log(QueryState(now));
    }

    /** Refuses exactly while an opening failure in the history still holds the circuit. */
    method Allow(now: nat) returns (allowed: bool)
      requires Valid()
      modifies this
      ensures Valid() && history == old(history) + [Call.Allow(now)]
      ensures !allowed <==>
                exists i: nat :: HeldOpen(config, old(history), i) && Early(config, old(history)[i].now, now)
    {
      RefusedIff(config, history, now);
      MaybeTransition(now);
      allowed := match state
                 case Closed => true
                 case HalfOpen => true
                 case Open => false;
      Log(Call.Allow(now));
    }

    method RecordSuccess()
      requires Valid()
      modifies this
      ensures Valid() && history == old(history) + [Call.RecordSuccess]
    {
      match state {
        case Closed =>
          failureCount := 0;
        case HalfOpen =>
          var count := successCount + 1;
          successCount := (successCount + 1) % U64;
          if count >= 3 {
            Close();
          }
        case Open =>
      }
      Log(Call.RecordSuccess);
    }

    method RecordFailure(now: nat)
      requires Valid()
      modifies this
      ensures Valid() && history == old(history) + [Call.RecordFailure(now)]
    {
      match state {
        case Closed =>
          var count := failureCount + 1;
          failureCount := (failureCount + 1) % U64;
          if count >= config.threshold {
            OpenNow(now);
          }
        case HalfOpen =>
          OpenNow(now);
        case Open =>
      }
      Log(Call.RecordFailure(now));
    }

    method Reset()
      requires Valid()
      modifies this
      ensures Valid() && history == old(history) + [Call.Reset]
      ensures state == Closed && openedAt == None && failureCount == 0 && successCount == 0
    {
      Close();
      Log(Call.Reset);
    }

    method OpenNow(now: nat)
      modifies this
      ensures Contents() == Opened(old(Contents()), now) && history == old(history)
    {
      state := Open;
      openedAt := Some(now);
      successCount := 0;
    }

    method Close()
      modifies this
      ensures Contents() == NEW_CELLS && history == old(history)
    {
      state := Closed;
      failureCount := 0;
      successCount := 0;
      openedAt := None;
    }

    method MaybeTransition(now: nat)
      modifies this
      ensures Contents() == Polled(config, old(Contents()), now) && history == old(history)
    {
      if state != Open {
        return;
      }
      var shouldTransition := match openedAt
                              case Some(since) => Elapsed(since, now) >= config.recoveryTimeout
                              case None => false;
      if shouldTransition {
        if state == Open {
          state := HalfOpen;
          successCount := 0;
        }
      }
    }

    ghost method Log(call: Call)
      requires Contents() == After(config, Run(config, history), call)
      modifies `history
      ensures Valid() && history == old(history) + [call]
    {
      RunExtends(config, history, call);
      history := history + [call];
    }
  }
}
