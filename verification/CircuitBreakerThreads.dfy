/**
 The same circuit breaker called by any number of threads.  One step is one lock
 acquisition or one atomic operation, so `open` and `close` are several steps that other
 threads can interleave with.
 */
module CircuitBreakerThreads {
  import opened Options
  import opened CircuitBreakers
  import opened Widths

  /** What a thread does next.  Pending steps of `open` and `close` are named after the cell
      they write. */
  datatype Pc =
    | Idle
    | SuccessRead | SuccessClosed | SuccessHalfOpen | DropThenClose
    | FailureRead | FailureClosed | DropThenOpen
    | DropGuard
    | OpenState | OpenTime | OpenSuccesses
    | CloseState | CloseFailures | CloseSuccesses | CloseTime
    | PollState | PollTime | PollTransition | PollSuccesses | PollAnswer
  {
    /** The thread still holds the read guard it took on `state`. */
    predicate HoldsGuard() {
      this in {SuccessClosed, SuccessHalfOpen, DropThenClose, FailureClosed, DropThenOpen, DropGuard}
    }

    /** The next step takes the write lock on `state`. */
    predicate WritesState() {
      this in {OpenState, CloseState, PollTransition}
    }

    /** Inside `open`, between its writes of `state` and of `opened_at`. */
    predicate HalfwayOpen() {
      OpenTime?
    }

    /** Inside `close`, between its writes of `state` and of `opened_at`. */
    predicate HalfwayClosed() {
      this in {CloseFailures, CloseSuccesses, CloseTime}
    }
  }

  datatype Operation = CallSuccess | CallFailure | CallReset | CallPoll

  datatype Action = Begin(thread: nat, op: Operation) | Step(thread: nat, now: nat)

  datatype System = System(cells: Cells, threads: seq<Pc>)

  function Entry(op: Operation): Pc {
    match op
    case CallSuccess => SuccessRead
    case CallFailure => FailureRead
    case CallReset => CloseState
    case CallPoll => PollState
  }

  /** One step of one thread, as a function of the cells. */
  function Move(cfg: Config, c: Cells, pc: Pc, now: nat): (Cells, Pc) {
    match pc
    case Idle => (c, Idle)
    // record_success
    case SuccessRead =>
      (c, match c.state case Closed => SuccessClosed case HalfOpen => SuccessHalfOpen case Open => DropGuard)
    case SuccessClosed => (c.(failures := 0), DropGuard)
    case SuccessHalfOpen =>
      (c.(successes := (c.successes + 1) % U64), if c.successes + 1 >= 3 then DropThenClose else DropGuard)
    case DropThenClose => (c, CloseState)
    // record_failure
    case FailureRead =>
      (c, match c.state case Closed => FailureClosed case HalfOpen => DropThenOpen case Open => DropGuard)
    case FailureClosed =>
      (c.(failures := (c.failures + 1) % U64), if c.failures + 1 >= cfg.threshold then DropThenOpen else DropGuard)
    case DropThenOpen => (c, OpenState)
    case DropGuard => (c, Idle)
    // open
    case OpenState => (c.(state := Open), OpenTime)
    case OpenTime => (c.(openedAt := Some(now)), OpenSuccesses)
    case OpenSuccesses => (c.(successes := 0), Idle)
    // close
    case CloseState => (c.(state := Closed), CloseFailures)
    case CloseFailures => (c.(failures := 0), CloseSuccesses)
    case CloseSuccesses => (c.(successes := 0), CloseTime)
    case CloseTime => (c.(openedAt := None), Idle)
    // state and allow: maybe_transition, then the answer
    case PollState => (c, if c.state != Open then PollAnswer else PollTime)
    case PollTime =>
      var late := c.openedAt.Some? && Elapsed(c.openedAt.value, now) >= cfg.recoveryTimeout;
      (c, if late then PollTransition else PollAnswer)
    case PollTransition =>
      if c.state == Open then (c.(state := HalfOpen), PollSuccesses) else (c, PollAnswer)
    case PollSuccesses => (c.(successes := 0), PollAnswer)
    case PollAnswer => (c, Idle)
  }

  /** An upper bound on the steps a call still has to take. */
  function Rank(pc: Pc): nat {
    match pc
    case Idle => 0
    case DropGuard | OpenSuccesses | CloseTime | PollAnswer => 1
    case OpenTime | CloseSuccesses | PollSuccesses | SuccessClosed => 2
    case OpenState | CloseFailures | PollTransition => 3
    case DropThenOpen | CloseState | PollTime => 4
    case FailureClosed | DropThenClose | PollState => 5
    case FailureRead | SuccessHalfOpen => 6
    case SuccessRead => 7
  }

  /** What a call leaves when its thread runs it to the end at one instant, undisturbed. */
  function Solo(cfg: Config, c: Cells, pc: Pc, now: nat): Cells
    decreases Rank(pc)
  {
    if pc.Idle? then c
    else
      var (c', pc') := Move(cfg, c, pc, now);
      Solo(cfg, c', pc', now)
  }

  function CallOf(op: Operation, now: nat): Call {
    match op
    case CallSuccess => RecordSuccess
    case CallFailure => RecordFailure(now)
    case CallReset => Reset
    case CallPoll => Allow(now)
  }

  lemma SoloSuccess(cfg: Config, c: Cells, now: nat)
    ensures Solo(cfg, c, SuccessRead, now) == AfterSuccess(c)
  {}

  lemma SoloFailure(cfg: Config, c: Cells, now: nat)
    ensures Solo(cfg, c, FailureRead, now) == AfterFailure(cfg, c, now)
  {}

  lemma SoloPoll(cfg: Config, c: Cells, now: nat)
    ensures Solo(cfg, c, PollState, now) == Polled(cfg, c, now)
  {}

  /** The step model agrees with the sequential one: a call that nothing interleaves with
      does to the cells exactly what the class does. */
  lemma SoloIsSequential(cfg: Config, c: Cells, op: Operation, now: nat)
    ensures Solo(cfg, c, Entry(op), now) == After(cfg, c, CallOf(op, now))
  {
    match op
    case CallSuccess => SoloSuccess(cfg, c, now);
    case CallFailure => SoloFailure(cfg, c, now);
    case CallReset =>
    case CallPoll => SoloPoll(cfg, c, now);
  }

  /** A lone reset, through all its steps. */
  lemma LoneReset(cfg: Config, c: Cells, now: nat)
    ensures Solo(cfg, c, Entry(CallReset), now) == Cells(Closed, None, 0, 0)
  {
    SoloIsSequential(cfg, c, CallReset, now);
  }

  predicate NoGuards(s: System) {
    forall i | 0 <= i < |s.threads| :: !s.threads[i].HoldsGuard()
  }

  /** The system after an action, or None where the action cannot be taken. */
  function Next(cfg: Config, s: System, a: Action): (r: Option<System>) {
    if a.thread >= |s.threads| then None
    else
      var pc := s.threads[a.thread];
      match a
      case Begin(t, op) =>
        if pc.Idle? then Some(s.(threads := s.threads[t := Entry(op)])) else None
      case Step(t, now) =>
        if pc.Idle? || (pc.WritesState() && !NoGuards(s)) then None
        else
          var (cells, pc') := Move(cfg, s.cells, pc, now);
          Some(System(cells, s.threads[t := pc']))
  }

  function Exec(cfg: Config, s: System, run: seq<Action>): Option<System>
    decreases |run|
  {
    if run == [] then Some(s)
    else match Next(cfg, s, run[0])
         case None => None
         case Some(s') => Exec(cfg, s', run[1..])
  }

  lemma {:induction false} ExecConcat(cfg: Config, s: System, first: seq<Action>, second: seq<Action>)
    requires Exec(cfg, s, first).Some?
    ensures Exec(cfg, s, first + second) == Exec(cfg, Exec(cfg, s, first).value, second)
    decreases |first|
  {
    if first == [] {
      assert first + second == second;
    } else {
      ExecConcat(cfg, Next(cfg, s, first[0]).value, first[1..], second);
      assert (first + second)[1..] == first[1..] + second;
    }
  }

  function Start(threads: nat): System {
    System(NEW_CELLS, seq(threads, _ => Idle))
  }

  ghost predicate SomeOpening(s: System) {
    exists i :: 0 <= i < |s.threads| && s.threads[i].HalfwayOpen()
  }

  ghost predicate SomeClosing(s: System) {
    exists i :: 0 <= i < |s.threads| && s.threads[i].HalfwayClosed()
  }

  ghost predicate Overlap(s: System) {
    SomeOpening(s) && SomeClosing(s)
  }

  /** An open circuit has a recovery time, and only an open or half-open one has. */
  predicate Coherent(c: Cells) {
    c.state == Closed <==> c.openedAt == None
  }

  // ----- no overlap keeps the breaker coherent

  ghost predicate Inv(s: System) {
    if SomeClosing(s) then s.cells.state == Closed
    else if SomeOpening(s) then s.cells.state != Closed
    else Coherent(s.cells)
  }

  ghost predicate NoOverlapAlong(cfg: Config, s: System, run: seq<Action>)
    decreases |run|
  {
    && !Overlap(s)
    && (run != [] && Next(cfg, s, run[0]).Some? ==> NoOverlapAlong(cfg, Next(cfg, s, run[0]).value, run[1..]))
  }

  lemma NextKeepsInv(cfg: Config, s: System, a: Action)
    requires Inv(s) && !Overlap(s)
    requires Next(cfg, s, a).Some? && !Overlap(Next(cfg, s, a).value)
    ensures Inv(Next(cfg, s, a).value)
  {
    var s' := Next(cfg, s, a).value;
    var t := a.thread;
    var pc, pc' := s.threads[t], s'.threads[t];
    assert forall i | 0 <= i < |s.threads| && i != t :: s'.threads[i] == s.threads[i];
    if pc'.HalfwayClosed() {
      assert SomeClosing(s');
    }
    if pc'.HalfwayOpen() {
      assert SomeOpening(s');
    }
    if SomeClosing(s') && !pc'.HalfwayClosed() {
      var i :| 0 <= i < |s'.threads| && s'.threads[i].HalfwayClosed();
      assert s.threads[i].HalfwayClosed();
    }
    if SomeOpening(s') && !pc'.HalfwayOpen() {
      var i :| 0 <= i < |s'.threads| && s'.threads[i].HalfwayOpen();
      assert s.threads[i].HalfwayOpen();
    }
    if SomeClosing(s) && !pc.HalfwayClosed() {
      var i :| 0 <= i < |s.threads| && s.threads[i].HalfwayClosed();
      assert s'.threads[i].HalfwayClosed();
    }
    if SomeOpening(s) && !pc.HalfwayOpen() {
      var i :| 0 <= i < |s.threads| && s.threads[i].HalfwayOpen();
      assert s'.threads[i].HalfwayOpen();
    }
    if pc.HalfwayClosed() {
      assert SomeClosing(s);
    }
    if pc.HalfwayOpen() {
      assert SomeOpening(s);
    }
  }

  lemma {:induction false} RunKeepsInv(cfg: Config, s: System, run: seq<Action>)
    requires Inv(s) && NoOverlapAlong(cfg, s, run) && Exec(cfg, s, run).Some?
    ensures Inv(Exec(cfg, s, run).value)
    decreases |run|
  {
    if run == [] {
    } else {
      NextKeepsInv(cfg, s, run[0]);
      RunKeepsInv(cfg, Next(cfg, s, run[0]).value, run[1..]);
    }
  }

  /** In every run of any number of threads in which no `open` is halfway while a `close`
      is, the circuit is coherent whenever no thread is halfway through either. */
  lemma NoOverlapMeansCoherent(cfg: Config, threads: nat, run: seq<Action>)
    requires NoOverlapAlong(cfg, Start(threads), run) && Exec(cfg, Start(threads), run).Some?
    ensures var s := Exec(cfg, Start(threads), run).value;
            !SomeOpening(s) && !SomeClosing(s) ==> Coherent(s.cells)
  {
    RunKeepsInv(cfg, Start(threads), run);
  }

  // ----- every overlap can break it

  /** Nobody steps but threads that are halfway through `open` or `close`. */
  predicate HalfwayOnly(cfg: Config, s: System, run: seq<Action>)
    decreases |run|
  {
    run == [] ||
    (&& run[0].Step? && run[0].thread < |s.threads|
     && (s.threads[run[0].thread].HalfwayOpen() || s.threads[run[0].thread].HalfwayClosed())
     && Next(cfg, s, run[0]).Some? && HalfwayOnly(cfg, Next(cfg, s, run[0]).value, run[1..]))
  }

  lemma {:induction false} HalfwayConcat(cfg: Config, s: System, first: seq<Action>, second: seq<Action>)
    requires Exec(cfg, s, first).Some? && HalfwayOnly(cfg, s, first)
    requires HalfwayOnly(cfg, Exec(cfg, s, first).value, second)
    ensures HalfwayOnly(cfg, s, first + second)
    decreases |first|
  {
    if first == [] {
      assert first + second == second;
    } else {
      HalfwayConcat(cfg, Next(cfg, s, first[0]).value, first[1..], second);
      assert (first + second)[1..] == first[1..] + second;
    }
  }

  lemma {:induction false} HalfwayKeepsState(cfg: Config, s: System, run: seq<Action>)
    requires HalfwayOnly(cfg, s, run) && Exec(cfg, s, run).Some?
    ensures Exec(cfg, s, run).value.cells.state == s.cells.state
    decreases |run|
  {
    if run == [] {
    } else {
      HalfwayKeepsState(cfg, Next(cfg, s, run[0]).value, run[1..]);
    }
  }

  lemma {:induction false} FinishOpening(cfg: Config, s: System, from: nat) returns (run: seq<Action>, s': System)
    requires from <= |s.threads|
    ensures Exec(cfg, s, run) == Some(s') && HalfwayOnly(cfg, s, run)
    ensures |s'.threads| == |s.threads| && s'.cells.state == s.cells.state
    ensures forall i | from <= i < |s.threads| :: !s'.threads[i].HalfwayOpen()
    ensures forall i | 0 <= i < |s.threads| && (i < from || !s.threads[i].HalfwayOpen()) ::
              s'.threads[i] == s.threads[i]
    ensures forall i | 0 <= i < |s.threads| && s'.threads[i] != s.threads[i] :: s'.threads[i] == OpenSuccesses
    ensures (exists i :: from <= i < |s.threads| && s.threads[i].HalfwayOpen()) ==> s'.cells.openedAt.Some?
    ensures s.cells.openedAt.Some? ==> s'.cells.openedAt.Some?
    decreases |s.threads| - from
  {
    if from == |s.threads| {
      run, s' := [], s;
    } else if s.threads[from].HalfwayOpen() {
      var a := Step(from, 0);
      var s1 := Next(cfg, s, a).value;
      var rest;
      rest, s' := FinishOpening(cfg, s1, from + 1);
      run := [a] + rest;
      assert run[1..] == rest;
    } else {
      run, s' := FinishOpening(cfg, s, from + 1);
    }
  }

  lemma {:induction false} FinishClosing(cfg: Config, s: System, from: nat) returns (run: seq<Action>, s': System)
    requires from <= |s.threads|
    ensures Exec(cfg, s, run) == Some(s') && HalfwayOnly(cfg, s, run)
    ensures |s'.threads| == |s.threads| && s'.cells.state == s.cells.state
    ensures forall i | from <= i < |s.threads| :: !s'.threads[i].HalfwayClosed()
    ensures forall i | 0 <= i < |s.threads| && (i < from || !s.threads[i].HalfwayClosed()) ::
              s'.threads[i] == s.threads[i]
    ensures forall i | 0 <= i < |s.threads| && s'.threads[i] != s.threads[i] :: s'.threads[i] == Idle
    ensures (exists i :: from <= i < |s.threads| && s.threads[i].HalfwayClosed()) ==> s'.cells.openedAt == None
    ensures s.cells.openedAt == None ==> s'.cells.openedAt == None
    decreases |s.threads| - from, if from < |s.threads| then Rank(s.threads[from]) else 0
  {
    if from == |s.threads| {
      run, s' := [], s;
    } else if s.threads[from].HalfwayClosed() {
      var a := Step(from, 0);
      var s1 := Next(cfg, s, a).value;
      var rest;
      rest, s' := FinishClosing(cfg, s1, from);
      run := [a] + rest;
      assert run[1..] == rest;
    } else {
      run, s' := FinishClosing(cfg, s, from + 1);
    }
  }

  /** One after the other. */
  lemma RunBoth(cfg: Config, s: System, first: seq<Action>, middle: System, second: seq<Action>, s': System)
    returns (run: seq<Action>)
    requires Exec(cfg, s, first) == Some(middle) && HalfwayOnly(cfg, s, first)
    requires Exec(cfg, middle, second) == Some(s') && HalfwayOnly(cfg, middle, second)
    ensures Exec(cfg, s, run) == Some(s') && HalfwayOnly(cfg, s, run)
  {
    run := first + second;
    ExecConcat(cfg, s, first, second);
    HalfwayConcat(cfg, s, first, second);
  }

  lemma CloseThenOpen(cfg: Config, s: System) returns (run: seq<Action>, s': System)
    requires SomeOpening(s)
    ensures Exec(cfg, s, run) == Some(s') && HalfwayOnly(cfg, s, run)
    ensures !SomeOpening(s') && !SomeClosing(s') && s'.cells.state == s.cells.state && s'.cells.openedAt.Some?
  {
    var first, middle := FinishClosing(cfg, s, 0);
    var i :| 0 <= i < |s.threads| && s.threads[i].HalfwayOpen();
    assert middle.threads[i].HalfwayOpen();
    var second;
    second, s' := FinishOpening(cfg, middle, 0);
    run := RunBoth(cfg, s, first, middle, second, s');
  }

  lemma OpenThenClose(cfg: Config, s: System) returns (run: seq<Action>, s': System)
    requires SomeClosing(s)
    ensures Exec(cfg, s, run) == Some(s') && HalfwayOnly(cfg, s, run)
    ensures !SomeOpening(s') && !SomeClosing(s') && s'.cells.state == s.cells.state && s'.cells.openedAt == None
  {
    var first, middle := FinishOpening(cfg, s, 0);
    var i :| 0 <= i < |s.threads| && s.threads[i].HalfwayClosed();
    assert middle.threads[i].HalfwayClosed();
    var second;
    second, s' := FinishClosing(cfg, middle, 0);
    run := RunBoth(cfg, s, first, middle, second, s');
  }

  /** From every overlap there is a schedule, of nothing but the halfway calls, after which
      no call is halfway and the circuit is not coherent. */
  lemma OverlapCanBreak(cfg: Config, s: System) returns (run: seq<Action>, s': System)
    requires Overlap(s)
    ensures Exec(cfg, s, run) == Some(s') && HalfwayOnly(cfg, s, run)
    ensures !SomeOpening(s') && !SomeClosing(s') && !Coherent(s'.cells)
  {
    if s.cells.state == Closed {
      run, s' := CloseThenOpen(cfg, s);
    } else {
      run, s' := OpenThenClose(cfg, s);
    }
  }

  /** The halfway calls alone can leave the circuit open without a recovery time. */
  ghost predicate CanStick(cfg: Config, s: System) {
    exists run, s' :: Exec(cfg, s, run) == Some(s') && HalfwayOnly(cfg, s, run)
      && !SomeOpening(s') && !SomeClosing(s') && s'.cells.state == Open && s'.cells.openedAt == None
  }

  /** Among the overlaps, exactly those in which the circuit is open can end like that. */
  lemma StickIff(cfg: Config, s: System)
    requires Overlap(s)
    ensures CanStick(cfg, s) <==> s.cells.state == Open
  {
    if s.cells.state == Open {
      var run, s' := OverlapCanBreak(cfg, s);
      HalfwayKeepsState(cfg, s, run);
    }
    forall run, s' | Exec(cfg, s, run) == Some(s') && HalfwayOnly(cfg, s, run) ensures s'.cells.state == s.cells.state {
      HalfwayKeepsState(cfg, s, run);
    }
  }

  // ----- the stuck breaker

  ghost predicate Quiescent(s: System) {
    forall i | 0 <= i < |s.threads| :: s.threads[i].Idle?
  }

  /** Extends a run of two threads by one action of thread 0 or 1. */
  lemma Grow(cfg: Config, run: seq<Action>, c: Cells, a: Pc, b: Pc, act: Action)
    returns (run': seq<Action>, c': Cells, a': Pc, b': Pc)
    requires Exec(cfg, Start(2), run) == Some(System(c, [a, b]))
    requires act.thread < 2
    requires var pc := [a, b][act.thread];
             if act.Begin? then pc.Idle? else !pc.Idle? && (pc.HoldsGuard() || !(a.HoldsGuard() || b.HoldsGuard()))
    ensures Exec(cfg, Start(2), run') == Some(System(c', [a', b']))
    ensures act.Begin? && act.thread == 0 ==> (c', a', b') == (c, Entry(act.op), b)
    ensures act.Begin? && act.thread == 1 ==> (c', a', b') == (c, a, Entry(act.op))
    ensures act.Step? && act.thread == 0 ==> (c', a') == Move(cfg, c, a, act.now) && b' == b
    ensures act.Step? && act.thread == 1 ==> (c', b') == Move(cfg, c, b, act.now) && a' == a
  {
    ExecConcat(cfg, Start(2), run, [act]);
    run' := run + [act];
    var s := Next(cfg, System(c, [a, b]), act).value;
    c', a', b' := s.cells, s.threads[0], s.threads[1];
    assert s.threads == [a', b'];
  }

  /** Thread 1 counts one more failure, and then goes on to `open` if that trips. */
  lemma OneFailure(cfg: Config, run: seq<Action>, n: nat) returns (run': seq<Action>)
    requires n < cfg.Trip()
    requires Exec(cfg, Start(2), run) == Some(System(NEW_CELLS.(failures := n), [Idle, Idle]))
    ensures var pc := if n + 1 >= cfg.threshold then DropThenOpen else DropGuard;
            Exec(cfg, Start(2), run') == Some(System(NEW_CELLS.(failures := n + 1), [Idle, pc]))
  {
    var c, a, b := NEW_CELLS.(failures := n), Idle, Idle;
    run', c, a, b := Grow(cfg, run, c, a, b, Begin(1, CallFailure));
    run', c, a, b := Grow(cfg, run', c, a, b, Step(1, 0));
    run', c, a, b := Grow(cfg, run', c, a, b, Step(1, 0));
  }

  /** The failures before the last one of a trip, one after the other on thread 1. */
  lemma {:induction false} SomeFailures(cfg: Config, n: nat) returns (run: seq<Action>)
    requires n < cfg.Trip()
    ensures Exec(cfg, Start(2), run) == Some(System(NEW_CELLS.(failures := n), [Idle, Idle]))
  {
    if n == 0 {
      run := [];
      assert Start(2).threads == [Idle, Idle];
    } else {
      run := SomeFailures(cfg, n - 1);
      run := OneFailure(cfg, run, n - 1);
      var c, a, b;
      run, c, a, b := Grow(cfg, run, NEW_CELLS.(failures := n), Idle, DropGuard, Step(1, 0));
    }
  }

  /** Thread 1 has recorded the tripping failure and is about to call `open`. */
  lemma AboutToOpen(cfg: Config, now: nat) returns (run: seq<Action>)
    ensures Exec(cfg, Start(2), run) == Some(System(NEW_CELLS.(failures := cfg.Trip()), [Idle, OpenState]))
  {
    run := SomeFailures(cfg, cfg.Trip() - 1);
    run := OneFailure(cfg, run, cfg.Trip() - 1);
    var c, a, b;
    run, c, a, b := Grow(cfg, run, NEW_CELLS.(failures := cfg.Trip()), Idle, DropThenOpen, Step(1, now));
  }

  /** Then thread 0 starts a reset. */
  lemma AboutToClose(cfg: Config, now: nat) returns (run: seq<Action>)
    ensures Exec(cfg, Start(2), run) == Some(System(NEW_CELLS.(failures := cfg.Trip()), [CloseFailures, OpenState]))
  {
    run := AboutToOpen(cfg, now);
    var c, a, b := NEW_CELLS.(failures := cfg.Trip()), Idle, OpenState;
    run, c, a, b := Grow(cfg, run, c, a, b, Begin(0, CallReset));
    run, c, a, b := Grow(cfg, run, c, a, b, Step(0, now));
  }

  /** It gets up to the last write of `close`. */
  lemma AboutToForgetTheTime(cfg: Config, now: nat) returns (run: seq<Action>)
    ensures Exec(cfg, Start(2), run) == Some(System(NEW_CELLS, [CloseTime, OpenState]))
  {
    run := AboutToClose(cfg, now);
    var c, a, b := NEW_CELLS.(failures := cfg.Trip()), CloseFailures, OpenState;
    run, c, a, b := Grow(cfg, run, c, a, b, Step(0, now));
    run, c, a, b := Grow(cfg, run, c, a, b, Step(0, now));
  }

  /** With every threshold and two threads, a reset that overlaps the tripping failure ends
      with nobody in a call, the circuit open, and no recovery time. */
  lemma StuckIsReachable(cfg: Config, now: nat) returns (run: seq<Action>, s: System)
    ensures Exec(cfg, Start(2), run) == Some(s)
    ensures Quiescent(s) && s.cells.state == Open && s.cells.openedAt == None
  {
    run := AboutToForgetTheTime(cfg, now);
    var c, a, b := NEW_CELLS, CloseTime, OpenState;
    run, c, a, b := Grow(cfg, run, c, a, b, Step(1, now));
    run, c, a, b := Grow(cfg, run, c, a, b, Step(1, now));
    run, c, a, b := Grow(cfg, run, c, a, b, Step(1, now));
    run, c, a, b := Grow(cfg, run, c, a, b, Step(0, now));
    s := System(c, [a, b]);
  }

  /** Steps that cannot write `state` or `opened_at` while the circuit is Open/None. */
  ghost predicate Stuck(s: System) {
    && s.cells.state == Open && s.cells.openedAt == None
    && forall i | 0 <= i < |s.threads| ::
         s.threads[i] in {Idle, SuccessRead, FailureRead, DropGuard, PollState, PollTime, PollAnswer}
  }

  predicate ResetFree(run: seq<Action>) {
    forall a | a in run :: !(a.Begin? && a.op.CallReset?)
  }

  /** Once nobody is in a call and the circuit is open without a recovery time, no
      continuation without a reset ever leaves that state, so every request is refused. */
  lemma {:induction false} StuckForever(cfg: Config, s: System, run: seq<Action>)
    requires Stuck(s) && ResetFree(run) && Exec(cfg, s, run).Some?
    ensures Stuck(Exec(cfg, s, run).value)
    decreases |run|
  {
    if run == [] {
    } else {
      var s' := Next(cfg, s, run[0]).value;
      assert run[0] in run;
      assert forall a | a in run[1..] :: a in run;
      StuckForever(cfg, s', run[1..]);
    }
  }

  lemma QuiescentOpenWithoutTimeIsForever(cfg: Config, s: System, run: seq<Action>)
    requires Quiescent(s) && s.cells.state == Open && s.cells.openedAt == None
    requires ResetFree(run) && Exec(cfg, s, run).Some?
    ensures var s' := Exec(cfg, s, run).value; s'.cells.state == Open && s'.cells.openedAt == None
  {
    StuckForever(cfg, s, run);
  }

  // ----- an early request

  /** The circuit opens at 0. */
  lemma OpensFirst(cfg: Config) returns (run: seq<Action>)
    ensures Exec(cfg, Start(2), run) == Some(System(Cells(Open, Some(0), cfg.Trip(), 0), [Idle, Idle]))
  {
    run := AboutToOpen(cfg, 0);
    var c, a, b := NEW_CELLS.(failures := cfg.Trip()), Idle, OpenState;
    run, c, a, b := Grow(cfg, run, c, a, b, Step(1, 0));
    run, c, a, b := Grow(cfg, run, c, a, b, Step(1, 0));
    run, c, a, b := Grow(cfg, run, c, a, b, Step(1, 0));
  }

  /** Thread 0 looks at an open circuit whose time is old, up to its transition. */
  lemma LooksLate(cfg: Config, run: seq<Action>, c: Cells, b: Pc) returns (run': seq<Action>)
    requires c.state == Open && c.openedAt == Some(0) && !b.HoldsGuard()
    requires Exec(cfg, Start(2), run) == Some(System(c, [Idle, b]))
    ensures Exec(cfg, Start(2), run') == Some(System(c, [PollTransition, b]))
  {
    var c', a, b';
    run', c', a, b' := Grow(cfg, run, c, Idle, b, Begin(0, CallPoll));
    run', c', a, b' := Grow(cfg, run', c, PollState, b, Step(0, cfg.recoveryTimeout));
    run', c', a, b' := Grow(cfg, run', c, PollTime, b, Step(0, cfg.recoveryTimeout));
  }

  /** The transition, up to the answer. */
  lemma LetsThrough(cfg: Config, run: seq<Action>, c: Cells, b: Pc) returns (run': seq<Action>)
    requires c.state == Open && !b.HoldsGuard()
    requires Exec(cfg, Start(2), run) == Some(System(c, [PollTransition, b]))
    ensures Exec(cfg, Start(2), run') == Some(System(c.(state := HalfOpen, successes := 0), [PollAnswer, b]))
  {
    var c', a, b';
    run', c', a, b' := Grow(cfg, run, c, PollTransition, b, Step(0, cfg.recoveryTimeout));
    run', c', a, b' := Grow(cfg, run', c.(state := HalfOpen), PollSuccesses, b, Step(0, cfg.recoveryTimeout));
  }

  /** A failure in a half-open circuit, up to where the state is written and the time is not. */
  lemma OpensHalfway(cfg: Config, run: seq<Action>, c: Cells) returns (run': seq<Action>)
    requires c.state == HalfOpen && Exec(cfg, Start(2), run) == Some(System(c, [Idle, Idle]))
    ensures Exec(cfg, Start(2), run') == Some(System(c.(state := Open), [Idle, OpenTime]))
  {
    var c', a, b;
    run', c', a, b := Grow(cfg, run, c, Idle, Idle, Begin(1, CallFailure));
    run', c', a, b := Grow(cfg, run', c, Idle, FailureRead, Step(1, cfg.recoveryTimeout));
    run', c', a, b := Grow(cfg, run', c, Idle, DropThenOpen, Step(1, cfg.recoveryTimeout));
    run', c', a, b := Grow(cfg, run', c, Idle, OpenState, Step(1, cfg.recoveryTimeout));
  }

  /** Half-open for the first time, with nobody in a call. */
  lemma HalfOpensFirst(cfg: Config) returns (run: seq<Action>)
    ensures Exec(cfg, Start(2), run) == Some(System(Cells(HalfOpen, Some(0), cfg.Trip(), 0), [Idle, Idle]))
  {
    var open := Cells(Open, Some(0), cfg.Trip(), 0);
    run := OpensFirst(cfg);
    run := LooksLate(cfg, run, open, Idle);
    run := LetsThrough(cfg, run, open, Idle);
    var c, a, b;
    run, c, a, b := Grow(cfg, run, open.(state := HalfOpen), PollAnswer, Idle, Step(0, cfg.recoveryTimeout));
  }

  /** What the sequential breaker never does: while a failure is opening the circuit, a
      request at the same instant, long before the recovery timeout, is let through, because
      it still finds the time of the opening before. */
  lemma RequestComesEarly(cfg: Config) returns (run: seq<Action>, s: System)
    requires cfg.recoveryTimeout > 0
    ensures Exec(cfg, Start(2), run) == Some(s)
    ensures s.threads == [PollAnswer, OpenTime] && s.cells.state == HalfOpen
    ensures var s' := Next(cfg, s, Step(1, cfg.recoveryTimeout));
            s'.Some? && s'.value.cells.openedAt == Some(cfg.recoveryTimeout)
  {
    var open := Cells(Open, Some(0), cfg.Trip(), 0);
    run := HalfOpensFirst(cfg);
    run := OpensHalfway(cfg, run, open.(state := HalfOpen));
    run := LooksLate(cfg, run, open, OpenTime);
    run := LetsThrough(cfg, run, open, OpenTime);
    s := System(open.(state := HalfOpen), [PollAnswer, OpenTime]);
  }

  // ----- no deadlock

  /** Whenever some call is unfinished, some thread can take a step: a thread that holds the
      read guard on `state` never waits for another lock. */
  lemma SomeThreadCanStep(cfg: Config, s: System, now: nat) returns (t: nat)
    requires !Quiescent(s)
    ensures Next(cfg, s, Step(t, now)).Some?
  {
    if NoGuards(s) {
      t :| t < |s.threads| && !s.threads[t].Idle?;
    } else {
      t :| t < |s.threads| && s.threads[t].HoldsGuard();
    }
  }
}
