/**
 The WOS process table.  `signal` applies a signal under the table's lock, gives the lock
 up, and takes it again to remove a terminated process; others can interleave in the gap.
 */
module WosAdapters {
  import opened Options
  import opened Decimal
  import opened Signals
  import opened Widths


  datatype ProcessState = Created | Ready | Running | Blocked | Exited(code: int) | Killed(signal: Signal) {
    predicate IsTerminated() {
      Exited? || Killed?
    }
  }

  datatype DaemonStatus =
    | StatusCreated
    | StatusRunning
    | StatusStopped
    | FailedWithCode(code: int)
    | FailedWithSignal(number: nat)

  function StateToStatus(state: ProcessState): DaemonStatus {
    match state
    case Created => StatusCreated
    case Ready | Running | Blocked => StatusRunning
    case Exited(code) => if code == 0 then StatusStopped else FailedWithCode(code)
    case Killed(signal) => FailedWithSignal(signal.Number())
  }

  function ApplySignal(state: ProcessState, signal: Signal): ProcessState {
    match signal
    case Kill => Killed(Kill)
    case Term => Killed(Term)
    case Stop => Blocked
    case Cont => if state == Blocked then Ready else state
    case _ => state
  }

  type Table = map<nat, ProcessState>

  /** A process that is not in the table is reported as stopped. */
  function StatusIn(table: Table, pid: nat): DaemonStatus {
    if pid in table then StateToStatus(table[pid]) else StatusStopped
  }

  // ----- process ids

  /** The id that the i-th allocation yields: a 32-bit counter that starts at 2. */
  function PidAt(i: nat): nat {
    (2 + i) % U32
  }

  predicate Issued(allocations: nat, pid: nat) {
    exists i :: 0 <= i < allocations && PidAt(i) == pid
  }

  /** The counter does not repeat an id within its first 2^32 allocations. */
  lemma FreshPid(allocations: nat)
    requires allocations < U32
    ensures !Issued(allocations, PidAt(allocations))
  {
    forall i | 0 <= i < allocations ensures PidAt(i) != PidAt(allocations) {
      PidsDiffer(i, allocations);
    }
  }

  lemma PidsDiffer(i: nat, j: nat)
    requires i < j < U32
    ensures PidAt(i) != PidAt(j)
  {
    assert PidAt(i) == if 2 + i < U32 then 2 + i else 2 + i - U32;
    assert PidAt(j) == if 2 + j < U32 then 2 + j else 2 + j - U32;
  }

  // ----- any number of callers

  datatype Pc =
    | Idle
    | AllocatePid
    | Insert(pid: nat)
    | Apply(pid: nat, signal: Signal)
    | Remove(pid: nat)

  /** `finished` collects the processes that some `signal` call has removed and returned. */
  datatype System = System(table: Table, allocations: nat, callers: seq<Pc>, finished: set<nat>)

  datatype Action =
    | Spawn(caller: nat)
    | SendSignal(caller: nat, pid: nat, signal: Signal)
    | Step(caller: nat)
    | AllocateElsewhere

  predicate CanAct(s: System, a: Action) {
    match a
    case Spawn(c) => c < |s.callers| && s.callers[c].Idle?
    case SendSignal(c, _, _) => c < |s.callers| && s.callers[c].Idle?
    case Step(c) => c < |s.callers| && !s.callers[c].Idle?
    case AllocateElsewhere => true
  }

  function At(s: System, c: nat, pc: Pc): System
    requires c < |s.callers|
  {
    s.(callers := s.callers[c := pc])
  }

  function Act(s: System, a: Action): System
    requires CanAct(s, a)
  {
    match a
    case Spawn(c) => At(s, c, AllocatePid)
    case SendSignal(c, pid, signal) => At(s, c, Apply(pid, signal))
    case AllocateElsewhere => s.(allocations := s.allocations + 1)
    case Step(c) =>
      match s.callers[c]
      case Idle => s
      case AllocatePid => At(s, c, Insert(PidAt(s.allocations))).(allocations := s.allocations + 1)
      case Insert(pid) => At(s, c, Idle).(table := s.table[pid := Running])
      case Apply(pid, signal) =>
        if pid !in s.table then At(s, c, Idle)
        else
          var state := ApplySignal(s.table[pid], signal);
          At(s, c, if state.IsTerminated() then Remove(pid) else Idle).(table := s.table[pid := state])
      case Remove(pid) => At(s, c, Idle).(table := s.table - {pid}, finished := s.finished + {pid})
  }

  predicate Runs(s: System, run: seq<Action>, s': System)
    decreases |run|
  {
    if run == [] then s' == s else CanAct(s, run[0]) && Runs(Act(s, run[0]), run[1..], s')
  }

  function Start(callers: nat): System {
    System(map[], 0, seq(callers, _ => Idle), {})
  }

  /** Every id has been issued at most once, so it is in at most one of these places: about to
      be inserted by one caller, in the table or about to be removed, or finished. */
  ghost predicate Inv(s: System) {
    TableInv(s) && CallersInv(s) && Apart(s.callers)
  }

  ghost predicate TableInv(s: System) {
    && (forall p | p in s.table :: Issued(s.allocations, p) && p !in s.finished)
    && (forall p | p in s.finished :: Issued(s.allocations, p))
  }

  ghost predicate CallersInv(s: System) {
    && (forall c | 0 <= c < |s.callers| && s.callers[c].Insert? ::
          Issued(s.allocations, s.callers[c].pid) && s.callers[c].pid !in s.table && s.callers[c].pid !in s.finished)
    && (forall c | 0 <= c < |s.callers| && s.callers[c].Remove? :: Issued(s.allocations, s.callers[c].pid))
  }

  ghost predicate Apart(callers: seq<Pc>) {
    forall c, d | 0 <= c < |callers| && 0 <= d < |callers| && c != d && callers[c].Insert? ::
      (callers[d].Insert? || callers[d].Remove?) ==> callers[d].pid != callers[c].pid
  }

  lemma IssuedLater(allocations: nat)
    ensures forall p :: Issued(allocations, p) ==> Issued(allocations + 1, p)
    ensures Issued(allocations + 1, PidAt(allocations))
  {}

  lemma ActKeepsTable(s: System, a: Action)
    requires Inv(s) && CanAct(s, a)
    ensures TableInv(Act(s, a))
  {
    IssuedLater(s.allocations);
  }

  lemma ActKeepsCallers(s: System, a: Action)
    requires Inv(s) && CanAct(s, a) && Act(s, a).allocations <= U32
    ensures CallersInv(Act(s, a))
  {
    IssuedLater(s.allocations);
    if s.allocations < U32 {
      FreshPid(s.allocations);
    }
  }

  lemma ActKeepsApart(s: System, a: Action)
    requires Inv(s) && CanAct(s, a) && Act(s, a).allocations <= U32
    ensures Apart(Act(s, a).callers)
  {
    if s.allocations < U32 {
      FreshPid(s.allocations);
    }
  }

  lemma ActKeepsInv(s: System, a: Action)
    requires Inv(s) && CanAct(s, a) && Act(s, a).allocations <= U32
    ensures Inv(Act(s, a))
  {
    ActKeepsTable(s, a);
    ActKeepsCallers(s, a);
    ActKeepsApart(s, a);
  }

  lemma {:induction false} RunKeepsInv(s: System, run: seq<Action>, s': System)
    requires Inv(s) && Runs(s, run, s') && s'.allocations <= U32
    ensures Inv(s') && s.finished <= s'.finished
    decreases |run|
  {
    if run == [] {
    } else {
      OnlyMoreAllocations(Act(s, run[0]), run[1..], s');
      ActKeepsInv(s, run[0]);
      RunKeepsInv(Act(s, run[0]), run[1..], s');
    }
  }

  lemma {:induction false} OnlyMoreAllocations(s: System, run: seq<Action>, s': System)
    requires Runs(s, run, s')
    ensures s.allocations <= s'.allocations
    decreases |run|
  {
    if run == [] {
    } else {
      OnlyMoreAllocations(Act(s, run[0]), run[1..], s');
    }
  }

  /** Kill and Term on a process in the table always go on to remove it. */
  lemma KillGoesOnToRemove(s: System, c: nat)
    requires CanAct(s, Step(c)) && s.callers[c].Apply? && s.callers[c].pid in s.table
    requires s.callers[c].signal in {Kill, Term}
    ensures Act(s, Step(c)).callers[c] == Remove(s.callers[c].pid)
  {}

  /** Once a call that terminated a process has returned, then in every continuation, whatever
      other callers did between its two critical sections and do afterwards, the process is
      never in the table again and its status is Stopped, as long as the counter has not been
      advanced more than 2^32 times. */
  lemma TerminationIsFinal(callers: nat, run: seq<Action>, s: System, c: nat, more: seq<Action>, s': System)
    requires Runs(Start(callers), run, s) && CanAct(s, Step(c)) && s.callers[c].Remove?
    requires Runs(Act(s, Step(c)), more, s') && s'.allocations <= U32
    ensures s.callers[c].pid !in s'.table
    ensures StatusIn(s'.table, s.callers[c].pid) == StatusStopped
  {
    OnlyMoreAllocations(Act(s, Step(c)), more, s');
    RunKeepsInv(Start(callers), run, s);
    ActKeepsInv(s, Step(c));
    RunKeepsInv(Act(s, Step(c)), more, s');
    assert s.callers[c].pid in Act(s, Step(c)).finished;
  }

  // ----- the gap, and the wraparound

  lemma {:induction false} RunsExtend(s0: System, run: seq<Action>, s: System, a: Action)
    requires Runs(s0, run, s) && CanAct(s, a)
    ensures Runs(s0, run + [a], Act(s, a))
    decreases |run|
  {
    if run == [] {
      assert run + [a] == [a] && [a][1..] == [];
    } else {
      RunsExtend(Act(s0, run[0]), run[1..], s, a);
      assert (run + [a])[1..] == run[1..] + [a];
    }
  }

  /** Some run goes from the one to the other. */
  ghost predicate Leads(s: System, s': System) {
    exists run :: Runs(s, run, s')
  }

  lemma LeadsToItself(s: System)
    ensures Leads(s, s)
  {
    assert Runs(s, [], s);
  }

  lemma OneAction(s0: System, s: System, a: Action) returns (s': System)
    requires Leads(s0, s) && CanAct(s, a)
    ensures Leads(s0, s') && s' == Act(s, a)
  {
    var run :| Runs(s0, run, s);
    RunsExtend(s0, run, s, a);
    s' := Act(s, a);
  }

  lemma SpawnFirst() returns (s: System)
    ensures Leads(Start(2), s)
    ensures s == System(map[2 := Running], 1, [Idle, Idle], {})
  {
    var s0 := Start(2);
    LeadsToItself(s0);
    assert s0.callers == [Idle, Idle];
    s := OneAction(s0, s0, Spawn(0));
    s := OneAction(s0, s, Step(0));
    assert s.callers == [Insert(2), Idle];
    s := OneAction(s0, s, Step(0));
    assert s.callers == [Idle, Idle];
  }

  /** The first half of a kill. */
  lemma KillFirst() returns (s: System)
    ensures Leads(Start(2), s)
    ensures s == System(map[2 := Killed(Kill)], 1, [Remove(2), Idle], {})
  {
    s := SpawnFirst();
    s := OneAction(Start(2), s, SendSignal(0, 2, Kill));
    assert s.callers == [Apply(2, Kill), Idle];
    s := OneAction(Start(2), s, Step(0));
    assert s.callers == [Remove(2), Idle];
  }

  /** In the gap a killed process can look alive again: a Stop from another caller turns it
      from failed into running. */
  lemma KilledThenRunning() returns (s: System, s': System)
    ensures Leads(Start(2), s) && StatusIn(s.table, 2) == FailedWithSignal(9)
    ensures Leads(s, s') && StatusIn(s'.table, 2) == StatusRunning
  {
    s := KillFirst();
    LeadsToItself(s);
    s' := OneAction(s, s, SendSignal(1, 2, Stop));
    s' := OneAction(s, s', Step(1));
  }

  lemma {:induction false} AllocateMany(s0: System, s: System, n: nat)
    requires Leads(s0, s)
    ensures Leads(s0, s.(allocations := s.allocations + n))
  {
    if n == 0 {
    } else {
      AllocateMany(s0, s, n - 1);
      var s' := OneAction(s0, s.(allocations := s.allocations + n - 1), AllocateElsewhere);
    }
  }

  /** The bound is sharp: one allocation more, and a process that was killed and removed is in
      the table again under the same id. */
  lemma WraparoundReusesPid() returns (s: System)
    ensures Leads(Start(2), s)
    ensures s.allocations == U32 + 1 && 2 in s.finished && 2 in s.table
  {
    var s0 := Start(2);
    s := KillFirst();
    s := OneAction(s0, s, Step(0));
    assert s.callers == [Idle, Idle];
    AllocateMany(s0, s, U32 - 1);
    s := s.(allocations := U32);
    s := OneAction(s0, s, Spawn(0));
    s := OneAction(s0, s, Step(0));
    assert PidAt(U32) == 2;
    assert s.callers == [Insert(2), Idle];
    s := OneAction(s0, s, Step(0));
  }

  // ----- one caller at a time

  datatype Handle = Handle(isWos: bool, id: string)

  datatype SignalResult = Delivered | NotAWosHandle | InvalidPid | ProcessNotFound

  datatype StatusResult = Known(status: DaemonStatus) | NotForWos | BadPid

  class WosAdapter {
    var processes: Table
    var allocations: nat

    constructor ()
      ensures processes == map[] && allocations == 0
    {
      processes, allocations := map[], 0;
    }

    /** The handle's id parses back to the process it names. */
    method Spawn() returns (h: Handle)
      modifies this
      ensures allocations == old(allocations) + 1
      ensures h.isWos && Parse(h.id, U32) == Some(PidAt(old(allocations)))
      ensures h.id == Print((2 + old(allocations)) % 0x1_0000_0000)
      ensures processes == old(processes)[(2 + old(allocations)) % 0x1_0000_0000 := Running]
    {
      var pid := PidAt(allocations);
      allocations := allocations + 1;
      processes := processes[pid := Running];
      ParsePrint(pid, U32);
      return Handle(true, Print(pid));
    }

    method Signal(h: Handle, signal: Signal) returns (r: SignalResult)
      modifies this
      ensures allocations == old(allocations)
      ensures r.NotAWosHandle? <==> !h.isWos
      ensures r.InvalidPid? <==> h.isWos && Parse(h.id, U32) == None
      ensures r != Delivered ==> processes == old(processes)
      ensures r == Delivered ==>
                && Parse(h.id, U32).Some?
                && var pid := Parse(h.id, U32).value;
                && pid in old(processes)
                && var state := ApplySignal(old(processes)[pid], signal);
                && processes == (if state.IsTerminated() then old(processes) - {pid} else old(processes)[pid := state])
                && (signal in {Kill, Term} ==> pid !in processes && StatusIn(processes, pid) == StatusStopped)
                && (forall i | i != pid :: i in processes <==> i in old(processes))
                && (forall i | i in processes && i != pid :: processes[i] == old(processes)[i])
      ensures r == Delivered ==>
                && var pid := Parse(h.id, U32).value;
                && var was := old(processes)[pid];
                && (signal == Stop ==> pid in processes && processes[pid] == Blocked)
                && (signal == Cont && was in {Created, Ready, Running, Blocked} ==>
                      pid in processes && processes[pid] == if was == Blocked then Ready else was)
                && (signal in {Hup, Int, Quit, Usr1, Usr2} && was in {Created, Ready, Running, Blocked} ==>
                      pid in processes && processes[pid] == was)
      ensures r.ProcessNotFound? ==> Parse(h.id, U32).Some? && Parse(h.id, U32).value !in processes
    {
      if !h.isWos {
        return NotAWosHandle;
      }
      var parsed := Parse(h.id, U32);
      if parsed == None {
        return InvalidPid;
      }
      var pid := parsed.value;
      if pid !in processes {
        return ProcessNotFound;
      }
      var state := ApplySignal(processes[pid], signal);
      processes := processes[pid := state];
      if state.IsTerminated() {
        processes := processes - {pid};
      }
      return Delivered;
    }

    /** Stopped exactly when the process is not in the table or has exited with code 0. */
    method Status(h: Handle) returns (r: StatusResult)
      ensures r.NotForWos? <==> !h.isWos
      ensures r.BadPid? <==> h.isWos && Parse(h.id, U32) == None
      ensures r.Known? ==>
                && Parse(h.id, U32).Some?
                && var pid := Parse(h.id, U32).value;
                && (r.status == StatusStopped <==> pid !in processes || processes[pid] == Exited(0))
                && (r.status == StatusRunning <==> pid in processes && processes[pid] in {Ready, Running, Blocked})
                && (r.status.FailedWithSignal? <==> pid in processes && processes[pid].Killed?)
                && (r.status == FailedWithSignal(9) <==> pid in processes && processes[pid] == Killed(Kill))
                && (r.status == FailedWithSignal(15) <==> pid in processes && processes[pid] == Killed(Term))
                && (r.status == StatusCreated <==> pid in processes && processes[pid] == Created)
                && (forall code | code != 0 ::
                      r.status == FailedWithCode(code) <==> pid in processes && processes[pid] == Exited(code))
    {
      if !h.isWos {
        return NotForWos;
      }
      var parsed := Parse(h.id, U32);
      if parsed == None {
        return BadPid;
      }
      return Known(StatusIn(processes, parsed.value));
    }
  }
}
