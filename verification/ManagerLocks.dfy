/**
 The locking of the daemon manager: a fair read-write lock on the map of daemons, a fair
 mutex for each daemon, and each daemon's bounded signal channel, used by any number of
 tasks.  One step is one lock acquisition, one critical section, or one release.
 */
module ManagerLocks {
  import opened Options
  import opened Seqs
  import opened Signals
  import opened Sums
  import opened Widths

  datatype Status = Created | Starting | Running | Paused | Stopping | Stopped | Failed {
    predicate IsActive() {
      Running? || Paused?
    }

    predicate CanSignal() {
      Running? || Paused? || Stopping?
    }
  }

  datatype Channel = Channel(queue: seq<Signal>, open: bool)

  /** A daemon in the map, with its mutex: who holds it and who waits for it, in order. */
  datatype Daemon = Daemon(status: Status, restarts: nat, handle: Option<nat>, holder: Option<nat>, waiters: seq<nat>)

  const NEW_DAEMON := Daemon(Created, 0, None, None, [])

  /** The lock on the map: its holders, and who waits for it, in order. */
  datatype MapLock = MapLock(readers: set<nat>, writer: Option<nat>, waiters: seq<nat>)

  datatype Change = SetStatus(status: Status) | SetHandle(channel: nat) | IncrementRestarts | SetHealth

  /** The public operations.  `Query` stands for every operation that only reads a daemon. */
  datatype Op =
    | Register(id: nat)
    | Unregister(id: nat)
    | Query(id: nat)
    | Update(id: nat, change: Change)
    | SendSignal(id: nat, signal: Signal)
    | CountOrList
    | ListForShutdown
  {
    predicate Writes() {
      Register? || Unregister?
    }

    predicate LocksDaemon() {
      Unregister? || Query? || Update? || SendSignal?
    }
  }

  /** What a task does next.  `ReleaseMutex.remove` is set where `unregister` goes on to
      remove the daemon. */
  datatype Pc =
    | Idle
    | WaitMap(op: Op)
    | HoldMap(op: Op)
    | WaitMutex(op: Op)
    | HoldMutex(op: Op)
    | Sending(op: Op, channel: nat)
    | ReleaseMutex(op: Op, remove: bool)
    | RemoveDaemon(op: Op)
    | ReleaseMap(op: Op)
  {
    predicate HoldsMap() {
      !Idle? && !WaitMap?
    }

    /** The daemon whose mutex the task waits for, and the one whose mutex it holds. */
    function Awaits(): Option<nat> {
      if WaitMutex? && op.LocksDaemon() then Some(op.id) else None
    }

    function Locks(): Option<nat> {
      if (HoldMutex? || Sending? || ReleaseMutex?) && op.LocksDaemon() then Some(op.id) else None
    }

    predicate HoldsAs(writing: bool) {
      HoldsMap() && op.Writes() == writing
    }
  }

  /** `todo` is what `shutdown_all` still has to call. */
  datatype Task = Task(pc: Pc, todo: seq<Op>)

  datatype System = System(tasks: seq<Task>, lock: MapLock, daemons: map<nat, Daemon>, channels: map<nat, Channel>)

  // ----- steps

  predicate MayTakeMap(s: System, t: nat, op: Op) {
    && s.lock.waiters != [] && s.lock.waiters[0] == t
    && s.lock.writer == None
    && (op.Writes() ==> s.lock.readers == {})
  }

  predicate FullIn(channels: map<nat, Channel>, c: nat) {
    c in channels && channels[c].open && |channels[c].queue| >= CAPACITY
  }

  predicate Full(s: System, channel: nat) {
    FullIn(s.channels, channel)
  }

  /** Task `t` has a step to take. */
  predicate Enabled(s: System, t: nat) {
    t < |s.tasks| &&
    match s.tasks[t].pc
    case Idle => false
    case WaitMap(op) => MayTakeMap(s, t, op)
    case WaitMutex(op) =>
      op.LocksDaemon() && op.id in s.daemons && s.daemons[op.id].holder == None
      && s.daemons[op.id].waiters != [] && s.daemons[op.id].waiters[0] == t
    case Sending(_, c) => !Full(s, c)
    case _ => true
  }

  function At(s: System, t: nat, pc: Pc): System
    requires t < |s.tasks|
  {
    s.(tasks := s.tasks[t := s.tasks[t].(pc := pc)])
  }

  function Queue(s: System, t: nat, op: Op, todo: seq<Op>): System
    requires t < |s.tasks|
  {
    s.(tasks := s.tasks[t := Task(WaitMap(op), todo)], lock := s.lock.(waiters := s.lock.waiters + [t]))
  }

  function WithDaemon(s: System, id: nat, d: Daemon): System {
    s.(daemons := s.daemons[id := d])
  }

  function Changed(d: Daemon, change: Change): Daemon {
    match change
    case SetStatus(status) => d.(status := status)
    case SetHandle(channel) => d.(handle := Some(channel))
    case IncrementRestarts => d.(restarts := (d.restarts + 1) % U32)
    case SetHealth => d
  }

  /** A listing of the daemons, in some order. */
  ghost predicate ListsDaemons(s: System, order: seq<nat>) {
    && (forall id :: id in order <==> id in s.daemons)
    && NoRepeats(order)
  }

  function SignalAll(order: seq<nat>): seq<Op> {
    seq(|order|, i requires 0 <= i < |order| => SendSignal(order[i], Term)) + [CountOrList]
  }

  /** The critical section under the map lock. */
  function UnderMap(s: System, t: nat, op: Op, order: seq<nat>): System
    requires t < |s.tasks|
  {
    match op
    case Register(id) =>
      var s' := At(s, t, ReleaseMap(op));
      if id in s.daemons then s' else WithDaemon(s', id, NEW_DAEMON)
    case CountOrList => At(s, t, ReleaseMap(op))
    case ListForShutdown => s.(tasks := s.tasks[t := Task(ReleaseMap(op), SignalAll(order))])
    case _ =>
      if op.id !in s.daemons then At(s, t, ReleaseMap(op))
      else
        var d := s.daemons[op.id];
        WithDaemon(At(s, t, WaitMutex(op)), op.id, d.(waiters := d.waiters + [t]))
  }

  /** The critical section under a daemon's mutex. */
  function UnderMutex(s: System, t: nat, op: Op): System
    requires t < |s.tasks| && op.LocksDaemon() && op.id in s.daemons
  {
    var d := s.daemons[op.id];
    match op
    case Unregister(_) => At(s, t, ReleaseMutex(op, !d.status.IsActive()))
    case Update(id, change) => WithDaemon(At(s, t, ReleaseMutex(op, false)), id, Changed(d, change))
    case SendSignal(_, _) =>
      if d.status.CanSignal() && d.handle.Some? then At(s, t, Sending(op, d.handle.value))
      else At(s, t, ReleaseMutex(op, false))
    case _ => At(s, t, ReleaseMutex(op, false))
  }

  /** The channels after a send; a closed channel refuses it. */
  function SentTo(channels: map<nat, Channel>, c: nat, signal: Signal): map<nat, Channel> {
    if c in channels && channels[c].open
    then channels[c := channels[c].(queue := channels[c].queue + [signal])]
    else channels
  }

  function Sent(s: System, c: nat, signal: Signal): System {
    s.(channels := SentTo(s.channels, c, signal))
  }

  function MapReleased(s: System, t: nat, op: Op): System
    requires t < |s.tasks|
  {
    var lock := if op.Writes() then s.lock.(writer := None) else s.lock.(readers := s.lock.readers - {t});
    var s' := s.(lock := lock);
    var todo := s.tasks[t].todo;
    if todo == [] then At(s', t, Idle) else Queue(s', t, todo[0], todo[1..])
  }

  /** The operation of a task at its mutex is on a daemon in the map. */
  predicate WellPlaced(s: System, pc: Pc) {
    && (pc.WaitMutex? || pc.HoldMutex? || pc.Sending? || pc.ReleaseMutex? ==>
          pc.op.LocksDaemon() && pc.op.id in s.daemons)
    && (pc.RemoveDaemon? ==> pc.op.Unregister? && pc.op.id in s.daemons)
    && (pc.Sending? ==> pc.op.SendSignal?)
    && (pc.ReleaseMutex? && pc.remove ==> pc.op.Unregister?)
  }

  function Next(s: System, t: nat, order: seq<nat>): System
    requires Enabled(s, t) && WellPlaced(s, s.tasks[t].pc)
  {
    match s.tasks[t].pc
    case WaitMap(op) =>
      var lock := s.lock.(waiters := s.lock.waiters[1..]);
      var held := if op.Writes() then lock.(writer := Some(t)) else lock.(readers := lock.readers + {t});
      At(s, t, HoldMap(op)).(lock := held)
    case HoldMap(op) => UnderMap(s, t, op, order)
    case WaitMutex(op) =>
      var d := s.daemons[op.id];
      WithDaemon(At(s, t, HoldMutex(op)), op.id, d.(holder := Some(t), waiters := d.waiters[1..]))
    case HoldMutex(op) => UnderMutex(s, t, op)
    case Sending(op, c) => At(Sent(s, c, op.signal), t, ReleaseMutex(op, false))
    case ReleaseMutex(op, remove) =>
      var next := if remove then RemoveDaemon(op) else ReleaseMap(op);
      WithDaemon(At(s, t, next), op.id, s.daemons[op.id].(holder := None))
    case RemoveDaemon(op) => At(s, t, ReleaseMap(op)).(daemons := s.daemons - {op.id})
    case ReleaseMap(op) => MapReleased(s, t, op)
  }

  // ----- the invariant

  /** The map lock's books agree with where the tasks are. */
  ghost predicate LockInv(s: System) {
    && NoRepeats(s.lock.waiters)
    && (forall t: nat :: t in s.lock.waiters <==> t < |s.tasks| && s.tasks[t].pc.WaitMap?)
    && (forall t: nat :: t in s.lock.readers <==> t < |s.tasks| && s.tasks[t].pc.HoldsAs(false))
    && (forall t: nat :: s.lock.writer == Some(t) <==> t < |s.tasks| && s.tasks[t].pc.HoldsAs(true))
    && (s.lock.writer.Some? ==> s.lock.readers == {})
  }

  /** So do the books of one daemon's mutex. */
  ghost predicate MutexInv(s: System, id: nat, d: Daemon) {
    && NoRepeats(d.waiters)
    && (forall t: nat :: t in d.waiters <==> t < |s.tasks| && s.tasks[t].pc.Awaits() == Some(id))
    && (forall t: nat :: d.holder == Some(t) <==> t < |s.tasks| && s.tasks[t].pc.Locks() == Some(id))
  }

  ghost predicate MutexesInv(s: System) {
    forall id | id in s.daemons :: MutexInv(s, id, s.daemons[id])
  }

  ghost predicate PlacedInv(s: System) {
    forall t | 0 <= t < |s.tasks| :: WellPlaced(s, s.tasks[t].pc)
  }

  ghost predicate ChannelsInv(s: System) {
    forall c | c in s.channels :: |s.channels[c].queue| <= CAPACITY
  }

  ghost predicate Inv(s: System) {
    LockInv(s) && MutexesInv(s) && PlacedInv(s) && ChannelsInv(s)
  }

  function Start(tasks: nat, channels: map<nat, Channel>): System {
    System(seq(tasks, _ => Task(Idle, [])), MapLock({}, None, []), map[], channels)
  }

  /** Only task `t` differs. */
  predicate OnlyTask(s: System, s': System, t: nat) {
    && t < |s.tasks| == |s'.tasks|
    && forall i | 0 <= i < |s.tasks| && i != t :: s'.tasks[i] == s.tasks[i]
  }

  lemma TailOfWaiters(xs: seq<nat>)
    requires xs != [] && NoRepeats(xs)
    ensures NoRepeats(xs[1..])
    ensures forall x :: x in xs[1..] <==> x in xs && x != xs[0]
  {
    assert forall x :: x in xs <==> x == xs[0] || x in xs[1..] by {
      assert xs == [xs[0]] + xs[1..];
    }
  }

  lemma LockKept(s: System, s': System, t: nat)
    requires LockInv(s) && OnlyTask(s, s', t) && s'.lock == s.lock
    requires s.tasks[t].pc.HoldsMap() && s'.tasks[t].pc.HoldsMap() && s'.tasks[t].pc.op == s.tasks[t].pc.op
    ensures LockInv(s')
  {}

  lemma MutexKept(s: System, s': System, t: nat, id: nat, d: Daemon, d': Daemon)
    requires MutexInv(s, id, d) && OnlyTask(s, s', t)
    requires d'.holder == d.holder && d'.waiters == d.waiters
    requires s.tasks[t].pc.Awaits() != Some(id) && s'.tasks[t].pc.Awaits() != Some(id)
    requires s.tasks[t].pc.Locks() == Some(id) <==> s'.tasks[t].pc.Locks() == Some(id)
    ensures MutexInv(s', id, d')
  {}

  /** Steps that take or give back no mutex keep all of them. */
  lemma MutexesKept(s: System, s': System, t: nat)
    requires MutexesInv(s) && OnlyTask(s, s', t) && s'.daemons.Keys == s.daemons.Keys
    requires forall id | id in s.daemons ::
               s'.daemons[id].holder == s.daemons[id].holder && s'.daemons[id].waiters == s.daemons[id].waiters
    requires s.tasks[t].pc.Awaits() == s'.tasks[t].pc.Awaits() == None
    requires s.tasks[t].pc.Locks() == s'.tasks[t].pc.Locks()
    ensures MutexesInv(s')
  {
    forall id | id in s'.daemons ensures MutexInv(s', id, s'.daemons[id]) {
      MutexKept(s, s', t, id, s.daemons[id], s'.daemons[id]);
    }
  }

  lemma MutexQueued(s: System, s': System, t: nat, id: nat, d: Daemon)
    requires MutexInv(s, id, d) && OnlyTask(s, s', t)
    requires s.tasks[t].pc.Awaits() == None && s'.tasks[t].pc.Awaits() == Some(id)
    requires s.tasks[t].pc.Locks() == s'.tasks[t].pc.Locks() == None
    ensures MutexInv(s', id, d.(waiters := d.waiters + [t]))
  {
    assert t !in d.waiters;
  }

  lemma MutexGranted(s: System, s': System, t: nat, id: nat, d: Daemon)
    requires MutexInv(s, id, d) && OnlyTask(s, s', t)
    requires d.waiters != [] && d.waiters[0] == t && d.holder == None
    requires s'.tasks[t].pc.Locks() == Some(id) && s'.tasks[t].pc.Awaits() == None
    ensures MutexInv(s', id, d.(holder := Some(t), waiters := d.waiters[1..]))
  {
    TailOfWaiters(d.waiters);
  }

  lemma MutexFreed(s: System, s': System, t: nat, id: nat, d: Daemon)
    requires MutexInv(s, id, d) && OnlyTask(s, s', t)
    requires s.tasks[t].pc.Locks() == Some(id) && s'.tasks[t].pc.Locks() == None
    requires s.tasks[t].pc.Awaits() == s'.tasks[t].pc.Awaits() == None
    ensures MutexInv(s', id, d.(holder := None))
  {
    assert d.holder == Some(t);
  }

  lemma PlacedKept(s: System, s': System, t: nat)
    requires PlacedInv(s) && OnlyTask(s, s', t)
    requires s.daemons.Keys <= s'.daemons.Keys && WellPlaced(s', s'.tasks[t].pc)
    ensures PlacedInv(s')
  {}

  lemma LockGivenBack(s: System, t: nat, op: Op)
    requires LockInv(s) && t < |s.tasks| && s.tasks[t].pc == ReleaseMap(op)
    ensures LockInv(MapReleased(s, t, op))
  {
    assert op.Writes() <==> s.lock.writer == Some(t);
    assert t !in s.lock.waiters;
  }

  lemma MapTaken(s: System, t: nat, order: seq<nat>)
    requires Inv(s) && Enabled(s, t) && s.tasks[t].pc.WaitMap?
    ensures Inv(Next(s, t, order))
  {
    var s' := Next(s, t, order);
    TailOfWaiters(s.lock.waiters);
    forall id | id in s'.daemons ensures MutexInv(s', id, s'.daemons[id]) {
      MutexKept(s, s', t, id, s.daemons[id], s'.daemons[id]);
    }
  }

  /** A critical section that leaves the locks and the channels alone. */
  lemma QuietSection(s: System, s': System, t: nat)
    requires Inv(s) && OnlyTask(s, s', t)
    requires s'.lock == s.lock && s'.channels == s.channels && s'.daemons.Keys == s.daemons.Keys
    requires forall id | id in s.daemons ::
               s'.daemons[id].holder == s.daemons[id].holder && s'.daemons[id].waiters == s.daemons[id].waiters
    requires s.tasks[t].pc.HoldsMap() && s'.tasks[t].pc.HoldsMap() && s'.tasks[t].pc.op == s.tasks[t].pc.op
    requires s.tasks[t].pc.Awaits() == s'.tasks[t].pc.Awaits() == None
    requires s.tasks[t].pc.Locks() == s'.tasks[t].pc.Locks()
    requires WellPlaced(s', s'.tasks[t].pc)
    ensures Inv(s')
  {
    LockKept(s, s', t);
    PlacedKept(s, s', t);
    MutexesKept(s, s', t);
  }

  lemma Registered(s: System, t: nat, op: Op)
    requires Inv(s) && t < |s.tasks| && s.tasks[t].pc == HoldMap(op)
    requires op.Register? && op.id !in s.daemons
    ensures Inv(UnderMap(s, t, op, []))
  {
    var s' := UnderMap(s, t, op, []);
    LockKept(s, s', t);
    forall id | id in s'.daemons ensures MutexInv(s', id, s'.daemons[id]) {
      if id == op.id {
        NobodyAtMutex(s, id);
      } else {
        MutexKept(s, s', t, id, s.daemons[id], s'.daemons[id]);
      }
    }
  }

  lemma MutexAwaited(s: System, t: nat, op: Op)
    requires Inv(s) && t < |s.tasks| && s.tasks[t].pc == HoldMap(op)
    requires op.LocksDaemon() && op.id in s.daemons
    ensures Inv(UnderMap(s, t, op, []))
  {
    var s' := UnderMap(s, t, op, []);
    LockKept(s, s', t);
    PlacedKept(s, s', t);
    forall id | id in s'.daemons ensures MutexInv(s', id, s'.daemons[id]) {
      if id == op.id {
        MutexQueued(s, s', t, id, s.daemons[id]);
      } else {
        MutexKept(s, s', t, id, s.daemons[id], s'.daemons[id]);
      }
    }
  }

  lemma SectionUnderMap(s: System, t: nat, order: seq<nat>)
    requires Inv(s) && Enabled(s, t) && s.tasks[t].pc.HoldMap?
    ensures Inv(Next(s, t, order))
  {
    var s', op := Next(s, t, order), s.tasks[t].pc.op;
    if op.Register? && op.id !in s.daemons {
      Registered(s, t, op);
    } else if op.LocksDaemon() && op.id in s.daemons {
      MutexAwaited(s, t, op);
    } else {
      QuietSection(s, s', t);
    }
  }

  /** Nobody waits for or holds the mutex of a daemon that is not in the map. */
  lemma NobodyAtMutex(s: System, id: nat)
    requires PlacedInv(s) && id !in s.daemons
    ensures forall t: nat | t < |s.tasks| :: s.tasks[t].pc.Awaits() != Some(id) && s.tasks[t].pc.Locks() != Some(id)
  {}

  lemma MutexTaken(s: System, t: nat, order: seq<nat>)
    requires Inv(s) && Enabled(s, t) && s.tasks[t].pc.WaitMutex?
    ensures Inv(Next(s, t, order))
  {
    var s', op := Next(s, t, order), s.tasks[t].pc.op;
    LockKept(s, s', t);
    PlacedKept(s, s', t);
    forall id | id in s'.daemons ensures MutexInv(s', id, s'.daemons[id]) {
      if id == op.id {
        MutexGranted(s, s', t, id, s.daemons[id]);
      } else {
        MutexKept(s, s', t, id, s.daemons[id], s'.daemons[id]);
      }
    }
  }

  lemma DaemonChanged(s: System, t: nat, op: Op)
    requires Inv(s) && t < |s.tasks| && s.tasks[t].pc == HoldMutex(op)
    requires op.Update?
    ensures WellPlaced(s, s.tasks[t].pc) && Inv(UnderMutex(s, t, op))
  {
    assert WellPlaced(s, s.tasks[t].pc);
    ChangeIsQuiet(s.daemons[op.id], op.change);
    QuietSection(s, UnderMutex(s, t, op), t);
  }

  lemma ChangeIsQuiet(d: Daemon, change: Change)
    ensures Changed(d, change).holder == d.holder && Changed(d, change).waiters == d.waiters
  {}

  lemma ChannelsChanged(s: System, s': System)
    requires Inv(s) && ChannelsInv(s')
    requires s' == s.(channels := s'.channels)
    ensures Inv(s')
  {
    assert forall id | id in s.daemons :: MutexInv(s, id, s.daemons[id]) ==> MutexInv(s', id, s.daemons[id]);
    assert forall t | 0 <= t < |s.tasks| :: WellPlaced(s, s.tasks[t].pc) ==> WellPlaced(s', s.tasks[t].pc);
  }

  lemma SignalSent(s: System, t: nat, order: seq<nat>)
    requires Inv(s) && Enabled(s, t) && s.tasks[t].pc.Sending?
    ensures Inv(Next(s, t, order))
  {
    var sent := Sent(s, s.tasks[t].pc.channel, s.tasks[t].pc.op.signal);
    ChannelsChanged(s, sent);
    QuietSection(sent, Next(s, t, order), t);
  }

  lemma SectionUnderMutex(s: System, t: nat, order: seq<nat>)
    requires Inv(s) && Enabled(s, t) && (s.tasks[t].pc.HoldMutex? || s.tasks[t].pc.Sending?)
    ensures Inv(Next(s, t, order))
  {
    var op := s.tasks[t].pc.op;
    if s.tasks[t].pc.Sending? {
      SignalSent(s, t, order);
    } else if op.Update? {
      DaemonChanged(s, t, op);
    } else {
      NothingChanged(s, t, op);
    }
  }

  lemma NothingChanged(s: System, t: nat, op: Op)
    requires Inv(s) && t < |s.tasks| && s.tasks[t].pc == HoldMutex(op)
    requires !op.Update?
    ensures WellPlaced(s, s.tasks[t].pc) && Inv(UnderMutex(s, t, op))
  {
    assert WellPlaced(s, s.tasks[t].pc);
    var s' := UnderMutex(s, t, op);
    assert s' == s.(tasks := s'.tasks);
    QuietSection(s, s', t);
  }

  lemma MutexReleased(s: System, t: nat, order: seq<nat>)
    requires Inv(s) && Enabled(s, t) && s.tasks[t].pc.ReleaseMutex?
    ensures Inv(Next(s, t, order))
  {
    var s', op := Next(s, t, order), s.tasks[t].pc.op;
    LockKept(s, s', t);
    PlacedKept(s, s', t);
    assert s.tasks[t].pc.Locks() == Some(op.id);
    forall id | id in s'.daemons ensures MutexInv(s', id, s'.daemons[id]) {
      if id == op.id {
        MutexFreed(s, s', t, id, s.daemons[id]);
      } else {
        MutexKept(s, s', t, id, s.daemons[id], s'.daemons[id]);
      }
    }
  }

  /** A writer is the only task that holds the map lock, so nobody else is at a mutex. */
  lemma WriterIsAlone(s: System, t: nat)
    requires LockInv(s) && t < |s.tasks| && s.tasks[t].pc.HoldsAs(true)
    ensures forall u: nat | u < |s.tasks| && u != t :: !s.tasks[u].pc.HoldsMap()
  {
    assert s.lock.writer == Some(t);
    forall u: nat | u < |s.tasks| && u != t ensures !s.tasks[u].pc.HoldsMap() {
      assert u in s.lock.readers <==> s.tasks[u].pc.HoldsAs(false);
      assert s.lock.writer != Some(u);
    }
  }

  /** Tasks outside the map lock are well placed whatever the daemons are. */
  lemma PlacedAlone(s: System, s': System, t: nat)
    requires OnlyTask(s, s', t) && WellPlaced(s', s'.tasks[t].pc)
    requires forall u: nat | u < |s.tasks| && u != t :: !s.tasks[u].pc.HoldsMap()
    ensures PlacedInv(s')
  {}

  lemma DaemonRemoved(s: System, t: nat, order: seq<nat>)
    requires Inv(s) && Enabled(s, t) && s.tasks[t].pc.RemoveDaemon?
    ensures Inv(Next(s, t, order))
  {
    var s' := Next(s, t, order);
    LockKept(s, s', t);
    WriterIsAlone(s, t);
    PlacedAlone(s, s', t);
    forall id | id in s'.daemons ensures MutexInv(s', id, s'.daemons[id]) {
      MutexKept(s, s', t, id, s.daemons[id], s'.daemons[id]);
    }
  }

  lemma MapGivenBack(s: System, t: nat, order: seq<nat>)
    requires Inv(s) && Enabled(s, t) && s.tasks[t].pc.ReleaseMap?
    ensures Inv(Next(s, t, order))
  {
    var s', op := Next(s, t, order), s.tasks[t].pc.op;
    LockGivenBack(s, t, op);
    PlacedKept(s, s', t);
    forall id | id in s'.daemons ensures MutexInv(s', id, s'.daemons[id]) {
      MutexKept(s, s', t, id, s.daemons[id], s'.daemons[id]);
    }
  }

  lemma NextKeepsInv(s: System, t: nat, order: seq<nat>)
    requires Inv(s) && Enabled(s, t)
    ensures Inv(Next(s, t, order))
  {
    match s.tasks[t].pc
    case WaitMap(_) => MapTaken(s, t, order);
    case HoldMap(_) => SectionUnderMap(s, t, order);
    case WaitMutex(_) => MutexTaken(s, t, order);
    case HoldMutex(_) => SectionUnderMutex(s, t, order);
    case Sending(_, _) => SectionUnderMutex(s, t, order);
    case ReleaseMutex(_, _) => MutexReleased(s, t, order);
    case RemoveDaemon(_) => DaemonRemoved(s, t, order);
    case ReleaseMap(_) => MapGivenBack(s, t, order);
  }

  // ----- runs, with calls and with daemons that drain or close their channels

  datatype Action =
    | Call(task: nat, op: Op)
    | Step(task: nat, order: seq<nat>)
    | Receive(channel: nat)
    | Close(channel: nat)
    | SendElsewhere(channel: nat, signal: Signal)

  ghost predicate CanAct(s: System, a: Action) {
    match a
    case Call(t, _) => t < |s.tasks| && s.tasks[t].pc.Idle?
    case Step(t, order) => Enabled(s, t) && WellPlaced(s, s.tasks[t].pc) && ListsDaemons(s, order)
    case Receive(c) => c in s.channels && s.channels[c].queue != []
    case Close(c) => c in s.channels
    case SendElsewhere(c, _) => c in s.channels && s.channels[c].open && !Full(s, c)
  }

  ghost function Act(s: System, a: Action): System
    requires CanAct(s, a)
  {
    match a
    case Call(t, op) => Queue(s, t, op, [])
    case Step(t, order) => Next(s, t, order)
    case Receive(c) => s.(channels := s.channels[c := s.channels[c].(queue := s.channels[c].queue[1..])])
    case Close(c) => s.(channels := s.channels[c := s.channels[c].(open := false)])
    case SendElsewhere(c, signal) => Sent(s, c, signal)
  }

  ghost predicate Runs(s: System, run: seq<Action>, s': System)
    decreases |run|
  {
    if run == [] then s' == s else CanAct(s, run[0]) && Runs(Act(s, run[0]), run[1..], s')
  }

  lemma ActKeepsInv(s: System, a: Action)
    requires Inv(s) && CanAct(s, a)
    ensures Inv(Act(s, a))
  {
    var s' := Act(s, a);
    match a
    case Step(t, order) =>
      NextKeepsInv(s, t, order);
    case Call(t, op) =>
      assert t !in s.lock.waiters;
      forall id | id in s'.daemons ensures MutexInv(s', id, s'.daemons[id]) {
        MutexKept(s, s', t, id, s.daemons[id], s'.daemons[id]);
      }
    case _ =>
      ChannelsChanged(s, s');
  }

  lemma {:induction false} RunKeepsInv(s: System, run: seq<Action>, s': System)
    requires Inv(s) && TodoInv(s) && Runs(s, run, s')
    ensures Inv(s') && TodoInv(s')
    decreases |run|
  {
    if run == [] {
    } else {
      ActKeepsInv(s, run[0]);
      ActKeepsTodo(s, run[0]);
      RunKeepsInv(Act(s, run[0]), run[1..], s');
    }
  }

  /** Only a caller lists the daemons; `shutdown_all` then only signals and counts. */
  ghost predicate TodoInv(s: System) {
    forall t, k | 0 <= t < |s.tasks| && 0 <= k < |s.tasks[t].todo| :: !s.tasks[t].todo[k].ListForShutdown?
  }

  lemma ActKeepsTodo(s: System, a: Action)
    requires TodoInv(s) && CanAct(s, a)
    ensures TodoInv(Act(s, a))
  {
    if a.Step? {
      TaskGoesOn(s, a.task, a.order);
    }
  }

  // ----- no deadlock

  ghost predicate Unfinished(s: System) {
    exists t :: 0 <= t < |s.tasks| && !s.tasks[t].pc.Idle?
  }

  /** Task `t` is inside `signal` and its daemon's channel has no room. */
  predicate BlockedOnChannel(s: System, t: nat) {
    t < |s.tasks| && s.tasks[t].pc.Sending? && Full(s, s.tasks[t].pc.channel)
  }

  lemma SomeoneMoves(s: System) returns (t: nat)
    requires Inv(s) && Unfinished(s)
    ensures Enabled(s, t) || BlockedOnChannel(s, t)
  {
    if u: nat :| u < |s.tasks| && s.tasks[u].pc.HoldsMap() {
      t := u;
      if s.tasks[u].pc.WaitMutex? {
        // Its mutex is held by a task that does not wait for any lock, or free for the
        // first in line.
        assert s.tasks[u].pc.Awaits().Some?;
        var id := s.tasks[u].pc.op.id;
        var d := s.daemons[id];
        assert MutexInv(s, id, d);
        match d.holder
        case Some(h) =>
          assert s.tasks[h].pc.Locks() == Some(id);
          t := h;
        case None =>
          t := d.waiters[0];
          assert t in d.waiters;
          assert s.tasks[t].pc.Awaits() == Some(id);
      }
    } else {
      // Nobody holds the map lock: the first in line can take it.
      var u: nat :| u < |s.tasks| && !s.tasks[u].pc.Idle?;
      assert u in s.lock.waiters;
      t := s.lock.waiters[0];
      assert t in s.lock.waiters;
    }
  }

  /** In every reachable state with an unfinished operation, some task can take a step, or
      some `signal` waits for room in a full channel. */
  lemma NoDeadlock(tasks: nat, channels: map<nat, Channel>, run: seq<Action>, s: System)
    requires forall c | c in channels :: |channels[c].queue| <= CAPACITY
    requires Runs(Start(tasks, channels), run, s) && Unfinished(s)
    ensures exists t :: Enabled(s, t) || BlockedOnChannel(s, t)
  {
    StartInv(tasks, channels);
    RunKeepsInv(Start(tasks, channels), run, s);
    var t := SomeoneMoves(s);
  }

  lemma StartInv(tasks: nat, channels: map<nat, Channel>)
    requires forall c | c in channels :: |channels[c].queue| <= CAPACITY
    ensures Inv(Start(tasks, channels))
  {}

  // ----- every schedule runs out

  function PcRank(pc: Pc): nat {
    match pc
    case Idle => 0
    case ReleaseMap(_) => 1
    case RemoveDaemon(_) => 2
    case ReleaseMutex(_, _) => 3
    case Sending(_, _) => 4
    case HoldMutex(_) => 5
    case WaitMutex(_) => 6
    case HoldMap(_) => 7
    case WaitMap(_) => 8
  }

  function Rank(task: Task): nat {
    PcRank(task.pc) + 9 * |task.todo|
  }

  /** A `shutdown_all` that has not listed the daemons yet. */
  function Listing(task: Task): nat {
    if (task.pc.WaitMap? || task.pc.HoldMap?) && task.pc.op.ListForShutdown? then 1 else 0
  }

  /** The steps left, apart from those that listings still to come will add. */
  ghost predicate Smaller(s': System, s: System) {
    || SumOf(s'.tasks, Listing) < SumOf(s.tasks, Listing)
    || (SumOf(s'.tasks, Listing) == SumOf(s.tasks, Listing) && SumOf(s'.tasks, Rank) < SumOf(s.tasks, Rank))
  }

  lemma TaskGoesOn(s: System, t: nat, order: seq<nat>)
    requires Enabled(s, t) && WellPlaced(s, s.tasks[t].pc)
    ensures var task, s' := s.tasks[t], Next(s, t, order);
            && OnlyTask(s, s', t)
            && s'.tasks == s.tasks[t := s'.tasks[t]]
            && if task.pc.HoldMap? && task.pc.op.ListForShutdown? then s'.tasks[t].todo == SignalAll(order)
               else
                 || s'.tasks[t].todo == task.todo
                 || (task.todo != [] && s'.tasks[t] == Task(WaitMap(task.todo[0]), task.todo[1..]))
  {}

  lemma TaskDecreases(s: System, t: nat, order: seq<nat>)
    requires Enabled(s, t) && WellPlaced(s, s.tasks[t].pc)
    ensures var task, s' := s.tasks[t], Next(s, t, order);
            && t < |s'.tasks|
            && if task.pc.HoldMap? && task.pc.op.ListForShutdown?
               then Listing(s'.tasks[t]) < Listing(task)
               else
                 && Rank(s'.tasks[t]) < Rank(task)
                 && (|| Listing(s'.tasks[t]) == Listing(task)
                     || (task.todo != [] && s'.tasks[t].pc == WaitMap(task.todo[0])))
  {
    var task, s' := s.tasks[t], Next(s, t, order);
    match task.pc
    case WaitMap(op) => assert s'.tasks[t] == task.(pc := HoldMap(op));
    case WaitMutex(op) => assert s'.tasks[t] == task.(pc := HoldMutex(op));
    case Sending(op, _) => assert s'.tasks[t] == task.(pc := ReleaseMutex(op, false));
    case ReleaseMutex(op, remove) =>
      assert s'.tasks[t] == task.(pc := if remove then RemoveDaemon(op) else ReleaseMap(op));
    case RemoveDaemon(op) => assert s'.tasks[t] == task.(pc := ReleaseMap(op));
    case HoldMutex(op) => assert s'.tasks[t].todo == task.todo && s'.tasks[t].pc.op == op;
    case HoldMap(op) => assert s'.tasks[t].pc.op == op;
    case ReleaseMap(_) =>
  }

  /** Every step of every task gets closer to the end, so no run of steps goes on forever. */
  lemma StepDecreases(s: System, t: nat, order: seq<nat>)
    requires Inv(s) && TodoInv(s) && Enabled(s, t)
    ensures Smaller(Next(s, t, order), s) && TodoInv(Next(s, t, order))
  {
    var s' := Next(s, t, order);
    assert WellPlaced(s, s.tasks[t].pc);
    TaskGoesOn(s, t, order);
    TaskDecreases(s, t, order);
    SumUpdate(s.tasks, t, s'.tasks[t], Listing);
    SumUpdate(s.tasks, t, s'.tasks[t], Rank);
  }

  lemma {:induction false} ListingOf(ids: set<nat>) returns (order: seq<nat>)
    ensures NoRepeats(order) && forall id :: id in order <==> id in ids
  {
    if ids == {} {
      order := [];
    } else {
      var id :| id in ids;
      var rest := ListingOf(ids - {id});
      order := rest + [id];
    }
  }

  predicate OnlySteps(run: seq<Action>) {
    forall a | a in run :: a.Step?
  }

  /** From every reachable state, taking steps comes to rest (whichever are taken, by
      StepDecreases), and then every operation has finished or a `signal` waits for room. */
  lemma {:induction false} ComesToRest(s: System) returns (run: seq<Action>, s': System)
    requires Inv(s) && TodoInv(s)
    ensures Runs(s, run, s') && OnlySteps(run)
    ensures !Unfinished(s') || exists t :: BlockedOnChannel(s', t)
    decreases SumOf(s.tasks, Listing), SumOf(s.tasks, Rank)
  {
    if t :| Enabled(s, t) {
      var order := ListingOf(s.daemons.Keys);
      NextKeepsInv(s, t, order);
      StepDecreases(s, t, order);
      var rest;
      rest, s' := ComesToRest(Next(s, t, order));
      run := [Step(t, order)] + rest;
      assert run[1..] == rest;
    } else {
      run, s' := [], s;
      if Unfinished(s) {
        var t := SomeoneMoves(s);
      }
    }
  }

  // ----- what a full channel costs

  /** Task `t` waits for room in its daemon's channel, and the first in line for the map
      wants to register or unregister. */
  predicate Stalled(s: System, t: nat, w: nat) {
    && BlockedOnChannel(s, t)
    && s.lock.waiters != [] && s.lock.waiters[0] == w
    && w < |s.tasks| && s.tasks[w].pc.WaitMap? && s.tasks[w].pc.op.Writes()
  }

  predicate Drains(a: Action, channel: nat) {
    (a.Receive? || a.Close?) && a.channel == channel
  }

  lemma StepKeepsStall(s: System, u: nat, order: seq<nat>, t: nat, w: nat)
    requires Stalled(s, t, w) && t in s.lock.readers && Enabled(s, u) && WellPlaced(s, s.tasks[u].pc)
    ensures u != t && !s.tasks[u].pc.WaitMap? && Stalled(Next(s, u, order), t, w) && OnlyTask(s, Next(s, u, order), u)
  {}

  lemma StallSurvives(s: System, a: Action, t: nat, w: nat)
    requires Inv(s) && Stalled(s, t, w) && CanAct(s, a) && !Drains(a, s.tasks[t].pc.channel)
    ensures Stalled(Act(s, a), t, w)
    ensures Act(s, a).tasks[t] == s.tasks[t] && |Act(s, a).tasks| == |s.tasks|
    ensures forall u | 0 <= u < |s.tasks| && s.tasks[u].pc.WaitMap? :: Act(s, a).tasks[u] == s.tasks[u]
  {
    assert WellPlaced(s, s.tasks[t].pc);
    assert s.tasks[t].pc.HoldsAs(false);
    if a.Step? {
      StepKeepsStall(s, a.task, a.order, t, w);
    }
  }

  /** From then on nothing but that one daemon helps: until it receives from its channel or
      closes it, no waiting operation of any kind gets the map, whichever daemon it is for. */
  lemma {:induction false} StallLasts(s: System, run: seq<Action>, s': System, t: nat, w: nat)
    requires Inv(s) && Stalled(s, t, w) && Runs(s, run, s')
    requires forall a | a in run :: !Drains(a, s.tasks[t].pc.channel)
    ensures Stalled(s', t, w) && |s'.tasks| == |s.tasks|
    ensures forall u | 0 <= u < |s.tasks| && s.tasks[u].pc.WaitMap? :: s'.tasks[u] == s.tasks[u]
    decreases |run|
  {
    if run == [] {
    } else {
      assert run[0] in run;
      StallSurvives(s, run[0], t, w);
      ActKeepsInv(s, run[0]);
      assert forall a | a in run[1..] :: a in run;
      StallLasts(Act(s, run[0]), run[1..], s', t, w);
    }
  }

  // ----- building runs

  lemma {:induction false} RunsExtend(s0: System, run: seq<Action>, s: System, a: Action)
    requires Runs(s0, run, s) && CanAct(s, a)
    ensures Runs(s0, run + [a], Act(s, a))
    decreases |run|
  {
    if run == [] {
      assert run + [a] == [a] && [a][1..] == [];
    } else {
      RunsExtend(Act(s0, run[0]), run[1..], s, a);
      assert (run + [a])[1..] == run[1..] + [a];
    }
  }

  lemma Grow(s0: System, run: seq<Action>, s: System, a: Action) returns (run': seq<Action>, s': System)
    requires Runs(s0, run, s) && CanAct(s, a)
    ensures Runs(s0, run', s') && s' == Act(s, a)
  {
    RunsExtend(s0, run, s, a);
    run', s' := run + [a], Act(s, a);
  }
}
