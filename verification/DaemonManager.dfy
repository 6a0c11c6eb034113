/**
 The daemon manager called by one task at a time: what each operation does, that the lock
 and mutex steps of an undisturbed operation do exactly that, and what `shutdown_all` sends.
 */
module DaemonManagers {
  import opened Options
  import opened Seqs
  import opened Signals
  import opened ManagerLocks
  import opened Widths

  // ----- the operations

  function DaemonsAfter(daemons: map<nat, Daemon>, op: Op): map<nat, Daemon> {
    match op
    case Register(id) => if id in daemons then daemons else daemons[id := NEW_DAEMON]
    case Unregister(id) => if id in daemons && !daemons[id].status.IsActive() then daemons - {id} else daemons
    case Update(id, change) => if id in daemons then daemons[id := Changed(daemons[id], change)] else daemons
    case _ => daemons
  }

  /** The daemon takes signals, and channel `c` is the one its handle leads to. */
  predicate Reaches(daemons: map<nat, Daemon>, id: nat, c: nat) {
    id in daemons && daemons[id].status.CanSignal() && daemons[id].handle == Some(c)
  }

  function ChannelsAfter(daemons: map<nat, Daemon>, channels: map<nat, Channel>, op: Op): map<nat, Channel> {
    if op.SendSignal? && op.id in daemons && daemons[op.id].handle.Some? then
      var c := daemons[op.id].handle.value;
      if Reaches(daemons, op.id, c) then SentTo(channels, c, op.signal) else channels
    else channels
  }

  /** A signal that waits for room. */
  predicate Waits(daemons: map<nat, Daemon>, channels: map<nat, Channel>, op: Op) {
    op.SendSignal? && exists c | c in channels :: Reaches(daemons, op.id, c) && FullIn(channels, c)
  }

  // ----- shutdown

  /** `signal(id, Term)` for each daemon in turn. */
  function AfterTerms(daemons: map<nat, Daemon>, channels: map<nat, Channel>, order: seq<nat>): map<nat, Channel> {
    if order == [] then channels
    else
      var n := |order| - 1;
      ChannelsAfter(daemons, AfterTerms(daemons, channels, order[..n]), SendSignal(order[n], Term))
  }

  function Targets(daemons: map<nat, Daemon>, ids: set<nat>, c: nat): set<nat> {
    set id | id in ids && Reaches(daemons, id, c)
  }

  function Members(order: seq<nat>): set<nat> {
    set id | id in order
  }

  function Terms(n: nat): seq<Signal> {
    seq(n, _ => Term)
  }

  /** Every channel that is open gets one Term for each of the given daemons that leads to it,
      behind what it already holds. */
  function Notified(daemons: map<nat, Daemon>, channels: map<nat, Channel>, ids: set<nat>): map<nat, Channel> {
    map c | c in channels ::
      if channels[c].open then channels[c].(queue := channels[c].queue + Terms(|Targets(daemons, ids, c)|))
      else channels[c]
  }

  lemma OneMoreTarget(daemons: map<nat, Daemon>, ids: set<nat>, id: nat, c: nat)
    requires id !in ids
    ensures |Targets(daemons, ids + {id}, c)| == |Targets(daemons, ids, c)| + if Reaches(daemons, id, c) then 1 else 0
  {
    if Reaches(daemons, id, c) {
      assert Targets(daemons, ids + {id}, c) == Targets(daemons, ids, c) + {id};
    } else {
      assert Targets(daemons, ids + {id}, c) == Targets(daemons, ids, c);
    }
  }

  lemma OneMoreTerm(n: nat)
    ensures Terms(n) + [Term] == Terms(n + 1)
  {}

  lemma OneMoreNotified(daemons: map<nat, Daemon>, channels: map<nat, Channel>, ids: set<nat>, id: nat)
    requires id !in ids
    ensures ChannelsAfter(daemons, Notified(daemons, channels, ids), SendSignal(id, Term))
         == Notified(daemons, channels, ids + {id})
  {
    var before, after := Notified(daemons, channels, ids), Notified(daemons, channels, ids + {id});
    forall c | c in channels ensures ChannelsAfter(daemons, before, SendSignal(id, Term))[c] == after[c] {
      OneMoreTarget(daemons, ids, id, c);
      OneMoreTerm(|Targets(daemons, ids, c)|);
    }
  }

  lemma NobodyNotified(daemons: map<nat, Daemon>, channels: map<nat, Channel>)
    ensures Notified(daemons, channels, {}) == channels
  {
    forall c | c in channels && channels[c].open ensures Notified(daemons, channels, {})[c] == channels[c] {
      assert Targets(daemons, {}, c) == {} && channels[c].queue + Terms(0) == channels[c].queue;
    }
  }

  /** In whatever order the daemons are listed, the channels end up the same. */
  lemma {:induction false} TermsAddUp(daemons: map<nat, Daemon>, channels: map<nat, Channel>, order: seq<nat>)
    requires NoRepeats(order)
    ensures AfterTerms(daemons, channels, order) == Notified(daemons, channels, Members(order))
  {
    if order == [] {
      NobodyNotified(daemons, channels);
      assert Members(order) == {};
    } else {
      var n := |order| - 1;
      var front, id := order[..n], order[n];
      TermsAddUp(daemons, channels, front);
      assert order == front + [id] && id !in front;
      assert Members(order) == Members(front) + {id};
      OneMoreNotified(daemons, channels, Members(front), id);
    }
  }

  /** Every open channel has room for the Terms that a shutdown of all daemons sends to it. */
  predicate RoomForAll(daemons: map<nat, Daemon>, channels: map<nat, Channel>) {
    forall c | c in channels && channels[c].open ::
      |channels[c].queue| + |Targets(daemons, daemons.Keys, c)| <= CAPACITY
  }

  lemma TargetsGrow(daemons: map<nat, Daemon>, few: set<nat>, many: set<nat>, c: nat)
    requires few <= many
    ensures |Targets(daemons, few, c)| <= |Targets(daemons, many, c)|
    decreases many - few
  {
    if id :| id in many - few {
      OneMoreTarget(daemons, few, id, c);
      TargetsGrow(daemons, few + {id}, many, c);
    } else {
      assert forall id | id in many :: id in few || id in many - few;
      assert few == many;
    }
  }

  /** A shutdown that has signalled the daemons in `front` waits at the next one only if some
      channel has no room for all of its Terms. */
  lemma WaitMeansNoRoom(daemons: map<nat, Daemon>, channels: map<nat, Channel>, front: seq<nat>, id: nat)
    requires NoRepeats(front + [id]) && Members(front + [id]) <= daemons.Keys
    requires Waits(daemons, AfterTerms(daemons, channels, front), SendSignal(id, Term))
    ensures !RoomForAll(daemons, channels)
  {
    var order := front + [id];
    assert NoRepeats(front) by {
      assert forall i | 0 <= i < |front| :: front[i] == order[i];
    }
    assert id !in front by {
      assert forall i | 0 <= i < |front| :: front[i] == order[i] != order[|front|];
    }
    TermsAddUp(daemons, channels, front);
    var here := AfterTerms(daemons, channels, front);
    var c :| c in here && Reaches(daemons, id, c) && FullIn(here, c);
    OneMoreTarget(daemons, Members(front), id, c);
    assert Members(order) == Members(front) + {id};
    TargetsGrow(daemons, Members(order), daemons.Keys, c);
  }

  /** The signal to the next daemon in the listing. */
  lemma NextTerm(daemons: map<nat, Daemon>, channels: map<nat, Channel>, order: seq<nat>, k: nat)
    requires NoRepeats(order) && Members(order) <= daemons.Keys && k < |order|
    ensures var op, here := SendSignal(order[k], Term), AfterTerms(daemons, channels, order[..k]);
            && (Waits(daemons, here, op) ==> !RoomForAll(daemons, channels))
            && AfterTerms(daemons, channels, order[..k + 1]) == ChannelsAfter(daemons, here, op)
  {
    var front, id := order[..k], order[k];
    assert front + [id] == order[..k + 1] && order[..k + 1][..k] == front;
    if Waits(daemons, AfterTerms(daemons, channels, front), SendSignal(id, Term)) {
      assert Members(front + [id]) <= Members(order);
      WaitMeansNoRoom(daemons, channels, front, id);
    }
  }

  /** A shutdown that has signalled every daemon without overfilling a channel. */
  lemma AllNotified(daemons: map<nat, Daemon>, before: map<nat, Channel>, order: seq<nat>, after: map<nat, Channel>)
    requires NoRepeats(order) && Members(order) == daemons.Keys
    requires after == AfterTerms(daemons, before, order[..|order|])
    requires forall c | c in after :: |after[c].queue| <= CAPACITY
    ensures after == Notified(daemons, before, daemons.Keys) && RoomForAll(daemons, before)
  {
    assert order[..|order|] == order;
    TermsAddUp(daemons, before, order);
    forall c | c in before && before[c].open
      ensures |before[c].queue| + |Targets(daemons, daemons.Keys, c)| <= CAPACITY
    {
      assert |after[c].queue| <= CAPACITY;
    }
  }

  // ----- an operation that nothing interleaves with

  const NO_LOCK := MapLock({}, None, [])

  function HeldBy(t: nat, op: Op): MapLock {
    if op.Writes() then MapLock({}, Some(t), []) else MapLock({t}, None, [])
  }

  /** One task that is the only one in an operation. */
  datatype Solo = Solo(tasks: seq<Task>, t: nat, todo: seq<Op>, daemons: map<nat, Daemon>, channels: map<nat, Channel>)
  {
    function At(pc: Pc, lock: MapLock): System
      requires t < |tasks|
    {
      System(tasks[t := Task(pc, todo)], lock, daemons, channels)
    }

    /** About to call what is left to do, or finished. */
    function Between(): System
      requires t < |tasks|
    {
      if todo == [] then At(Idle, NO_LOCK)
      else System(tasks[t := Task(WaitMap(todo[0]), todo[1..])], MapLock({}, None, [t]), daemons, channels)
    }

    predicate Free() {
      forall id | id in daemons :: daemons[id].holder == None && daemons[id].waiters == []
    }
  }

  /** Some run goes from the one to the other. */
  ghost predicate Leads(s: System, s': System) {
    exists run :: Runs(s, run, s')
  }

  lemma OneAction(s0: System, s: System, a: Action)
    requires Leads(s0, s) && CanAct(s, a)
    ensures Leads(s0, Act(s, a))
  {
    var run :| Runs(s0, run, s);
    var more, s' := Grow(s0, run, s, a);
  }

  lemma {:induction false} RunsConcat(s: System, first: seq<Action>, middle: System, second: seq<Action>, s': System)
    requires Runs(s, first, middle) && Runs(middle, second, s')
    ensures Runs(s, first + second, s')
    decreases |first|
  {
    if first == [] {
      assert first + second == second;
    } else {
      RunsConcat(Act(s, first[0]), first[1..], middle, second, s');
      assert (first + second)[1..] == first[1..] + second;
    }
  }

  lemma LeadsOn(s: System, middle: System, s': System)
    requires Leads(s, middle) && Leads(middle, s')
    ensures Leads(s, s')
  {
    var first, second :| Runs(s, first, middle) && Runs(middle, second, s');
    RunsConcat(s, first, middle, second, s');
  }

  lemma LeadsKeepsInv(s: System, s': System)
    requires Inv(s) && TodoInv(s) && Leads(s, s')
    ensures Inv(s') && TodoInv(s')
  {
    var run :| Runs(s, run, s');
    RunKeepsInv(s, run, s');
  }

  /** One step of the task, which does not list the daemons. */
  lemma SoloStep(s0: System, v: Solo, pc: Pc, lock: MapLock)
    requires v.t < |v.tasks| && Leads(s0, v.At(pc, lock))
    requires Enabled(v.At(pc, lock), v.t) && WellPlaced(v.At(pc, lock), pc)
    requires !(pc.HoldMap? && pc.op.ListForShutdown?)
    ensures Leads(s0, Next(v.At(pc, lock), v.t, []))
  {
    var s := v.At(pc, lock);
    var order := ListingOf(s.daemons.Keys);
    assert Next(s, v.t, order) == Next(s, v.t, []);
    OneAction(s0, s, Step(v.t, order));
  }

  lemma Moved(v: Solo, pc: Pc, lock: MapLock, pc': Pc)
    requires v.t < |v.tasks|
    ensures ManagerLocks.At(v.At(pc, lock), v.t, pc') == v.At(pc', lock)
  {}

  lemma TakesMap(v: Solo, op: Op)
    requires v.t < |v.tasks|
    ensures Enabled(v.At(WaitMap(op), MapLock({}, None, [v.t])), v.t)
    ensures Next(v.At(WaitMap(op), MapLock({}, None, [v.t])), v.t, []) == v.At(HoldMap(op), HeldBy(v.t, op))
  {
    assert [v.t][1..] == [] && {} + {v.t} == {v.t};
    Moved(v, WaitMap(op), MapLock({}, None, [v.t]), HoldMap(op));
  }

  lemma TakeMap(s0: System, v: Solo, op: Op)
    requires v.t < |v.tasks| && Leads(s0, v.At(WaitMap(op), MapLock({}, None, [v.t])))
    ensures Leads(s0, v.At(HoldMap(op), HeldBy(v.t, op)))
  {
    TakesMap(v, op);
    SoloStep(s0, v, WaitMap(op), MapLock({}, None, [v.t]));
  }

  lemma GivesMap(v: Solo, op: Op)
    requires v.t < |v.tasks|
    ensures Next(v.At(ReleaseMap(op), HeldBy(v.t, op)), v.t, []) == v.Between()
  {
    assert [] + [v.t] == [v.t] && {v.t} - {v.t} == {};
    Moved(v, ReleaseMap(op), HeldBy(v.t, op), Idle);
  }

  lemma GiveMap(s0: System, v: Solo, op: Op)
    requires v.t < |v.tasks| && Leads(s0, v.At(ReleaseMap(op), HeldBy(v.t, op)))
    ensures Leads(s0, v.Between())
  {
    GivesMap(v, op);
    SoloStep(s0, v, ReleaseMap(op), HeldBy(v.t, op));
  }

  /** One step under the map lock that may change the operation's daemon and the channels. */
  lemma Section(s0: System, v: Solo, pc: Pc, v': Solo, pc': Pc)
    requires v.t < |v.tasks| && pc.HoldsMap() && Leads(s0, v.At(pc, HeldBy(v.t, pc.op)))
    requires !(pc.HoldMap? && pc.op.ListForShutdown?)
    requires var s := v.At(pc, HeldBy(v.t, pc.op));
             && Enabled(s, v.t) && WellPlaced(s, pc)
             && Next(s, v.t, []) == ManagerLocks.At(s, v.t, pc').(daemons := v'.daemons, channels := v'.channels)
    requires v' == v.(daemons := v'.daemons, channels := v'.channels)
    ensures Leads(s0, v'.At(pc', HeldBy(v.t, pc.op)))
  {
    Moved(v, pc, HeldBy(v.t, pc.op), pc');
    SoloStep(s0, v, pc, HeldBy(v.t, pc.op));
  }

  /** With the task in line for, and holding, the mutex of daemon `id`. */
  function QueuedAt(v: Solo, id: nat): Solo
    requires id in v.daemons
  {
    v.(daemons := v.daemons[id := v.daemons[id].(waiters := [v.t])])
  }

  function Held(v: Solo, id: nat): Solo
    requires id in v.daemons
  {
    v.(daemons := v.daemons[id := v.daemons[id].(holder := Some(v.t))])
  }

  lemma TakesMutex(v: Solo, op: Op)
    requires v.t < |v.tasks| && op.LocksDaemon() && op.id in v.daemons && v.Free()
    ensures var s, queued := v.At(HoldMap(op), HeldBy(v.t, op)), QueuedAt(v, op.id);
            Next(s, v.t, []) == ManagerLocks.At(s, v.t, WaitMutex(op)).(daemons := queued.daemons)
    ensures var s, held := QueuedAt(v, op.id).At(WaitMutex(op), HeldBy(v.t, op)), Held(v, op.id);
            Enabled(s, v.t) && Next(s, v.t, []) == ManagerLocks.At(s, v.t, HoldMutex(op)).(daemons := held.daemons)
  {
    var d, queued := v.daemons[op.id], QueuedAt(v, op.id);
    assert d.waiters + [v.t] == [v.t] && [v.t][1..] == d.waiters;
    assert queued.daemons[op.id := d.(holder := Some(v.t))] == Held(v, op.id).daemons;
  }

  lemma TakeMutex(s0: System, v: Solo, op: Op)
    requires v.t < |v.tasks| && Leads(s0, v.At(HoldMap(op), HeldBy(v.t, op)))
    requires op.LocksDaemon() && op.id in v.daemons && v.Free()
    ensures Leads(s0, Held(v, op.id).At(HoldMutex(op), HeldBy(v.t, op)))
  {
    TakesMutex(v, op);
    Section(s0, v, HoldMap(op), QueuedAt(v, op.id), WaitMutex(op));
    Section(s0, QueuedAt(v, op.id), WaitMutex(op), Held(v, op.id), HoldMutex(op));
  }

  /** Gives the mutex and then the map lock back. */
  lemma GiveBoth(s0: System, v: Solo, op: Op, held: Solo)
    requires v.t < |v.tasks| && op.LocksDaemon() && op.id in v.daemons && v.daemons[op.id].holder == None
    requires held == Held(v, op.id)
    requires Leads(s0, held.At(ReleaseMutex(op, false), HeldBy(v.t, op)))
    ensures Leads(s0, v.Between())
  {
    assert held.daemons[op.id := held.daemons[op.id].(holder := None)] == v.daemons;
    Section(s0, held, ReleaseMutex(op, false), v, ReleaseMap(op));
    GiveMap(s0, v, op);
  }

  lemma GiveBothAndRemove(s0: System, v: Solo, op: Op, held: Solo)
    requires v.t < |v.tasks| && op.Unregister? && op.id in v.daemons && v.daemons[op.id].holder == None
    requires held == Held(v, op.id)
    requires Leads(s0, held.At(ReleaseMutex(op, true), HeldBy(v.t, op)))
    ensures Leads(s0, v.(daemons := v.daemons - {op.id}).Between())
  {
    assert held.daemons[op.id := held.daemons[op.id].(holder := None)] == v.daemons;
    Section(s0, held, ReleaseMutex(op, true), v, RemoveDaemon(op));
    var removed := v.(daemons := v.daemons - {op.id});
    Section(s0, v, RemoveDaemon(op), removed, ReleaseMap(op));
    GiveMap(s0, removed, op);
  }

  /** What a lone operation leaves. */
  function Effect(v: Solo, op: Op): Solo {
    v.(daemons := DaemonsAfter(v.daemons, op), channels := ChannelsAfter(v.daemons, v.channels, op))
  }

  lemma SignalAlone(s0: System, v: Solo, op: Op, held: Solo)
    requires v.t < |v.tasks| && op.SendSignal? && op.id in v.daemons && v.Free()
    requires held == Held(v, op.id)
    requires Leads(s0, held.At(HoldMutex(op), HeldBy(v.t, op)))
    requires !Waits(v.daemons, v.channels, op)
    ensures Leads(s0, Effect(v, op).Between())
  {
    var d := v.daemons[op.id];
    if d.status.CanSignal() && d.handle.Some? {
      var c := d.handle.value;
      assert Reaches(v.daemons, op.id, c);
      Section(s0, held, HoldMutex(op), held, Sending(op, c));
      var sent := held.(channels := SentTo(v.channels, c, op.signal));
      Section(s0, held, Sending(op, c), sent, ReleaseMutex(op, false));
      GiveBoth(s0, Effect(v, op), op, sent);
    } else {
      Section(s0, held, HoldMutex(op), held, ReleaseMutex(op, false));
      GiveBoth(s0, v, op, held);
    }
  }

  lemma UpdateAlone(s0: System, v: Solo, op: Op, held: Solo)
    requires v.t < |v.tasks| && op.Update? && op.id in v.daemons && v.Free()
    requires held == Held(v, op.id)
    requires Leads(s0, held.At(HoldMutex(op), HeldBy(v.t, op)))
    ensures Leads(s0, Effect(v, op).Between())
  {
    var d := Changed(v.daemons[op.id], op.change);
    var changed := held.(daemons := held.daemons[op.id := d.(holder := Some(v.t))]);
    Section(s0, held, HoldMutex(op), changed, ReleaseMutex(op, false));
    assert changed.daemons == Effect(v, op).daemons[op.id := d.(holder := Some(v.t))];
    GiveBoth(s0, Effect(v, op), op, changed);
  }

  lemma UnregisterAlone(s0: System, v: Solo, op: Op, held: Solo)
    requires v.t < |v.tasks| && op.Unregister? && op.id in v.daemons && v.Free()
    requires held == Held(v, op.id)
    requires Leads(s0, held.At(HoldMutex(op), HeldBy(v.t, op)))
    ensures Leads(s0, Effect(v, op).Between())
  {
    var remove := !v.daemons[op.id].status.IsActive();
    Section(s0, held, HoldMutex(op), held, ReleaseMutex(op, remove));
    if remove {
      GiveBothAndRemove(s0, v, op, held);
    } else {
      GiveBoth(s0, v, op, held);
    }
  }

  lemma UnderMutexAlone(s0: System, v: Solo, op: Op, held: Solo)
    requires v.t < |v.tasks| && op.LocksDaemon() && !op.SendSignal? && op.id in v.daemons && v.Free()
    requires held == Held(v, op.id)
    requires Leads(s0, held.At(HoldMutex(op), HeldBy(v.t, op)))
    ensures Leads(s0, Effect(v, op).Between())
  {
    match op
    case Update(_, _) =>
      UpdateAlone(s0, v, op, held);
    case Unregister(_) =>
      UnregisterAlone(s0, v, op, held);
    case _ =>
      Section(s0, held, HoldMutex(op), held, ReleaseMutex(op, false));
      GiveBoth(s0, v, op, held);
  }

  /** From the call to the return. */
  lemma FromCall(s0: System, v: Solo, op: Op)
    requires v.t < |v.tasks| && v.Free() && !op.ListForShutdown? && !Waits(v.daemons, v.channels, op)
    requires Leads(s0, v.At(WaitMap(op), MapLock({}, None, [v.t])))
    ensures Leads(s0, Effect(v, op).Between())
  {
    TakeMap(s0, v, op);
    if op.LocksDaemon() && op.id in v.daemons {
      var held := Held(v, op.id);
      TakeMutex(s0, v, op);
      if op.SendSignal? {
        SignalAlone(s0, v, op, held);
      } else {
        UnderMutexAlone(s0, v, op, held);
      }
    } else {
      Section(s0, v, HoldMap(op), Effect(v, op), ReleaseMap(op));
      GiveMap(s0, Effect(v, op), op);
    }
  }

  /** Nobody is in an operation. */
  ghost predicate Resting(s: System) {
    && s.lock == NO_LOCK
    && (forall i | 0 <= i < |s.tasks| :: s.tasks[i] == Task(Idle, []))
    && (forall id | id in s.daemons :: s.daemons[id].holder == None && s.daemons[id].waiters == [])
  }

  function SoloOf(s: System, t: nat): Solo {
    Solo(s.tasks, t, [], s.daemons, s.channels)
  }

  lemma Called(s: System, t: nat, op: Op)
    requires Resting(s) && t < |s.tasks|
    ensures Leads(s, SoloOf(s, t).At(WaitMap(op), MapLock({}, None, [t])))
  {
    assert Runs(s, [], s);
    OneAction(s, s, Call(t, op));
    assert NO_LOCK.waiters + [t] == [t];
    assert Act(s, Call(t, op)) == SoloOf(s, t).At(WaitMap(op), MapLock({}, None, [t]));
  }

  /** The step model agrees with the sequential one: an operation that nothing interleaves
      with returns, unless it is a signal that waits for room, and has exactly this effect. */
  lemma OperationAlone(s: System, t: nat, op: Op) returns (s': System)
    requires Resting(s) && t < |s.tasks| && !op.ListForShutdown?
    requires !Waits(s.daemons, s.channels, op)
    ensures Leads(s, s') && Resting(s')
    ensures s' == s.(daemons := DaemonsAfter(s.daemons, op), channels := ChannelsAfter(s.daemons, s.channels, op))
  {
    Called(s, t, op);
    FromCall(s, SoloOf(s, t), op);
    s' := Effect(SoloOf(s, t), op).Between();
    assert s.tasks[t := Task(Idle, [])] == s.tasks;
  }

  // ----- a shutdown that nothing interleaves with

  /** In the middle of a shutdown, with `k` daemons signalled. */
  function Signalled(v: Solo, order: seq<nat>, k: nat): Solo
    requires k <= |order|
  {
    v.(todo := SignalAll(order)[k..], channels := AfterTerms(v.daemons, v.channels, order[..k]))
  }

  lemma NextTermAlone(s0: System, v: Solo, order: seq<nat>, k: nat)
    requires v.t < |v.tasks| && v.Free() && RoomForAll(v.daemons, v.channels)
    requires NoRepeats(order) && Members(order) <= v.daemons.Keys && k < |order|
    requires Leads(s0, Signalled(v, order, k).Between())
    ensures Leads(s0, Signalled(v, order, k + 1).Between())
  {
    var op, rest := SendSignal(order[k], Term), SignalAll(order)[k + 1..];
    var here := v.(todo := rest, channels := AfterTerms(v.daemons, v.channels, order[..k]));
    NextTerm(v.daemons, v.channels, order, k);
    assert SignalAll(order)[k..] == [op] + rest;
    FromCall(s0, here, op);
  }

  lemma {:induction false} TermsAlone(s0: System, v: Solo, order: seq<nat>, k: nat)
    requires v.t < |v.tasks| && v.Free() && RoomForAll(v.daemons, v.channels)
    requires NoRepeats(order) && Members(order) <= v.daemons.Keys && k <= |order|
    requires Leads(s0, v.(todo := SignalAll(order)).Between())
    ensures Leads(s0, Signalled(v, order, k).Between())
  {
    if k == 0 {
      assert SignalAll(order)[0..] == SignalAll(order);
    } else {
      TermsAlone(s0, v, order, k - 1);
      NextTermAlone(s0, v, order, k - 1);
    }
  }

  /** Up to the first signal. */
  lemma ListAlone(s: System, t: nat, order: seq<nat>)
    requires Resting(s) && t < |s.tasks| && ListsDaemons(s, order)
    ensures Leads(s, SoloOf(s, t).(todo := SignalAll(order)).Between())
  {
    var v, op := SoloOf(s, t), ListForShutdown;
    Called(s, t, op);
    TakeMap(s, v, op);
    var listed := v.(todo := SignalAll(order));
    var here := v.At(HoldMap(op), HeldBy(t, op));
    OneAction(s, here, Step(t, order));
    assert Act(here, Step(t, order)) == listed.At(ReleaseMap(op), HeldBy(t, op));
    GiveMap(s, listed, op);
  }

  /** After the last signal. */
  lemma CountAlone(s: System, v: Solo)
    requires v.t < |v.tasks| && v.Free() && v.todo == []
    requires Leads(s, v.(todo := [CountOrList]).Between())
    ensures Leads(s, v.Between())
  {
    assert [CountOrList][1..] == [];
    assert v.(todo := [CountOrList]).Between() == v.At(WaitMap(CountOrList), MapLock({}, None, [v.t]));
    FromCall(s, v, CountOrList);
  }

  /** Run by itself, `shutdown_all` returns once every daemon that takes signals has one more
      Term behind what its channel held, provided that the channels have room. */
  lemma ShutdownAlone(s: System, t: nat) returns (s': System)
    requires Resting(s) && t < |s.tasks| && RoomForAll(s.daemons, s.channels)
    ensures Leads(s, s')
    ensures s' == s.(channels := Notified(s.daemons, s.channels, s.daemons.Keys))
  {
    var order := ListingOf(s.daemons.Keys);
    var v := SoloOf(s, t);
    assert Members(order) == s.daemons.Keys;
    ListAlone(s, t, order);
    var sent;
    sent := AllTermsAlone(s, v, order);
    CountAlone(s, sent);
    s' := sent.Between();
    assert s.tasks[t := Task(Idle, [])] == s.tasks;
  }

  lemma AllTermsAlone(s: System, v: Solo, order: seq<nat>) returns (sent: Solo)
    requires v.t < |v.tasks| && v.todo == [] && v.Free() && RoomForAll(v.daemons, v.channels)
    requires NoRepeats(order) && Members(order) == v.daemons.Keys
    requires Leads(s, v.(todo := SignalAll(order)).Between())
    ensures sent == v.(channels := Notified(v.daemons, v.channels, v.daemons.Keys))
    ensures Leads(s, sent.(todo := [CountOrList]).Between())
  {
    TermsAlone(s, v, order, |order|);
    assert order[..|order|] == order && SignalAll(order)[|order|..] == [CountOrList];
    TermsAddUp(v.daemons, v.channels, order);
    sent := v.(channels := Notified(v.daemons, v.channels, v.daemons.Keys));
  }

  // ----- runs that exist

  /** Two tasks at rest. */
  function Rest(daemons: map<nat, Daemon>, channels: map<nat, Channel>): System {
    System([Task(Idle, []), Task(Idle, [])], NO_LOCK, daemons, channels)
  }

  /** One more operation of the first task, undisturbed. */
  lemma OneMore(s0: System, daemons: map<nat, Daemon>, channels: map<nat, Channel>, op: Op)
    requires Leads(s0, Rest(daemons, channels)) && Resting(Rest(daemons, channels))
    requires !op.ListForShutdown? && !Waits(daemons, channels, op)
    ensures Leads(s0, Rest(DaemonsAfter(daemons, op), ChannelsAfter(daemons, channels, op)))
  {
    var s := Rest(daemons, channels);
    var s' := OperationAlone(s, 0, op);
    LeadsOn(s0, s, s');
  }

  function One(status: Status, handle: Option<nat>): map<nat, Daemon> {
    map[0 := NEW_DAEMON.(status := status, handle := handle)]
  }

  lemma OneChanges(status: Status, handle: Option<nat>, to: Status, channel: nat)
    ensures DaemonsAfter(map[], Register(0)) == One(Created, None)
    ensures DaemonsAfter(One(status, handle), Update(0, SetStatus(to))) == One(to, handle)
    ensures DaemonsAfter(One(status, handle), Update(0, SetHandle(channel))) == One(status, Some(channel))
  {}

  /** A daemon registered by the first of two tasks. */
  lemma CreatedAlone(channels: map<nat, Channel>) returns (s: System)
    requires forall c | c in channels :: |channels[c].queue| <= CAPACITY
    ensures Leads(Start(2, channels), s) && Inv(s) && Resting(s) && s == Rest(One(Created, None), channels)
  {
    var s0 := Start(2, channels);
    assert s0 == Rest(map[], channels);
    OneChanges(Created, None, Created, 0);
    assert Runs(s0, [], s0);
    OneMore(s0, map[], channels, Register(0));
    s := Rest(One(Created, None), channels);
    StartInv(2, channels);
    LeadsKeepsInv(s0, s);
  }

  lemma StatusChanged(s0: System, from: Status, to: Status) returns (s: System)
    requires Leads(s0, Rest(One(from, None), map[]))
    ensures Leads(s0, s) && s == Rest(One(to, None), map[])
  {
    OneChanges(from, None, to, 0);
    OneMore(s0, One(from, None), map[], Update(0, SetStatus(to)));
    s := Rest(One(to, None), map[]);
  }

  /** `update_status` obeys no state machine: a daemon gets from every status, the final ones
      included, to every other. */
  lemma EveryStatusIsLeft(from: Status, to: Status) returns (s: System, s': System)
    ensures Leads(Start(2, map[]), s) && 0 in s.daemons && s.daemons[0].status == from
    ensures Leads(s, s') && 0 in s'.daemons && s'.daemons[0].status == to
  {
    s := CreatedAlone(map[]);
    s := StatusChanged(Start(2, map[]), Created, from);
    assert Runs(s, [], s);
    s' := StatusChanged(s, from, to);
  }

  /** Daemon 0, registered, running, and reached through channel 0. */
  lemma RunningAt(s0: System, channels: map<nat, Channel>)
    requires s0 == Start(2, channels) && forall c | c in channels :: |channels[c].queue| <= CAPACITY
    ensures Leads(s0, Rest(One(Running, Some(0)), channels))
  {
    var s := CreatedAlone(channels);
    OneChanges(Created, None, Running, 0);
    OneChanges(Running, None, Running, 0);
    OneMore(s0, One(Created, None), channels, Update(0, SetStatus(Running)));
    OneMore(s0, One(Running, None), channels, Update(0, SetHandle(0)));
  }

  function Filled(n: nat): map<nat, Channel> {
    map[0 := Channel(seq(n, _ => Usr1), true)]
  }

  lemma FilledGrows(n: nat)
    ensures SentTo(Filled(n), 0, Usr1) == Filled(n + 1)
  {
    assert seq(n, _ => Usr1) + [Usr1] == seq(n + 1, _ => Usr1);
  }

  /** A running daemon that does not drain its channel, and enough signals to fill it. */
  lemma {:induction false} RunningAndFilled(n: nat)
    requires n <= CAPACITY
    ensures Leads(Start(2, Filled(0)), Rest(One(Running, Some(0)), Filled(n)))
  {
    var s0 := Start(2, Filled(0));
    if n == 0 {
      RunningAt(s0, Filled(0));
    } else {
      FilledGrows(n - 1);
      RunningAndFilled(n - 1);
      OneMore(s0, One(Running, Some(0)), Filled(n - 1), SendSignal(0, Usr1));
    }
  }

  lemma SendBlocks(rest: System, v: Solo, op: Op)
    requires rest == Rest(One(Running, Some(0)), Filled(CAPACITY)) && v == SoloOf(rest, 0) && op == SendSignal(0, Term)
    ensures Leads(rest, Held(v, 0).At(Sending(op, 0), HeldBy(0, op)))
  {
    Called(rest, 0, op);
    TakeMap(rest, v, op);
    TakeMutex(rest, v, op);
    Section(rest, Held(v, 0), HoldMutex(op), Held(v, 0), Sending(op, 0));
  }

  /** Two tasks and one daemon that does not drain its channel are enough for a stall. */
  lemma StallIsReachable() returns (s: System)
    ensures Leads(Start(2, Filled(0)), s) && Stalled(s, 0, 1)
  {
    var s0, op := Start(2, Filled(0)), SendSignal(0, Term);
    var rest := Rest(One(Running, Some(0)), Filled(CAPACITY));
    var v := SoloOf(rest, 0);
    RunningAndFilled(CAPACITY);
    SendBlocks(rest, v, op);
    var sending := Held(v, 0).At(Sending(op, 0), HeldBy(0, op));
    LeadsOn(s0, rest, sending);
    OneAction(s0, sending, Call(1, Register(1)));
    s := Act(sending, Call(1, Register(1)));
  }

  // ----- the manager

  /** A daemon's state behind its mutex.  `handle` names a channel. */
  class ManagedDaemon {
    var status: Status
    var restartCount: nat
    var handle: Option<nat>

    constructor ()
      ensures Contents() == NEW_DAEMON
    {
      status, restartCount, handle := Created, 0, None;
    }

    ghost function Contents(): Daemon
      reads this
    {
      Daemon(status, restartCount, handle, None, [])
    }
  }

  datatype Outcome =
    | Done
    | AlreadyRegistered
    | NotFound
    | StillActive
    | CannotSignal
    | NoHandle
    | ContextClosed
    | WouldWait

  /** No daemon but `id` comes, goes, or changes. */
  predicate OthersKept(before: map<nat, Daemon>, after: map<nat, Daemon>, id: nat) {
    && (forall i | i in before && i != id :: i in after && after[i] == before[i])
    && (forall i | i in after && i != id :: i in before)
  }

  /** The manager, together with the channels that its daemons' handles lead to. */
  class DaemonManager {
    var daemons: map<nat, ManagedDaemon>
    var channels: map<nat, Channel>

    /** Every daemon has its own state, and no channel holds more than it can. */
    ghost predicate Valid()
      reads this
    {
      && (forall i, j | i in daemons && j in daemons && i != j :: daemons[i] != daemons[j])
      && (forall c | c in channels :: |channels[c].queue| <= CAPACITY)
    }

    ghost function Contents(): map<nat, Daemon>
      reads `daemons, daemons.Values
    {
      map id | id in daemons :: daemons[id].Contents()
    }

    constructor (channels: map<nat, Channel>)
      requires forall c | c in channels :: |channels[c].queue| <= CAPACITY
      ensures Valid() && Contents() == map[] && this.channels == channels
    {
      daemons, this.channels := map[], channels;
    }

    method Register(id: nat) returns (r: Outcome)
      requires Valid()
      modifies this
      ensures Valid() && channels == old(channels)
      ensures r == if id in old(daemons) then AlreadyRegistered else Done
      ensures Contents() == DaemonsAfter(old(Contents()), Op.Register(id))
      ensures OthersKept(old(Contents()), Contents(), id) && id in daemons
      ensures r == Done ==> Contents()[id] == Daemon(Created, 0, None, None, [])
      ensures r != Done ==> Contents()[id] == old(Contents())[id]
      ensures fresh(daemons.Values - old(daemons.Values))
    {
      if id in daemons {
        return AlreadyRegistered;
      }
      var d := new ManagedDaemon();
      daemons := daemons[id := d];
      r := Done;
    }

    method Unregister(id: nat) returns (r: Outcome)
      requires Valid()
      modifies this
      ensures Valid() && channels == old(channels)
      ensures r == if id !in old(daemons) then NotFound
                   else if old(Contents())[id].status in {Running, Paused} then StillActive
                   else Done
      ensures Contents() == DaemonsAfter(old(Contents()), Op.Unregister(id))
      ensures OthersKept(old(Contents()), Contents(), id)
      ensures if r == StillActive then id in daemons && Contents()[id] == old(Contents())[id] else id !in daemons
      ensures daemons.Values <= old(daemons.Values)
    {
      if id !in daemons {
        return NotFound;
      }
      if daemons[id].status.IsActive() {
        return StillActive;
      }
      daemons := daemons - {id};
      r := Done;
    }

    method UpdateStatus(id: nat, status: Status) returns (r: Outcome)
      requires Valid()
      modifies if id in daemons then {daemons[id]} else {}
      ensures r == if id in daemons then Done else NotFound
      ensures Contents() == DaemonsAfter(old(Contents()), Update(id, SetStatus(status)))
      ensures OthersKept(old(Contents()), Contents(), id)
      ensures r == Done ==>
                && daemons[id].status == status
                && daemons[id].restartCount == old(daemons[id].restartCount)
                && daemons[id].handle == old(daemons[id].handle)
    {
      if id !in daemons {
        return NotFound;
      }
      daemons[id].status := status;
      r := Done;
    }

    method SetContextHandle(id: nat, channel: nat) returns (r: Outcome)
      requires Valid()
      modifies if id in daemons then {daemons[id]} else {}
      ensures r == if id in daemons then Done else NotFound
      ensures Contents() == DaemonsAfter(old(Contents()), Update(id, SetHandle(channel)))
      ensures OthersKept(old(Contents()), Contents(), id)
      ensures r == Done ==>
                && daemons[id].status == old(daemons[id].status)
                && daemons[id].restartCount == old(daemons[id].restartCount)
                && daemons[id].handle == Some(channel)
    {
      if id !in daemons {
        return NotFound;
      }
      daemons[id].handle := Some(channel);
      r := Done;
    }

    method IncrementRestartCount(id: nat) returns (r: Outcome, count: nat)
      requires Valid()
      modifies if id in daemons then {daemons[id]} else {}
      ensures r == if id in daemons then Done else NotFound
      ensures Contents() == DaemonsAfter(old(Contents()), Update(id, IncrementRestarts))
      ensures OthersKept(old(Contents()), Contents(), id)
      ensures r == Done ==>
                && daemons[id].status == old(daemons[id].status)
                && count == daemons[id].restartCount == (old(daemons[id].restartCount) + 1) % 0x1_0000_0000
                && daemons[id].handle == old(daemons[id].handle)
    {
      if id !in daemons {
        return NotFound, 0;
      }
      daemons[id].restartCount := (daemons[id].restartCount + 1) % U32;
      return Done, daemons[id].restartCount;
    }

    /** Waits exactly where the channel is full, and then has changed nothing yet. */
    method SendSignal(id: nat, signal: Signal) returns (r: Outcome)
      requires Valid()
      modifies `channels
      ensures Valid()
      ensures r == WouldWait <==> Waits(Contents(), old(channels), Op.SendSignal(id, signal))
      ensures r == WouldWait ==> channels == old(channels)
      ensures r != WouldWait ==> channels == ChannelsAfter(Contents(), old(channels), Op.SendSignal(id, signal))
      ensures r == NotFound <==> id !in daemons
      ensures r == CannotSignal <==> id in daemons && Contents()[id].status !in {Running, Paused, Stopping}
      ensures r == NoHandle <==> id in daemons && Contents()[id].status.CanSignal() && Contents()[id].handle == None
      ensures r == Done ==>
                && id in daemons && daemons[id].handle.Some?
                && var c := daemons[id].handle.value;
                && c in old(channels) && old(channels)[c].open && |old(channels)[c].queue| < 16
                && channels == old(channels)[c := Channel(old(channels)[c].queue + [signal], true)]
      ensures r in {NotFound, CannotSignal, NoHandle, ContextClosed, WouldWait} <==> channels == old(channels)
    {
      if id !in daemons {
        return NotFound;
      }
      var d := daemons[id];
      if !d.status.CanSignal() {
        return CannotSignal;
      }
      match d.handle
      case None =>
        return NoHandle;
      case Some(c) =>
        assert Reaches(Contents(), id, c);
        if c !in channels || !channels[c].open {
          return ContextClosed;
        }
        if |channels[c].queue| >= CAPACITY {
          return WouldWait;
        }
        channels := channels[c := channels[c].(queue := channels[c].queue + [signal])];
        return Done;
    }

    /** The k-th signal of a shutdown, which goes on whatever its outcome, unless it waits. */
    method SendTerm(order: seq<nat>, k: nat, ghost before: map<nat, Channel>) returns (sent: bool)
      requires Valid() && NoRepeats(order) && Members(order) == daemons.Keys && k < |order|
      requires channels == AfterTerms(Contents(), before, order[..k])
      modifies `channels
      ensures Valid()
      ensures sent ==> channels == AfterTerms(Contents(), before, order[..k + 1])
      ensures !sent ==> !RoomForAll(Contents(), before)
    {
      NextTerm(Contents(), before, order, k);
      var r := SendSignal(order[k], Term);
      sent := r != WouldWait;
    }

    /** Signals the daemons one after the other, in the order of the listing.  Returns, rather
        than waiting in the middle, exactly where every open channel has room for all the Terms
        that are meant for it; each has then got one for every daemon that leads to it. */
    method ShutdownAll(order: seq<nat>) returns (returned: bool)
      requires Valid() && NoRepeats(order) && Members(order) == daemons.Keys
      modifies `channels
      ensures Valid()
      ensures returned <==> RoomForAll(Contents(), old(channels))
      ensures returned ==> channels == Notified(Contents(), old(channels), daemons.Keys)
    {
      ghost var before := channels;
      for i := 0 to |order|
        invariant Valid()
        invariant channels == AfterTerms(Contents(), before, order[..i])
      {
        var sent := SendTerm(order, i, before);
        if !sent {
          return false;
        }
      }
      AllNotified(Contents(), before, order, channels);
      return true;
    }
  }
}
