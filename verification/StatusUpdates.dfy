/**
 What becomes of a daemon's status under concurrent operations: which steps change it, when a
 final status stays final, and what a task that looks before it updates can rely on.
 */
module StatusUpdates {
  import opened Options
  import opened ManagerLocks
  import opened DaemonManagers

  predicate Final(status: Status) {
    status in {Stopped, Failed}
  }

  // ----- the states along a run

  ghost predicate Legal(s: System, run: seq<Action>)
    decreases |run|
  {
    run == [] || (CanAct(s, run[0]) && Legal(Act(s, run[0]), run[1..]))
  }

  ghost function StateAt(s: System, run: seq<Action>, k: nat): System
    requires Legal(s, run) && k <= |run|
    decreases k
  {
    if k == 0 then s else StateAt(Act(s, run[0]), run[1..], k - 1)
  }

  lemma {:induction false} RunsAreLegal(s: System, run: seq<Action>, s': System)
    requires Runs(s, run, s')
    ensures Legal(s, run) && StateAt(s, run, |run|) == s'
    decreases |run|
  {
    if run == [] {
    } else {
      RunsAreLegal(Act(s, run[0]), run[1..], s');
    }
  }

  lemma {:induction false} StateStep(s: System, run: seq<Action>, k: nat)
    requires Inv(s) && Legal(s, run) && k < |run|
    ensures Inv(StateAt(s, run, k)) && CanAct(StateAt(s, run, k), run[k])
    ensures StateAt(s, run, k + 1) == Act(StateAt(s, run, k), run[k])
    decreases k
  {
    ActKeepsInv(s, run[0]);
    if k == 0 {
      assert StateAt(Act(s, run[0]), run[1..], 0) == Act(s, run[0]);
    } else {
      StateStep(Act(s, run[0]), run[1..], k - 1);
    }
  }

  // ----- what changes a status

  /** The action is the critical section of an `update_status` of daemon `id`. */
  ghost predicate SetsSome(s: System, a: Action, id: nat) {
    && a.Step? && a.task < |s.tasks|
    && var pc := s.tasks[a.task].pc;
       pc.HoldMutex? && pc.op.Update? && pc.op.id == id && pc.op.change.SetStatus?
  }

  /** It sets the status to `to`. */
  ghost predicate Sets(s: System, a: Action, id: nat, to: Status) {
    SetsSome(s, a, id) && s.tasks[a.task].pc.op.change.status == to
  }

  lemma NextStatus(s: System, t: nat, order: seq<nat>, id: nat)
    requires Enabled(s, t) && WellPlaced(s, s.tasks[t].pc)
    ensures var a, s' := Step(t, order), Next(s, t, order);
            && (SetsSome(s, a, id) ==>
                  && id in s.daemons && id in s'.daemons
                  && s'.daemons[id].status == s.tasks[t].pc.op.change.status)
            && (!SetsSome(s, a, id) && id in s.daemons && id in s'.daemons ==>
                  s'.daemons[id].status == s.daemons[id].status)
            && (id !in s.daemons && id in s'.daemons ==> s'.daemons[id].status == Created)
  {
    match s.tasks[t].pc
    case HoldMutex(op) => assert op.LocksDaemon() && op.id in s.daemons;
    case _ =>
  }

  /** Nothing else changes the status of a daemon that stays registered, and a daemon that has
      just been registered is `Created`. */
  lemma StatusAfter(s: System, a: Action, id: nat)
    requires Inv(s) && CanAct(s, a)
    ensures SetsSome(s, a, id) ==>
              && id in s.daemons && id in Act(s, a).daemons
              && Act(s, a).daemons[id].status == s.tasks[a.task].pc.op.change.status
    ensures id in s.daemons && id in Act(s, a).daemons && !SetsSome(s, a, id) ==>
              Act(s, a).daemons[id].status == s.daemons[id].status
    ensures id !in s.daemons && id in Act(s, a).daemons ==> Act(s, a).daemons[id].status == Created
  {
    if a.Step? {
      NextStatus(s, a.task, a.order, id);
    }
  }

  ghost predicate StaysRegistered(s: System, run: seq<Action>, id: nat, i: nat, j: nat)
    requires Legal(s, run) && i <= j <= |run|
  {
    forall k | i <= k <= j :: id in StateAt(s, run, k).daemons
  }

  ghost function StatusAt(s: System, run: seq<Action>, id: nat, k: nat): Status
    requires Legal(s, run) && k <= |run| && id in StateAt(s, run, k).daemons
  {
    StateAt(s, run, k).daemons[id].status
  }

  /** Every change of a registered daemon's status is one of the allowed ones. */
  ghost predicate OnlyAllowed(s: System, run: seq<Action>, allowed: (Status, Status) -> bool)
    requires Legal(s, run)
  {
    forall id: nat, k: nat | k < |run| && StaysRegistered(s, run, id, k, k + 1) ::
      || StatusAt(s, run, id, k + 1) == StatusAt(s, run, id, k)
      || allowed(StatusAt(s, run, id, k), StatusAt(s, run, id, k + 1))
  }

  /** No `update_status` takes effect on a status from which its own is not allowed. */
  ghost predicate UpdatesAllowed(s: System, run: seq<Action>, allowed: (Status, Status) -> bool)
    requires Legal(s, run)
  {
    forall id: nat, k: nat, to | k < |run| && Sets(StateAt(s, run, k), run[k], id, to)
      && id in StateAt(s, run, k).daemons ::
      to == StatusAt(s, run, id, k) || allowed(StatusAt(s, run, id, k), to)
  }

  lemma RegisteredTwice(s: System, run: seq<Action>, id: nat, k: nat)
    requires Legal(s, run) && k < |run|
    ensures StaysRegistered(s, run, id, k, k + 1) <==>
              id in StateAt(s, run, k).daemons && id in StateAt(s, run, k + 1).daemons
  {}

  lemma StatusStep(s: System, run: seq<Action>, id: nat, k: nat)
    requires Inv(s) && Legal(s, run) && k < |run|
    ensures var here := StateAt(s, run, k);
            SetsSome(here, run[k], id) ==>
              StaysRegistered(s, run, id, k, k + 1) && Sets(here, run[k], id, StatusAt(s, run, id, k + 1))
    ensures StaysRegistered(s, run, id, k, k + 1) && StatusAt(s, run, id, k + 1) != StatusAt(s, run, id, k) ==>
              Sets(StateAt(s, run, k), run[k], id, StatusAt(s, run, id, k + 1))
  {
    StateStep(s, run, k);
    StatusAfter(StateAt(s, run, k), run[k], id);
    RegisteredTwice(s, run, id, k);
  }

  /** Whatever state machine statuses are meant to follow: in every run of any number of tasks
      they follow it exactly if no update takes effect against it. */
  lemma TransitionsIff(s: System, run: seq<Action>, allowed: (Status, Status) -> bool)
    requires Inv(s) && Legal(s, run)
    ensures OnlyAllowed(s, run, allowed) <==> UpdatesAllowed(s, run, allowed)
  {
    if UpdatesAllowed(s, run, allowed) {
      forall id: nat, k: nat | k < |run| && StaysRegistered(s, run, id, k, k + 1)
        ensures
          || StatusAt(s, run, id, k + 1) == StatusAt(s, run, id, k)
          || allowed(StatusAt(s, run, id, k), StatusAt(s, run, id, k + 1))
      {
        StatusStep(s, run, id, k);
      }
    }
    if OnlyAllowed(s, run, allowed) {
      forall id: nat, k: nat, to | k < |run| && Sets(StateAt(s, run, k), run[k], id, to)
        && id in StateAt(s, run, k).daemons
        ensures to == StatusAt(s, run, id, k) || allowed(StatusAt(s, run, id, k), to)
      {
        StatusStep(s, run, id, k);
      }
    }
  }

  // ----- a daemon's fields are the history of its updates

  /** The update of daemon `id` whose critical section the action is. */
  ghost function ChangeBy(s: System, a: Action, id: nat): Option<Change> {
    if a.Step? && a.task < |s.tasks| && s.tasks[a.task].pc.HoldMutex?
       && s.tasks[a.task].pc.op.Update? && s.tasks[a.task].pc.op.id == id
    then Some(s.tasks[a.task].pc.op.change)
    else None
  }

  /** Each update changes its own field and no other. */
  ghost predicate ChangedBy(before: Daemon, after: Daemon, change: Option<Change>) {
    match change
    case Some(SetStatus(status)) =>
      after.status == status && after.restarts == before.restarts && after.handle == before.handle
    case Some(SetHandle(channel)) =>
      after.status == before.status && after.restarts == before.restarts && after.handle == Some(channel)
    case Some(IncrementRestarts) =>
      && after.status == before.status && after.handle == before.handle
      && after.restarts == (before.restarts + 1) % 0x1_0000_0000
    case _ =>
      after.status == before.status && after.restarts == before.restarts && after.handle == before.handle
  }

  lemma NextFields(s: System, t: nat, order: seq<nat>, id: nat)
    requires Enabled(s, t) && WellPlaced(s, s.tasks[t].pc)
    ensures var a, s' := Step(t, order), Next(s, t, order);
            && (id in s.daemons && id in s'.daemons ==> ChangedBy(s.daemons[id], s'.daemons[id], ChangeBy(s, a, id)))
            && (id !in s.daemons && id in s'.daemons ==> s'.daemons[id] == Daemon(Created, 0, None, None, []))
  {
    match s.tasks[t].pc
    case HoldMutex(op) => assert op.LocksDaemon() && op.id in s.daemons;
    case HoldMap(_) =>
    case _ =>
  }

  lemma FieldsAfter(s: System, a: Action, id: nat)
    requires Inv(s) && CanAct(s, a) && id in Act(s, a).daemons
    ensures if id in s.daemons then ChangedBy(s.daemons[id], Act(s, a).daemons[id], ChangeBy(s, a, id))
            else Act(s, a).daemons[id] == Daemon(Created, 0, None, None, [])
  {
    if a.Step? {
      NextFields(s, a.task, a.order, id);
    }
  }

  /** What the updates since the daemon was last registered amount to: the last status set, the
      last handle set, and the number of restarts counted. */
  ghost function LastStatus(s: System, run: seq<Action>, id: nat, k: nat): Status
    requires Legal(s, run) && k <= |run|
  {
    if k == 0 || id !in StateAt(s, run, k - 1).daemons then Created
    else match ChangeBy(StateAt(s, run, k - 1), run[k - 1], id)
         case Some(SetStatus(status)) => status
         case _ => LastStatus(s, run, id, k - 1)
  }

  ghost function LastHandle(s: System, run: seq<Action>, id: nat, k: nat): Option<nat>
    requires Legal(s, run) && k <= |run|
  {
    if k == 0 || id !in StateAt(s, run, k - 1).daemons then None
    else match ChangeBy(StateAt(s, run, k - 1), run[k - 1], id)
         case Some(SetHandle(channel)) => Some(channel)
         case _ => LastHandle(s, run, id, k - 1)
  }

  ghost function RestartsCounted(s: System, run: seq<Action>, id: nat, k: nat): nat
    requires Legal(s, run) && k <= |run|
  {
    if k == 0 || id !in StateAt(s, run, k - 1).daemons then 0
    else RestartsCounted(s, run, id, k - 1)
         + if ChangeBy(StateAt(s, run, k - 1), run[k - 1], id) == Some(IncrementRestarts) then 1 else 0
  }

  /** The daemon holds what its updates amount to. */
  ghost predicate HoldsHistory(d: Daemon, s: System, run: seq<Action>, id: nat, k: nat)
    requires Legal(s, run) && k <= |run|
  {
    && d.status == LastStatus(s, run, id, k)
    && d.handle == LastHandle(s, run, id, k)
    && d.restarts == RestartsCounted(s, run, id, k) % 0x1_0000_0000
  }

  /** In every run from a manager without daemons, at every moment, every registered daemon
      does. */
  lemma {:induction false} FieldsAreHistory(s: System, run: seq<Action>, id: nat, k: nat)
    requires Inv(s) && s.daemons == map[] && Legal(s, run) && k <= |run|
    requires id in StateAt(s, run, k).daemons
    ensures HoldsHistory(StateAt(s, run, k).daemons[id], s, run, id, k)
    decreases k
  {
    if k == 0 {
    } else {
      FieldsStep(s, run, id, k);
      if id in StateAt(s, run, k - 1).daemons {
        FieldsAreHistory(s, run, id, k - 1);
        HistoryGrows(s, run, id, k, StateAt(s, run, k - 1).daemons[id], StateAt(s, run, k).daemons[id]);
      } else {
        HistoryStarts(s, run, id, k);
      }
    }
  }

  lemma FieldsStep(s: System, run: seq<Action>, id: nat, k: nat)
    requires Inv(s) && Legal(s, run) && 0 < k <= |run| && id in StateAt(s, run, k).daemons
    ensures var here, after := StateAt(s, run, k - 1), StateAt(s, run, k).daemons[id];
            if id in here.daemons then ChangedBy(here.daemons[id], after, ChangeBy(here, run[k - 1], id))
            else after == Daemon(Created, 0, None, None, [])
  {
    StateStep(s, run, k - 1);
    FieldsAfter(StateAt(s, run, k - 1), run[k - 1], id);
  }

  lemma HistoryStarts(s: System, run: seq<Action>, id: nat, k: nat)
    requires Legal(s, run) && 0 < k <= |run| && id !in StateAt(s, run, k - 1).daemons
    ensures HoldsHistory(Daemon(Created, 0, None, None, []), s, run, id, k)
  {}

  lemma HistoryGrows(s: System, run: seq<Action>, id: nat, k: nat, before: Daemon, after: Daemon)
    requires Legal(s, run) && 0 < k <= |run| && id in StateAt(s, run, k - 1).daemons
    requires ChangedBy(before, after, ChangeBy(StateAt(s, run, k - 1), run[k - 1], id))
    requires HoldsHistory(before, s, run, id, k - 1)
    ensures HoldsHistory(after, s, run, id, k)
  {
    CountsOn(RestartsCounted(s, run, id, k - 1));
  }

  lemma CountsOn(n: nat)
    ensures (n % 0x1_0000_0000 + 1) % 0x1_0000_0000 == (n + 1) % 0x1_0000_0000
  {}

  // ----- when a final status stays final

  /** From the moment a daemon has stopped or failed, its status is the same for as long as it
      stays registered. */
  ghost predicate FinalStays(s: System, run: seq<Action>)
    requires Legal(s, run)
  {
    forall id: nat, i: nat, j: nat | i <= j <= |run| && StaysRegistered(s, run, id, i, j)
      && Final(StatusAt(s, run, id, i)) ::
      StatusAt(s, run, id, j) == StatusAt(s, run, id, i)
  }

  /** No update takes effect on a final status, unless it repeats it. */
  ghost predicate NoRevival(s: System, run: seq<Action>)
    requires Legal(s, run)
  {
    forall id: nat, k: nat, to | k < |run| && Sets(StateAt(s, run, k), run[k], id, to)
      && id in StateAt(s, run, k).daemons ::
      Final(StatusAt(s, run, id, k)) ==> to == StatusAt(s, run, id, k)
  }

  lemma {:induction false} NoRevivalKeeps(s: System, run: seq<Action>, id: nat, i: nat, j: nat)
    requires Inv(s) && Legal(s, run) && NoRevival(s, run) && i <= j <= |run|
    requires StaysRegistered(s, run, id, i, j) && Final(StatusAt(s, run, id, i))
    ensures StatusAt(s, run, id, j) == StatusAt(s, run, id, i)
    decreases j - i
  {
    if i == j {
    } else {
      NoRevivalKeeps(s, run, id, i, j - 1);
      StatusStep(s, run, id, j - 1);
      assert StaysRegistered(s, run, id, j - 1, j);
    }
  }

  /** In every run, final statuses stay final exactly if no update takes effect on one. */
  lemma FinalStaysIff(s: System, run: seq<Action>)
    requires Inv(s) && Legal(s, run)
    ensures FinalStays(s, run) <==> NoRevival(s, run)
  {
    if NoRevival(s, run) {
      forall id: nat, i: nat, j: nat | i <= j <= |run| && StaysRegistered(s, run, id, i, j)
        && Final(StatusAt(s, run, id, i))
        ensures StatusAt(s, run, id, j) == StatusAt(s, run, id, i)
      {
        NoRevivalKeeps(s, run, id, i, j);
      }
    }
    if FinalStays(s, run) {
      forall id: nat, k: nat, to | k < |run| && Sets(StateAt(s, run, k), run[k], id, to)
        && id in StateAt(s, run, k).daemons
        ensures Final(StatusAt(s, run, id, k)) ==> to == StatusAt(s, run, id, k)
      {
        StatusStep(s, run, id, k);
      }
    }
  }

  // ----- looking before updating

  /** For each task, the daemon whose status it saw last, if that was not final. */
  type Seen = map<nat, nat>

  predicate SetsStatus(op: Op) {
    op.Update? && op.change.SetStatus?
  }

  /** A query notes what it sees in its critical section, and an update uses that up in its own. */
  ghost function SeenAfter(s: System, a: Action, seen: Seen): Seen {
    if a.Step? && a.task < |s.tasks| && s.tasks[a.task].pc.HoldMutex? then
      var op := s.tasks[a.task].pc.op;
      if op.Query? && op.id in s.daemons && !Final(s.daemons[op.id].status) then seen[a.task := op.id]
      else if op.Query? || SetsStatus(op) then seen - {a.task}
      else seen
    else seen
  }

  /** Only `updaters` update statuses, and only of a daemon they have just seen not final. */
  predicate LooksFirst(a: Action, updaters: set<nat>, seen: Seen) {
    a.Call? && SetsStatus(a.op) ==> a.task in updaters && a.task in seen && seen[a.task] == a.op.id
  }

  ghost predicate Careful(s: System, seen: Seen, run: seq<Action>, updaters: set<nat>, s': System, seen': Seen)
    decreases |run|
  {
    if run == [] then s' == s && seen' == seen
    else
      && CanAct(s, run[0]) && LooksFirst(run[0], updaters, seen)
      && Careful(Act(s, run[0]), SeenAfter(s, run[0], seen), run[1..], updaters, s', seen')
  }

  /** What the only updater knows. */
  ghost predicate UpdaterInv(s: System, t: nat, seen: Seen) {
    && (forall u, k | 0 <= u < |s.tasks| && 0 <= k < |s.tasks[u].todo| :: !SetsStatus(s.tasks[u].todo[k]))
    && (forall u | 0 <= u < |s.tasks| && InUpdate(s.tasks[u].pc) :: u == t)
    && (t < |s.tasks| && InUpdate(s.tasks[t].pc) && BeforeUpdate(s.tasks[t].pc) ==>
          t in seen && seen[t] == s.tasks[t].pc.op.id)
    && (t in seen && seen[t] in s.daemons ==> !Final(s.daemons[seen[t]].status))
  }

  predicate InUpdate(pc: Pc) {
    !pc.Idle? && SetsStatus(pc.op)
  }

  predicate BeforeUpdate(pc: Pc) {
    pc.WaitMap? || pc.HoldMap? || pc.WaitMutex? || pc.HoldMutex?
  }

  /** How a step moves its task. */
  lemma NextPc(s: System, t: nat, order: seq<nat>)
    requires Enabled(s, t) && WellPlaced(s, s.tasks[t].pc)
    ensures var task, task' := s.tasks[t], Next(s, t, order).tasks[t];
            && OnlyTask(s, Next(s, t, order), t)
            && (|| task'.todo == task.todo || task'.todo == SignalAll(order)
                || (task.todo != [] && task'.todo == task.todo[1..]))
            && (InUpdate(task'.pc) ==>
                  || (task.todo != [] && task'.pc.op == task.todo[0])
                  || (InUpdate(task.pc) && task'.pc.op == task.pc.op
                      && (BeforeUpdate(task'.pc) ==> BeforeUpdate(task.pc) && !task.pc.HoldMutex?)))
  {
    match s.tasks[t].pc
    case HoldMap(_) =>
    case HoldMutex(_) =>
    case ReleaseMap(_) =>
    case _ =>
  }

  lemma UpdaterPcs(s: System, a: Action, t: nat, seen: Seen)
    requires Inv(s) && CanAct(s, a) && LooksFirst(a, {t}, seen) && UpdaterInv(s, t, seen)
    ensures var s', seen' := Act(s, a), SeenAfter(s, a, seen);
            && (forall u, k | 0 <= u < |s'.tasks| && 0 <= k < |s'.tasks[u].todo| :: !SetsStatus(s'.tasks[u].todo[k]))
            && (forall u | 0 <= u < |s'.tasks| && InUpdate(s'.tasks[u].pc) :: u == t)
            && (t < |s'.tasks| && InUpdate(s'.tasks[t].pc) && BeforeUpdate(s'.tasks[t].pc) ==>
                  t in seen' && seen'[t] == s'.tasks[t].pc.op.id)
  {
    if a.Step? {
      NextPc(s, a.task, a.order);
    }
  }

  lemma UpdaterKnows(s: System, a: Action, t: nat, seen: Seen)
    requires Inv(s) && CanAct(s, a) && UpdaterInv(s, t, seen)
    ensures var s', seen' := Act(s, a), SeenAfter(s, a, seen);
            t in seen' && seen'[t] in s'.daemons ==> !Final(s'.daemons[seen'[t]].status)
    ensures forall id, to :: Sets(s, a, id, to) ==> id in s.daemons && !Final(s.daemons[id].status)
  {
    var seen' := SeenAfter(s, a, seen);
    if a.Step? {
      assert WellPlaced(s, s.tasks[a.task].pc);
    }
    if t in seen' {
      StatusAfter(s, a, seen'[t]);
    }
  }

  /** One task that looks before each update revives nothing, whatever the others do. */
  lemma {:induction false} OneUpdaterRevivesNothing(
    s: System, seen: Seen, run: seq<Action>, t: nat, s': System, seen': Seen)
    requires Inv(s) && UpdaterInv(s, t, seen) && Careful(s, seen, run, {t}, s', seen')
    ensures Legal(s, run) && NoRevival(s, run)
    decreases |run|
  {
    if run == [] {
    } else {
      var a, next := run[0], Act(s, run[0]);
      UpdaterPcs(s, a, t, seen);
      UpdaterKnows(s, a, t, seen);
      ActKeepsInv(s, a);
      OneUpdaterRevivesNothing(next, SeenAfter(s, a, seen), run[1..], t, s', seen');
      RevivalLater(s, run);
    }
  }

  lemma StatesLater(s: System, run: seq<Action>, k: nat)
    requires run != [] && Legal(s, run) && 0 < k <= |run|
    ensures StateAt(s, run, k) == StateAt(Act(s, run[0]), run[1..], k - 1)
  {}

  lemma RevivalLater(s: System, run: seq<Action>)
    requires run != [] && Legal(s, run) && NoRevival(Act(s, run[0]), run[1..])
    requires forall id, to :: Sets(s, run[0], id, to) ==> id in s.daemons && !Final(s.daemons[id].status)
    ensures NoRevival(s, run)
  {
    var next := Act(s, run[0]);
    forall id: nat, k: nat, to | k < |run| && Sets(StateAt(s, run, k), run[k], id, to)
      && id in StateAt(s, run, k).daemons
      ensures Final(StatusAt(s, run, id, k)) ==> to == StatusAt(s, run, id, k)
    {
      if k == 0 {
        assert Sets(s, run[0], id, to);
      } else {
        StatesLater(s, run, k);
        assert Sets(StateAt(next, run[1..], k - 1), run[1..][k - 1], id, to);
      }
    }
  }

  /** So under such a caller final statuses stay final, from every state at rest on. */
  lemma OneCarefulUpdater(s: System, run: seq<Action>, t: nat, s': System, seen': Seen)
    requires Inv(s) && Resting(s) && Careful(s, map[], run, {t}, s', seen')
    ensures Legal(s, run) && FinalStays(s, run)
  {
    OneUpdaterRevivesNothing(s, map[], run, t, s', seen');
    FinalStaysIff(s, run);
  }

  // ----- two tasks that look first

  lemma {:induction false} CarefulSnoc(
    s0: System, seen0: Seen, run: seq<Action>, updaters: set<nat>, s: System, seen: Seen, a: Action)
    requires Careful(s0, seen0, run, updaters, s, seen) && CanAct(s, a) && LooksFirst(a, updaters, seen)
    ensures Careful(s0, seen0, run + [a], updaters, Act(s, a), SeenAfter(s, a, seen))
    decreases |run|
  {
    if run == [] {
      assert run + [a] == [a] && [a][1..] == [];
      assert Careful(Act(s, a), SeenAfter(s, a, seen), [], updaters, Act(s, a), SeenAfter(s, a, seen));
    } else {
      CarefulSnoc(Act(s0, run[0]), SeenAfter(s0, run[0], seen0), run[1..], updaters, s, seen, a);
      assert (run + [a])[1..] == run[1..] + [a];
    }
  }

  /** Some careful run of the updaters leads there, and has seen this. */
  ghost predicate Reached(s0: System, updaters: set<nat>, s: System, seen: Seen) {
    exists run :: Careful(s0, map[], run, updaters, s, seen)
  }

  lemma OneMoreAction(s0: System, updaters: set<nat>, s: System, seen: Seen, a: Action)
    requires Reached(s0, updaters, s, seen) && CanAct(s, a) && LooksFirst(a, updaters, seen)
    ensures Reached(s0, updaters, Act(s, a), SeenAfter(s, a, seen))
  {
    var run :| Careful(s0, map[], run, updaters, s, seen);
    CarefulSnoc(s0, map[], run, updaters, s, seen, a);
  }

  /** One step of a task that is the only one in an operation. */
  lemma CarefulStep(s0: System, updaters: set<nat>, v: Solo, pc: Pc, lock: MapLock, seen: Seen)
    requires v.t < |v.tasks| && Reached(s0, updaters, v.At(pc, lock), seen)
    requires Enabled(v.At(pc, lock), v.t) && WellPlaced(v.At(pc, lock), pc)
    requires !(pc.HoldMap? && pc.op.ListForShutdown?)
    ensures Reached(s0, updaters, Next(v.At(pc, lock), v.t, []), SeenAfter(v.At(pc, lock), Step(v.t, []), seen))
  {
    var s := v.At(pc, lock);
    var order := ListingOf(s.daemons.Keys);
    assert Next(s, v.t, order) == Next(s, v.t, []);
    OneMoreAction(s0, updaters, s, seen, Step(v.t, order));
  }

  lemma CarefulSection(s0: System, updaters: set<nat>, v: Solo, pc: Pc, v': Solo, pc': Pc, seen: Seen)
    requires v.t < |v.tasks| && pc.HoldsMap() && Reached(s0, updaters, v.At(pc, HeldBy(v.t, pc.op)), seen)
    requires !(pc.HoldMap? && pc.op.ListForShutdown?)
    requires var s := v.At(pc, HeldBy(v.t, pc.op));
             && Enabled(s, v.t) && WellPlaced(s, pc)
             && Next(s, v.t, []) == ManagerLocks.At(s, v.t, pc').(daemons := v'.daemons, channels := v'.channels)
    requires v' == v.(daemons := v'.daemons, channels := v'.channels)
    ensures var seen' := SeenAfter(v.At(pc, HeldBy(v.t, pc.op)), Step(v.t, []), seen);
            Reached(s0, updaters, v'.At(pc', HeldBy(v.t, pc.op)), seen')
  {
    Moved(v, pc, HeldBy(v.t, pc.op), pc');
    CarefulStep(s0, updaters, v, pc, HeldBy(v.t, pc.op), seen);
  }

  lemma CarefulToMap(s0: System, updaters: set<nat>, v: Solo, op: Op, seen: Seen)
    requires v.t < |v.tasks| && v.todo == []
    requires Reached(s0, updaters, v.At(Idle, NO_LOCK), seen) && LooksFirst(Call(v.t, op), updaters, seen)
    ensures Reached(s0, updaters, v.At(HoldMap(op), HeldBy(v.t, op)), seen)
  {
    var waiting := MapLock({}, None, [v.t]);
    OneMoreAction(s0, updaters, v.At(Idle, NO_LOCK), seen, Call(v.t, op));
    assert Act(v.At(Idle, NO_LOCK), Call(v.t, op)) == v.At(WaitMap(op), waiting);
    TakesMap(v, op);
    CarefulStep(s0, updaters, v, WaitMap(op), waiting, seen);
  }

  /** From the call to the mutex. */
  lemma CarefulToMutex(s0: System, updaters: set<nat>, v: Solo, op: Op, seen: Seen)
    requires v.t < |v.tasks| && v.todo == [] && v.Free() && op.LocksDaemon() && op.id in v.daemons
    requires Reached(s0, updaters, v.At(Idle, NO_LOCK), seen) && LooksFirst(Call(v.t, op), updaters, seen)
    ensures Reached(s0, updaters, Held(v, op.id).At(HoldMutex(op), HeldBy(v.t, op)), seen)
  {
    CarefulToMap(s0, updaters, v, op, seen);
    TakesMutex(v, op);
    CarefulSection(s0, updaters, v, HoldMap(op), QueuedAt(v, op.id), WaitMutex(op), seen);
    CarefulSection(s0, updaters, QueuedAt(v, op.id), WaitMutex(op), Held(v, op.id), HoldMutex(op), seen);
  }

  /** And from there to the end. */
  lemma CarefulFromMutex(s0: System, updaters: set<nat>, v: Solo, op: Op, seen: Seen)
    requires v.t < |v.tasks| && v.todo == [] && v.Free() && op.LocksDaemon() && op.id in v.daemons
    requires Reached(s0, updaters, Held(v, op.id).At(ReleaseMutex(op, false), HeldBy(v.t, op)), seen)
    ensures Reached(s0, updaters, v.At(Idle, NO_LOCK), seen)
  {
    var held := Held(v, op.id);
    assert held.daemons[op.id := held.daemons[op.id].(holder := None)] == v.daemons;
    CarefulSection(s0, updaters, held, ReleaseMutex(op, false), v, ReleaseMap(op), seen);
    GivesMap(v, op);
    CarefulStep(s0, updaters, v, ReleaseMap(op), HeldBy(v.t, op), seen);
  }

  function Two(t: nat, status: Status): Solo {
    Solo([Task(Idle, []), Task(Idle, [])], t, [], One(status, None), map[])
  }

  lemma LooksAt(s0: System, updaters: set<nat>, t: nat, status: Status, seen: Seen)
    requires t < 2 && !Final(status) && Reached(s0, updaters, Rest(One(status, None), map[]), seen)
    ensures Reached(s0, updaters, Rest(One(status, None), map[]), seen[t := 0])
  {
    var v, op := Two(t, status), Query(0);
    assert v.At(Idle, NO_LOCK) == Rest(One(status, None), map[]);
    CarefulToMutex(s0, updaters, v, op, seen);
    CarefulSection(s0, updaters, Held(v, 0), HoldMutex(op), Held(v, 0), ReleaseMutex(op, false), seen);
    CarefulFromMutex(s0, updaters, v, op, seen[t := 0]);
  }

  /** Holding the mutex, about to set the status. */
  function AboutToSet(t: nat, status: Status, to: Status): System
    requires t < 2
  {
    Held(Two(t, status), 0).At(HoldMutex(Update(0, SetStatus(to))), HeldBy(t, Update(0, SetStatus(to))))
  }

  lemma UpdateBegins(s0: System, updaters: set<nat>, t: nat, status: Status, to: Status, seen: Seen)
    requires t < 2 && t in updaters && t in seen && seen[t] == 0
    requires Reached(s0, updaters, Rest(One(status, None), map[]), seen)
    ensures Reached(s0, updaters, AboutToSet(t, status, to), seen)
  {
    var v := Two(t, status);
    assert v.At(Idle, NO_LOCK) == Rest(One(status, None), map[]);
    CarefulToMutex(s0, updaters, v, Update(0, SetStatus(to)), seen);
  }

  lemma UpdateEnds(s0: System, updaters: set<nat>, t: nat, status: Status, to: Status, seen: Seen)
    requires t < 2 && Reached(s0, updaters, AboutToSet(t, status, to), seen)
    ensures Reached(s0, updaters, Rest(One(to, None), map[]), seen - {t})
  {
    var v, v', op := Two(t, status), Two(t, to), Update(0, SetStatus(to));
    assert v'.At(Idle, NO_LOCK) == Rest(One(to, None), map[]);
    SetsTo(t, status, to);
    CarefulSection(s0, updaters, Held(v, 0), HoldMutex(op), Held(v', 0), ReleaseMutex(op, false), seen);
    CarefulFromMutex(s0, updaters, v', op, seen - {t});
  }

  lemma SetsTo(t: nat, status: Status, to: Status)
    requires t < 2
    ensures var op, v, v' := Update(0, SetStatus(to)), Held(Two(t, status), 0), Held(Two(t, to), 0);
            var s := v.At(HoldMutex(op), HeldBy(t, op));
            Next(s, t, []) == ManagerLocks.At(s, t, ReleaseMutex(op, false)).(daemons := v'.daemons)
  {
    var v, v' := Held(Two(t, status), 0), Held(Two(t, to), 0);
    assert v.daemons[0 := Changed(v.daemons[0], SetStatus(to))] == v'.daemons;
  }

  lemma {:induction false} CarefulIsLegal(
    s: System, seen: Seen, run: seq<Action>, updaters: set<nat>, s': System, seen': Seen)
    requires Careful(s, seen, run, updaters, s', seen')
    ensures Legal(s, run) && StateAt(s, run, |run|) == s'
    decreases |run|
  {
    if run == [] {
    } else {
      CarefulIsLegal(Act(s, run[0]), SeenAfter(s, run[0], seen), run[1..], updaters, s', seen');
    }
  }

  lemma {:induction false} StateAtPrefix(s: System, before: seq<Action>, run: seq<Action>)
    requires Legal(s, before) && Legal(s, run) && before <= run
    ensures StateAt(s, run, |before|) == StateAt(s, before, |before|)
    decreases |before|
  {
    if before == [] {
    } else {
      StateAtPrefix(Act(s, run[0]), before[1..], run[1..]);
    }
  }

  /** Both tasks look at a new daemon, and the first one sets it to a final status. */
  lemma BothLook(s: System, final: Status)
    requires s == Rest(One(Created, None), map[])
    ensures Reached(s, {0, 1}, Rest(One(final, None), map[]), map[1 := 0])
  {
    assert Careful(s, map[], [], {0, 1}, s, map[]);
    LooksAt(s, {0, 1}, 0, Created, map[]);
    LooksAt(s, {0, 1}, 1, Created, map[0 := 0]);
    assert map[0 := 0][1 := 0] - {0} == map[1 := 0];
    UpdateBegins(s, {0, 1}, 0, Created, final, map[0 := 0][1 := 0]);
    UpdateEnds(s, {0, 1}, 0, Created, final, map[0 := 0][1 := 0]);
  }

  /** There is a careful run of these updaters in which a final status does not stay. */
  ghost predicate CanRevive(s: System, updaters: set<nat>) {
    exists run, s', seen' :: Careful(s, map[], run, updaters, s', seen') && Legal(s, run) && !FinalStays(s, run)
  }

  /** Two such tasks are not enough: both look at a new daemon, one sets it to a final status,
      and the other overwrites that. */
  lemma TwoCarefulUpdaters() returns (s: System)
    ensures Leads(Start(2, map[]), s) && Resting(s) && CanRevive(s, {0, 1})
  {
    s := CreatedAlone(map[]);
    BothLook(s, Stopped);
    UpdateBegins(s, {0, 1}, 1, Stopped, Running, map[1 := 0]);
    Revives(s, Stopped);
  }

  lemma Revives(s: System, final: Status)
    requires Inv(s) && Final(final) && Reached(s, {0, 1}, AboutToSet(1, final, Running), map[1 := 0])
    ensures CanRevive(s, {0, 1})
  {
    var here, order := AboutToSet(1, final, Running), [0];
    var before :| Careful(s, map[], before, {0, 1}, here, map[1 := 0]);
    var a := Step(1, order);
    CarefulSnoc(s, map[], before, {0, 1}, here, map[1 := 0], a);
    var run, after, seen := before + [a], Act(here, a), SeenAfter(here, a, map[1 := 0]);
    CarefulIsLegal(s, map[], before, {0, 1}, here, map[1 := 0]);
    CarefulIsLegal(s, map[], run, {0, 1}, after, seen);
    StateAtPrefix(s, before, run);
    assert Sets(here, run[|before|], 0, Running);
    FinalStaysIff(s, run);
  }
}
