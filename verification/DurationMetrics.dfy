/**
 The duration metrics that threads update without locks: a sum, a count, and a maximum
 that each recorder raises with a compare-exchange loop.
 */
module DurationMetrics {
  import opened Sums
  import opened Widths

  type Micros = n: nat | n < U64

  /** `duration.as_micros() as u64`. */
  function Truncated(micros: nat): Micros {
    micros % U64
  }

  datatype Cells = Cells(sum: Micros, count: Micros, max: Micros)

  const NEW_CELLS := Cells(0, 0, 0)

  /** `duration_avg` and `duration_max`, in microseconds. */
  function Average(c: Cells): nat {
    if c.count > 0 then c.sum / c.count else 0
  }

  // ----- any number of recorders

  /** Where one call of `record_duration` is; `Compare` carries `current_max`. */
  datatype Pc = AddSum | AddCount | LoadMax | Compare(current: Micros) | Done

  /** `us` is the duration the call records. */
  datatype Recorder = Recorder(us: Micros, pc: Pc)

  datatype System = System(cells: Cells, recorders: seq<Recorder>)

  /** One atomic operation of one recorder.  `spurious` makes a compare-exchange that could
      succeed fail. */
  datatype Step = Step(recorder: nat, spurious: bool)

  function Move(c: Cells, r: Recorder, spurious: bool): (Cells, Pc) {
    match r.pc
    case AddSum => (c.(sum := (c.sum + r.us) % U64), AddCount)
    case AddCount => (c.(count := (c.count + 1) % U64), LoadMax)
    case LoadMax => (c, Compare(c.max))
    case Compare(current) =>
      if r.us <= current then (c, Done)
      else if c.max == current && !spurious then (c.(max := r.us), Done)
      else (c, Compare(c.max))
    case Done => (c, Done)
  }

  predicate Enabled(s: System, st: Step) {
    st.recorder < |s.recorders| && s.recorders[st.recorder].pc != Done
  }

  function Next(s: System, st: Step): System
    requires Enabled(s, st)
  {
    var r := s.recorders[st.recorder];
    var (c, pc) := Move(s.cells, r, st.spurious);
    System(c, s.recorders[st.recorder := r.(pc := pc)])
  }

  /** A compare-exchange that was told to fail although the cell held the expected value. */
  predicate FailsSpuriously(s: System, st: Step)
    requires Enabled(s, st)
  {
    var r := s.recorders[st.recorder];
    r.pc.Compare? && r.us > r.pc.current && s.cells.max == r.pc.current && st.spurious
  }

  /** A compare-exchange that failed because another recorder had changed the cell. */
  predicate FailsGenuinely(s: System, st: Step)
    requires Enabled(s, st)
  {
    var r := s.recorders[st.recorder];
    r.pc.Compare? && r.us > r.pc.current && s.cells.max != r.pc.current
  }

  function Start(durations: seq<nat>): System {
    System(NEW_CELLS, seq(|durations|, i requires 0 <= i < |durations| => Recorder(Truncated(durations[i]), AddSum)))
  }

  /** `run` can be taken from `s` and leads to `s'`. */
  predicate Runs(s: System, run: seq<Step>, s': System)
    decreases |run|
  {
    if run == [] then s' == s else Enabled(s, run[0]) && Runs(Next(s, run[0]), run[1..], s')
  }

  ghost predicate Quiescent(s: System) {
    forall i | 0 <= i < |s.recorders| :: s.recorders[i].pc == Done
  }

  // ----- the invariant

  /** What a recorder has contributed to the sum and to the count. */
  function Added(r: Recorder): nat {
    if r.pc == AddSum then 0 else r.us
  }

  function Counted(r: Recorder): nat {
    if r.pc == AddSum || r.pc == AddCount then 0 else 1
  }

  /** The maximum is 0 or some recorder's own value; every finished recorder is covered by
      it, and every `current_max` in hand is a value the cell had before. */
  ghost predicate MaxInv(s: System) {
    && (s.cells.max == 0 ||
        exists i :: 0 <= i < |s.recorders| && s.recorders[i].pc == Done && s.recorders[i].us == s.cells.max)
    && (forall i | 0 <= i < |s.recorders| && s.recorders[i].pc == Done :: s.recorders[i].us <= s.cells.max)
    && (forall i | 0 <= i < |s.recorders| && s.recorders[i].pc.Compare? :: s.recorders[i].pc.current <= s.cells.max)
  }

  /** The sum and the count are those of the recorders past the respective step. */
  ghost predicate SumInv(s: System) {
    && s.cells.sum == SumOf(s.recorders, Added) % U64
    && s.cells.count == SumOf(s.recorders, Counted) % U64
  }

  ghost predicate Inv(s: System) {
    MaxInv(s) && SumInv(s)
  }

  lemma ModAdd(a: nat, b: nat)
    ensures (a % U64 + b) % U64 == (a + b) % U64
  {}

  /** What a step adds to the sum and to the count. */
  lemma NextAddsUp(s: System, st: Step)
    requires Enabled(s, st)
    ensures var r, s' := s.recorders[st.recorder], Next(s, st);
            && SumOf(s'.recorders, Added) == SumOf(s.recorders, Added) + (if r.pc.AddSum? then r.us else 0)
            && SumOf(s'.recorders, Counted) == SumOf(s.recorders, Counted) + (if r.pc.AddCount? then 1 else 0)
  {
    var r' := Next(s, st).recorders[st.recorder];
    SumUpdate(s.recorders, st.recorder, r', Added);
    SumUpdate(s.recorders, st.recorder, r', Counted);
  }

  lemma NextKeepsSums(s: System, st: Step)
    requires SumInv(s) && Enabled(s, st)
    ensures SumInv(Next(s, st))
  {
    NextAddsUp(s, st);
    ModAdd(SumOf(s.recorders, Added), s.recorders[st.recorder].us);
    ModAdd(SumOf(s.recorders, Counted), 1);
  }

  lemma NextKeepsMax(s: System, st: Step)
    requires MaxInv(s) && Enabled(s, st)
    ensures MaxInv(Next(s, st))
    ensures s.cells.max <= Next(s, st).cells.max
  {
    var i, s' := st.recorder, Next(s, st);
    assert forall j | 0 <= j < |s.recorders| && j != i :: s'.recorders[j] == s.recorders[j];
    if s'.cells.max == s.cells.max {
      if s.cells.max != 0 {
        var j :| 0 <= j < |s.recorders| && s.recorders[j].pc == Done && s.recorders[j].us == s.cells.max;
        assert s'.recorders[j] == s.recorders[j];
      }
    } else {
      assert s'.recorders[i].pc == Done && s'.recorders[i].us == s'.cells.max;
    }
  }

  lemma NextKeepsInv(s: System, st: Step)
    requires Inv(s) && Enabled(s, st)
    ensures Inv(Next(s, st))
    ensures s.cells.max <= Next(s, st).cells.max
  {
    NextKeepsSums(s, st);
    NextKeepsMax(s, st);
  }

  lemma {:induction false} RunKeepsInv(s: System, run: seq<Step>, s': System)
    requires Inv(s) && Runs(s, run, s')
    ensures Inv(s') && s.cells.max <= s'.cells.max
    ensures |s'.recorders| == |s.recorders|
    ensures forall i | 0 <= i < |s.recorders| :: s'.recorders[i].us == s.recorders[i].us
    decreases |run|
  {
    if run == [] {
    } else {
      NextKeepsInv(s, run[0]);
      RunKeepsInv(Next(s, run[0]), run[1..], s');
    }
  }

  lemma StartInv(durations: seq<nat>)
    ensures Inv(Start(durations))
  {
    SumBound(Start(durations).recorders, Added, 0);
    SumBound(Start(durations).recorders, Counted, 0);
  }

  // ----- what the maximum is worth

  /** At every moment of every run: the maximum never decreases from there on, is never
      more than the largest value being recorded, and covers every finished recorder. */
  lemma MaxIsSound(durations: seq<nat>, run: seq<Step>, s: System, more: seq<Step>, s': System)
    requires Runs(Start(durations), run, s) && Runs(s, more, s')
    ensures |s.recorders| == |durations| && s.cells.max <= s'.cells.max
    ensures s.cells.max == 0 || exists i :: 0 <= i < |durations| && s.cells.max == Truncated(durations[i])
    ensures forall i | 0 <= i < |durations| && s.recorders[i].pc == Done :: Truncated(durations[i]) <= s.cells.max
  {
    StartInv(durations);
    RunKeepsInv(Start(durations), run, s);
    RunKeepsInv(s, more, s');
    if s.cells.max != 0 {
      var i :| 0 <= i < |s.recorders| && s.recorders[i].pc == Done && s.recorders[i].us == s.cells.max;
      assert s.cells.max == Truncated(durations[i]);
    }
  }

  /** The largest value recorded, or 0. */
  function Largest(durations: seq<nat>): Micros {
    if durations == [] then 0
    else
      var rest, last := Largest(durations[..|durations| - 1]), Truncated(durations[|durations| - 1]);
      if last > rest then last else rest
  }

  lemma {:induction false} LargestIsLargest(durations: seq<nat>)
    ensures forall i | 0 <= i < |durations| :: Truncated(durations[i]) <= Largest(durations)
    ensures Largest(durations) == 0 || exists i :: 0 <= i < |durations| && Largest(durations) == Truncated(durations[i])
  {
    if durations == [] {
    } else {
      var n := |durations| - 1;
      LargestIsLargest(durations[..n]);
      assert forall i | 0 <= i < n :: durations[..n][i] == durations[i];
      if Largest(durations) != Truncated(durations[n]) && Largest(durations) != 0 {
        var i :| 0 <= i < n && Largest(durations[..n]) == Truncated(durations[..n][i]);
        assert Largest(durations) == Truncated(durations[i]);
      }
    }
  }

  function TotalOf(durations: seq<nat>): nat {
    SumOf(durations, d => Truncated(d))
  }

  lemma {:induction false} SumOfOnes<T>(xs: seq<T>)
    ensures SumOf(xs, _ => 1) == |xs|
  {
    if xs == [] {
    } else {
      SumOfOnes(xs[..|xs| - 1]);
    }
  }

  /** Once all recorders have finished, in whatever interleaving and with whatever spurious
      failures, the maximum is the largest value recorded. */
  lemma FinalMaximum(durations: seq<nat>, run: seq<Step>, s: System)
    requires Runs(Start(durations), run, s) && Quiescent(s)
    ensures s.cells.max == Largest(durations)
  {
    StartInv(durations);
    RunKeepsInv(Start(durations), run, s);
    LargestIsLargest(durations);
    if Largest(durations) != 0 {
      var i :| 0 <= i < |durations| && Largest(durations) == Truncated(durations[i]);
      assert s.recorders[i].us <= s.cells.max;
    }
    if s.cells.max != 0 {
      var i :| 0 <= i < |s.recorders| && s.recorders[i].pc == Done && s.recorders[i].us == s.cells.max;
      assert Truncated(durations[i]) <= Largest(durations);
    }
  }

  /** And then, unless the count has overflowed, the average is at most the maximum, and it is
      exact unless the sum has. */
  lemma FinalAverage(durations: seq<nat>, run: seq<Step>, s: System)
    requires Runs(Start(durations), run, s) && Quiescent(s)
    ensures s.cells.sum == TotalOf(durations) % U64 && s.cells.count == |durations| % U64
    ensures |durations| < U64 ==> Average(s.cells) <= s.cells.max
    ensures TotalOf(durations) < U64 && 0 < |durations| < U64 ==> Average(s.cells) == TotalOf(durations) / |durations|
  {
    FinalMaximum(durations, run, s);
    StartInv(durations);
    RunKeepsInv(Start(durations), run, s);
    var truncated := d => Truncated(d);
    SumCongruence(s.recorders, Added, durations, truncated);
    SumCongruence(s.recorders, Counted, durations, _ => 1);
    SumOfOnes(durations);
    LargestIsLargest(durations);
    SumBound(durations, truncated, Largest(durations));
    AverageIsBounded(s.cells, TotalOf(durations), |durations|, Largest(durations));
  }

  lemma AverageIsBounded(c: Cells, total: nat, n: nat, largest: nat)
    requires c.sum == total % U64 && c.count == n % U64 && total <= n * largest
    ensures n < U64 ==> Average(c) <= largest
    ensures total < U64 && 0 < n < U64 ==> Average(c) == total / n
  {
    if 0 < n < U64 {
      QuotientBound(total % U64, n, largest);
    }
  }

  lemma QuotientBound(total: nat, n: nat, largest: nat)
    requires n > 0 && total <= n * largest
    ensures total / n <= largest
  {
    assert n * (total / n) <= total;
    Cancel(n, total / n, largest);
  }

  lemma Cancel(n: nat, a: nat, b: nat)
    requires n > 0 && n * a <= n * b
    ensures a <= b
  {}

  // ----- progress

  /** Bounds the steps a recorder still takes, spurious failures aside. */
  function Rank(r: Recorder): nat {
    match r.pc
    case AddSum => r.us + 4
    case AddCount => r.us + 3
    case LoadMax => r.us + 2
    case Compare(current) => (if r.us > current then r.us - current else 0) + 1
    case Done => 0
  }

  /** A genuine failure brings `current_max` strictly closer to the recorder's value. */
  lemma GenuineFailureProgresses(s: System, st: Step)
    requires Inv(s) && Enabled(s, st) && FailsGenuinely(s, st)
    ensures var r, r' := s.recorders[st.recorder], Next(s, st).recorders[st.recorder];
            r'.pc.Compare? && r.us - r'.pc.current < r.us - r.pc.current
  {}

  function SpuriousFailures(s: System, run: seq<Step>, s': System): nat
    requires Runs(s, run, s')
    decreases |run|
  {
    if run == [] then 0
    else (if FailsSpuriously(s, run[0]) then 1 else 0) + SpuriousFailures(Next(s, run[0]), run[1..], s')
  }

  /** Every run is finite: apart from its spurious failures, its length is bounded by the
      durations alone. */
  lemma {:induction false} RunsAreBounded(s: System, run: seq<Step>, s': System)
    requires Inv(s) && Runs(s, run, s')
    ensures |run| + SumOf(s'.recorders, Rank) <= SumOf(s.recorders, Rank) + SpuriousFailures(s, run, s')
    decreases |run|
  {
    if run == [] {
    } else {
      var st := run[0];
      NextKeepsInv(s, st);
      SumUpdate(s.recorders, st.recorder, Next(s, st).recorders[st.recorder], Rank);
      RunsAreBounded(Next(s, st), run[1..], s');
    }
  }

  // ----- a snapshot, field by field

  /** Where a snapshot is: `duration_avg` loads the count and then, unless it is 0, the sum;
      `duration_max` loads the maximum. */
  datatype Reader = ReadCount | ReadSum(count: Micros) | ReadMax(avg: nat) | Finished(avg: nat, max: Micros)

  datatype Watched = Watched(metrics: System, reader: Reader)

  /** One atomic operation of a recorder, or the snapshot's next load. */
  datatype Event = Record(step: Step) | Load

  function Loaded(c: Cells, reader: Reader): Reader {
    match reader
    case ReadCount => if c.count > 0 then ReadSum(c.count) else ReadMax(0)
    case ReadSum(count) => ReadMax(if count > 0 then c.sum / count else 0)
    case ReadMax(avg) => Finished(avg, c.max)
    case Finished(_, _) => reader
  }

  predicate Happens(w: Watched, events: seq<Event>, w': Watched)
    decreases |events|
  {
    if events == [] then w' == w
    else
      match events[0]
      case Load => Happens(w.(reader := Loaded(w.metrics.cells, w.reader)), events[1..], w')
      case Record(st) => Enabled(w.metrics, st) && Happens(w.(metrics := Next(w.metrics, st)), events[1..], w')
  }

  /** No recorder is between its first and its last step. */
  ghost predicate NobodyHalfway(s: System) {
    forall i | 0 <= i < |s.recorders| :: s.recorders[i].pc in {AddSum, Done}
  }

  predicate OnlyLoads(events: seq<Event>) {
    forall e | e in events :: e.Load?
  }

  /** Without steps of recorders, a snapshot sees the cells of one moment. */
  lemma {:induction false} LoadsOfOneMoment(w: Watched, events: seq<Event>, w': Watched)
    requires Happens(w, events, w') && OnlyLoads(events)
    requires w.reader.ReadSum? ==> w.reader.count == w.metrics.cells.count > 0
    requires w.reader.ReadMax? ==> w.reader.avg == Average(w.metrics.cells)
    requires !w.reader.Finished? && w'.reader.Finished?
    ensures w' == Watched(w.metrics, Finished(Average(w.metrics.cells), w.metrics.cells.max))
    decreases |events|
  {
    if events == [] {
    } else {
      assert events[0] in events;
      assert forall e | e in events[1..] :: e in events;
      var next := w.(reader := Loaded(w.metrics.cells, w.reader));
      if next.reader.Finished? {
        FinishedStays(next, events[1..], w');
      } else {
        LoadsOfOneMoment(next, events[1..], w');
      }
    }
  }

  lemma {:induction false} FinishedStays(w: Watched, events: seq<Event>, w': Watched)
    requires Happens(w, events, w') && OnlyLoads(events) && w.reader.Finished?
    ensures w' == w
    decreases |events|
  {
    if events == [] {
    } else {
      assert events[0] in events;
      assert forall e | e in events[1..] :: e in events;
      FinishedStays(w, events[1..], w');
    }
  }

  /** With nobody halfway, the recorders that added to the sum are those that were counted. */
  lemma {:induction false} AddedBound(rs: seq<Recorder>, max: nat)
    requires forall i | 0 <= i < |rs| :: rs[i].pc in {AddSum, Done} && (rs[i].pc.Done? ==> rs[i].us <= max)
    ensures SumOf(rs, Added) <= SumOf(rs, Counted) * max
  {
    if rs == [] {
    } else {
      var n := |rs| - 1;
      AddedBound(rs[..n], max);
      OneMoreTimes(SumOf(rs[..n], Counted), max);
    }
  }

  lemma OneMoreTimes(n: nat, max: nat)
    ensures (n + 1) * max == n * max + max
  {}

  /** In every run of any number of recorders, a snapshot that starts with nobody halfway and
      during which nobody steps is consistent: the average of the finished recordings is at
      most their maximum as long as the count has not overflowed, and exact as long as the
      sum has not either. */
  lemma QuietSnapshot(durations: seq<nat>, run: seq<Step>, s: System, events: seq<Event>, w: Watched)
    requires Runs(Start(durations), run, s) && NobodyHalfway(s)
    requires Happens(Watched(s, ReadCount), events, w) && OnlyLoads(events) && w.reader.Finished?
    ensures var total, n := SumOf(s.recorders, Added), SumOf(s.recorders, Counted);
            && (n < U64 ==> w.reader.avg <= w.reader.max)
            && (total < U64 && 0 < n < U64 ==> w.reader.avg == total / n)
    ensures forall i | 0 <= i < |s.recorders| && s.recorders[i].pc.Done? :: s.recorders[i].us <= w.reader.max
    ensures w.reader.max == 0 ||
            exists i :: 0 <= i < |s.recorders| && s.recorders[i].pc.Done? && s.recorders[i].us == w.reader.max
  {
    StartInv(durations);
    RunKeepsInv(Start(durations), run, s);
    LoadsOfOneMoment(Watched(s, ReadCount), events, w);
    AddedBound(s.recorders, s.cells.max);
    AverageIsBounded(s.cells, SumOf(s.recorders, Added), SumOf(s.recorders, Counted), s.cells.max);
  }

  // ----- exactly when a snapshot is consistent

  /** What recorders that have not added to the sum can still add to it before it is loaded:
      one total for each choice among them. */
  function Additions(rs: seq<Recorder>): set<nat> {
    if rs == [] then {0}
    else
      var rest, last := Additions(rs[..|rs| - 1]), rs[|rs| - 1];
      rest + if last.pc.AddSum? then set x | x in rest :: x + last.us else {}
  }

  lemma {:induction false} NobodyMayAdd(rs: seq<Recorder>)
    ensures 0 in Additions(rs)
  {
    if rs == [] {
    } else {
      NobodyMayAdd(rs[..|rs| - 1]);
    }
  }

  /** A step leaves fewer choices, and a recorder's own addition completes them. */
  lemma {:induction false} AdditionsAfter(rs: seq<Recorder>, i: nat, r: Recorder, x: nat)
    requires i < |rs| && !r.pc.AddSum? && x in Additions(rs[i := r])
    ensures x in Additions(rs)
    ensures rs[i].pc.AddSum? ==> x + rs[i].us in Additions(rs)
  {
    var n, rs' := |rs| - 1, rs[i := r];
    if i == n {
      assert rs'[..n] == rs[..n];
    } else {
      assert rs'[..n] == rs[..n][i := r] && rs'[n] == rs[n];
      if x in Additions(rs'[..n]) {
        AdditionsAfter(rs[..n], i, r, x);
      } else {
        var y :| y in Additions(rs'[..n]) && x == y + rs[n].us;
        AdditionsAfter(rs[..n], i, r, y);
        assert rs[i].pc.AddSum? ==> x + rs[i].us == (y + rs[i].us) + rs[n].us;
      }
    }
  }

  predicate Within(total: nat, count: nat, max: nat)
    requires count > 0
  {
    total % U64 / count <= max
  }

  /** Whatever is added before the sum is loaded, the quotient stays within the maximum. */
  ghost predicate StaysWithin(s: System, count: nat, max: nat)
    requires count > 0
  {
    forall x | x in Additions(s.recorders) :: Within(s.cells.sum + x, count, max)
  }

  lemma WithinModulo(a: nat, x: nat, count: nat, max: nat)
    requires count > 0
    ensures Within(a % U64 + x, count, max) <==> Within(a + x, count, max)
  {
    ModAdd(a, x);
  }

  lemma StepStaysWithin(s: System, st: Step, count: nat, max: nat)
    requires Enabled(s, st) && count > 0 && StaysWithin(s, count, max)
    ensures StaysWithin(Next(s, st), count, max)
  {
    var r, s' := s.recorders[st.recorder], Next(s, st);
    forall x | x in Additions(s'.recorders) ensures Within(s'.cells.sum + x, count, max) {
      AdditionsAfter(s.recorders, st.recorder, s'.recorders[st.recorder], x);
      if r.pc.AddSum? {
        WithinModulo(s.cells.sum + r.us, x, count, max);
        assert s.cells.sum + (x + r.us) == s.cells.sum + r.us + x;
      }
    }
  }

  /** The values in the hands of a snapshot that goes on to be consistent. */
  ghost predicate OnCourse(w: Watched, max: nat) {
    match w.reader
    case ReadCount => false
    case ReadSum(count) => count > 0 && StaysWithin(w.metrics, count, max)
    case ReadMax(avg) => avg <= max
    case Finished(avg, m) => avg <= m
  }

  lemma {:induction false} StaysOnCourse(w: Watched, events: seq<Event>, w': Watched, max: nat)
    requires MaxInv(w.metrics) && max <= w.metrics.cells.max && OnCourse(w, max)
    requires Happens(w, events, w') && w'.reader.Finished?
    ensures w'.reader.avg <= w'.reader.max
    decreases |events|
  {
    if events == [] {
    } else {
      match events[0]
      case Load =>
        NobodyMayAdd(w.metrics.recorders);
        StaysOnCourse(w.(reader := Loaded(w.metrics.cells, w.reader)), events[1..], w', max);
      case Record(st) =>
        NextKeepsMax(w.metrics, st);
        if w.reader.ReadSum? {
          StepStaysWithin(w.metrics, st, w.reader.count, max);
        }
        StaysOnCourse(w.(metrics := Next(w.metrics, st)), events[1..], w', max);
    }
  }

  /** Some run goes from the one to the other. */
  ghost predicate Leads(s: System, s': System) {
    exists run :: Runs(s, run, s')
  }

  lemma StepLeads(s: System, st: Step, s': System)
    requires Enabled(s, st) && Leads(Next(s, st), s')
    ensures Leads(s, s')
  {
    var run :| Runs(Next(s, st), run, s');
    assert ([st] + run)[1..] == run;
    assert Runs(s, [st] + run, s');
  }

  /** Any choice among the first `n` recorders can be made to add, and to do nothing else. */
  lemma {:induction false} AddChosen(s: System, n: nat, x: nat) returns (s': System)
    requires n <= |s.recorders| && x in Additions(s.recorders[..n])
    ensures Leads(s, s') && s'.cells == s.cells.(sum := (s.cells.sum + x) % U64)
    decreases n
  {
    if n == 0 {
      s' := s;
      assert Runs(s, [], s');
    } else {
      var m := n - 1;
      assert s.recorders[..n][..m] == s.recorders[..m];
      if x in Additions(s.recorders[..m]) {
        s' := AddChosen(s, m, x);
      } else {
        var r, next := s.recorders[m], Next(s, Step(m, false));
        assert next.recorders[..m] == s.recorders[..m];
        s' := AddChosen(next, m, x - r.us);
        ModAdd(s.cells.sum + r.us, x - r.us);
        StepLeads(s, Step(m, false), s');
      }
    }
  }

  /** Every snapshot whose first load is made now reports an average within its maximum,
      whatever the recorders do until its last load. */
  ghost predicate AlwaysConsistent(s: System) {
    forall events, w | Happens(Watched(s, Loaded(s.cells, ReadCount)), events, w) && w.reader.Finished? ::
      w.reader.avg <= w.reader.max
  }

  lemma InconsistentIfAdded(s: System, x: nat)
    requires s.cells.count > 0 && x in Additions(s.recorders)
    requires !Within(s.cells.sum + x, s.cells.count, s.cells.max)
    ensures !AlwaysConsistent(s)
  {
    assert s.recorders[..|s.recorders|] == s.recorders;
    var s' := AddChosen(s, |s.recorders|, x);
    var run :| Runs(s, run, s');
    var w := Watched(s', Finished(s'.cells.sum / s.cells.count, s'.cells.max));
    LastLoads(s', s.cells.count);
    StepsHappen(s, run, s', ReadSum(s.cells.count), [Load, Load], w);
    assert Happens(Watched(s, Loaded(s.cells, ReadCount)), StepsThen(run, [Load, Load]), w);
    assert w.reader.avg > w.reader.max;
  }

  lemma ConsistentIfWithin(s: System)
    requires Inv(s) && (s.cells.count == 0 || StaysWithin(s, s.cells.count, s.cells.max))
    ensures AlwaysConsistent(s)
  {
    var start := Watched(s, Loaded(s.cells, ReadCount));
    forall events, w | Happens(start, events, w) && w.reader.Finished? ensures w.reader.avg <= w.reader.max {
      StaysOnCourse(start, events, w, s.cells.max);
    }
  }

  lemma ConsistentInState(s: System)
    requires Inv(s)
    ensures AlwaysConsistent(s) <==> s.cells.count == 0 || StaysWithin(s, s.cells.count, s.cells.max)
  {
    if s.cells.count == 0 || StaysWithin(s, s.cells.count, s.cells.max) {
      ConsistentIfWithin(s);
    } else {
      var x :| x in Additions(s.recorders) && !Within(s.cells.sum + x, s.cells.count, s.cells.max);
      InconsistentIfAdded(s, x);
    }
  }

  /** In every run: all snapshots that start now are consistent exactly if there is nothing
      counted yet, or no choice of pending additions, modulo 2^64, brings the average with
      the count loaded now above the maximum reached now. */
  lemma ConsistentIff(durations: seq<nat>, run: seq<Step>, s: System)
    requires Runs(Start(durations), run, s)
    ensures AlwaysConsistent(s) <==> s.cells.count == 0 || StaysWithin(s, s.cells.count, s.cells.max)
  {
    StartInv(durations);
    RunKeepsInv(Start(durations), run, s);
    ConsistentInState(s);
  }

  function ToAdd(r: Recorder): nat {
    if r.pc.AddSum? then r.us else 0
  }

  /** The largest addition is that of everybody. */
  lemma {:induction false} LargestAddition(rs: seq<Recorder>)
    ensures SumOf(rs, ToAdd) in Additions(rs)
    ensures forall x | x in Additions(rs) :: x <= SumOf(rs, ToAdd)
  {
    if rs == [] {
    } else {
      LargestAddition(rs[..|rs| - 1]);
    }
  }

  lemma {:induction false} AddedAndToAdd(rs: seq<Recorder>)
    ensures SumOf(rs, Added) + SumOf(rs, ToAdd) == SumOf(rs, (r: Recorder) => r.us)
  {
    if rs == [] {
    } else {
      AddedAndToAdd(rs[..|rs| - 1]);
    }
  }

  lemma QuotientsInOrder(a: nat, b: nat, n: nat)
    requires a <= b && n > 0
    ensures a / n <= b / n
  {
    assert n * (a / n) <= a;
    assert b < n * (b / n) + n;
    RoundingInOrder(n, a / n, b / n);
  }

  lemma RoundingInOrder(n: nat, p: nat, q: nat)
    requires n * p < n * q + n
    ensures p <= q
  {
    OneMoreTimes(q, n);
    CancelStrictly(n, p, q + 1);
  }

  lemma CancelStrictly(n: nat, a: nat, b: nat)
    requires a * n < b * n
    ensures a < b
  {}

  /** The sum and what can still be added to it make up all durations. */
  lemma PendingTotal(durations: seq<nat>, run: seq<Step>, s: System)
    requires Runs(Start(durations), run, s) && TotalOf(durations) < U64
    ensures s.cells.sum + SumOf(s.recorders, ToAdd) == TotalOf(durations)
  {
    StartInv(durations);
    RunKeepsInv(Start(durations), run, s);
    AddedAndToAdd(s.recorders);
    SumCongruence(s.recorders, (r: Recorder) => r.us, durations, d => Truncated(d));
  }

  lemma WithinTotal(s: System, total: nat, count: nat, max: nat)
    requires count > 0 && s.cells.sum + SumOf(s.recorders, ToAdd) == total < U64
    ensures StaysWithin(s, count, max) <==> total / count <= max
  {
    LargestAddition(s.recorders);
    WithinAtMost(total, total, count, max);
    forall x | x in Additions(s.recorders) ensures Within(total, count, max) ==> Within(s.cells.sum + x, count, max) {
      WithinAtMost(s.cells.sum + x, total, count, max);
    }
  }

  lemma WithinAtMost(a: nat, total: nat, count: nat, max: nat)
    requires count > 0 && a <= total < U64
    ensures Within(total, count, max) <==> total / count <= max
    ensures Within(total, count, max) ==> Within(a, count, max)
  {
    assert a % U64 == a && total % U64 == total;
    QuotientsInOrder(a, total, count);
  }

  /** Where the durations do not overflow the sum, that is a comparison of numbers: with the
      count loaded now, the average of all durations, recorded or not, is within the maximum
      reached now. */
  lemma ConsistentWithoutOverflowIff(durations: seq<nat>, run: seq<Step>, s: System)
    requires Runs(Start(durations), run, s) && TotalOf(durations) < U64
    ensures AlwaysConsistent(s) <==> s.cells.count == 0 || TotalOf(durations) / s.cells.count <= s.cells.max
  {
    StartInv(durations);
    RunKeepsInv(Start(durations), run, s);
    ConsistentInState(s);
    if s.cells.count > 0 {
      PendingTotal(durations, run, s);
      WithinTotal(s, TotalOf(durations), s.cells.count, s.cells.max);
    }
  }

  // ----- none of the three conditions of a quiet snapshot can be dropped

  lemma ThreeLoads(s: System)
    ensures Happens(Watched(s, ReadCount), [Load, Load, Load], Watched(s, Finished(Average(s.cells), s.cells.max)))
  {
    var loads, reader := [Load, Load, Load], Loaded(s.cells, ReadCount);
    var last := Finished(Average(s.cells), s.cells.max);
    assert loads[1..] == [Load, Load] && [Load, Load][1..] == [Load] && [Load][1..] == [];
    assert Happens(Watched(s, last), [], Watched(s, last));
    assert Happens(Watched(s, Loaded(s.cells, reader)), [Load], Watched(s, last));
    assert Happens(Watched(s, reader), [Load, Load], Watched(s, last));
  }

  /** A recorder halfway: nobody steps during the snapshot, and the average is above the
      maximum. */
  lemma HalfwayBreaks(us: Micros) returns (s: System, w: Watched)
    requires us > 0
    ensures Leads(Start([us]), s)
    ensures Happens(Watched(s, ReadCount), [Load, Load, Load], w)
    ensures w.reader == Finished(us, 0)
  {
    var s0, st := Start([us]), Step(0, false);
    var s1 := Next(s0, st);
    s := Next(s1, st);
    assert Runs(s, [], s);
    StepLeads(s1, st, s);
    StepLeads(s0, st, s);
    ThreeLoads(s);
    w := Watched(s, Finished(Average(s.cells), s.cells.max));
  }

  /** The four steps of a recorder that does not raise the maximum. */
  lemma FourSteps(s: System, i: nat) returns (run: seq<Step>, s': System)
    requires i < |s.recorders| && s.recorders[i].pc.AddSum?
    ensures run == [Step(i, false), Step(i, false), Step(i, false), Step(i, false)]
    ensures Runs(s, run, s')
    ensures var r := s.recorders[i];
            && s'.cells.sum == (s.cells.sum + r.us) % U64
            && s'.cells.count == (s.cells.count + 1) % U64
            && s'.cells.max == (if r.us > s.cells.max then r.us else s.cells.max)
            && s'.recorders == s.recorders[i := r.(pc := Done)]
  {
    var st := Step(i, false);
    run := [st, st, st, st];
    var s1 := Next(s, st);
    var s2 := Next(s1, st);
    var s3 := Next(s2, st);
    s' := Next(s3, st);
    assert run[1..] == [st, st, st] && [st, st, st][1..] == [st, st] && [st, st][1..] == [st] && [st][1..] == [];
    assert Runs(s3, [st], s');
    assert Runs(s2, [st, st], s');
  }

  /** These steps, and then more. */
  function StepsThen(run: seq<Step>, more: seq<Event>): seq<Event> {
    if run == [] then more else [Record(run[0])] + StepsThen(run[1..], more)
  }

  lemma StepThen(s: System, st: Step, reader: Reader, more: seq<Event>, w: Watched)
    requires Enabled(s, st) && Happens(Watched(Next(s, st), reader), more, w)
    ensures Happens(Watched(s, reader), [Record(st)] + more, w)
  {
    assert ([Record(st)] + more)[1..] == more;
  }

  lemma {:induction false} StepsHappen(
    s: System, run: seq<Step>, s': System, reader: Reader, more: seq<Event>, w: Watched)
    requires Runs(s, run, s') && Happens(Watched(s', reader), more, w)
    ensures Happens(Watched(s, reader), StepsThen(run, more), w)
    decreases |run|
  {
    if run == [] {
    } else {
      StepsHappen(Next(s, run[0]), run[1..], s', reader, more, w);
      StepThen(s, run[0], reader, StepsThen(run[1..], more), w);
    }
  }

  lemma LastLoads(s: System, count: Micros)
    requires count > 0
    ensures Happens(Watched(s, ReadSum(count)), [Load, Load], Watched(s, Finished(s.cells.sum / count, s.cells.max)))
  {
    var last := Finished(s.cells.sum / count, s.cells.max);
    assert [Load, Load][1..] == [Load] && [Load][1..] == [];
    assert Happens(Watched(s, last), [], Watched(s, last));
    assert Happens(Watched(s, ReadMax(s.cells.sum / count)), [Load], Watched(s, last));
  }

  lemma FirstLoad(s: System, more: seq<Event>, w: Watched)
    requires s.cells.count > 0 && Happens(Watched(s, ReadSum(s.cells.count)), more, w)
    ensures Happens(Watched(s, ReadCount), [Load] + more, w)
  {
    assert ([Load] + more)[1..] == more;
  }

  /** Two recorders, one after the other. */
  lemma OneAfterTheOther(us: Micros) returns (run: seq<Step>, s: System, between: seq<Step>, s': System)
    requires 0 < us && 2 * us < U64
    ensures Runs(Start([us, us]), run, s) && Runs(s, between, s') && NobodyHalfway(s) && NobodyHalfway(s')
    ensures s.cells == Cells(us, 1, us) && s'.cells == Cells(2 * us, 2, us)
  {
    var s0 := Start([us, us]);
    assert s0.recorders == [Recorder(us, AddSum), Recorder(us, AddSum)];
    run, s := FourSteps(s0, 0);
    assert s.recorders == [Recorder(us, Done), Recorder(us, AddSum)];
    between, s' := FourSteps(s, 1);
    assert s'.recorders == [Recorder(us, Done), Recorder(us, Done)];
  }

  /** A recorder that runs from beginning to end between the loads of the count and of the
      sum: nobody is halfway at any load, and the average is twice the maximum. */
  lemma StepsBreak(us: Micros) returns (run: seq<Step>, s: System, between: seq<Step>, s': System, w: Watched)
    requires 0 < us && 2 * us < U64
    ensures Runs(Start([us, us]), run, s) && Runs(s, between, s') && NobodyHalfway(s) && NobodyHalfway(s')
    ensures Happens(Watched(s, ReadCount), [Load] + StepsThen(between, [Load, Load]), w)
    ensures w == Watched(s', Finished(2 * us, us))
  {
    run, s, between, s' := OneAfterTheOther(us);
    w := Watched(s', Finished(2 * us, us));
    LastLoads(s', 1);
    StepsHappen(s, between, s', ReadSum(1), [Load, Load], w);
    FirstLoad(s, StepsThen(between, [Load, Load]), w);
  }

  /** Recorders can always finish. */
  lemma {:induction false} AllFinish(s: System) returns (s': System)
    requires Inv(s)
    ensures Leads(s, s') && Quiescent(s')
    decreases SumOf(s.recorders, Rank)
  {
    if i :| 0 <= i < |s.recorders| && s.recorders[i].pc != Done {
      var st := Step(i, false);
      NextKeepsInv(s, st);
      SumUpdate(s.recorders, i, Next(s, st).recorders[i], Rank);
      s' := AllFinish(Next(s, st));
      StepLeads(s, st, s');
    } else {
      s' := s;
      assert Runs(s, [], s');
    }
  }

  /** Two recordings of 2 and `n` of 1. */
  function Mostly(n: nat): seq<nat> {
    [2, 2] + seq(n, _ => 1)
  }

  lemma {:induction false} MostlyTotal(n: nat)
    ensures TotalOf(Mostly(n)) == n + 4
  {
    var m := Mostly(n);
    if n == 0 {
      assert m == [2, 2] && m[..1] == [2] && m[..1][..0] == [];
      assert SumOf([2], d => Truncated(d)) == 2;
    } else {
      MostlyTotal(n - 1);
      assert m[..|m| - 1] == Mostly(n - 1) && m[|m| - 1] == 1;
    }
  }

  lemma MostlyLargest(n: nat)
    ensures Largest(Mostly(n)) == 2
  {
    var m := Mostly(n);
    LargestIsLargest(m);
    assert Truncated(m[0]) == 2;
    assert forall i | 0 <= i < |m| :: m[i] == 1 || m[i] == 2;
  }

  lemma MostlyCells(n: nat, run: seq<Step>, s: System)
    requires n == U64 - 1 && Runs(Start(Mostly(n)), run, s) && Quiescent(s)
    ensures s.cells == Cells(3, 1, 2)
  {
    FinalMaximum(Mostly(n), run, s);
    FinalAverage(Mostly(n), run, s);
    MostlyTotal(n);
    MostlyLargest(n);
  }

  /** More than 2^64 recordings: the count wraps around, and the average is above the maximum
      though everybody has finished. */
  lemma OverflowBreaks() returns (s: System, w: Watched)
    ensures Leads(Start(Mostly(U64 - 1)), s) && Quiescent(s)
    ensures Happens(Watched(s, ReadCount), [Load, Load, Load], w)
    ensures w.reader == Finished(3, 2)
  {
    var durations := Mostly(U64 - 1);
    StartInv(durations);
    s := AllFinish(Start(durations));
    var run :| Runs(Start(durations), run, s);
    MostlyCells(U64 - 1, run, s);
    ThreeLoads(s);
    w := Watched(s, Finished(Average(s.cells), s.cells.max));
  }

  // ----- one call, as the program runs it

  /** What the other threads do to the cell before one compare-exchange of this thread. */
  datatype Interference = Interference(raisedTo: Micros, spurious: bool)

  class DaemonMetrics {
    var durationSum: Micros
    var durationCount: Micros
    var durationMax: Micros

    constructor ()
      ensures durationSum == durationCount == durationMax == 0
    {
      durationSum, durationCount, durationMax := 0, 0, 0;
    }

    /** `record_duration` while other recorders raise the maximum arbitrarily and finitely
        many compare-exchanges fail spuriously: when it returns, the maximum is the largest
        of the recorded value, what it was before, and what the others raised it to. */
    method RecordDuration(duration: nat, others: seq<Interference>) returns (seen: nat)
      modifies this
      ensures seen <= |others|
      ensures durationSum == (old(durationSum) + Truncated(duration)) % U64
      ensures durationCount == (old(durationCount) + 1) % U64
      ensures Truncated(duration) <= durationMax && old(durationMax) <= durationMax
      ensures forall k | 0 <= k < seen :: others[k].raisedTo <= durationMax
      ensures durationMax in {Truncated(duration), old(durationMax)}
           || exists k :: 0 <= k < seen && durationMax == others[k].raisedTo
    {
      var us := Truncated(duration);
      durationSum := (durationSum + us) % U64;
      durationCount := (durationCount + 1) % U64;
      var currentMax := durationMax;
      seen := 0;
      while us > currentMax
        invariant seen <= |others| && currentMax == durationMax && old(durationMax) <= durationMax
        invariant durationSum == (old(durationSum) + us) % U64
        invariant durationCount == (old(durationCount) + 1) % U64
        invariant forall k | 0 <= k < seen :: others[k].raisedTo <= durationMax
        invariant durationMax == old(durationMax) || exists k :: 0 <= k < seen && durationMax == others[k].raisedTo
        decreases |others| - seen
      {
        var spurious := false;
        if seen < |others| {
          if others[seen].raisedTo > durationMax {
            durationMax := others[seen].raisedTo;
          }
          spurious := others[seen].spurious;
          seen := seen + 1;
        }
        if durationMax == currentMax && !spurious {
          durationMax := us;
          break;
        } else {
          currentMax := durationMax;
        }
      }
    }

    /** `duration_avg`, in microseconds, while others add `meanwhile` to the sum between its
        loads of the count and of the sum: the largest whole number that, times the count
        found first, does not exceed the sum found then. */
    method DurationAvg(meanwhile: nat) returns (avg: nat)
      modifies this
      ensures durationCount == old(durationCount) && durationMax == old(durationMax)
      ensures durationSum == (old(durationSum) + if durationCount > 0 then meanwhile else 0) % U64
      ensures durationCount == 0 ==> avg == 0
      ensures durationCount > 0 ==> avg * durationCount <= durationSum < (avg + 1) * durationCount
    {
      var count := durationCount;
      if count > 0 {
        durationSum := (durationSum + meanwhile) % U64;
        var sum := durationSum;
        avg := sum / count;
        Quotient(sum, count);
      } else {
        avg := 0;
      }
    }
  }

  lemma Quotient(sum: nat, count: nat)
    requires count > 0
    ensures (sum / count) * count <= sum < (sum / count + 1) * count
  {}
}
