/**
 The ublk control ring, on which every command carries the same tag, and the scan for
 orphaned devices.
 */
module UblkControls {
  import opened Options
  import opened Seqs
  import opened Decimal
  import opened Widths

  // ----- command results

  const ENOENT := 2
  const EBUSY := 16

  datatype Outcome =
    | Done
    | NoSuchDevice
    | DeviceBusy
    | CommandError(errno: int)
    | TimedOut
    | SubmitError

  /** `interpret_command_result`. */
  function Interpret(res: int): (o: Outcome)
    ensures o.Done? <==> res >= 0
    ensures o.NoSuchDevice? <==> res == -2
    ensures o.DeviceBusy? <==> res == -16
    ensures o.CommandError? ==> o.errno == res
    ensures !o.TimedOut? && !o.SubmitError?
  {
    if res >= 0 then Done
    else if res == -ENOENT then NoSuchDevice
    else if res == -EBUSY then DeviceBusy
    else CommandError(res)
  }

  // ----- the ring

  /** Entries of the submission queue. */
  const ENTRIES := 4

  datatype Completion = Completion(serial: nat, res: int)

  /** The kernel completes the command at this place among those in flight. */
  datatype Finish = Finish(index: nat, res: int)

  /** What happens before one look at the completion queue, and whether the timeout has
      passed when nothing is found there. */
  datatype Look = Look(finished: seq<Finish>, late: bool)

  /** How one command fares: whether `submit` fails, and the looks that follow. */
  datatype Fate = Fate(submitFails: bool, looks: seq<Look>) {
    predicate TimesOutEventually() {
      exists k :: 0 <= k < |looks| && looks[k].late
    }

    predicate InOrder() {
      forall k, i | 0 <= k < |looks| && 0 <= i < |looks[k].finished| :: looks[k].finished[i].index == 0
    }
  }

  function Without(xs: seq<nat>, i: nat): seq<nat>
    requires i < |xs|
  {
    xs[..i] + xs[i + 1..]
  }

  lemma WithoutOne(xs: seq<nat>, i: nat)
    requires i < |xs| && NoRepeats(xs)
    ensures NoRepeats(Without(xs, i))
    ensures xs[i] !in Without(xs, i)
    ensures forall x | x in Without(xs, i) :: x in xs
  {
    var ys := Without(xs, i);
    assert forall j | 0 <= j < |ys| :: ys[j] == xs[if j < i then j else j + 1];
  }

  lemma NoRepeatsSnoc(xs: seq<nat>, x: nat)
    ensures NoRepeats(xs + [x]) <==> NoRepeats(xs) && x !in xs
  {
    var ys := xs + [x];
    assert forall i | 0 <= i < |xs| :: ys[i] == xs[i];
    if NoRepeats(ys) {
      assert forall i, j | 0 <= i < j < |xs| :: ys[i] != ys[j];
      assert forall i | 0 <= i < |xs| :: ys[i] != ys[|xs|];
    }
  }

  predicate SameMembers(xs: seq<nat>, ys: seq<nat>) {
    |xs| == |ys| && (forall x | x in xs :: x in ys) && (forall y | y in ys :: y in xs)
  }

  /** Moving one element to the end of the part before it. */
  lemma MoveOne(done: seq<nat>, flying: seq<nat>, waiting: seq<nat>, i: nat)
    requires i < |flying|
    ensures var after := done + [flying[i]] + Without(flying, i) + waiting;
            && SameMembers(after, done + flying + waiting)
            && (i == 0 ==> after == done + flying + waiting)
  {
    assert flying == flying[..i] + [flying[i]] + flying[i + 1..];
  }

  lemma RangeGrows(lo: nat, n: nat)
    requires lo <= n
    ensures Range(lo, n) + [n] == Range(lo, n + 1)
  {}

  lemma RangeShifts(lo: nat, n: nat, first: nat, rest: seq<nat>)
    requires lo < n && Range(lo, n) == [first] + rest
    ensures first == lo && rest == Range(lo + 1, n)
  {
    assert Range(lo, n)[0] == lo;
    assert rest == Range(lo, n)[1..];
  }

  function SerialsOf(cs: seq<Completion>): (s: seq<nat>)
    ensures |s| == |cs| && forall i | 0 <= i < |cs| :: s[i] == cs[i].serial
  {
    seq(|cs|, i requires 0 <= i < |cs| => cs[i].serial)
  }

  /** The numbers from `lo` to below `hi`. */
  function Range(lo: nat, hi: nat): seq<nat>
    requires lo <= hi
  {
    seq(hi - lo, i => lo + i)
  }

  /** The completions that the kernel adds, one for each command it finishes. */
  function Finished(flying: seq<nat>, finished: seq<Finish>): seq<Completion>
    decreases |finished|
  {
    if finished == [] then []
    else if finished[0].index < |flying| then
      [Completion(flying[finished[0].index], finished[0].res)]
      + Finished(Without(flying, finished[0].index), finished[1..])
    else Finished(flying, finished[1..])
  }

  function StillFlying(flying: seq<nat>, finished: seq<Finish>): seq<nat>
    decreases |finished|
  {
    if finished == [] then flying
    else if finished[0].index < |flying| then StillFlying(Without(flying, finished[0].index), finished[1..])
    else StillFlying(flying, finished[1..])
  }

  lemma {:induction false} FinishedMore(flying: seq<nat>, finished: seq<Finish>, f: Finish)
    ensures var flying' := StillFlying(flying, finished);
            if f.index < |flying'| then
              && Finished(flying, finished + [f]) == Finished(flying, finished) + [Completion(flying'[f.index], f.res)]
              && StillFlying(flying, finished + [f]) == Without(flying', f.index)
            else
              && Finished(flying, finished + [f]) == Finished(flying, finished)
              && StillFlying(flying, finished + [f]) == flying'
    decreases |finished|
  {
    if finished == [] {
      assert finished + [f] == [f] && [f][1..] == [];
    } else {
      assert (finished + [f])[1..] == finished[1..] + [f];
      var rest := if finished[0].index < |flying| then Without(flying, finished[0].index) else flying;
      FinishedMore(rest, finished[1..], f);
    }
  }

  lemma {:induction false} NothingToFinish(flying: seq<nat>, finished: seq<Finish>)
    requires Finished(flying, finished) == []
    ensures forall i | 0 <= i < |finished| :: finished[i].index >= |flying|
    ensures StillFlying(flying, finished) == flying
    decreases |finished|
  {
    if finished == [] {
    } else {
      NothingToFinish(flying, finished[1..]);
      assert forall i | 0 < i < |finished| :: finished[i] == finished[1..][i - 1];
    }
  }

  /** What is finished first is the first that can be. */
  lemma {:induction false} FirstFinished(flying: seq<nat>, finished: seq<Finish>) returns (i: nat)
    requires Finished(flying, finished) != []
    ensures i < |finished| && finished[i].index < |flying|
    ensures forall j | 0 <= j < i :: finished[j].index >= |flying|
    ensures Finished(flying, finished)[0] == Completion(flying[finished[i].index], finished[i].res)
    decreases |finished|
  {
    if finished[0].index < |flying| {
      i := 0;
    } else {
      var rest := finished[1..];
      i := FirstFinished(flying, rest);
      assert forall j | 0 < j <= i + 1 :: finished[j] == rest[j - 1];
      i := i + 1;
    }
  }

  /** Nothing turns up in look `k` or before, with `flying` commands to finish. */
  predicate NothingFinished(looks: seq<Look>, k: nat, flying: nat)
    requires k <= |looks|
  {
    forall j, i | 0 <= j < k && 0 <= i < |looks[j].finished| :: looks[j].finished[i].index >= flying
  }

  /** The i-th finish of look k is the first to finish anything, and no look before it is late. */
  predicate FirstFound(looks: seq<Look>, k: nat, i: nat, flying: nat) {
    && k < |looks| && i < |looks[k].finished| && looks[k].finished[i].index < flying
    && NothingFinished(looks, k, flying)
    && (forall j | 0 <= j < i :: looks[k].finished[j].index >= flying)
    && (forall j | 0 <= j < k :: !looks[j].late)
  }

  /** Some look up to and including the first late one comes after the kernel finished a
      command. */
  predicate SomethingFinishes(looks: seq<Look>) {
    exists k :: 0 <= k < |looks| && looks[k].finished != [] && forall j | 0 <= j < k :: !looks[j].late
  }

  /** With a kernel that finishes the oldest command in flight, the first look that is late finds
      nothing only if nothing was finished. */
  lemma NothingIn(looks: seq<Look>, k: nat, flying: nat)
    requires forall k, i | 0 <= k < |looks| && 0 <= i < |looks[k].finished| :: looks[k].finished[i].index == 0
    requires flying > 0 && k < |looks| && looks[k].late
    ensures NothingFinished(looks, k + 1, flying) ==> !SomethingFinishes(looks)
  {
    if SomethingFinishes(looks) {
      var j :| 0 <= j < |looks| && looks[j].finished != [] && forall i | 0 <= i < j :: !looks[i].late;
      assert j <= k;
      assert looks[j].finished[0].index < flying;
    }
  }

  /** What one more look brings. */
  lemma LookOnce(looks: seq<Look>, k: nat, flying: seq<nat>) returns (i: nat)
    requires k < |looks| && NothingFinished(looks, k, |flying|) && forall j | 0 <= j < k :: !looks[j].late
    ensures var finished := looks[k].finished;
            if Finished(flying, finished) == [] then
              StillFlying(flying, finished) == flying && NothingFinished(looks, k + 1, |flying|)
            else
              && FirstFound(looks, k, i, |flying|)
              && Finished(flying, finished)[0] == Completion(flying[finished[i].index], finished[i].res)
  {
    i := 0;
    if Finished(flying, looks[k].finished) == [] {
      NothingToFinish(flying, looks[k].finished);
    } else {
      i := FirstFinished(flying, looks[k].finished);
    }
  }

  class UblkControl {
    /** Commands are numbered in the order they are pushed; the ring itself does not carry
        the numbers. */
    var nextSerial: nat
    var submission: seq<nat>
    var inFlight: seq<nat>
    var completions: seq<Completion>
    /** The kernel's results, and how often a call has timed out or failed to submit. */
    ghost var results: map<nat, int>
    ghost var timeouts: nat
    ghost var submitFailures: nat

    /** The commands pushed whose results nobody has taken, oldest completion first. */
    ghost function Outstanding(): seq<nat>
      reads this
    {
      SerialsOf(completions) + inFlight + submission
    }

    ghost predicate Valid()
      reads this
    {
      && |submission| <= ENTRIES
      && NoRepeats(inFlight + submission)
      && (forall s | s in inFlight + submission :: s < nextSerial && s !in results)
      && (forall s | s in results :: s < nextSerial)
      && (forall k | 0 <= k < |completions| ::
            completions[k].serial in results && results[completions[k].serial] == completions[k].res)
    }

    /** The backlog is what has timed out or failed to be submitted. */
    ghost predicate Balanced()
      reads this
    {
      |Outstanding()| == timeouts + submitFailures
    }

    /** The commands outstanding are the newest ones, in order. */
    ghost predicate Contiguous()
      reads this
    {
      |Outstanding()| <= nextSerial && Outstanding() == Range(nextSerial - |Outstanding()|, nextSerial)
    }

    constructor ()
      ensures Valid() && Balanced() && Contiguous() && Outstanding() == []
    {
      nextSerial, submission, inFlight, completions := 0, [], [], [];
      results, timeouts, submitFailures := map[], 0, 0;
    }

    /** The kernel finishes commands in flight. */
    method KernelFinishes(finished: seq<Finish>)
      requires Valid()
      modifies this
      ensures Valid() && unchanged(`submission, `nextSerial, `timeouts, `submitFailures)
      ensures SameMembers(Outstanding(), old(Outstanding()))
      ensures (forall i | 0 <= i < |finished| :: finished[i].index == 0) ==> Outstanding() == old(Outstanding())
      ensures completions == old(completions) + Finished(old(inFlight), finished)
      ensures inFlight == StillFlying(old(inFlight), finished)
    {
      var k := 0;
      while k < |finished|
        invariant k <= |finished|
        invariant Valid() && unchanged(`submission, `nextSerial, `timeouts, `submitFailures)
        invariant SameMembers(Outstanding(), old(Outstanding()))
        invariant (forall i | 0 <= i < k :: finished[i].index == 0) ==> Outstanding() == old(Outstanding())
        invariant completions == old(completions) + Finished(old(inFlight), finished[..k])
        invariant inFlight == StillFlying(old(inFlight), finished[..k])
      {
        var f := finished[k];
        FinishedMore(old(inFlight), finished[..k], f);
        assert finished[..k + 1] == finished[..k] + [f];
        if f.index < |inFlight| {
          FinishOne(f.index, f.res);
        }
        k := k + 1;
      }
      assert finished[..k] == finished;
    }

    method FinishOne(index: nat, res: int)
      requires Valid() && index < |inFlight|
      modifies this
      ensures Valid() && unchanged(`submission, `nextSerial, `timeouts, `submitFailures)
      ensures SameMembers(Outstanding(), old(Outstanding()))
      ensures index == 0 ==> Outstanding() == old(Outstanding())
      ensures completions == old(completions) + [Completion(old(inFlight)[index], res)]
      ensures inFlight == Without(old(inFlight), index)
    {
      var serial := inFlight[index];
      assert (inFlight + submission)[index] == serial;
      assert serial in inFlight + submission && serial < nextSerial;
      WithoutOne(inFlight + submission, index);
      assert Without(inFlight + submission, index) == Without(inFlight, index) + submission;
      MoveOne(SerialsOf(completions), inFlight, submission, index);
      inFlight := Without(inFlight, index);
      completions := completions + [Completion(serial, res)];
      results := results[serial := res];
      assert SerialsOf(completions) == SerialsOf(old(completions)) + [serial];
    }

    method Push() returns (ok: bool)
      requires Valid()
      modifies this
      ensures Valid() && ok == (|old(submission)| < ENTRIES)
      ensures unchanged(`inFlight, `completions, `results, `timeouts, `submitFailures)
      ensures Outstanding() == old(Outstanding()) + if ok then [old(nextSerial)] else []
      ensures nextSerial == old(nextSerial) + if ok then 1 else 0
      ensures submission == old(submission) + if ok then [old(nextSerial)] else []
      ensures old(Contiguous()) ==> Contiguous()
    {
      if |submission| == ENTRIES {
        return false;
      }
      NoRepeatsSnoc(inFlight + submission, nextSerial);
      if Contiguous() {
        RangeGrows(nextSerial - |Outstanding()|, nextSerial);
      }
      submission := submission + [nextSerial];
      nextSerial := nextSerial + 1;
      assert inFlight + submission == old(inFlight + submission) + [old(nextSerial)];
      return true;
    }

    /** Pushes a command and submits the queue; a command that could be pushed but not
        submitted stays in the queue. */
    method Submit(fails: bool) returns (ok: bool)
      requires Valid()
      modifies this
      ensures Valid() && ok == (|old(submission)| < ENTRIES && !fails)
      ensures unchanged(`timeouts)
      ensures var pushed := |old(submission)| < ENTRIES;
              && Outstanding() == old(Outstanding()) + (if pushed then [old(nextSerial)] else [])
              && nextSerial == old(nextSerial) + (if pushed then 1 else 0)
              && submitFailures == old(submitFailures) + (if pushed && fails then 1 else 0)
      ensures ok ==> submission == [] && inFlight == old(inFlight) + (old(submission) + [old(nextSerial)])
      ensures completions == old(completions)
      ensures old(Contiguous()) ==> Contiguous()
    {
      var pushed := Push();
      if !pushed {
        return false;
      }
      if fails {
        submitFailures := submitFailures + 1;
        return false;
      }
      assert inFlight + submission == old(inFlight) + (old(submission) + [old(nextSerial)]);
      inFlight, submission := inFlight + submission, [];
      assert inFlight + [] == inFlight;
      assert SerialsOf(completions) + inFlight == SerialsOf(completions) + inFlight + [];
      return true;
    }

    /** Takes the oldest completion. */
    method TakeCompletion() returns (c: Completion)
      requires Valid() && completions != []
      modifies `completions
      ensures Valid() && c == old(completions)[0]
      ensures c.serial in results && results[c.serial] == c.res
      ensures old(Outstanding()) == [c.serial] + Outstanding()
    {
      c := completions[0];
      assert SerialsOf(completions) == [c.serial] + SerialsOf(completions[1..]);
      completions := completions[1..];
    }

    /** The polling loop: takes the oldest completion if there is one, and else the first that
        turns up, up to and including the first late look. */
    method AwaitCompletion(fate: Fate) returns (r: Outcome, answered: Option<nat>)
      requires Valid() && submission == [] && fate.TimesOutEventually()
      modifies this
      ensures Valid() && submission == [] && unchanged(`nextSerial, `submitFailures)
      ensures answered == None ==>
                && r == TimedOut && timeouts == old(timeouts) + 1
                && |Outstanding()| == |old(Outstanding())|
                && (fate.InOrder() ==> Outstanding() == old(Outstanding()))
      ensures answered.Some? ==>
                && timeouts == old(timeouts)
                && answered.value in results && r == Interpret(results[answered.value])
                && answered.value in old(Outstanding())
                && |Outstanding()| + 1 == |old(Outstanding())|
                && (fate.InOrder() ==> old(Outstanding()) == [answered.value] + Outstanding())
      ensures old(completions) != [] ==>
                answered == Some(old(completions)[0].serial) && r == Interpret(old(completions)[0].res)
      ensures old(completions) == [] && answered.Some? ==>
                exists k: nat, i: nat ::
                  && FirstFound(fate.looks, k, i, |old(inFlight)|)
                  && answered == Some(old(inFlight)[fate.looks[k].finished[i].index])
                  && r == Interpret(fate.looks[k].finished[i].res)
      ensures answered == None ==>
                exists k :: 0 <= k < |fate.looks| && fate.looks[k].late
                         && NothingFinished(fate.looks, k + 1, |old(inFlight)|)
    {
      var k := 0;
      while true
        invariant k <= |fate.looks| && exists i :: k <= i < |fate.looks| && fate.looks[i].late
        invariant completions == old(completions) && inFlight == old(inFlight)
        invariant k > 0 ==> completions == []
        invariant NothingFinished(fate.looks, k, |inFlight|) && forall j | 0 <= j < k :: !fate.looks[j].late
        invariant Valid() && submission == [] && unchanged(`nextSerial, `timeouts, `submitFailures)
        invariant SameMembers(Outstanding(), old(Outstanding()))
        invariant fate.InOrder() ==> Outstanding() == old(Outstanding())
        decreases |fate.looks| - k
      {
        ghost var i := LookOnce(fate.looks, k, inFlight);
        KernelFinishes(fate.looks[k].finished);
        if completions != [] {
          ghost var all := Outstanding();
          var c := TakeCompletion();
          assert c.serial in all;
          return Interpret(c.res), Some(c.serial);
        }
        if fate.looks[k].late {
          timeouts := timeouts + 1;
          return TimedOut, None;
        }
        k := k + 1;
      }
    }

    /** `send_command_timeout`, for a kernel that behaves as `fate` says.  `answered` is the
        command whose completion the call took for its own.

        The backlog never shrinks, and grows exactly by the calls that time out or fail to
        submit.  Without a backlog a call takes its own completion.  With a kernel that
        completes commands in order, a call made with a backlog of k takes the completion of
        the k-th command before it. */
    method SendCommand(fate: Fate) returns (r: Outcome, answered: Option<nat>)
      requires Valid() && fate.TimesOutEventually()
      modifies this
      ensures Valid()
      ensures old(Balanced()) ==> Balanced()
      ensures |Outstanding()| == |old(Outstanding())|
                                 + if r.TimedOut? || (r.SubmitError? && |old(submission)| < ENTRIES) then 1 else 0
      ensures nextSerial == old(nextSerial) + if |old(submission)| < ENTRIES then 1 else 0
      ensures r.SubmitError? <==> |old(submission)| == 4 || fate.submitFails
      ensures answered.Some? <==> !r.SubmitError? && !r.TimedOut?
      ensures answered.Some? ==> answered.value in results && r == Interpret(results[answered.value])
      ensures old(Outstanding()) == [] && answered.Some? ==> answered.value == old(nextSerial)
      ensures !r.SubmitError? && old(completions) != [] ==>
                answered == Some(old(completions)[0].serial) && r == Interpret(old(completions)[0].res)
      ensures !r.SubmitError? && fate.InOrder() ==>
                (answered.Some? <==> old(completions) != [] || SomethingFinishes(fate.looks))
      ensures answered.Some? && old(completions) == [] ==>
                exists k: nat, i: nat ::
                  && FirstFound(fate.looks, k, i, |old(inFlight)| + |old(submission)| + 1)
                  && r == Interpret(fate.looks[k].finished[i].res)
      ensures r.TimedOut? ==>
                && old(completions) == []
                && var flying := |old(inFlight)| + |old(submission)| + 1;
                   exists k :: 0 <= k < |fate.looks| && fate.looks[k].late && NothingFinished(fate.looks, k + 1, flying)
      ensures old(Contiguous()) && fate.InOrder() ==> Contiguous()
      ensures old(Contiguous()) && fate.InOrder() && answered.Some? ==>
                answered.value == old(nextSerial) - |old(Outstanding())|
    {
      ghost var lo := nextSerial - |Outstanding()|;
      var submitted := Submit(fate.submitFails);
      if !submitted {
        return SubmitError, None;
      }
      ghost var flying := |inFlight|;
      r, answered := AwaitCompletion(fate);
      if answered == None {
        ghost var k :| 0 <= k < |fate.looks| && fate.looks[k].late && NothingFinished(fate.looks, k + 1, flying);
        if fate.InOrder() {
          NothingIn(fate.looks, k, flying);
        }
      }
      if old(Contiguous()) && fate.InOrder() && answered.Some? {
        RangeShifts(lo, nextSerial, answered.value, Outstanding());
      }
    }

    /** `force_delete`: stop, whatever comes of it, then delete.  Without a backlog, a stop that
        was answered leaves the delete to be answered by its own completion; but a stop that
        times out on an in-order kernel has its late completion taken for the delete's. */
    method ForceDelete(stop: Fate, delete: Fate) returns (stopped: Outcome, r: Outcome, answered: Option<nat>)
      requires Valid() && stop.TimesOutEventually() && delete.TimesOutEventually()
      modifies this
      ensures Valid() && (old(Balanced()) ==> Balanced())
      ensures answered.Some? ==> answered.value in results && r == Interpret(results[answered.value])
      ensures old(Outstanding()) == [] && answered.Some? && !stopped.TimedOut? && !stopped.SubmitError? ==>
                answered.value == old(nextSerial) + 1
      ensures old(Outstanding()) == [] && answered.Some? && stopped.TimedOut? && stop.InOrder() && delete.InOrder() ==>
                answered.value == old(nextSerial)
    {
      assert Outstanding() == [] ==> Contiguous();
      var first;
      stopped, first := SendCommand(stop);
      r, answered := SendCommand(delete);
    }
  }

  // ----- the orphan scan

  /** `strip_prefix("ublkc")`, then `parse` as a 32-bit number. */
  function ParseCharDeviceId(name: string): Option<nat> {
    if "ublkc" <= name then Parse(name[5..], U32) else None
  }

  function CharDeviceName(id: nat): string {
    "ublkc" + Print(id)
  }

  function BlockDeviceName(id: nat): string {
    "ublkb" + Print(id)
  }

  /** Exactly the spellings of an id after the prefix name the device, and its own name is
      one of them. */
  lemma CharDeviceIdIff(name: string, id: nat)
    ensures ParseCharDeviceId(name) == Some(id) <==> id < U32 && "ublkc" <= name && Spells(name[5..], id)
    ensures id < U32 ==> ParseCharDeviceId(CharDeviceName(id)) == Some(id)
    ensures "ublkc" <= CharDeviceName(id) && CharDeviceName(id)[5..] == Print(id)
  {
    if "ublkc" <= name {
      ParseIff(name[5..], U32, id);
    }
    if id < U32 {
      ParsePrint(id, U32);
      assert CharDeviceName(id)[5..] == Print(id);
    }
  }

  /** An entry of the directory, or an error reading it. */
  datatype Entry = Entry(name: string) | EntryError

  datatype Directory = Missing | Unreadable | Listing(entries: seq<Entry>)

  datatype Scan = Orphans(ids: seq<nat>) | ScanError

  /** The entry is a character device without its block device among `present`. */
  predicate IsOrphan(name: string, present: set<string>) {
    ParseCharDeviceId(name).Some? && BlockDeviceName(ParseCharDeviceId(name).value) !in present
  }

  function OrphanIds(names: seq<string>, present: set<string>): seq<nat> {
    if names == [] then []
    else
      var last := names[|names| - 1];
      OrphanIds(names[..|names| - 1], present)
      + if IsOrphan(last, present) then [ParseCharDeviceId(last).value] else []
  }

  /** An id is reported exactly when some name in the directory parses to it and its block
      device is not there. */
  lemma {:induction false} ReportedIff(names: seq<string>, present: set<string>, id: nat)
    ensures id in OrphanIds(names, present) <==>
              (exists name :: name in names && ParseCharDeviceId(name) == Some(id)) && "ublkb" + Print(id) !in present
  {
    if names == [] {
    } else {
      var front, last := names[..|names| - 1], names[|names| - 1];
      ReportedIff(front, present, id);
      assert names == front + [last];
      assert forall name :: name in names <==> name in front || name == last;
    }
  }

  /** Two different names are spellings of one reported id. */
  ghost predicate HasAlias(names: seq<string>, present: set<string>) {
    exists i, j :: 0 <= i < j < |names| && IsOrphan(names[i], present)
                && ParseCharDeviceId(names[i]) == ParseCharDeviceId(names[j])
  }

  lemma AliasExtends(names: seq<string>, present: set<string>)
    requires names != []
    ensures var n := |names| - 1;
            HasAlias(names, present) <==>
              HasAlias(names[..n], present)
              || (&& IsOrphan(names[n], present)
                  && exists i :: 0 <= i < n && ParseCharDeviceId(names[i]) == ParseCharDeviceId(names[n]))
  {
    var n := |names| - 1;
    var front := names[..n];
    assert forall i | 0 <= i < n :: front[i] == names[i];
    if HasAlias(front, present) {
      var i, j :| 0 <= i < j < n && IsOrphan(front[i], present)
                  && ParseCharDeviceId(front[i]) == ParseCharDeviceId(front[j]);
      assert IsOrphan(names[i], present) && ParseCharDeviceId(names[i]) == ParseCharDeviceId(names[j]);
    }
    if HasAlias(names, present) {
      var i, j :| 0 <= i < j < |names| && IsOrphan(names[i], present)
                  && ParseCharDeviceId(names[i]) == ParseCharDeviceId(names[j]);
      if j < n {
        assert IsOrphan(front[i], present) && ParseCharDeviceId(front[i]) == ParseCharDeviceId(front[j]);
      }
    }
  }

  /** An id is reported twice exactly when two entries spell it. */
  lemma {:induction false} RepeatsIff(names: seq<string>, present: set<string>)
    ensures NoRepeats(OrphanIds(names, present)) <==> !HasAlias(names, present)
  {
    if names == [] {
    } else {
      var n := |names| - 1;
      var front, last := names[..n], names[n];
      RepeatsIff(front, present);
      AliasExtends(names, present);
      if IsOrphan(last, present) {
        var id := ParseCharDeviceId(last).value;
        ReportedIff(front, present, id);
        NoRepeatsSnoc(OrphanIds(front, present), id);
        assert forall i | 0 <= i < n :: front[i] == names[i] && front[i] in front;
        assert OrphanIds(names, present) == OrphanIds(front, present) + [id];
        if id in OrphanIds(front, present) {
          var name :| name in front && ParseCharDeviceId(name) == Some(id);
          var i :| 0 <= i < n && front[i] == name;
          assert ParseCharDeviceId(names[i]) == ParseCharDeviceId(names[n]);
        }
        if i :| 0 <= i < n && ParseCharDeviceId(names[i]) == ParseCharDeviceId(names[n]) {
          assert front[i] in front && ParseCharDeviceId(front[i]) == Some(id);
        }
      } else {
        assert OrphanIds(names, present) == OrphanIds(front, present);
      }
    }
  }

  /** Any device listed under its own name and again with a zero in front is reported twice. */
  lemma AliasExample(id: nat)
    requires id < U32
    ensures OrphanIds([CharDeviceName(id), "ublkc" + (Zeros(1) + Print(id))], {}) == [id, id]
  {
    var own, alias := CharDeviceName(id), "ublkc" + (Zeros(1) + Print(id));
    CharDeviceIdIff(own, id);
    assert alias[5..] == Zeros(1) + Print(id);
    CharDeviceIdIff(alias, id);
    assert [own, alias][..1] == [own] && [own][..0] == [];
    assert OrphanIds([own], {}) == [id];
  }

  function NamesOf(entries: seq<Entry>): seq<string>
    requires EntryError !in entries
  {
    seq(|entries|, i requires 0 <= i < |entries| => entries[i].name)
  }

  lemma OneMoreEntry(entries: seq<Entry>, k: nat, present: set<string>)
    requires k < |entries| && EntryError !in entries[..k] && entries[k].Entry?
    ensures EntryError !in entries[..k + 1]
    ensures OrphanIds(NamesOf(entries[..k + 1]), present)
         == OrphanIds(NamesOf(entries[..k]), present)
            + if IsOrphan(entries[k].name, present) then [ParseCharDeviceId(entries[k].name).value] else []
  {
    assert entries[..k + 1] == entries[..k] + [entries[k]];
    var names := NamesOf(entries[..k + 1]);
    assert names[..|names| - 1] == NamesOf(entries[..k]);
  }

  /** `detect_orphans_in_dir`. */
  method DetectOrphansInDir(dir: Directory, present: set<string>) returns (r: Scan)
    ensures dir.Missing? ==> r == Orphans([])
    ensures r.ScanError? <==> dir.Unreadable? || (dir.Listing? && EntryError in dir.entries)
    ensures dir.Listing? && r.Orphans? ==> r.ids == OrphanIds(NamesOf(dir.entries), present)
  {
    match dir {
      case Missing => return Orphans([]);
      case Unreadable => return ScanError;
      case Listing(entries) =>
        r := ScanEntries(entries, present);
    }
  }

  method ScanEntries(entries: seq<Entry>, present: set<string>) returns (r: Scan)
    ensures r == if EntryError in entries then ScanError else Orphans(OrphanIds(NamesOf(entries), present))
  {
    var orphans: seq<nat> := [];
    for k := 0 to |entries|
      invariant EntryError !in entries[..k]
      invariant orphans == OrphanIds(NamesOf(entries[..k]), present)
    {
      if entries[k].EntryError? {
        return ScanError;
      }
      OneMoreEntry(entries, k, present);
      var id := ParseCharDeviceId(entries[k].name);
      if id.Some? {
        if BlockDeviceName(id.value) !in present {
          orphans := orphans + [id.value];
        }
      }
    }
    assert entries[..|entries|] == entries;
    return Orphans(orphans);
  }
}
