/**
 A daemon's end of its signal channel: a bounded queue that any handle appends to and the
 daemon takes from, and the shutdown flag.
 */
module DaemonContexts {
  import opened Options
  import opened Signals

  predicate Terminates(signal: Signal) {
    signal in {Term, Int, Quit}
  }

  datatype Contents = Contents(queue: seq<Signal>, shutdown: bool)

  /** `Send` is a send that found room; `Poll` is an attempt to take a signal. */
  datatype Event = Send(signal: Signal) | Poll | RequestShutdown

  function After(c: Contents, e: Event): Contents {
    match e
    case Send(signal) => c.(queue := c.queue + [signal])
    case Poll =>
      if c.queue == [] then c else Contents(c.queue[1..], c.shutdown || Terminates(c.queue[0]))
    case RequestShutdown => c.(shutdown := true)
  }

  function Run(h: seq<Event>): Contents {
    if h == [] then Contents([], false) else After(Run(h[..|h| - 1]), h[|h| - 1])
  }

  /** Every send in the history found room. */
  predicate Bounded(h: seq<Event>) {
    forall i | 0 <= i < |h| && h[i].Send? :: |Run(h[..i]).queue| < CAPACITY
  }

  function SentIn(h: seq<Event>): seq<Signal> {
    if h == [] then []
    else SentIn(h[..|h| - 1]) + if h[|h| - 1].Send? then [h[|h| - 1].signal] else []
  }

  /** The signals that polls returned, in order. */
  function ReceivedIn(h: seq<Event>): seq<Signal> {
    if h == [] then []
    else
      var g := h[..|h| - 1];
      ReceivedIn(g) + if h[|h| - 1].Poll? && Run(g).queue != [] then [Run(g).queue[0]] else []
  }

  function Polls(h: seq<Event>): nat {
    if h == [] then 0 else Polls(h[..|h| - 1]) + if h[|h| - 1].Poll? then 1 else 0
  }

  /** Nothing is lost, repeated or reordered: what was sent is what was received, then what
      still waits. */
  lemma {:induction false} Fifo(h: seq<Event>)
    ensures SentIn(h) == ReceivedIn(h) + Run(h).queue
  {
    if h == [] {
    } else {
      var g := h[..|h| - 1];
      Fifo(g);
      if h[|h| - 1].Poll? && Run(g).queue != [] {
        assert Run(g).queue == [Run(g).queue[0]] + Run(g).queue[1..];
      }
    }
  }

  lemma {:induction false} QueueIsBounded(h: seq<Event>)
    requires Bounded(h)
    ensures |Run(h).queue| <= 16
  {
    if h == [] {
    } else {
      var g := h[..|h| - 1];
      assert forall i | 0 <= i < |g| :: g[..i] == h[..i] && g[i] == h[i];
      QueueIsBounded(g);
    }
  }

  /** The flag is set exactly when a shutdown was requested or a termination signal taken. */
  lemma {:induction false} ShutdownIff(h: seq<Event>)
    ensures Run(h).shutdown <==>
              RequestShutdown in h || Term in ReceivedIn(h) || Int in ReceivedIn(h) || Quit in ReceivedIn(h)
  {
    if h == [] {
    } else {
      var g := h[..|h| - 1];
      ShutdownIff(g);
      assert h == g + [h[|h| - 1]];
      if h[|h| - 1].Poll? && Run(g).queue != [] {
        assert ReceivedIn(h) == ReceivedIn(g) + [Run(g).queue[0]];
        assert Run(g).queue[0] in ReceivedIn(h);
      }
      assert forall s | s in ReceivedIn(g) :: s in ReceivedIn(h);
    }
  }

  /** Polls take every signal sent before them, as far as there are polls. */
  lemma {:induction false} PollsReceive(h: seq<Event>, more: seq<Event>)
    ensures ReceivedIn(h) <= ReceivedIn(h + more)
    ensures |ReceivedIn(h + more)| >= |SentIn(h)| || |ReceivedIn(h + more)| >= |ReceivedIn(h)| + Polls(more)
    ensures SentIn(h) <= SentIn(h + more)
    decreases |more|
  {
    if more == [] {
      assert h + more == h;
    } else {
      var less, run := more[..|more| - 1], h + more;
      PollsReceive(h, less);
      assert run[..|run| - 1] == h + less;
      Fifo(h + less);
    }
  }

  /** A termination signal that a handle managed to send is acted on after at most sixteen
      polls, whatever else is sent in the meantime. */
  lemma SixteenPollsSuffice(h: seq<Event>, more: seq<Event>, signal: Signal)
    requires Bounded(h) && signal in SentIn(h) && signal in {Term, Int, Quit}
    requires Polls(more) >= 16
    ensures Run(h + more).shutdown
  {
    Fifo(h);
    QueueIsBounded(h);
    PollsReceive(h, more);
    Fifo(h + more);
    assert SentIn(h) <= ReceivedIn(h + more);
    ShutdownIff(h + more);
  }

  lemma {:induction false} FillBeforeTerm(n: nat) returns (h: seq<Event>)
    requires n < CAPACITY
    ensures Bounded(h) && |SentIn(h)| == n && Run(h) == Contents(SentIn(h), false)
    ensures forall i | 0 <= i < n :: SentIn(h)[i] == Hup
  {
    if n == 0 {
      h := [];
    } else {
      var g := FillBeforeTerm(n - 1);
      h := g + [Send(Hup)];
      assert h[..|h| - 1] == g;
      assert forall i | 0 <= i < |g| :: g[..i] == h[..i] && g[i] == h[i];
    }
  }

  lemma RunExtends(h: seq<Event>, e: Event)
    ensures Run(h + [e]) == After(Run(h), e)
    ensures Polls(h + [e]) == Polls(h) + if e.Poll? then 1 else 0
  {
    assert (h + [e])[..|h + [e]| - 1] == h;
  }

  lemma {:induction false} PollingHups(h: seq<Event>, queue: seq<Signal>, n: nat) returns (more: seq<Event>)
    requires Run(h) == Contents(queue, false) && n < |queue|
    requires forall i | 0 <= i < n :: queue[i] == Hup
    ensures Polls(more) == n && Run(h + more) == Contents(queue[n..], false)
  {
    if n == 0 {
      more := [];
      assert h + more == h;
    } else {
      var less := PollingHups(h, queue, n - 1);
      more := less + [Poll];
      RunExtends(less, Poll);
      RunExtends(h + less, Poll);
      assert h + more == (h + less) + [Poll];
      assert queue[n - 1..][1..] == queue[n..];
    }
  }

  /** Sixteen is sharp. */
  lemma FifteenPollsAreNotEnough() returns (h: seq<Event>, more: seq<Event>)
    ensures Bounded(h) && Term in SentIn(h) && Polls(more) == 15
    ensures !Run(h + more).shutdown
  {
    var g := FillBeforeTerm(CAPACITY - 1);
    h := g + [Send(Term)];
    RunExtends(g, Send(Term));
    assert h[..|h| - 1] == g;
    assert forall i | 0 <= i < |g| :: g[..i] == h[..i] && g[i] == h[i];
    assert Run(h).queue == SentIn(g) + [Term];
    more := PollingHups(h, SentIn(g) + [Term], CAPACITY - 1);
  }

  // ----- the context and its handles

  datatype SendResult = Sent | MustWait | ContextClosed

  class DaemonContext {
    var queue: seq<Signal>
    var shutdown: bool
    var dropped: bool
    ghost var history: seq<Event>

    ghost predicate Valid()
      reads this
    {
      Contents(queue, shutdown) == Run(history) && Bounded(history)
    }

    constructor ()
      ensures Valid() && history == [] && !dropped
    {
      queue, shutdown, dropped, history := [], false, false, [];
    }

    /** The daemon exits: its handles remain. */
    method Drop()
      requires Valid()
      modifies `dropped
      ensures Valid() && dropped
    {
      dropped := true;
    }

    method RequestShutdown()
      requires Valid() && !dropped
      modifies `shutdown, `history
      ensures Valid() && history == old(history) + [Event.RequestShutdown]
    {
      shutdown := true;
      Log(Event.RequestShutdown);
    }

    /** Signals come out in the order they were sent; None means that all of them have. */
    method TryRecvSignal() returns (r: Option<Signal>)
      requires Valid() && !dropped
      modifies `queue, `shutdown, `history
      ensures Valid() && history == old(history) + [Poll]
      ensures r == None <==> SentIn(old(history)) == ReceivedIn(old(history))
      ensures r.Some? ==> ReceivedIn(old(history)) + [r.value] == ReceivedIn(history) <= SentIn(history)
      ensures shutdown <==> old(shutdown) || r in {Some(Term), Some(Int), Some(Quit)}
    {
      Fifo(history);
      if queue == [] {
        r := None;
      } else {
        var signal := queue[0];
        queue := queue[1..];
        if signal in {Term, Int, Quit} {
          shutdown := true;
        }
        r := Some(signal);
      }
      Log(Poll);
      Fifo(history);
    }

    /** A handle's send, as far as it gets without waiting. */
    method SendSignal(signal: Signal) returns (r: SendResult)
      requires Valid()
      modifies `queue, `history
      ensures Valid() && history == if r.Sent? then old(history) + [Send(signal)] else old(history)
      ensures r.ContextClosed? <==> dropped
      ensures r.MustWait? <==> !dropped && |SentIn(old(history))| - |ReceivedIn(old(history))| == 16
    {
      Fifo(history);
      QueueIsBounded(history);
      if dropped {
        return ContextClosed;
      }
      if |queue| == CAPACITY {
        return MustWait;
      }
      queue := queue + [signal];
      Log(Send(signal));
      return Sent;
    }

    ghost method Log(e: Event)
      requires Contents(queue, shutdown) == After(Run(history), e) && Bounded(history)
      requires e.Send? ==> |Run(history).queue| < CAPACITY
      modifies `history
      ensures Valid() && history == old(history) + [e]
    {
      var was := history;
      history := history + [e];
      assert history[..|history| - 1] == was;
      assert forall i | 0 <= i < |was| :: was[..i] == history[..i] && was[i] == history[i];
    }
  }
}
