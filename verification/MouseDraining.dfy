/** How long a report of the REST mouse waits at most: every one leaves. */
module MouseDraining {
  import opened Common
  import opened MouseQueue
  import opened MousePacing

  /** Time passes and a free timer tick comes, once for each number. */
  function Rounds(w: World, gaps: seq<nat>): World
    decreases |gaps|
  {
    if gaps == [] then w else Rounds(Step(Step(w, Pass(gaps[0])), Timer(false)), gaps[1..])
  }

  /** The reports, one sent after each of the gaps. */
  function SentAfter(pending: seq<Report>, now: nat, gaps: seq<nat>): seq<Sent>
    requires |gaps| == |pending|
  {
    if pending == [] then []
    else [Sent(pending[0], now + gaps[0])] + SentAfter(pending[1..], now + gaps[0], gaps[1..])
  }

  /** The clock is right, the timer runs while reports wait, and none waits too long. */
  predicate Draining(w: World) {
    ClockOk(w) && AllFit(w.dev.queue.pending) && (w.dev.queue.pending != [] ==> w.dev.built && w.dev.running)
  }

  lemma RoundSends(w: World, gap: nat) returns (w': World)
    requires Draining(w) && w.dev.queue.pending != []
    requires MAX_WAIT_TICKS <= gap && w.now - w.since + gap < 0x8000_0000
    ensures w' == Step(Step(w, Pass(gap)), Timer(false))
    ensures Draining(w') && w'.dev.queue.pending == w.dev.queue.pending[1..] && w'.now == w.now + gap == w'.since
    ensures w'.sent == w.sent + [Sent(w.dev.queue.pending[0], w.now + gap)]
  {
    TicksAreReal(w.now + gap, w.since);
    assert Fits(w.dev.queue.pending[0]);
    w' := Step(Step(w, Pass(gap)), Timer(false));
  }

  lemma {:induction false} QueueEmpties(w: World, gaps: seq<nat>)
    requires Draining(w) && |gaps| == |w.dev.queue.pending|
    requires forall i :: 0 <= i < |gaps| ==> MAX_WAIT_TICKS <= gaps[i] < 0x8000_0000
    requires gaps != [] ==> w.now - w.since + gaps[0] < 0x8000_0000
    ensures Rounds(w, gaps).dev.queue.pending == []
    ensures Rounds(w, gaps).sent == w.sent + SentAfter(w.dev.queue.pending, w.now, gaps)
    decreases |gaps|
  {
    if gaps != [] {
      var w' := RoundSends(w, gaps[0]);
      QueueEmpties(w', gaps[1..]);
      Regroup(w.sent, [Sent(w.dev.queue.pending[0], w.now + gaps[0])],
               SentAfter(w'.dev.queue.pending, w'.now, gaps[1..]));
    }
  }

  lemma {:induction false} AllReportsFit(events: seq<Event>, k: nat)
    requires k <= |events| && AllValidated(events)
    ensures AllFit(AllReports(events, k))
  {
    if k > 0 {
      AllReportsFit(events, k - 1);
      ReportsAreExact(events[k - 1], TailOf(events, k - 1));
    }
  }

  /** In every reachable state a queue of n reports is empty after n free timer ticks, when each
      comes at least the longest wait after the one before and less than 2^31 ticks after it,
      the first one counted from the register's moment: every report has left then, in order. */
  lemma EveryReportLeaves(actions: seq<Action>, gaps: seq<nat>)
    requires Proper(actions) && |gaps| == |Run(actions).dev.queue.pending|
    requires forall i :: 0 <= i < |gaps| ==> MAX_WAIT_TICKS <= gaps[i] < 0x8000_0000
    requires gaps != [] ==> Run(actions).now - Run(actions).since + gaps[0] < 0x8000_0000
    ensures var w := Run(actions);
      && Rounds(w, gaps).dev.queue.pending == []
      && Rounds(w, gaps).sent == w.sent + SentAfter(w.dev.queue.pending, w.now, gaps)
  {
    var w := Run(actions);
    RunsAreOrdered(actions);
    RunsArePaced(actions);
    AllReportsFit(w.accepted, |w.accepted|);
    PendingFit(w.delivered, w.dev.queue.pending);
    QueueEmpties(w, gaps);
  }

  lemma PendingFit(delivered: seq<Report>, pending: seq<Report>)
    requires AllFit(delivered + pending)
    ensures AllFit(pending)
  {
    forall i | 0 <= i < |pending|
      ensures Fits(pending[i])
    {
      assert Fits((delivered + pending)[|delivered| + i]);
    }
  }

  // ---------------------------------------------------------------- in milliseconds

  /** Two sends are at least 20 milliseconds apart, a tick being 5. */
  lemma SpacedInMilliseconds(actions: seq<Action>, i: nat)
    requires Proper(actions) && i + 1 < |Run(actions).sent|
    ensures (Run(actions).sent[i + 1].at - Run(actions).sent[i].at) * 5 >= 20
  {
    SendsAreSpaced(actions, i);
  }

  // ---------------------------------------------------------------- an event delays nothing

  /** The state a while later, after a free timer tick. */
  function Later(w: World, ticks: nat): World {
    Step(Step(w, Pass(ticks)), Timer(false))
  }

  /** A free tick sends the first report. */
  predicate SendsAt(w: World, ticks: nat) {
    Later(w, ticks).sent != w.sent
  }

  /** Accepting a mouse event while reports are waiting does not change when the first of them
      leaves, although it may move the register. */
  lemma EventDelaysNothing(actions: seq<Action>, e: Event, ticks: nat)
    requires Proper(actions) && IsMouse(e) && Validated(e)
    requires var w := Run(actions);
      && w.dev.queue.pending != [] && ReportsFor(e) <= Room(w)
      && w.now - w.since + ticks < 0x8000_0000
    ensures var w := Run(actions);
      var posted := Step(w, Post([e]));
      && w.dev.queue.pending <= posted.dev.queue.pending
      && (SendsAt(posted, ticks) <==> SendsAt(w, ticks))
  {
    var w := Run(actions);
    RunsAreOrdered(actions);
    RunsArePaced(actions);
    AllReportsFit(w.accepted, |w.accepted|);
    PendingFit(w.delivered, w.dev.queue.pending);
    OneEventFits(e, Room(w));
    OneEventBatch(w, e);
    var q' := QueueTakesEvent(w.dev, e, w.now);
    MouseEventKeepsClock(w, e);
    TicksAreReal(w.now, w.since);
    DueByRealTime(w, ticks);
    DueByRealTime(OnEvent(w, e), ticks);
  }

  lemma DueByRealTime(w: World, ticks: nat)
    requires ClockOk(w) && w.dev.built && w.dev.running && w.dev.queue.pending != []
    requires w.now - w.since + ticks < 0x8000_0000
    ensures SendsAt(w, ticks) <==>
      w.now - w.since + ticks >= REPORT_TICKS && w.now - w.since + ticks >= w.dev.queue.pending[0].wait
  {
    TicksAreReal(w.now + ticks, w.since);
  }
}
