/** What each event does to the mouse, button by button and report by report. */
module MouseReports {
  import opened Common
  import opened MouseQueue
  import opened MousePacing

  /** The reports an event added to a queue. */
  function Added(q: Queue, e: Event): seq<Report> {
    AppendTo(q, e).pending[if |q.pending| <= |AppendTo(q, e).pending| then |q.pending| else 0..]
  }

  /** Nothing moves, nothing scrolls. */
  predicate Still(r: Report) {
    r.dx == 0 && r.dy == 0 && r.wheel == 0 && r.pan == 0
  }

  /** A wait that is as long as so many milliseconds, a tick being 5, and no longer than need be. */
  predicate LeastWait(wait: int, milliseconds: int) {
    wait * 5 >= milliseconds && (wait - 1) * 5 < milliseconds
  }

  lemma AddedIs(q: Queue, e: Event)
    requires Validated(e) && |q.pending| + ReportsFor(e) <= CAPACITY
    ensures AppendTo(q, e).pending == q.pending + Added(q, e)
    ensures Added(q, e) == Reports(e, q.tail) && AppendTo(q, e).tail == TailAfter(e, q.tail)
    ensures |Added(q, e)| == ReportsFor(e)
  {
    AppendIsExact(q, e);
    ReportsAreExact(e, q.tail);
  }

  /** A press leaves down what was down and the named buttons, and a release what was down but
      them. A tap is two reports: the named buttons down, and after 40 milliseconds up again;
      all other buttons are as before in both. */
  lemma ButtonsDo(q: Queue, e: Event, b: Button)
    requires e.Buttons? && |q.pending| + 2 <= 1024
    ensures var added, tail := Added(q, e), AppendTo(q, e).tail;
      && AppendTo(q, e).pending == q.pending + added
      && |added| == (if e.transition == Tap then 2 else 1)
      && (forall i :: 0 <= i < |added| ==> Still(added[i]))
      && added[0].wait == 0
      && match e.transition
         case Press =>
           && (b in added[0].buttons <==> b in q.tail || b in e.mask)
           && (b in tail <==> b in q.tail || b in e.mask)
         case Release =>
           && (b in added[0].buttons <==> b in q.tail && b !in e.mask)
           && (b in tail <==> b in q.tail && b !in e.mask)
         case Tap =>
           && (b in added[0].buttons <==> b in q.tail || b in e.mask)
           && (b in added[1].buttons <==> b in q.tail && b !in e.mask)
           && (b in tail <==> b in q.tail && b !in e.mask)
           && LeastWait(added[1].wait, 40)
  {
    AddedIs(q, e);
  }

  /** A move is one report with its displacement, at once and with the buttons as they are. */
  lemma MoveDoes(q: Queue, x: int, y: int)
    requires -127 <= x <= 127 && -127 <= y <= 127 && |q.pending| < 1024
    ensures AppendTo(q, Move(x, y)) == Queue(q.pending + [Report(q.tail, x, y, 0, 0, 0)], q.tail)
  {
    AddedIs(q, Move(x, y));
  }

  /** A wheel event is a report a detent, the vertical ones first, each of one detent the right
      way and without a wait of its own. */
  lemma WheelDoes(q: Queue, v: int, h: int)
    requires -64 <= v <= 64 && -64 <= h <= 64 && (v != 0 || h != 0)
    requires |q.pending| + Abs(v) + Abs(h) <= 1024
    ensures var added := Added(q, Wheel(v, h));
      && AppendTo(q, Wheel(v, h)) == Queue(q.pending + added, q.tail) && |added| == Abs(v) + Abs(h)
      && (forall i :: 0 <= i < Abs(v) ==> added[i] == Report(q.tail, 0, 0, if v > 0 then 1 else -1, 0, 0))
      && forall i :: Abs(v) <= i < |added| ==> added[i] == Report(q.tail, 0, 0, 0, if h > 0 then 1 else -1, 0)
  {
    AddedIs(q, Wheel(v, h));
    TurnsAre(q.tail, v, true);
    TurnsAre(q.tail, h, false);
  }

  lemma {:induction false} TurnsAre(tail: set<Button>, detents: int, vertical: bool)
    ensures |Turns(tail, detents, vertical)| == Abs(detents)
    ensures forall i :: 0 <= i < Abs(detents) ==>
      var d := if detents > 0 then 1 else -1;
      Turns(tail, detents, vertical)[i] == if vertical then Report(tail, 0, 0, d, 0, 0) else Report(tail, 0, 0, 0, d, 0)
    decreases Abs(detents)
  {
    if detents != 0 {
      TurnsAre(tail, if detents > 0 then detents - 1 else detents + 1, vertical);
    }
  }

  /** A path is a report a step with the step's displacement; all but the first wait for the
      fewest ticks that are as long as the interval. */
  lemma PathDoes(q: Queue, e: Event)
    requires e.Path? && Validated(e) && |q.pending| + |e.steps| <= 1024
    ensures var added := Added(q, e);
      && AppendTo(q, e) == Queue(q.pending + added, q.tail) && |added| == |e.steps|
      && forall i :: 0 <= i < |added| ==>
           && added[i].buttons == q.tail && added[i].wheel == 0 && added[i].pan == 0
           && added[i].dx == e.steps[i].0 && added[i].dy == e.steps[i].1
           && if i == 0 then added[i].wait == 0 else LeastWait(added[i].wait, e.interval)
  {
    PathAdds(q, e, TicksFor(e.interval, MS_PER_TICK));
    TicksForIsLeast(e.interval, MS_PER_TICK);
  }

  lemma PathAdds(q: Queue, e: Event, interval: nat)
    requires e.Path? && Validated(e) && |q.pending| + |e.steps| <= 1024
    requires interval == TicksFor(e.interval, MS_PER_TICK)
    ensures AppendTo(q, e) == Queue(q.pending + Added(q, e), q.tail) && |Added(q, e)| == |e.steps|
    ensures forall i :: 0 <= i < |e.steps| ==>
      Added(q, e)[i] == Report(q.tail, e.steps[i].0, e.steps[i].1, 0, 0, if i == 0 then 0 else interval)
  {
    AddedIs(q, e);
    StrokesAre(q.tail, e.steps, 0, interval);
    forall i | 0 <= i < |e.steps|
      ensures Added(q, e)[i] == Report(q.tail, e.steps[i].0, e.steps[i].1, 0, 0, if i == 0 then 0 else interval)
    {
      assert Strokes(q.tail, e.steps, 0, interval)[i - 0]
          == Report(q.tail, e.steps[i].0, e.steps[i].1, 0, 0, if i == 0 then 0 else interval);
    }
  }

  lemma {:induction false} StrokesAre(tail: set<Button>, steps: seq<(int, int)>, from: nat, interval: int)
    requires from <= |steps|
    ensures |Strokes(tail, steps, from, interval)| == |steps| - from
    ensures forall i :: from <= i < |steps| ==>
      Strokes(tail, steps, from, interval)[i - from]
      == Report(tail, steps[i].0, steps[i].1, 0, 0, if i == 0 then 0 else interval)
    decreases |steps| - from
  {
    if from < |steps| {
      StrokesAre(tail, steps, from + 1, interval);
    }
  }

  // ---------------------------------------------------------------- what is held

  /** Event `e` presses the button and keeps it down. */
  predicate Presses(e: Event, b: Button) {
    e.Buttons? && e.transition == Press && b in e.mask
  }

  /** Event `e` leaves the button up. */
  predicate Lifts(e: Event, b: Button) {
    e.Buttons? && e.transition != Press && b in e.mask
  }

  /** The last of the first `n` events that names the button is a press. */
  predicate HeldAfter(events: seq<Event>, n: nat, b: Button)
    requires n <= |events|
  {
    exists i :: 0 <= i < n && Presses(events[i], b) && forall k :: i < k < n ==> !Lifts(events[k], b)
  }

  /** The buttons a queue leaves down are those whose last event since the last release of
      everything was a press. */
  lemma {:induction false} HeldIsHistory(events: seq<Event>, n: nat, b: Button)
    requires n <= |events|
    ensures b in TailOf(events, n) <==> HeldAfter(events, n, b)
  {
    if n > 0 {
      HeldIsHistory(events, n - 1, b);
      var e := events[n - 1];
      if Presses(e, b) {
        assert HeldAfter(events, n, b);
      } else if !Lifts(e, b) {
        assert HeldAfter(events, n - 1, b) <==> HeldAfter(events, n, b);
      }
    }
  }

  /** In every reachable state. */
  lemma TailIsHistory(actions: seq<Action>, b: Button)
    requires Proper(actions)
    ensures var w := Run(actions);
      b in w.dev.queue.tail <==> HeldAfter(w.accepted, |w.accepted|, b)
  {
    RunsAreOrdered(actions);
    HeldIsHistory(Run(actions).accepted, |Run(actions).accepted|, b);
  }
}
