/** The REST mouse's report queue of rest_mouse_queue.h: what each event adds, which batches fit,
    and that nothing is lost or cut. */
module MouseQueue {

  const CAPACITY := 1024
  const MS_PER_TICK := 5
  const TAP_HOLD_TICKS := 8
  const MAX_MOTION := 127
  const MAX_DETENTS := 64
  const MAX_PATH_STEPS := 256
  const MIN_INTERVAL_MS := 20
  const MAX_INTERVAL_MS := 1000
  const MAX_WAIT_TICKS := 200

  /** The buttons a request can name: the three low bits of a report's button byte. */
  datatype Button = Left | Right | Middle

  datatype Report = Report(buttons: set<Button>, dx: int, dy: int, wheel: int, pan: int, wait: int)

  datatype Transition = Press | Release | Tap

  datatype Event =
    | Buttons(mask: set<Button>, transition: Transition)
    | Move(x: int, y: int)
    | Wheel(vertical: int, horizontal: int)
    | Path(steps: seq<(int, int)>, interval: nat)
    | ReleaseAll
    | NotMouse

  /** The pending reports, and the buttons as the last queued report leaves them. */
  datatype Queue = Queue(pending: seq<Report>, tail: set<Button>)

  // ---------------------------------------------------------------- widths

  function Int8(v: int): int {
    (v + 0x80) % 0x100 - 0x80
  }

  function Uint16(v: int): int {
    v % 0x1_0000
  }

  /** What a report's fields keep of the numbers pushed. */
  function Cut(r: Report): Report {
    Report(r.buttons, Int8(r.dx), Int8(r.dy), Int8(r.wheel), Int8(r.pan), Uint16(r.wait))
  }

  /** Numbers that a report holds as they are. */
  predicate Fits(r: Report) {
    -MAX_MOTION <= r.dx <= MAX_MOTION && -MAX_MOTION <= r.dy <= MAX_MOTION
    && -1 <= r.wheel <= 1 && -1 <= r.pan <= 1 && 0 <= r.wait <= MAX_WAIT_TICKS
  }

  predicate AllFit(s: seq<Report>) {
    forall i :: 0 <= i < |s| ==> Fits(s[i])
  }

  lemma CutIsExact(r: Report)
    requires Fits(r)
    ensures Cut(r) == r
  {
  }

  // ---------------------------------------------------------------- events

  /** What the validation of a request lets through. */
  predicate Validated(e: Event) {
    match e
    case Buttons(_, _) => true
    case Move(x, y) => -MAX_MOTION <= x <= MAX_MOTION && -MAX_MOTION <= y <= MAX_MOTION
    case Wheel(v, h) => -MAX_DETENTS <= v <= MAX_DETENTS && -MAX_DETENTS <= h <= MAX_DETENTS && (v != 0 || h != 0)
    case Path(steps, interval) =>
      1 <= |steps| <= MAX_PATH_STEPS && MIN_INTERVAL_MS <= interval <= MAX_INTERVAL_MS
      && forall i :: 0 <= i < |steps| ==>
        -MAX_MOTION <= steps[i].0 <= MAX_MOTION && -MAX_MOTION <= steps[i].1 <= MAX_MOTION
    case ReleaseAll => true
    case NotMouse => true
  }

  predicate IsMouse(e: Event) {
    !e.ReleaseAll? && !e.NotMouse?
  }

  /** The fewest ticks, but at least one, that are as long as the milliseconds. */
  function TicksFor(ms: nat, perTick: nat): nat
    requires perTick > 0
  {
    if ms <= perTick then 1 else 1 + TicksFor(ms - perTick, perTick)
  }

  lemma {:induction false} TicksForIsLeast(ms: nat, perTick: nat)
    requires perTick > 0
    ensures var t := TicksFor(ms, perTick);
      t >= 1 && t * perTick >= ms && (t == 1 || (t - 1) * perTick < ms)
  {
    if ms > perTick {
      TicksForIsLeast(ms - perTick, perTick);
      var t := TicksFor(ms - perTick, perTick);
      assert (t + 1) * perTick == t * perTick + perTick;
      assert t * perTick == (t - 1) * perTick + perTick;
    }
  }

  /** They are computed by rounding up. */
  method RoundedTicks(milliseconds: nat, millisecondsPerTick: nat) returns (ticks: nat)
    requires millisecondsPerTick > 0
    ensures ticks == TicksFor(milliseconds, millisecondsPerTick)
  {
    ticks := (milliseconds + millisecondsPerTick - 1) / millisecondsPerTick;
    RoundingUp(milliseconds, millisecondsPerTick);
    if ticks == 0 {
      ticks := 1;
    }
  }

  lemma {:induction false} RoundingUp(ms: nat, per: nat)
    requires per > 0
    ensures var q := (ms + per - 1) / per; TicksFor(ms, per) == if q == 0 then 1 else q
  {
    if ms == 0 {
      QuotientIs(per - 1, per, 0);
    } else if ms <= per {
      QuotientIs(ms + per - 1, per, 1);
    } else {
      RoundingUp(ms - per, per);
      var q := (ms - 1) / per;
      assert ms - 1 == q * per + (ms - 1) % per && (q + 1) * per == q * per + per;
      QuotientIs(ms + per - 1, per, q + 1);
      AtLeastOne(ms - 1, per);
    }
  }

  lemma AtLeastOne(a: nat, per: nat)
    requires 0 < per <= a
    ensures a / per >= 1
  {
    assert a == a / per * per + a % per;
  }

  lemma QuotientIs(a: nat, per: nat, q: nat)
    requires per > 0 && q * per <= a < q * per + per
    ensures a / per == q
  {
    var d := a / per;
    assert a == d * per + a % per;
    Products(d, q, per);
    Products(q, d, per);
  }

  lemma {:induction false} Products(x: nat, y: nat, per: nat)
    ensures x < y ==> x * per + per <= y * per
    decreases y
  {
    if x < y {
      assert y * per == (y - 1) * per + per;
      if x < y - 1 {
        Products(x, y - 1, per);
      }
    }
  }

  function Abs(v: int): nat {
    if v < 0 then -v else v
  }

  function ReportsFor(e: Event): nat {
    match e
    case Buttons(_, transition) => if transition == Tap then 2 else 1
    case Move(_, _) => 1
    case Wheel(v, h) => Abs(v) + Abs(h)
    case Path(steps, _) => |steps|
    case ReleaseAll => 0
    case NotMouse => 0
  }

  // ---------------------------------------------------------------- the reports of an event

  function Turns(tail: set<Button>, detents: int, vertical: bool): seq<Report>
    decreases Abs(detents)
  {
    if detents == 0 then []
    else
      var d := if detents > 0 then 1 else -1;
      [if vertical then Report(tail, 0, 0, d, 0, 0) else Report(tail, 0, 0, 0, d, 0)]
      + Turns(tail, detents - d, vertical)
  }

  function Strokes(tail: set<Button>, steps: seq<(int, int)>, from: nat, interval: int): seq<Report>
    requires from <= |steps|
    decreases |steps| - from
  {
    if from == |steps| then []
    else [Report(tail, steps[from].0, steps[from].1, 0, 0, if from == 0 then 0 else interval)]
         + Strokes(tail, steps, from + 1, interval)
  }

  /** The reports an event asks for when the queue leaves the buttons at `tail`. */
  function Reports(e: Event, tail: set<Button>): seq<Report> {
    match e
    case Buttons(mask, Press) => [Report(tail + mask, 0, 0, 0, 0, 0)]
    case Buttons(mask, Release) => [Report(tail - mask, 0, 0, 0, 0, 0)]
    case Buttons(mask, Tap) =>
      [Report(tail + mask, 0, 0, 0, 0, 0), Report((tail + mask) - mask, 0, 0, 0, 0, TAP_HOLD_TICKS)]
    case Move(x, y) => [Report(tail, x, y, 0, 0, 0)]
    case Wheel(v, h) => Turns(tail, v, true) + Turns(tail, h, false)
    case Path(steps, interval) => Strokes(tail, steps, 0, TicksFor(interval, MS_PER_TICK))
    case ReleaseAll => []
    case NotMouse => []
  }

  /** The buttons an event leaves. */
  function TailAfter(e: Event, tail: set<Button>): set<Button> {
    match e
    case Buttons(mask, Press) => tail + mask
    case Buttons(mask, Release) => tail - mask
    case Buttons(mask, Tap) => (tail + mask) - mask
    case _ => tail
  }

  // ---------------------------------------------------------------- the queue

  /** Pushing a report; a full queue drops it. */
  function Push(q: Queue, r: Report): Queue {
    if |q.pending| >= CAPACITY then q else Queue(q.pending + [Cut(r)], r.buttons)
  }

  function PushAll(q: Queue, s: seq<Report>): Queue
    decreases |s|
  {
    if s == [] then q else PushAll(Push(q, s[0]), s[1..])
  }

  function AppendTo(q: Queue, e: Event): Queue {
    PushAll(q, Reports(e, q.tail))
  }

  lemma {:induction false} PushTwo(q: Queue, a: seq<Report>, b: seq<Report>)
    ensures PushAll(q, a + b) == PushAll(PushAll(q, a), b)
    decreases |a|
  {
    if a == [] {
      assert a + b == b;
    } else {
      assert (a + b)[0] == a[0] && (a + b)[1..] == a[1..] + b;
      PushTwo(Push(q, a[0]), a[1..], b);
    }
  }

  // ---------------------------------------------------------------- counting and fitting

  lemma {:induction false} TurnsCount(tail: set<Button>, detents: int, vertical: bool)
    ensures |Turns(tail, detents, vertical)| == Abs(detents)
    ensures AllFit(Turns(tail, detents, vertical))
    ensures forall i :: 0 <= i < Abs(detents) ==> Turns(tail, detents, vertical)[i].buttons == tail
    decreases Abs(detents)
  {
    if detents != 0 {
      TurnsCount(tail, if detents > 0 then detents - 1 else detents + 1, vertical);
    }
  }

  lemma {:induction false} StrokesCount(tail: set<Button>, steps: seq<(int, int)>, from: nat, interval: int)
    requires from <= |steps| && 0 <= interval <= MAX_WAIT_TICKS
    ensures |Strokes(tail, steps, from, interval)| == |steps| - from
    ensures (forall i :: 0 <= i < |steps| ==>
        -MAX_MOTION <= steps[i].0 <= MAX_MOTION && -MAX_MOTION <= steps[i].1 <= MAX_MOTION) ==>
      AllFit(Strokes(tail, steps, from, interval))
    ensures forall i :: 0 <= i < |steps| - from ==> Strokes(tail, steps, from, interval)[i].buttons == tail
    decreases |steps| - from
  {
    if from < |steps| {
      StrokesCount(tail, steps, from + 1, interval);
    }
  }

  /** The reports of a validated event are as many as reportsFor says, all of their numbers fit
      into a report, and the last one leaves the event's buttons. */
  lemma ReportsAreExact(e: Event, tail: set<Button>)
    requires Validated(e)
    ensures |Reports(e, tail)| == ReportsFor(e) && AllFit(Reports(e, tail))
    ensures IsMouse(e) ==> ReportsFor(e) > 0
    ensures TailAfter(e, tail) == if ReportsFor(e) == 0 then tail else Reports(e, tail)[ReportsFor(e) - 1].buttons
  {
    if e.Wheel? {
      TurnsCount(tail, e.vertical, true);
      TurnsCount(tail, e.horizontal, false);
    } else if e.Path? {
      TicksForIsLeast(e.interval, MS_PER_TICK);
      StrokesCount(tail, e.steps, 0, TicksFor(e.interval, MS_PER_TICK));
    }
  }

  /** Pushing exact reports into enough room only adds them. */
  lemma {:induction false} PushAllAdds(q: Queue, s: seq<Report>)
    requires AllFit(s) && |q.pending| + |s| <= CAPACITY
    ensures PushAll(q, s) == Queue(q.pending + s, if s == [] then q.tail else s[|s| - 1].buttons)
    decreases |s|
  {
    if s != [] {
      CutIsExact(s[0]);
      PushAllAdds(Push(q, s[0]), s[1..]);
      assert q.pending + [s[0]] + s[1..] == q.pending + s;
    }
  }

  /** Appending a validated event that fits adds exactly its reports, uncut. */
  lemma AppendIsExact(q: Queue, e: Event)
    requires Validated(e) && |q.pending| + ReportsFor(e) <= CAPACITY
    ensures AppendTo(q, e) == Queue(q.pending + Reports(e, q.tail), TailAfter(e, q.tail))
    ensures |AppendTo(q, e).pending| == |q.pending| + ReportsFor(e)
  {
    ReportsAreExact(e, q.tail);
    PushAllAdds(q, Reports(e, q.tail));
  }

  // ---------------------------------------------------------------- admission

  /** The loop of batchFits from event `i` on. */
  function BatchFits(events: seq<Event>, i: nat, needed: nat, room: int): bool
    requires i <= |events|
    decreases |events| - i
  {
    if i == |events| then needed <= room
    else if events[i].ReleaseAll? then needed <= room && BatchFits(events, i + 1, 0, CAPACITY)
    else BatchFits(events, i + 1, needed + ReportsFor(events[i]), room)
  }

  /** One event on the queue: mouse events are appended, a release of everything clears. */
  function ApplyTo(q: Queue, e: Event): Queue {
    if e.ReleaseAll? then Queue([], {}) else if IsMouse(e) then AppendTo(q, e) else q
  }

  /** Whether applying the events from `i` on reaches a push that drops its report. */
  predicate Drops(q: Queue, events: seq<Event>, i: nat)
    requires i <= |events|
    decreases |events| - i
  {
    i < |events|
    && (DropsIn(q, if IsMouse(events[i]) then Reports(events[i], q.tail) else [])
        || Drops(ApplyTo(q, events[i]), events, i + 1))
  }

  /** Whether pushing these reports one by one drops one. */
  predicate DropsIn(q: Queue, s: seq<Report>)
    decreases |s|
  {
    s != [] && (|q.pending| >= CAPACITY || DropsIn(Push(q, s[0]), s[1..]))
  }

  lemma {:induction false} DropsInExactly(q: Queue, s: seq<Report>)
    requires |q.pending| <= CAPACITY
    ensures DropsIn(q, s) == (|q.pending| + |s| > CAPACITY)
    decreases |s|
  {
    if s != [] && |q.pending| < CAPACITY {
      DropsInExactly(Push(q, s[0]), s[1..]);
    }
  }

  /** Room that is short stays short until everything is released. */
  lemma {:induction false} TooMuchStaysTooMuch(events: seq<Event>, i: nat, needed: nat, room: int)
    requires i <= |events| && needed > room
    ensures !BatchFits(events, i, needed, room)
    decreases |events| - i
  {
    if i < |events| && !events[i].ReleaseAll? {
      TooMuchStaysTooMuch(events, i + 1, needed + ReportsFor(events[i]), room);
    }
  }

  /** batchFits accepts a batch exactly when applying it event by event never drops a report:
      `needed` are the reports queued since the part began with `room`. */
  lemma {:induction false} BatchFitsExactly(q: Queue, events: seq<Event>, i: nat, needed: nat, room: int)
    requires i <= |events| && forall k :: 0 <= k < |events| ==> Validated(events[k])
    requires |q.pending| <= CAPACITY && needed <= room && CAPACITY - |q.pending| == room - needed
    ensures BatchFits(events, i, needed, room) == !Drops(q, events, i)
    decreases |events| - i
  {
    if i < |events| {
      var e := events[i];
      if e.ReleaseAll? {
        BatchFitsExactly(ApplyTo(q, e), events, i + 1, 0, CAPACITY);
      } else if IsMouse(e) {
        ReportsAreExact(e, q.tail);
        DropsInExactly(q, Reports(e, q.tail));
        if |q.pending| + ReportsFor(e) > CAPACITY {
          TooMuchStaysTooMuch(events, i + 1, needed + ReportsFor(e), room);
        } else {
          AppendIsExact(q, e);
          BatchFitsExactly(ApplyTo(q, e), events, i + 1, needed + ReportsFor(e), room);
        }
      } else {
        BatchFitsExactly(q, events, i + 1, needed, room);
      }
    }
  }

  /** The law of admission, for a whole batch on a queue. */
  lemma AdmissionIsExact(q: Queue, events: seq<Event>)
    requires |q.pending| <= CAPACITY && forall k :: 0 <= k < |events| ==> Validated(events[k])
    ensures BatchFits(events, 0, 0, CAPACITY - |q.pending|) <==> !Drops(q, events, 0)
  {
    BatchFitsExactly(q, events, 0, 0, CAPACITY - |q.pending|);
  }

  // ---------------------------------------------------------------- conservation

  /** Displacement and detents. */
  datatype Motion = Motion(dx: int, dy: int, wheel: int, pan: int)

  const NO_MOTION := Motion(0, 0, 0, 0)

  function Plus(a: Motion, b: Motion): Motion {
    Motion(a.dx + b.dx, a.dy + b.dy, a.wheel + b.wheel, a.pan + b.pan)
  }

  function Moved(s: seq<Report>): Motion {
    if s == [] then NO_MOTION
    else Plus(Motion(s[0].dx, s[0].dy, s[0].wheel, s[0].pan), Moved(s[1..]))
  }

  function PathMotion(steps: seq<(int, int)>, from: nat): Motion
    requires from <= |steps|
    decreases |steps| - from
  {
    if from == |steps| then NO_MOTION
    else Plus(Motion(steps[from].0, steps[from].1, 0, 0), PathMotion(steps, from + 1))
  }

  /** What an event asks for. */
  function Asked(e: Event): Motion {
    match e
    case Move(x, y) => Motion(x, y, 0, 0)
    case Wheel(v, h) => Motion(0, 0, v, h)
    case Path(steps, _) => PathMotion(steps, 0)
    case _ => NO_MOTION
  }

  lemma {:induction false} MovedTogether(a: seq<Report>, b: seq<Report>)
    ensures Moved(a + b) == Plus(Moved(a), Moved(b))
    decreases |a|
  {
    if a == [] {
      assert a + b == b;
    } else {
      assert (a + b)[0] == a[0] && (a + b)[1..] == a[1..] + b;
      MovedTogether(a[1..], b);
    }
  }

  lemma MovedFirst(r: Report, s: seq<Report>)
    ensures Moved([r] + s) == Plus(Motion(r.dx, r.dy, r.wheel, r.pan), Moved(s))
  {
    assert ([r] + s)[1..] == s;
  }

  lemma {:induction false} MovedTurns(tail: set<Button>, detents: int, vertical: bool)
    ensures Moved(Turns(tail, detents, vertical))
         == if vertical then Motion(0, 0, detents, 0) else Motion(0, 0, 0, detents)
    decreases Abs(detents)
  {
    if detents != 0 {
      var d := if detents > 0 then 1 else -1;
      MovedTurns(tail, detents - d, vertical);
      MovedFirst(if vertical then Report(tail, 0, 0, d, 0, 0) else Report(tail, 0, 0, 0, d, 0),
                 Turns(tail, detents - d, vertical));
    }
  }

  lemma {:induction false} MovedStrokes(tail: set<Button>, steps: seq<(int, int)>, from: nat, interval: int)
    requires from <= |steps|
    ensures Moved(Strokes(tail, steps, from, interval)) == PathMotion(steps, from)
    decreases |steps| - from
  {
    if from < |steps| {
      MovedStrokes(tail, steps, from + 1, interval);
      MovedFirst(Report(tail, steps[from].0, steps[from].1, 0, 0, if from == 0 then 0 else interval),
                 Strokes(tail, steps, from + 1, interval));
    }
  }

  lemma MovedOne(r: Report)
    ensures Moved([r]) == Motion(r.dx, r.dy, r.wheel, r.pan)
  {
    assert [r][1..] == [];
  }

  lemma WheelConserves(v: int, h: int, tail: set<Button>)
    ensures Moved(Turns(tail, v, true) + Turns(tail, h, false)) == Motion(0, 0, v, h)
  {
    MovedTurns(tail, v, true);
    MovedTurns(tail, h, false);
    MovedTogether(Turns(tail, v, true), Turns(tail, h, false));
  }

  /** Reports that only set buttons move nothing. */
  lemma {:induction false} ButtonsConserve(s: seq<Report>)
    requires forall r :: r in s ==> Still(r)
    ensures Moved(s) == NO_MOTION
  {
    if s != [] {
      assert Still(s[0]);
      ButtonsConserve(s[1..]);
    }
  }

  predicate Still(r: Report) {
    r.dx == 0 && r.dy == 0 && r.wheel == 0 && r.pan == 0
  }

  /** The reports of an event add up to what it asks for. */
  lemma ReportsConserve(e: Event, tail: set<Button>)
    ensures Moved(Reports(e, tail)) == Asked(e)
  {
    if e.Buttons? {
      ButtonsConserve(Reports(e, tail));
    } else if e.Wheel? {
      WheelConserves(e.vertical, e.horizontal, tail);
    } else if e.Path? {
      MovedStrokes(tail, e.steps, 0, TicksFor(e.interval, MS_PER_TICK));
    } else if e.Move? {
      MovedOne(Report(tail, e.x, e.y, 0, 0, 0));
    }
  }
}
