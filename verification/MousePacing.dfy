/** The pacing of the REST mouse in route_input.cc: the timer that sends one report at a time,
    the clock register it compares with, batches and releases; over every run of them. */
module MousePacing {
  import opened Common
  import opened MouseQueue
  import opened MouseRing

  const REPORT_TICKS := 4
  const IDLE_TICKS := 400
  const WRAP := 0x1_0000_0000

  // ---------------------------------------------------------------- the device

  /** Queue, tick register of the last report, and whether the virtual mouse is attached, has
      been built, and the timer runs. */
  datatype Device = Device(queue: Queue, last: int, attached: bool, built: bool, running: bool)

  /** Ticks between a register value and now, as 32 bits without sign. */
  function Ticks(now: int, last: int): int {
    (now - last) % 0x1_0000_0000
  }

  /** The same bits as a signed number. */
  function Signed(ticks: int): int {
    if ticks < 0x8000_0000 then ticks else ticks - WRAP
  }

  /** The timer's callback, and the report it sends. */
  function TimerTick(d: Device, now: nat): (Device, Option<Report>) {
    if d.built && Due(d.queue, Signed(Ticks(now, d.last)), REPORT_TICKS) then
      var rest := d.queue.pending[1..];
      (Device(Queue(rest, d.queue.tail), now % 0x1_0000_0000, d.attached, true, d.running && rest != []),
       Some(d.queue.pending[0]))
    else
      (d.(running := d.running && d.queue.pending != []), None)
  }

  function ApplyMouse(d: Device, e: Event, now: nat): Device {
    var queue := if d.attached then d.queue else Queue([], {});
    var last := if Ticks(now, d.last) > IDLE_TICKS then (now - IDLE_TICKS) % 0x1_0000_0000 else d.last;
    Device(AppendTo(queue, e), last, true, true, true)
  }

  function ReleaseMouse(d: Device): Device {
    d.(queue := Queue([], {}), attached := d.attached && !d.built)
  }

  function ApplyEvent(d: Device, e: Event, now: nat): Device {
    if e.ReleaseAll? then ReleaseMouse(d) else if IsMouse(e) then ApplyMouse(d, e, now) else d
  }

  function ApplyBatch(d: Device, events: seq<Event>, i: nat, now: nat): Device
    requires i <= |events|
    decreases |events| - i
  {
    if i == |events| then d else ApplyBatch(ApplyEvent(d, events[i], now), events, i + 1, now)
  }

  // ---------------------------------------------------------------- the world around it

  datatype Sent = Sent(report: Report, at: int)

  /** The device, the time in ticks since start (which never wraps), the moment its register
      stands for, all reports sent so far; and since the queue was last emptied by a release,
      the events accepted and the reports of them that were delivered. */
  datatype World =
    World(dev: Device, now: nat, since: int, sent: seq<Sent>, accepted: seq<Event>, delivered: seq<Report>)

  const START := World(Device(Queue([], {}), 0, false, false, false), 0, 0, [], [], [])

  /** Time passes; the timer fires, perhaps while the mutex is taken; a batch is posted; the
      machine routes release the mouse. */
  datatype Action = Pass(ticks: nat) | Timer(taken: bool) | Post(events: seq<Event>) | Detach

  function OnEvent(w: World, e: Event): World {
    var dev := ApplyEvent(w.dev, e, w.now);
    if e.ReleaseAll? then w.(dev := dev, accepted := [], delivered := [])
    else if IsMouse(e) then
      var ticks := Ticks(w.now, w.dev.last);
      w.(dev := dev, since := w.now - (if ticks > IDLE_TICKS then IDLE_TICKS else ticks), accepted := w.accepted + [e])
    else w
  }

  function OnBatch(w: World, events: seq<Event>, i: nat): World
    requires i <= |events|
    decreases |events| - i
  {
    if i == |events| then w else OnBatch(OnEvent(w, events[i]), events, i + 1)
  }

  function OnTimer(w: World): World {
    var (dev, out) := TimerTick(w.dev, w.now);
    match out
    case None => w.(dev := dev)
    case Some(r) =>
      w.(dev := dev, since := w.now, sent := w.sent + [Sent(r, w.now)], delivered := w.delivered + [r])
  }

  function Room(w: World): int {
    CAPACITY - |w.dev.queue.pending|
  }

  function Step(w: World, a: Action): World {
    match a
    case Pass(ticks) => w.(now := w.now + ticks)
    case Timer(taken) => if taken || !w.dev.running then w else OnTimer(w)
    case Post(events) => if BatchFits(events, 0, 0, Room(w)) then OnBatch(w, events, 0) else w
    case Detach => OnEvent(w, ReleaseAll)
  }

  function Run(actions: seq<Action>): World {
    if actions == [] then START else Step(Run(actions[..|actions| - 1]), actions[|actions| - 1])
  }

  /** Batches hold validated events. */
  predicate Proper(actions: seq<Action>) {
    forall i :: 0 <= i < |actions| && actions[i].Post? ==> AllValidated(actions[i].events)
  }

  predicate AllValidated(events: seq<Event>) {
    forall i :: 0 <= i < |events| ==> Validated(events[i])
  }

  /** A batch does to the device in the world what it does to the device alone. */
  lemma {:induction false} BatchIsBatch(w: World, events: seq<Event>, i: nat)
    requires i <= |events|
    ensures OnBatch(w, events, i).dev == ApplyBatch(w.dev, events, i, w.now)
    ensures OnBatch(w, events, i).now == w.now && OnBatch(w, events, i).sent == w.sent
    decreases |events| - i
  {
    if i < |events| {
      BatchIsBatch(OnEvent(w, events[i]), events, i + 1);
    }
  }

  // ---------------------------------------------------------------- invariants

  /** The buttons and all reports of the first `k` events on an empty queue. */
  function TailOf(events: seq<Event>, k: nat): set<Button>
    requires k <= |events|
  {
    if k == 0 then {} else TailAfter(events[k - 1], TailOf(events, k - 1))
  }

  function AllReports(events: seq<Event>, k: nat): seq<Report>
    requires k <= |events|
  {
    if k == 0 then [] else AllReports(events, k - 1) + Reports(events[k - 1], TailOf(events, k - 1))
  }

  /** The register stands for a moment that is not before the last report was sent. */
  predicate ClockOk(w: World) {
    0 <= w.since <= w.now && w.since % 0x1_0000_0000 == w.dev.last
    && (w.sent != [] ==> w.sent[|w.sent| - 1].at <= w.since)
  }

  /** Reports leave at least the shortest time, and their own wait, after the one before. */
  predicate Spaced(sent: seq<Sent>) {
    forall i :: 0 < i < |sent| ==>
      sent[i].at - sent[i - 1].at >= REPORT_TICKS && sent[i].at - sent[i - 1].at >= sent[i].report.wait
  }

  /** What was delivered since the last release are the last reports sent. */
  predicate LastSent(w: World) {
    |w.delivered| <= |w.sent|
    && forall i :: 0 <= i < |w.delivered| ==> w.delivered[i] == w.sent[|w.sent| - |w.delivered| + i].report
  }

  /** Delivered and pending reports together are the reports of the accepted events, in order. */
  predicate InOrder(w: World) {
    w.delivered + w.dev.queue.pending == AllReports(w.accepted, |w.accepted|)
    && w.dev.queue.tail == TailOf(w.accepted, |w.accepted|)
  }

  predicate DeviceOk(w: World) {
    |w.dev.queue.pending| <= CAPACITY
    && (w.dev.attached ==> w.dev.built)
    && (!w.dev.attached ==> w.accepted == [] && w.dev.queue == Queue([], {}))
    && (w.dev.queue.pending != [] ==> w.dev.attached && w.dev.running)
  }

  predicate Accepted(w: World) {
    forall i :: 0 <= i < |w.accepted| ==> IsMouse(w.accepted[i]) && Validated(w.accepted[i])
  }

  predicate Paced(w: World) {
    ClockOk(w) && Spaced(w.sent)
  }

  predicate Ordered(w: World) {
    LastSent(w) && InOrder(w) && DeviceOk(w) && Accepted(w)
  }

  lemma {:induction false} PrefixReports(a: seq<Event>, e: Event, k: nat)
    requires k <= |a|
    ensures TailOf(a + [e], k) == TailOf(a, k) && AllReports(a + [e], k) == AllReports(a, k)
  {
    if k > 0 {
      PrefixReports(a, e, k - 1);
    }
  }

  lemma OneMoreEvent(a: seq<Event>, e: Event)
    ensures TailOf(a + [e], |a| + 1) == TailAfter(e, TailOf(a, |a|))
    ensures AllReports(a + [e], |a| + 1) == AllReports(a, |a|) + Reports(e, TailOf(a, |a|))
  {
    PrefixReports(a, e, |a|);
  }

  /** The register difference is a lower bound of the real one. */
  lemma TicksAreReal(now: int, since: int)
    requires since <= now
    ensures 0 <= Ticks(now, since % 0x1_0000_0000) <= now - since
    ensures (now - Ticks(now, since % 0x1_0000_0000)) % 0x1_0000_0000 == since % 0x1_0000_0000
    ensures Signed(Ticks(now, since % 0x1_0000_0000)) <= now - since
    ensures now - since < 0x8000_0000 ==> Signed(Ticks(now, since % 0x1_0000_0000)) == now - since
  {
    var q, r := since / 0x1_0000_0000, since % 0x1_0000_0000;
    var d := now - r;
    assert since == q * WRAP + r;
    assert d == d / 0x1_0000_0000 * WRAP + d % 0x1_0000_0000;
    MultipleAway(d / 0x1_0000_0000, r);
    assert d >= q * WRAP && d / 0x1_0000_0000 >= q;
  }

  lemma MultipleAway(k: int, r: int)
    requires 0 <= r < WRAP
    ensures (k * WRAP + r) % 0x1_0000_0000 == r
  {
  }

  // ---------------------------------------------------------------- every step keeps them

  /** The clamp only moves the register's moment on, and never past now. */
  lemma MouseEventKeepsClock(w: World, e: Event)
    requires ClockOk(w) && IsMouse(e)
    ensures ClockOk(OnEvent(w, e)) && OnEvent(w, e).sent == w.sent && OnEvent(w, e).now == w.now
    ensures w.now - OnEvent(w, e).since <= IDLE_TICKS
  {
    TicksAreReal(w.now, w.since);
  }

  /** The queue when a mouse event has been taken whole. */
  lemma QueueTakesEvent(d: Device, e: Event, now: nat) returns (q': Queue)
    requires IsMouse(e) && Validated(e) && |d.queue.pending| + ReportsFor(e) <= CAPACITY
    requires !d.attached ==> d.queue == Queue([], {})
    ensures q' == ApplyMouse(d, e, now).queue
    ensures q'.pending == d.queue.pending + Reports(e, d.queue.tail) && q'.tail == TailAfter(e, d.queue.tail)
    ensures |q'.pending| == |d.queue.pending| + ReportsFor(e)
  {
    AppendIsExact(d.queue, e);
    q' := ApplyMouse(d, e, now).queue;
  }

  lemma OneMoreInOrder(delivered: seq<Report>, q: Queue, q': Queue, a: seq<Event>, e: Event)
    requires delivered + q.pending == AllReports(a, |a|) && q.tail == TailOf(a, |a|)
    requires q'.pending == q.pending + Reports(e, q.tail) && q'.tail == TailAfter(e, q.tail)
    ensures delivered + q'.pending == AllReports(a + [e], |a + [e]|) && q'.tail == TailOf(a + [e], |a + [e]|)
  {
    OneMoreEvent(a, e);
    Regroup(delivered, q.pending, Reports(e, q.tail));
  }

  /** A mouse event that fits is accepted whole. */
  lemma MouseEventKeepsOrder(w: World, e: Event)
    requires InOrder(w) && DeviceOk(w) && Accepted(w) && IsMouse(e) && Validated(e)
    requires ReportsFor(e) <= Room(w)
    ensures InOrder(OnEvent(w, e)) && DeviceOk(OnEvent(w, e)) && Accepted(OnEvent(w, e))
    ensures Room(OnEvent(w, e)) == Room(w) - ReportsFor(e)
  {
    var q' := QueueTakesEvent(w.dev, e, w.now);
    OneMoreInOrder(w.delivered, w.dev.queue, q', w.accepted, e);
  }

  /** A property that mouse events which find room, and releases, keep; with the room they leave. */
  ghost predicate KeptByEvents(p: World -> bool) {
    (forall w :: p(w) ==> p(OnEvent(w, ReleaseAll)))
    && (forall w, e :: p(w) && IsMouse(e) && Validated(e) && ReportsFor(e) <= Room(w) ==> p(OnEvent(w, e)))
    && (forall w, e :: p(w) && IsMouse(e) && Validated(e) && ReportsFor(e) <= Room(w) ==>
          Room(OnEvent(w, e)) == Room(w) - ReportsFor(e))
  }

  /** An admitted batch keeps what its events keep; `needed` reports were queued since the part
      began with `room`. */
  lemma {:induction false} BatchKeeps(p: World -> bool, w: World, events: seq<Event>, i: nat, needed: nat, room: int)
    requires KeptByEvents(p) && i <= |events| && AllValidated(events) && p(w)
    requires BatchFits(events, i, needed, room) && Room(w) == room - needed
    ensures p(OnBatch(w, events, i))
    decreases |events| - i
  {
    if i < |events| {
      var e := events[i];
      if e.ReleaseAll? {
        BatchKeeps(p, OnEvent(w, e), events, i + 1, 0, CAPACITY);
      } else {
        if needed + ReportsFor(e) > room {
          TooMuchStaysTooMuch(events, i + 1, needed + ReportsFor(e), room);
        }
        BatchKeeps(p, OnEvent(w, e), events, i + 1, needed + ReportsFor(e), room);
      }
    }
  }

  /** What a run keeps whose single steps keep it. */
  ghost predicate KeptBySteps(p: World -> bool) {
    p(START) && forall w, a: Action :: p(w) && (a.Post? ==> AllValidated(a.events)) ==> p(Step(w, a))
  }

  lemma ProperPart(actions: seq<Action>)
    requires Proper(actions) && actions != []
    ensures Proper(actions[..|actions| - 1])
    ensures var last := actions[|actions| - 1];
      last.Post? ==> AllValidated(last.events)
  {
    var before := actions[..|actions| - 1];
    forall i | 0 <= i < |before| && before[i].Post?
      ensures AllValidated(before[i].events)
    {
      assert before[i] == actions[i];
    }
  }

  lemma {:induction false} RunKeeps(p: World -> bool, actions: seq<Action>)
    requires KeptBySteps(p) && Proper(actions)
    ensures p(Run(actions))
  {
    if actions != [] {
      var before, last := actions[..|actions| - 1], actions[|actions| - 1];
      ProperPart(actions);
      RunKeeps(p, before);
      assert p(Step(Run(before), last));
    }
  }

  // ---------------------------------------------------------------- order

  lemma ReleaseKeepsOrder(w: World)
    requires Ordered(w)
    ensures Ordered(OnEvent(w, ReleaseAll))
  {
  }

  lemma OrderKeptByEvents(p: World -> bool)
    requires forall w :: p(w) == Ordered(w)
    ensures KeptByEvents(p)
  {
    forall w | p(w)
      ensures p(OnEvent(w, ReleaseAll))
    {
      ReleaseKeepsOrder(w);
    }
    forall w, e | p(w) && IsMouse(e) && Validated(e) && ReportsFor(e) <= Room(w)
      ensures p(OnEvent(w, e)) && Room(OnEvent(w, e)) == Room(w) - ReportsFor(e)
    {
      MouseEventKeepsOrder(w, e);
    }
  }

  lemma TimerKeepsOrder(w: World, w': World)
    requires Ordered(w) && w' == OnTimer(w)
    ensures Ordered(w')
  {
    if w.dev.built && Due(w.dev.queue, Signed(Ticks(w.now, w.dev.last)), REPORT_TICKS) {
      SendingKeepsOrder(w, w');
    }
  }

  lemma SendingKeepsOrder(w: World, w': World)
    requires Ordered(w) && w.dev.queue.pending != [] && w.dev.built
    requires var r, rest := w.dev.queue.pending[0], w.dev.queue.pending[1..];
      && w'.accepted == w.accepted && w'.delivered == w.delivered + [r] && w'.sent == w.sent + [Sent(r, w.now)]
      && w'.dev == Device(Queue(rest, w.dev.queue.tail), w.now % 0x1_0000_0000, w.dev.attached, true,
                          w.dev.running && rest != [])
    ensures Ordered(w')
  {
    FirstMoves(w.delivered, w.dev.queue.pending);
  }

  lemma FirstMoves(delivered: seq<Report>, pending: seq<Report>)
    requires pending != []
    ensures (delivered + [pending[0]]) + pending[1..] == delivered + pending
  {
  }

  lemma PostKeepsOrder(w: World, events: seq<Event>, w': World)
    requires Ordered(w) && AllValidated(events) && BatchFits(events, 0, 0, Room(w)) && w' == OnBatch(w, events, 0)
    ensures Ordered(w')
  {
    var p := (w: World) => Ordered(w);
    OrderKeptByEvents(p);
    BatchKeeps(p, w, events, 0, 0, Room(w));
    assert p(w');
  }

  lemma StepKeepsOrder(w: World, a: Action, w': World)
    requires Ordered(w) && (a.Post? ==> AllValidated(a.events)) && w' == Step(w, a)
    ensures Ordered(w')
  {
    match a
    case Pass(_) =>
    case Timer(taken) =>
      if w' != w {
        TimerKeepsOrder(w, w');
      }
    case Post(events) =>
      if w' != w {
        PostKeepsOrder(w, events, w');
      }
    case Detach => ReleaseKeepsOrder(w);
  }

  lemma RunsAreOrdered(actions: seq<Action>)
    requires Proper(actions)
    ensures Ordered(Run(actions))
  {
    forall w, a: Action | Ordered(w) && (a.Post? ==> AllValidated(a.events))
      ensures Ordered(Step(w, a))
    {
      StepKeepsOrder(w, a, Step(w, a));
    }
    RunKeeps((w: World) => Ordered(w), actions);
  }

  // ---------------------------------------------------------------- pace

  /** Whatever a batch does to the queue, it only moves the register's moment on. */
  lemma {:induction false} BatchKeepsPace(w: World, events: seq<Event>, i: nat)
    requires i <= |events| && Paced(w)
    ensures Paced(OnBatch(w, events, i))
    decreases |events| - i
  {
    if i < |events| {
      EventKeepsPace(w, events[i]);
      BatchKeepsPace(OnEvent(w, events[i]), events, i + 1);
    }
  }

  lemma EventKeepsPace(w: World, e: Event)
    requires Paced(w)
    ensures Paced(OnEvent(w, e))
  {
    if IsMouse(e) {
      MouseEventKeepsClock(w, e);
    }
  }

  /** A report that is sent leaves long enough after the one before. */
  lemma TimerKeepsPace(w: World)
    requires Paced(w)
    ensures Paced(OnTimer(w))
  {
    TicksAreReal(w.now, w.since);
  }

  lemma StepKeepsPace(w: World, a: Action)
    requires Paced(w)
    ensures Paced(Step(w, a))
  {
    match a
    case Pass(_) =>
    case Timer(_) => TimerKeepsPace(w);
    case Post(events) => BatchKeepsPace(w, events, 0);
    case Detach => EventKeepsPace(w, ReleaseAll);
  }

  lemma RunsArePaced(actions: seq<Action>)
    requires Proper(actions)
    ensures Paced(Run(actions))
  {
    forall w, a | Paced(w)
      ensures Paced(Step(w, a))
    {
      StepKeepsPace(w, a);
    }
    RunKeeps((w: World) => Paced(w), actions);
  }

  // ---------------------------------------------------------------- what that means

  /** Over every run of batches, timer ticks, releases and time passing, two reports that leave
      one after the other are at least the shortest time and the second's wait apart. */
  lemma SendsAreSpaced(actions: seq<Action>, i: nat)
    requires Proper(actions) && i + 1 < |Run(actions).sent|
    ensures var first, second := Run(actions).sent[i], Run(actions).sent[i + 1];
      second.at - first.at >= REPORT_TICKS && second.at - first.at >= second.report.wait
  {
    RunsArePaced(actions);
  }

  /** In every reachable state, the reports sent since the last release are the first ones of
      the events accepted since, in their order, and the pending ones are the rest. */
  lemma SendsAreInOrder(actions: seq<Action>)
    requires Proper(actions)
    ensures LastSent(Run(actions)) && InOrder(Run(actions))
  {
    RunsAreOrdered(actions);
  }

  function AskedAll(events: seq<Event>, k: nat): Motion
    requires k <= |events|
  {
    if k == 0 then NO_MOTION else Plus(AskedAll(events, k - 1), Asked(events[k - 1]))
  }

  /** A sum that is right for the reports of every event behind any others. */
  ghost predicate SumsUp(sum: seq<Report> -> Motion) {
    sum([]) == NO_MOTION && forall s, e, tail :: sum(s + Reports(e, tail)) == Plus(sum(s), Asked(e))
  }

  /** It is right for the first `k` events, and for any fewer. */
  predicate SumIsRight(sum: seq<Report> -> Motion, events: seq<Event>, k: nat)
    requires k <= |events|
  {
    sum(AllReports(events, k)) == AskedAll(events, k) && (k > 0 ==> SumIsRight(sum, events, k - 1))
  }

  lemma {:induction false} SumOfAll(sum: seq<Report> -> Motion, events: seq<Event>, k: nat)
    requires SumsUp(sum) && k <= |events|
    ensures SumIsRight(sum, events, k)
  {
    if k > 0 {
      SumOfAll(sum, events, k - 1);
      var s, e, tail := AllReports(events, k - 1), events[k - 1], TailOf(events, k - 1);
      assert sum(s + Reports(e, tail)) == Plus(sum(s), Asked(e));
    }
  }

  lemma MovedSumsUp(sum: seq<Report> -> Motion)
    requires forall s :: sum(s) == Moved(s)
    ensures SumsUp(sum)
  {
    forall s, e, tail
      ensures sum(s + Reports(e, tail)) == Plus(sum(s), Asked(e))
    {
      MovedTogether(s, Reports(e, tail));
      ReportsConserve(e, tail);
    }
  }

  lemma AllReportsConserve(events: seq<Event>)
    ensures Moved(AllReports(events, |events|)) == AskedAll(events, |events|)
  {
    var sum := (s: seq<Report>) => Moved(s);
    MovedSumsUp(sum);
    SumOfAll(sum, events, |events|);
  }

  /** In every reachable state, displacement and detents sent since the last release plus those
      pending are what the accepted events asked for. */
  lemma MotionIsConserved(actions: seq<Action>)
    requires Proper(actions)
    ensures var w := Run(actions);
      Plus(Moved(w.delivered), Moved(w.dev.queue.pending)) == AskedAll(w.accepted, |w.accepted|)
  {
    RunsAreOrdered(actions);
    var w := Run(actions);
    MovedTogether(w.delivered, w.dev.queue.pending);
    AllReportsConserve(w.accepted);
  }

  /** A timer tick that finds reports sends the first one exactly when the real time since the
      register's moment is long enough, as long as that is below 2^31 ticks. */
  lemma TimerSendsExactly(actions: seq<Action>)
    requires Proper(actions)
    requires Run(actions).dev.queue.pending != [] && Run(actions).now - Run(actions).since < 0x8000_0000
    ensures var w := Run(actions);
      var r := w.dev.queue.pending[0];
      Step(w, Timer(false)).sent
        == if w.now - w.since >= REPORT_TICKS && w.now - w.since >= r.wait then w.sent + [Sent(r, w.now)] else w.sent
  {
    RunsAreOrdered(actions);
    RunsArePaced(actions);
    TicksAreReal(Run(actions).now, Run(actions).since);
  }

  /** With an event accepted into an idle queue, the register's moment is at most the idle time
      ago; so its first report leaves at the next free timer tick, unless the register says that
      less than the shortest time has gone by. */
  lemma IdleQueueSendsAtOnce(actions: seq<Action>, e: Event)
    requires Proper(actions) && Validated(e) && IsMouse(e) && Run(actions).dev.queue.pending == []
    ensures var w := Run(actions);
      var posted := Step(w, Post([e]));
      posted.dev.queue.pending == Reports(e, w.dev.queue.tail) && posted.dev.queue.pending != []
      && (Step(posted, Timer(false)).sent != posted.sent <==> Ticks(w.now, w.dev.last) >= REPORT_TICKS)
  {
    RunsAreOrdered(actions);
    RunsArePaced(actions);
    var posted := PostedOnIdle(Run(actions), e);
    ClampKeepsDue(Run(actions), e);
  }

  /** What accepting an event does to an idle queue. */
  lemma PostedOnIdle(w: World, e: Event) returns (posted: World)
    requires Ordered(w) && Paced(w) && Validated(e) && IsMouse(e) && w.dev.queue.pending == []
    ensures posted == Step(w, Post([e])) && posted == OnEvent(w, e)
    ensures posted.dev.queue.pending == Reports(e, w.dev.queue.tail) && posted.dev.queue.pending != []
    ensures posted.dev.queue.pending[0].wait == 0 && posted.dev.built && posted.dev.running
  {
    SizeWithin(e);
    var q' := QueueTakesEvent(w.dev, e, w.now);
    FirstAtOnce(e, w.dev.queue.tail);
    OneEventFits(e, Room(w));
    OneEventBatch(w, e);
    posted := OnEvent(w, e);
  }

  /** However that comes out, the first report on an idle queue leaves at the first free tick
      that is the shortest spacing later, or any later one. */
  lemma HeldBackNoLonger(actions: seq<Action>, e: Event, ticks: nat)
    requires Proper(actions) && Validated(e) && IsMouse(e) && Run(actions).dev.queue.pending == []
    requires REPORT_TICKS <= ticks < 0x8000_0000 - IDLE_TICKS
    ensures var w := Run(actions);
      var later := Step(Step(w, Post([e])), Pass(ticks));
      && Reports(e, w.dev.queue.tail) != []
      && Step(later, Timer(false)).sent == w.sent + [Sent(Reports(e, w.dev.queue.tail)[0], w.now + ticks)]
  {
    RunsAreOrdered(actions);
    RunsArePaced(actions);
    var posted := PostedOnIdle(Run(actions), e);
    MouseEventKeepsClock(Run(actions), e);
    SendsLater(posted, ticks);
  }

  lemma SendsLater(w: World, ticks: nat)
    requires ClockOk(w) && w.now - w.since <= IDLE_TICKS && w.dev.built && w.dev.running
    requires w.dev.queue.pending != [] && w.dev.queue.pending[0].wait == 0
    requires REPORT_TICKS <= ticks < 0x8000_0000 - IDLE_TICKS
    ensures Step(Step(w, Pass(ticks)), Timer(false)).sent == w.sent + [Sent(w.dev.queue.pending[0], w.now + ticks)]
  {
    TicksAreReal(w.now + ticks, w.since);
  }

  lemma RunAppend(actions: seq<Action>, a: Action)
    ensures Run(actions + [a]) == Step(Run(actions), a)
  {
    assert (actions + [a])[..|actions|] == actions;
  }

  /** A move of one, sent after four ticks; then the register goes once round, and a move of
      two is posted. */
  const WRAPPED: seq<Action> := [Post([Move(1, 0)]), Pass(REPORT_TICKS), Timer(false), Pass(WRAP)]

  /** 2^32 ticks after the last report, the next one is held back all the same. */
  lemma WrappedClockExample()
    ensures Proper(WRAPPED) && Run(WRAPPED).dev.queue.pending == []
    ensures var w := Run(WRAPPED);
      && w.sent == [Sent(Report({}, 1, 0, 0, 0, 0), REPORT_TICKS)] && w.now == REPORT_TICKS + WRAP
      && Step(Step(w, Post([Move(2, 0)])), Timer(false)).sent == w.sent
      && Step(Step(w, Post([Move(2, 0)])), Timer(false)).dev.queue.pending == [Report({}, 2, 0, 0, 0, 0)]
  {
    FirstRound();
    var w := Run(WRAPPED);
    IdleQueueSendsAtOnce(WRAPPED, Move(2, 0));
    assert Ticks(w.now, w.dev.last) == 0;
    assert Reports(Move(2, 0), {}) == [Report({}, 2, 0, 0, 0, 0)];
  }

  lemma FirstRound()
    ensures Proper(WRAPPED) && Run(WRAPPED).dev == Device(Queue([], {}), REPORT_TICKS, true, true, false)
    ensures Run(WRAPPED).sent == [Sent(Report({}, 1, 0, 0, 0, 0), REPORT_TICKS)]
    ensures Run(WRAPPED).now == REPORT_TICKS + WRAP
  {
    var w := FirstMove();
    var w2 := Step(w, Pass(REPORT_TICKS));
    assert Due(w2.dev.queue, Signed(Ticks(REPORT_TICKS, 0)), REPORT_TICKS);
    var w3 := Step(w2, Timer(false));
    assert w3.dev == Device(Queue([], {}), REPORT_TICKS, true, true, false);
    RunOfFour(WRAPPED[0], WRAPPED[1], WRAPPED[2], WRAPPED[3]);
    assert WRAPPED == [WRAPPED[0], WRAPPED[1], WRAPPED[2], WRAPPED[3]];
  }

  lemma FirstMove() returns (w: World)
    ensures w == Step(START, Post([Move(1, 0)]))
    ensures w.dev == Device(Queue([Report({}, 1, 0, 0, 0, 0)], {}), 0, true, true, true) && w.now == 0 && w.sent == []
  {
    OneEventFits(Move(1, 0), CAPACITY);
    OneEventBatch(START, Move(1, 0));
    var q' := QueueTakesEvent(START.dev, Move(1, 0), 0);
    assert q' == Queue([Report({}, 1, 0, 0, 0, 0)], {});
    w := Step(START, Post([Move(1, 0)]));
  }

  lemma RunOfFour(a: Action, b: Action, c: Action, d: Action)
    ensures Run([a, b, c, d]) == Step(Step(Step(Step(START, a), b), c), d)
  {
    assert [a, b, c, d] == [] + [a] + [b] + [c] + [d];
    RunAppend([], a);
    RunAppend([] + [a], b);
    RunAppend([] + [a] + [b], c);
    RunAppend([] + [a] + [b] + [c], d);
  }

  lemma OneEventFits(e: Event, room: int)
    requires IsMouse(e) && ReportsFor(e) <= room
    ensures BatchFits([e], 0, 0, room)
  {
    assert BatchFits([e], 1, ReportsFor(e), room);
  }

  lemma OneEventBatch(w: World, e: Event)
    ensures OnBatch(w, [e], 0) == OnEvent(w, e)
  {
    var next := OnEvent(w, e);
    assert OnBatch(next, [e], 1) == next;
  }

  /** The clamp does not change whether the shortest time has gone by. */
  lemma ClampKeepsDue(w: World, e: Event)
    requires ClockOk(w) && IsMouse(e)
    ensures var ticks := Ticks(w.now, OnEvent(w, e).dev.last);
      Signed(ticks) == ticks && (ticks >= REPORT_TICKS <==> Ticks(w.now, w.dev.last) >= REPORT_TICKS)
  {
    TicksAreReal(w.now, w.since);
    MouseEventKeepsClock(w, e);
    TicksAreReal(w.now, OnEvent(w, e).since);
  }

  lemma SizeWithin(e: Event)
    requires Validated(e)
    ensures ReportsFor(e) <= CAPACITY
  {
  }

  lemma FirstAtOnce(e: Event, tail: set<Button>)
    requires Validated(e) && IsMouse(e)
    ensures Reports(e, tail) != [] && Reports(e, tail)[0].wait == 0
  {
  }
}
