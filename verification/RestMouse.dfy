/** The mouse part of route_input.cc as the module's state and the handlers that change it. */
module RestMouseDevice {
  import opened Common
  import opened MouseQueue
  import opened MouseRing
  import opened MousePacing

  // ---------------------------------------------------------------- runs on the object

  /** What an action does to the object: its callback, its post handler or its release, with
      the results their contracts give. */
  function DeviceStep(d: Device, a: Action, now: nat): Device {
    match a
    case Pass(_) => d
    case Timer(taken) => if taken || !d.running then d else TimerTick(d, now).0
    case Post(events) => if Drops(d.queue, events, 0) then d else ApplyBatch(d, events, 0, now)
    case Detach => ReleaseMouse(d)
  }

  /** The report the object sends in that step. */
  function DeviceSends(d: Device, a: Action, now: nat): Option<Report> {
    if a == Timer(false) && d.running then TimerTick(d, now).1 else None
  }

  function WithSent(sent: seq<Sent>, out: Option<Report>, now: nat): seq<Sent> {
    if out.Some? then sent + [Sent(out.value, now)] else sent
  }

  /** One step of a run is that step on the object, and what is sent is what the object sends. */
  lemma StepIsDeviceStep(w: World, a: Action)
    requires Ordered(w) && (a.Post? ==> AllValidated(a.events))
    ensures Step(w, a).dev == DeviceStep(w.dev, a, w.now)
    ensures Step(w, a).sent == WithSent(w.sent, DeviceSends(w.dev, a, w.now), w.now)
    ensures Step(w, a).now == w.now + if a.Pass? then a.ticks else 0
  {
    if a.Post? {
      AdmissionIsExact(w.dev.queue, a.events);
      BatchIsBatch(w, a.events, 0);
    }
  }

  /** The time when the actions are done. */
  function Clock(actions: seq<Action>): nat {
    if actions == [] then 0
    else
      var last := actions[|actions| - 1];
      Clock(actions[..|actions| - 1]) + if last.Pass? then last.ticks else 0
  }

  /** The object after the actions, one of its methods called for each of them, and what it
      has sent. */
  function DeviceAfter(actions: seq<Action>): (Device, seq<Sent>) {
    if actions == [] then (START.dev, [])
    else
      var before, last := actions[..|actions| - 1], actions[|actions| - 1];
      var (d, sent) := DeviceAfter(before);
      (DeviceStep(d, last, Clock(before)), WithSent(sent, DeviceSends(d, last, Clock(before)), Clock(before)))
  }

  /** A run is what happens on the object: the laws of runs hold of it. */
  lemma {:induction false} RunIsOnDevice(actions: seq<Action>)
    requires Proper(actions)
    ensures DeviceAfter(actions) == (Run(actions).dev, Run(actions).sent) && Run(actions).now == Clock(actions)
  {
    if actions != [] {
      var before, last := actions[..|actions| - 1], actions[|actions| - 1];
      ProperPart(actions);
      RunIsOnDevice(before);
      RunsAreOrdered(before);
      StepIsDeviceStep(Run(before), last);
    }
  }

  class RestMouse {
    const queue: RestMouseQueue
    var lastReport: int
    var attached: bool
    var built: bool
    var running: bool

    constructor ()
      ensures Valid() && View() == START.dev
      ensures fresh(queue) && fresh(queue.reports)
    {
      queue := new RestMouseQueue();
      lastReport := 0;
      attached, built, running := false, false, false;
    }

    ghost predicate Valid()
      reads this, queue
    {
      queue.Valid()
    }

    ghost function View(): Device
      requires Valid()
      reads this, queue, queue.reports
    {
      Device(queue.View(), lastReport, attached, built, running)
    }

    /** The timer's callback at tick `now`, the mutex being free: at most one report is sent. */
    method TimerCallback(now: nat) returns (sent: Option<Report>)
      requires Valid()
      modifies this, queue
      ensures Valid() && (View(), sent) == TimerTick(old(View()), now)
    {
      sent := None;
      if built {
        sent := queue.TakeDue(Signed(Ticks(now, lastReport)), REPORT_TICKS);
        if sent.Some? {
          lastReport := now % 0x1_0000_0000;
        }
      }
      var room := queue.Room();
      if room == CAPACITY {
        running := false;
      }
    }

    method ApplyMouseEvent(e: Event, now: nat)
      requires Valid() && IsMouse(e)
      modifies this, queue, queue.reports
      ensures Valid() && View() == ApplyMouse(old(View()), e, now)
    {
      built := true;
      if !attached {
        attached := true;
        queue.Clear({});
      }
      if Ticks(now, lastReport) > IDLE_TICKS {
        lastReport := (now - IDLE_TICKS) % 0x1_0000_0000;
      }
      queue.Append(e);
      running := true;
    }

    /** Drops the pending reports and detaches the mouse. */
    method Release()
      requires Valid()
      modifies this, queue
      ensures Valid() && View() == ReleaseMouse(old(View()))
    {
      queue.Clear({});
      if built && attached {
        attached := false;
      }
    }

    method Apply(events: seq<Event>, now: nat)
      requires Valid()
      modifies this, queue, queue.reports
      ensures Valid() && View() == ApplyBatch(old(View()), events, 0, now)
    {
      var i := 0;
      while i < |events|
        invariant 0 <= i <= |events| && Valid()
        invariant ApplyBatch(View(), events, i, now) == ApplyBatch(old(View()), events, 0, now)
      {
        if events[i].ReleaseAll? {
          Release();
        } else if IsMouse(events[i]) {
          ApplyMouseEvent(events[i], now);
        }
        i := i + 1;
      }
    }

    /** A validated batch: refused as a whole when its reports do not fit. */
    method HandlePost(events: seq<Event>, now: nat) returns (accepted: bool, needed: nat, room: int)
      requires Valid() && AllValidated(events)
      modifies this, queue, queue.reports
      ensures Valid() && accepted == !Drops(old(View()).queue, events, 0)
      ensures View() == if accepted then ApplyBatch(old(View()), events, 0, now) else old(View())
      ensures !accepted ==> needed > room
    {
      var free := queue.Room();
      accepted, needed, room := RestMouseQueue.Admits(events, free);
      AdmissionIsExact(View().queue, events);
      if accepted {
        Apply(events, now);
      }
    }

    /** One action on the object, at tick `now`: the timer fires only while it runs, and does
        nothing while the mutex is taken. */
    method Perform(a: Action, now: nat) returns (sent: Option<Report>)
      requires Valid() && (a.Post? ==> AllValidated(a.events))
      modifies this, queue, queue.reports
      ensures Valid() && View() == DeviceStep(old(View()), a, now)
      ensures sent == DeviceSends(old(View()), a, now)
    {
      sent := None;
      match a
      case Pass(_) =>
      case Timer(taken) =>
        if !taken && running {
          sent := TimerCallback(now);
        }
      case Post(events) =>
        var accepted, needed, room := HandlePost(events, now);
      case Detach =>
        Release();
    }

    /** All actions on a fresh object, one after the other: its state and what it has sent are
        those of the run. */
    method PerformAll(actions: seq<Action>) returns (sent: seq<Sent>, now: nat)
      requires Valid() && View() == START.dev && Proper(actions)
      modifies this, queue, queue.reports
      ensures Valid() && View() == Run(actions).dev && sent == Run(actions).sent && now == Run(actions).now
    {
      sent, now := [], 0;
      var i := 0;
      while i < |actions|
        invariant 0 <= i <= |actions| && Valid()
        invariant (View(), sent) == DeviceAfter(actions[..i]) && now == Clock(actions[..i])
      {
        DeviceAfterOne(actions, i);
        var out := Perform(actions[i], now);
        sent := WithSent(sent, out, now);
        if actions[i].Pass? {
          now := now + actions[i].ticks;
        }
        i := i + 1;
      }
      assert actions[..i] == actions;
      RunIsOnDevice(actions);
    }
  }

  lemma DeviceAfterOne(actions: seq<Action>, i: nat)
    requires i < |actions|
    ensures var (d, sent) := DeviceAfter(actions[..i]);
      var now := Clock(actions[..i]);
      && DeviceAfter(actions[..i + 1])
         == (DeviceStep(d, actions[i], now), WithSent(sent, DeviceSends(d, actions[i], now), now))
      && Clock(actions[..i + 1]) == now + if actions[i].Pass? then actions[i].ticks else 0
  {
    assert actions[..i + 1][..i] == actions[..i];
  }
}
