/** The queue object of rest_mouse_queue.h: a ring of 1024 reports. */
module MouseRing {
  import opened Common
  import opened MouseQueue

  /** Whether the first report may go out. */
  predicate Due(q: Queue, ticks: int, minTicks: int) {
    q.pending != [] && ticks >= q.pending[0].wait && ticks >= minTicks
  }

  function Slot(head: nat, i: nat): (r: nat)
    requires head < CAPACITY && i <= CAPACITY
    ensures r < CAPACITY && r == if head + i < CAPACITY then head + i else head + i - CAPACITY
  {
    (head + i) % 1024
  }

  class RestMouseQueue {
    const reports: array<Report>
    var head: nat
    var count: nat
    var tailButtons: set<Button>

    ghost predicate Valid()
      reads this
    {
      reports.Length == CAPACITY && head < CAPACITY && count <= CAPACITY
    }

    constructor ()
      ensures Valid() && View() == Queue([], {}) && fresh(reports)
    {
      reports := new Report[CAPACITY](_ => Report({}, 0, 0, 0, 0, 0));
      head, count, tailButtons := 0, 0, {};
    }

    ghost function Pending(): (s: seq<Report>)
      requires Valid()
      reads this, reports
      ensures |s| == count
      ensures forall i :: 0 <= i < count ==> s[i] == reports[Slot(head, i)]
    {
      seq(count, i requires 0 <= i < count && Valid() reads this, reports => reports[Slot(head, i)])
    }

    ghost function View(): Queue
      requires Valid()
      reads this, reports
    {
      Queue(Pending(), tailButtons)
    }

    method PushReport(buttons: set<Button>, dx: int, dy: int, wheel: int, pan: int, wait: int)
      requires Valid()
      modifies this, reports
      ensures Valid() && View() == Push(old(View()), Report(buttons, dx, dy, wheel, pan, wait))
    {
      if count >= CAPACITY {
        return;
      }
      ghost var was := Pending();
      var at := Slot(head, count);
      reports[at] := Report(buttons, Int8(dx), Int8(dy), Int8(wheel), Int8(pan), Uint16(wait));
      count := count + 1;
      tailButtons := buttons;
      assert Pending() == was + [Cut(Report(buttons, dx, dy, wheel, pan, wait))];
    }

    /** Drops every pending report. */
    method Clear(buttons: set<Button>)
      requires Valid()
      modifies this
      ensures Valid() && View() == Queue([], buttons)
    {
      head, count, tailButtons := 0, 0, buttons;
    }

    method Room() returns (room: nat)
      requires Valid()
      ensures room == CAPACITY - |View().pending|
    {
      room := CAPACITY - count;
    }

    /** Queues the reports of a mouse event. */
    method Append(e: Event)
      requires Valid() && IsMouse(e)
      modifies this, reports
      ensures Valid() && View() == AppendTo(old(View()), e)
    {
      if e.Buttons? {
        if e.transition == Release {
          AppendRelease(e);
        } else {
          AppendPress(e);
        }
      } else if e.Move? {
        AppendOne(e, Report(tailButtons, e.x, e.y, 0, 0, 0));
      } else if e.Wheel? {
        AppendWheel(e);
      } else {
        AppendPath(e);
      }
    }

    method AppendRelease(e: Event)
      requires Valid() && e.Buttons? && e.transition == Release
      modifies this, reports
      ensures Valid() && View() == AppendTo(old(View()), e)
    {
      AppendOne(e, Report(tailButtons - e.mask, 0, 0, 0, 0, 0));
    }

    method AppendPress(e: Event)
      requires Valid() && e.Buttons? && e.transition != Release
      modifies this, reports
      ensures Valid() && View() == AppendTo(old(View()), e)
    {
      if e.transition == Tap {
        AppendTap(e);
      } else {
        AppendOne(e, Report(tailButtons + e.mask, 0, 0, 0, 0, 0));
      }
    }

    method AppendWheel(e: Event)
      requires Valid() && e.Wheel?
      modifies this, reports
      ensures Valid() && View() == AppendTo(old(View()), e)
    {
      PushTwo(View(), Turns(tailButtons, e.vertical, true), Turns(tailButtons, e.horizontal, false));
      AppendTurns(e.vertical, true);
      AppendTurns(e.horizontal, false);
    }

    method AppendOne(ghost e: Event, r: Report)
      requires Valid() && Reports(e, tailButtons) == [r]
      modifies this, reports
      ensures Valid() && View() == AppendTo(old(View()), e)
    {
      PushOne(View(), r);
      PushReport(r.buttons, r.dx, r.dy, r.wheel, r.pan, r.wait);
    }

    /** A press, and behind it the release after the hold time. */
    method AppendTap(e: Event)
      requires Valid() && e.Buttons? && e.transition == Tap
      modifies this, reports
      ensures Valid() && View() == AppendTo(old(View()), e)
    {
      ghost var q, s := View(), Reports(e, tailButtons);
      var first := Report(tailButtons + e.mask, 0, 0, 0, 0, 0);
      assert s[0] == first && |s| == 2;
      PushReport(first.buttons, 0, 0, 0, 0, 0);
      var second := Report(tailButtons - e.mask, 0, 0, 0, 0, TAP_HOLD_TICKS);
      PushTap(q, s, second);
      PushReport(second.buttons, 0, 0, 0, 0, TAP_HOLD_TICKS);
    }

    /** One report for each detent. */
    method AppendTurns(detents: int, vertical: bool)
      requires Valid()
      modifies this, reports
      ensures Valid() && View() == PushAll(old(View()), Turns(old(tailButtons), detents, vertical))
      ensures tailButtons == old(tailButtons)
    {
      var d := if detents > 0 then 1 else -1;
      var i := 0;
      while i < Abs(detents)
        invariant 0 <= i <= Abs(detents) && Valid() && tailButtons == old(tailButtons)
        invariant PushAll(View(), Turns(tailButtons, detents - d * i, vertical))
               == PushAll(old(View()), Turns(tailButtons, detents, vertical))
      {
        ghost var left := detents - d * i;
        ghost var rest := Turns(tailButtons, left - d, vertical);
        if vertical {
          PushHead(View(), Report(tailButtons, 0, 0, d, 0, 0), rest);
          PushReport(tailButtons, 0, 0, d, 0, 0);
        } else {
          PushHead(View(), Report(tailButtons, 0, 0, 0, d, 0), rest);
          PushReport(tailButtons, 0, 0, 0, d, 0);
        }
        i := i + 1;
      }
    }

    /** One report for each step, the first at once. */
    method AppendPath(e: Event)
      requires Valid() && e.Path?
      modifies this, reports
      ensures Valid() && View() == AppendTo(old(View()), e)
    {
      var interval := RoundedTicks(e.interval, MS_PER_TICK);
      var i := 0;
      while i < |e.steps|
        invariant 0 <= i <= |e.steps| && Valid() && tailButtons == old(tailButtons)
        invariant PushAll(View(), Strokes(tailButtons, e.steps, i, interval))
               == PushAll(old(View()), Strokes(tailButtons, e.steps, 0, interval))
      {
        var wait := if i == 0 then 0 else interval;
        PushHead(View(), Report(tailButtons, e.steps[i].0, e.steps[i].1, 0, 0, wait),
                 Strokes(tailButtons, e.steps, i + 1, interval));
        PushReport(tailButtons, e.steps[i].0, e.steps[i].1, 0, 0, wait);
        i := i + 1;
      }
    }

    /** Hands out the next report if it is due. */
    method TakeDue(ticks: int, minTicks: int) returns (out: Option<Report>)
      requires Valid()
      modifies this
      ensures Valid()
      ensures out == if Due(old(View()), ticks, minTicks) then Some(old(View()).pending[0]) else None
      ensures View() == if out.None? then old(View()) else Queue(old(View()).pending[1..], old(View()).tail)
    {
      if count == 0 {
        return None;
      }
      ghost var was := Pending();
      var wait := reports[head].wait;
      assert was[0] == reports[Slot(head, 0)];
      if ticks < wait || ticks < minTicks {
        return None;
      }
      out := Some(reports[head]);
      ghost var before := head;
      head := Slot(head, 1);
      count := count - 1;
      forall i | 0 <= i < count
        ensures Slot(head, i) == Slot(before, i + 1)
      {
      }
      assert Pending() == was[1..];
    }

    /** Whether a batch fits into a queue with `room` free. On false, the part that does not fit
        begins with the batch or behind a release, and ends with the batch or before a release;
        its reports and the room it finds are told. */
    static method Admits(events: seq<Event>, room: int) returns (fits: bool, needed: nat, roomLeft: int)
      requires room <= CAPACITY
      ensures fits == BatchFits(events, 0, 0, room)
      ensures !fits ==> needed > roomLeft
      ensures !fits ==> exists a, b :: IsPart(events, a, b) && needed == ReportsOfAll(events, a, b)
                                       && roomLeft == if a == 0 then room else CAPACITY
    {
      roomLeft, needed := room, 0;
      var i := 0;
      ghost var a := 0;
      while i < |events|
        invariant 0 <= a <= i <= |events|
        invariant a == 0 || events[a - 1].ReleaseAll?
        invariant forall k :: a <= k < i ==> !events[k].ReleaseAll?
        invariant needed == ReportsOfAll(events, a, i) && roomLeft == if a == 0 then room else CAPACITY
        invariant BatchFits(events, i, needed, roomLeft) == BatchFits(events, 0, 0, room)
      {
        if events[i].ReleaseAll? {
          if needed > roomLeft {
            assert IsPart(events, a, i);
            return false, needed, roomLeft;
          }
          roomLeft, needed := CAPACITY, 0;
          a := i + 1;
        }
        needed := needed + ReportsFor(events[i]);
        i := i + 1;
      }
      assert IsPart(events, a, i);
      fits := needed <= roomLeft;
    }
  }

  /** A longest run of events without a release of everything. */
  predicate IsPart(events: seq<Event>, a: nat, b: nat) {
    a <= b <= |events| && (a == 0 || events[a - 1].ReleaseAll?) && (b == |events| || events[b].ReleaseAll?)
    && forall k :: a <= k < b ==> !events[k].ReleaseAll?
  }

  function ReportsOfAll(events: seq<Event>, a: nat, b: nat): nat
    requires a <= b <= |events|
  {
    if a == b then 0 else ReportsOfAll(events, a, b - 1) + ReportsFor(events[b - 1])
  }

  lemma PushHead(q: Queue, r: Report, rest: seq<Report>)
    ensures PushAll(q, [r] + rest) == PushAll(Push(q, r), rest)
  {
    assert ([r] + rest)[1..] == rest;
  }

  /** Two reports; on a full queue the second one does not matter. */
  lemma PushTap(q: Queue, s: seq<Report>, second: Report)
    requires |s| == 2 && (|q.pending| < CAPACITY ==> second == s[1])
    ensures PushAll(q, s) == Push(Push(q, s[0]), second)
  {
    assert s == [s[0]] + [s[1]];
    PushHead(q, s[0], [s[1]]);
    PushOne(Push(q, s[0]), s[1]);
  }

  lemma PushOne(q: Queue, r: Report)
    ensures PushAll(q, [r]) == Push(q, r)
  {
    assert [r][1..] == [];
  }
}
