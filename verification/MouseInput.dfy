/** Which JSON objects are mouse events, after the validation in input_api.h, and that what gets
    through is in the ranges the report queue relies on. */
module MouseInput {
  import opened Common
  import opened Json
  import opened MouseQueue

  // ---------------------------------------------------------------- members by name

  function Lower(c: char): char {
    if 'A' <= c <= 'Z' then c - 'A' + 'a' else c
  }

  /** Equal but for the case of letters. */
  predicate SameName(a: string, b: string) {
    |a| == |b| && forall i :: 0 <= i < |a| ==> Lower(a[i]) == Lower(b[i])
  }

  /** The first member of that name, in whatever case. */
  function Get(members: seq<Member>, name: string): Option<Value> {
    if members == [] then None
    else if SameName(name, members[0].key) then Some(members[0].value)
    else Get(members[1..], name)
  }

  predicate OnlyKeys(members: seq<Member>, allowed: seq<string>) {
    forall i :: 0 <= i < |members| ==> members[i].key in allowed
  }

  /** A member that may be missing, an integer in range if not. */
  function IntMember(members: seq<Member>, name: string, low: int, high: int, default: int): Option<int> {
    match Get(members, name)
    case None => Some(default)
    case Some(v) => if v.Int? && low <= v.value <= high then Some(v.value) else None
  }

  // ---------------------------------------------------------------- the parts of an event

  function ButtonOf(v: Value): Option<Button> {
    if !v.Str? then None
    else if v.text == "left" then Some(Left)
    else if v.text == "right" then Some(Right)
    else if v.text == "middle" then Some(Middle)
    else None
  }

  /** The buttons of the first `n` entries, none named twice. */
  function ButtonsOf(items: seq<Value>, n: nat): Option<set<Button>>
    requires n <= |items|
  {
    if n == 0 then Some({})
    else
      match ButtonsOf(items, n - 1)
      case None => None
      case Some(mask) =>
        match ButtonOf(items[n - 1])
        case None => None
        case Some(b) => if b in mask then None else Some(mask + {b})
  }

  function TransitionOf(v: Option<Value>): Option<Transition> {
    if v.None? || !v.value.Str? then None
    else if v.value.text == "press" then Some(Press)
    else if v.value.text == "release" then Some(Release)
    else if v.value.text == "tap" then Some(Tap)
    else None
  }

  predicate InMotion(v: Value) {
    v.Int? && -MAX_MOTION <= v.value <= MAX_MOTION
  }

  predicate IsStep(v: Value) {
    v.List? && |v.items| == 2 && InMotion(v.items[0]) && InMotion(v.items[1])
  }

  function ButtonsEvent(inputs: Value, transition: Option<Value>): Option<Event> {
    match TransitionOf(transition)
    case None => None
    case Some(t) =>
      if !inputs.List? || !(1 <= |inputs.items| <= 3) then None
      else
        match ButtonsOf(inputs.items, |inputs.items|)
        case None => None
        case Some(mask) => Some(Buttons(mask, t))
  }

  function MoveEvent(move: Value): Option<Event> {
    if !move.Obj? || !OnlyKeys(move.members, ["x", "y"]) then None
    else
      match IntMember(move.members, "x", -MAX_MOTION, MAX_MOTION, 0)
      case None => None
      case Some(x) =>
        match IntMember(move.members, "y", -MAX_MOTION, MAX_MOTION, 0)
        case None => None
        case Some(y) =>
          if Get(move.members, "x").None? && Get(move.members, "y").None? then None else Some(Move(x, y))
  }

  function WheelEvent(wheel: Value): Option<Event> {
    if !wheel.Obj? || !OnlyKeys(wheel.members, ["vertical", "horizontal"]) then None
    else
      match IntMember(wheel.members, "vertical", -MAX_DETENTS, MAX_DETENTS, 0)
      case None => None
      case Some(v) =>
        match IntMember(wheel.members, "horizontal", -MAX_DETENTS, MAX_DETENTS, 0)
        case None => None
        case Some(h) => if v == 0 && h == 0 then None else Some(Wheel(v, h))
  }

  function StepsOf(items: seq<Value>): seq<(int, int)>
    requires forall i :: 0 <= i < |items| ==> IsStep(items[i])
  {
    seq(|items|, i requires 0 <= i < |items| && IsStep(items[i]) => (items[i].items[0].value, items[i].items[1].value))
  }

  function PathEvent(path: Value, members: seq<Member>): Option<Event> {
    if !path.List? || !(1 <= |path.items| <= MAX_PATH_STEPS) then None
    else if exists i :: 0 <= i < |path.items| && !IsStep(path.items[i]) then None
    else
      match IntMember(members, "interval_ms", MIN_INTERVAL_MS, MAX_INTERVAL_MS, MIN_INTERVAL_MS)
      case None => None
      case Some(interval) => if interval < 0 then None else Some(Path(StepsOf(path.items), interval))
  }

  // ---------------------------------------------------------------- events

  function MouseKeys(): seq<string> {
    ["kind", "inputs", "transition", "move", "wheel", "path", "interval_ms"]
  }

  function One(v: Option<Value>): nat {
    if v.Some? then 1 else 0
  }

  /** A mouse event does one thing, and a field that does not belong to it is an error. */
  function MouseEvent(members: seq<Member>): Option<Event> {
    var inputs, move := Get(members, "inputs"), Get(members, "move");
    var wheel, path := Get(members, "wheel"), Get(members, "path");
    if !OnlyKeys(members, MouseKeys()) || One(inputs) + One(move) + One(wheel) + One(path) != 1 then None
    else if inputs.None? && Get(members, "transition").Some? then None
    else if path.None? && Get(members, "interval_ms").Some? then None
    else if inputs.Some? then ButtonsEvent(inputs.value, Get(members, "transition"))
    else if move.Some? then MoveEvent(move.value)
    else if wheel.Some? then WheelEvent(wheel.value)
    else if path.Some? then PathEvent(path.value, members)
    else None
  }

  lemma PartsAreValidated(v: Value, transition: Option<Value>, members: seq<Member>)
    ensures ButtonsEvent(v, transition).Some? ==>
      Validated(ButtonsEvent(v, transition).value) && IsMouse(ButtonsEvent(v, transition).value)
    ensures MoveEvent(v).Some? ==> Validated(MoveEvent(v).value) && IsMouse(MoveEvent(v).value)
    ensures WheelEvent(v).Some? ==> Validated(WheelEvent(v).value) && IsMouse(WheelEvent(v).value)
    ensures PathEvent(v, members).Some? ==>
      Validated(PathEvent(v, members).value) && IsMouse(PathEvent(v, members).value)
  {
  }

  /** Whatever the validation lets through is a mouse event in the queue's ranges. */
  lemma MouseEventsAreValidated(members: seq<Member>)
    requires MouseEvent(members).Some?
    ensures Validated(MouseEvent(members).value) && IsMouse(MouseEvent(members).value)
  {
    var transition := Get(members, "transition");
    forall v: Value
      ensures ButtonsEvent(v, transition).Some? ==>
        Validated(ButtonsEvent(v, transition).value) && IsMouse(ButtonsEvent(v, transition).value)
      ensures MoveEvent(v).Some? ==> Validated(MoveEvent(v).value) && IsMouse(MoveEvent(v).value)
      ensures WheelEvent(v).Some? ==> Validated(WheelEvent(v).value) && IsMouse(WheelEvent(v).value)
      ensures PathEvent(v, members).Some? ==>
      Validated(PathEvent(v, members).value) && IsMouse(PathEvent(v, members).value)
    {
      PartsAreValidated(v, transition, members);
    }
  }

  predicate NamedBefore(items: seq<Value>, n: nat, b: Button)
    requires n <= |items|
  {
    n > 0 && (ButtonOf(items[n - 1]) == Some(b) || NamedBefore(items, n - 1, b))
  }

  /** Exactly the buttons named. */
  lemma {:induction false} ButtonsAreNamed(items: seq<Value>, n: nat, b: Button)
    requires n <= |items| && ButtonsOf(items, n).Some?
    ensures b in ButtonsOf(items, n).value <==> NamedBefore(items, n, b)
  {
    if n > 0 {
      ButtonsAreNamed(items, n - 1, b);
    }
  }

  // ---------------------------------------------------------------- the loops

  /** The loop over the names of buttons; stops at the first that is unknown or a repetition. */
  method ReadButtons(items: seq<Value>) returns (mask: Option<set<Button>>)
    ensures mask == ButtonsOf(items, |items|)
  {
    var found: set<Button> := {};
    var i := 0;
    while i < |items|
      invariant 0 <= i <= |items| && ButtonsOf(items, i) == Some(found)
    {
      var b := ButtonOf(items[i]);
      if b.None? || b.value in found {
        NoneStays(items, i + 1);
        return None;
      }
      found := found + {b.value};
      i := i + 1;
    }
    mask := Some(found);
  }

  lemma {:induction false} NoneStays(items: seq<Value>, n: nat)
    requires n <= |items| && ButtonsOf(items, n).None?
    ensures ButtonsOf(items, |items|).None?
    decreases |items| - n
  {
    if n < |items| {
      NoneStays(items, n + 1);
    }
  }

  /** The loop over the steps of a path, one axis after the other. */
  method ReadPath(items: seq<Value>) returns (steps: Option<seq<(int, int)>>)
    ensures steps.Some? <==> forall i :: 0 <= i < |items| ==> IsStep(items[i])
    ensures steps.Some? ==> |steps.value| == |items|
    ensures steps.Some? ==> forall i :: 0 <= i < |items| ==>
      IsStep(items[i]) && steps.value[i] == (items[i].items[0].value, items[i].items[1].value)
  {
    var read: seq<(int, int)> := [];
    var i := 0;
    while i < |items|
      invariant 0 <= i <= |items| && |read| == i
      invariant forall k :: 0 <= k < i ==>
        IsStep(items[k]) && read[k] == (items[k].items[0].value, items[k].items[1].value)
    {
      var step := items[i];
      if !step.List? || |step.items| != 2 {
        return None;
      }
      var axis := 0;
      while axis < 2
        invariant 0 <= axis <= 2
        invariant forall k :: 0 <= k < axis ==> InMotion(step.items[k])
      {
        if !step.items[axis].Int? || step.items[axis].value < -MAX_MOTION || step.items[axis].value > MAX_MOTION {
          return None;
        }
        axis := axis + 1;
      }
      read := read + [(step.items[0].value, step.items[1].value)];
      i := i + 1;
    }
    steps := Some(read);
  }

  // ---------------------------------------------------------------- batches

  const MAX_EVENTS := 64

  /** One event of a batch; `other` is what the validation of the other two kinds says. */
  function EventOf(v: Value, other: Value -> bool): Option<Event> {
    if !v.Obj? then None
    else
      match Get(v.members, "kind")
      case None => None
      case Some(kind) =>
        if !kind.Str? then None
        else if kind.text == "keyboard" || kind.text == "joystick" then if other(v) then Some(NotMouse) else None
        else if kind.text == "mouse" then MouseEvent(v.members)
        else if kind.text == "release_all" then if OnlyKeys(v.members, ["kind"]) then Some(ReleaseAll) else None
        else None
  }

  lemma EventsAreValidated(v: Value, other: Value -> bool)
    requires EventOf(v, other).Some?
    ensures Validated(EventOf(v, other).value)
  {
    if MouseEvent(v.members).Some? {
      MouseEventsAreValidated(v.members);
    }
  }

  /** The events of a request's root, if it has the shape of a batch. */
  function EventsField(root: Value): Option<seq<Value>> {
    if !root.Obj? || !OnlyKeys(root.members, ["events"]) then None
    else
      match Get(root.members, "events")
      case None => None
      case Some(list) => if list.List? && 1 <= |list.items| <= MAX_EVENTS then Some(list.items) else None
  }

  predicate AllAccepted(root: Value, other: Value -> bool) {
    EventsField(root).Some?
    && forall i :: 0 <= i < |EventsField(root).value| ==> EventOf(EventsField(root).value[i], other).Some?
  }

  /** A batch is accepted when every event is, and then all of them are in range; else the first
      event that is not is told, -1 standing for the batch itself. */
  method ValidateBatch(root: Value, other: Value -> bool) returns (ok: bool, events: seq<Event>, errorIndex: int)
    ensures ok <==> AllAccepted(root, other)
    ensures ok ==> |events| == |EventsField(root).value|
    ensures ok ==> forall i :: 0 <= i < |events| ==>
      Validated(events[i]) && EventOf(EventsField(root).value[i], other) == Some(events[i])
    ensures !ok && EventsField(root).None? ==> errorIndex == -1
    ensures !ok && EventsField(root).Some? ==>
      0 <= errorIndex < |EventsField(root).value| && EventOf(EventsField(root).value[errorIndex], other).None?
    ensures !ok ==> forall i :: 0 <= i < errorIndex ==> EventOf(EventsField(root).value[i], other).Some?
  {
    errorIndex, events := -1, [];
    var field := EventsField(root);
    if field.None? {
      return false, events, errorIndex;
    }
    var i := 0;
    while i < |field.value|
      invariant 0 <= i <= |field.value| && |events| == i
      invariant forall k :: 0 <= k < i ==> Validated(events[k]) && EventOf(field.value[k], other) == Some(events[k])
    {
      var e := EventOf(field.value[i], other);
      if e.None? {
        return false, events, i;
      }
      EventsAreValidated(field.value[i], other);
      events := events + [e.value];
      i := i + 1;
    }
    ok := true;
  }
}
