/** What a request says is what the event is: the mouse events of the input API read off the
    JSON object, member by member. */
module MouseRequests {
  import opened Common
  import opened Json
  import opened MouseQueue
  import opened MouseInput

  // ---------------------------------------------------------------- members

  predicate Has(ms: seq<Member>, name: string) {
    exists i :: 0 <= i < |ms| && ms[i].key == name
  }

  /** `v` is the value of the first member of that name. */
  predicate Holds(ms: seq<Member>, name: string, v: Value) {
    exists i :: 0 <= i < |ms| && ms[i] == Member(name, v) && forall k :: 0 <= k < i ==> ms[k].key != name
  }

  /** The member is that number, or missing and the number the default. */
  predicate Number(ms: seq<Member>, name: string, n: int, default: int) {
    if Has(ms, name) then Holds(ms, name, Int(n)) else n == default
  }

  // ---------------------------------------------------------------- what a mouse object says

  function NameOf(b: Button): string {
    match b
    case Left => "left"
    case Right => "right"
    case Middle => "middle"
  }

  function WordOf(t: Transition): string {
    match t
    case Press => "press"
    case Release => "release"
    case Tap => "tap"
  }

  predicate NamesOneOf(v: Value, mask: set<Button>) {
    exists b: Button :: b in mask && v == Str(NameOf(b))
  }

  predicate NamedIn(items: seq<Value>, n: nat, b: Button)
    requires n <= |items|
  {
    exists i :: 0 <= i < n && items[i] == Str(NameOf(b))
  }

  predicate NamesFirst(items: seq<Value>, n: nat, mask: set<Button>)
    requires n <= |items|
  {
    && (forall i :: 0 <= i < n ==> NamesOneOf(items[i], mask))
    && (forall b: Button :: b in mask ==> NamedIn(items, n, b))
    && forall i, j :: 0 <= i < j < n ==> items[i] != items[j]
  }

  /** One to three names of buttons, all different and exactly those of the set. */
  predicate NamesButtons(v: Value, mask: set<Button>) {
    && v.List? && 1 <= |v.items| <= 3
    && NamesFirst(v.items, |v.items|, mask)
  }

  predicate SaysMove(v: Value, x: int, y: int) {
    && v.Obj? && (forall i :: 0 <= i < |v.members| ==> v.members[i].key == "x" || v.members[i].key == "y")
    && |v.members| > 0
    && Number(v.members, "x", x, 0) && Number(v.members, "y", y, 0)
    && -127 <= x <= 127 && -127 <= y <= 127
  }

  predicate SaysWheel(v: Value, vertical: int, horizontal: int) {
    && v.Obj?
    && (forall i :: 0 <= i < |v.members| ==> v.members[i].key == "vertical" || v.members[i].key == "horizontal")
    && Number(v.members, "vertical", vertical, 0) && Number(v.members, "horizontal", horizontal, 0)
    && -64 <= vertical <= 64 && -64 <= horizontal <= 64 && (vertical != 0 || horizontal != 0)
  }

  predicate SaysPath(v: Value, steps: seq<(int, int)>) {
    && v.List? && |v.items| == |steps| && 1 <= |steps| <= 256
    && forall i :: 0 <= i < |steps| ==>
         && v.items[i] == List([Int(steps[i].0), Int(steps[i].1)])
         && -127 <= steps[i].0 <= 127 && -127 <= steps[i].1 <= 127
  }

  predicate MouseKey(key: string) {
    key == "kind" || key == "inputs" || key == "transition" || key == "move" || key == "wheel" || key == "path"
    || key == "interval_ms"
  }

  /** The object has these of the members that tell what the mouse does, and no other. */
  predicate HasOnly(ms: seq<Member>, doing: string, with: string) {
    && (forall i :: 0 <= i < |ms| ==> MouseKey(ms[i].key))
    && (forall i :: 0 <= i < |ms| ==> ms[i].key == "kind" || ms[i].key == doing || ms[i].key == with)
    && Has(ms, doing)
  }

  /** The members of a mouse object say `e`. */
  ghost predicate SaysMouse(ms: seq<Member>, e: Event) {
    match e
    case Buttons(mask, t) =>
      && HasOnly(ms, "inputs", "transition") && Holds(ms, "transition", Str(WordOf(t)))
      && exists v :: Holds(ms, "inputs", v) && NamesButtons(v, mask)
    case Move(x, y) =>
      HasOnly(ms, "move", "move") && exists v :: Holds(ms, "move", v) && SaysMove(v, x, y)
    case Wheel(vertical, horizontal) =>
      HasOnly(ms, "wheel", "wheel") && exists v :: Holds(ms, "wheel", v) && SaysWheel(v, vertical, horizontal)
    case Path(steps, interval) =>
      && HasOnly(ms, "path", "interval_ms") && Number(ms, "interval_ms", interval, 20) && 20 <= interval <= 1000
      && exists v :: Holds(ms, "path", v) && SaysPath(v, steps)
    case _ => false
  }

  // ---------------------------------------------------------------- looking members up

  predicate AllIn(ms: seq<Member>, allowed: seq<string>) {
    forall i :: 0 <= i < |ms| ==> ms[i].key in allowed
  }

  /** Where all names are among known ones in small letters, the look-up that does not mind the
      case finds the first member of just that name. */
  lemma {:induction false} GetFinds(ms: seq<Member>, name: string, allowed: seq<string>)
    requires AllIn(ms, allowed) && name in allowed
    requires forall a, b :: a in allowed && b in allowed && SameName(a, b) ==> a == b
    ensures Get(ms, name).Some? <==> Has(ms, name)
    ensures forall v :: Get(ms, name) == Some(v) <==> Holds(ms, name, v)
    decreases |ms|
  {
    if ms != [] {
      GetFinds(ms[1..], name, allowed);
      NamesSelf(name);
      if ms[0].key == name {
        assert forall v :: Holds(ms, name, v) <==> v == ms[0].value;
      } else {
        assert !SameName(name, ms[0].key);
        HoldsBehind(ms, name);
      }
    }
  }

  lemma NamesSelf(name: string)
    ensures SameName(name, name)
  {
  }

  lemma HoldsBehind(ms: seq<Member>, name: string)
    requires ms != [] && ms[0].key != name
    ensures Has(ms, name) <==> Has(ms[1..], name)
    ensures forall v :: Holds(ms, name, v) <==> Holds(ms[1..], name, v)
  {
    if Has(ms, name) {
      var i :| 0 <= i < |ms| && ms[i].key == name;
      assert ms[1..][i - 1].key == name;
    }
    forall v
      ensures Holds(ms, name, v) <==> Holds(ms[1..], name, v)
    {
      if Holds(ms, name, v) {
        var i :| 0 <= i < |ms| && ms[i] == Member(name, v) && forall k :: 0 <= k < i ==> ms[k].key != name;
        assert ms[1..][i - 1] == Member(name, v);
      }
      if Holds(ms[1..], name, v) {
        var i :| 0 <= i < |ms[1..]| && ms[1..][i] == Member(name, v)
                 && forall k :: 0 <= k < i ==> ms[1..][k].key != name;
        assert ms[i + 1] == Member(name, v);
        assert forall k :: 0 < k < i + 1 ==> ms[k] == ms[1..][k - 1];
      }
    }
  }

  lemma HoldsHas(ms: seq<Member>, name: string)
    ensures Has(ms, name) <==> exists v :: Holds(ms, name, v)
    ensures forall v, w :: Holds(ms, name, v) && Holds(ms, name, w) ==> v == w
    decreases |ms|
  {
    if ms != [] {
      HoldsHas(ms[1..], name);
      if ms[0].key == name {
        assert Holds(ms, name, ms[0].value);
      } else {
        HoldsBehind(ms, name);
      }
    }
  }

  /** Names of small letters and lines below are the same only if they are equal. */
  predicate Small(name: string) {
    forall i :: 0 <= i < |name| ==> 'a' <= name[i] <= 'z' || name[i] == '_'
  }

  lemma SmallNamesDiffer(a: string, b: string)
    requires Small(a) && Small(b) && SameName(a, b)
    ensures a == b
  {
    assert forall i :: 0 <= i < |a| ==> Lower(a[i]) == a[i] && Lower(b[i]) == b[i];
  }

  lemma AllSmall(allowed: seq<string>)
    requires forall a :: a in allowed ==> Small(a)
    ensures forall a, b :: a in allowed && b in allowed && SameName(a, b) ==> a == b
  {
    forall a, b | a in allowed && b in allowed && SameName(a, b)
      ensures a == b
    {
      SmallNamesDiffer(a, b);
    }
  }

  /** A number that may be missing. */
  lemma IntReads(ms: seq<Member>, allowed: seq<string>, name: string, low: int, high: int, default: int, n: int)
    requires AllIn(ms, allowed) && name in allowed && forall a :: a in allowed ==> Small(a)
    requires low <= default <= high
    ensures IntMember(ms, name, low, high, default) == Some(n)
       <==> Number(ms, name, n, default) && low <= n <= high
  {
    AllSmall(allowed);
    GetFinds(ms, name, allowed);
    HoldsHas(ms, name);
    if Has(ms, name) {
      assert Get(ms, name) == Some(Int(n)) <==> Holds(ms, name, Int(n));
    }
  }

  // ---------------------------------------------------------------- the parts of an event

  lemma OneOfTwo(ms: seq<Member>, a: string, b: string)
    ensures AllIn(ms, [a, b]) <==> forall i :: 0 <= i < |ms| ==> ms[i].key == a || ms[i].key == b
    ensures AllIn(ms, [a, b]) <==> OnlyKeys(ms, [a, b])
    ensures AllIn(ms, [a, b]) ==> (|ms| > 0 <==> Has(ms, a) || Has(ms, b))
  {
    if AllIn(ms, [a, b]) && |ms| > 0 {
      assert ms[0].key in [a, b];
    }
  }

  lemma MoveReads(v: Value, e: Event)
    ensures MoveEvent(v) == Some(e) <==> e.Move? && SaysMove(v, e.x, e.y)
  {
    if v.Obj? {
      OneOfTwo(v.members, "x", "y");
      if AllIn(v.members, ["x", "y"]) {
        MoveMembers(v.members);
        forall n
          ensures IntMember(v.members, "x", -127, 127, 0) == Some(n)
             <==> Number(v.members, "x", n, 0) && -127 <= n <= 127
          ensures IntMember(v.members, "y", -127, 127, 0) == Some(n)
             <==> Number(v.members, "y", n, 0) && -127 <= n <= 127
        {
          IntReads(v.members, ["x", "y"], "x", -127, 127, 0, n);
          IntReads(v.members, ["x", "y"], "y", -127, 127, 0, n);
        }
      }
    }
  }

  lemma MoveMembers(ms: seq<Member>)
    requires AllIn(ms, ["x", "y"])
    ensures Get(ms, "x").Some? <==> Has(ms, "x")
    ensures Get(ms, "y").Some? <==> Has(ms, "y")
  {
    AllSmall(["x", "y"]);
    GetFinds(ms, "x", ["x", "y"]);
    GetFinds(ms, "y", ["x", "y"]);
  }

  lemma WheelReads(v: Value, e: Event)
    ensures WheelEvent(v) == Some(e) <==> e.Wheel? && SaysWheel(v, e.vertical, e.horizontal)
  {
    if v.Obj? {
      var names := ["vertical", "horizontal"];
      OneOfTwo(v.members, "vertical", "horizontal");
      if AllIn(v.members, names) {
        forall n
          ensures IntMember(v.members, "vertical", -64, 64, 0) == Some(n)
             <==> Number(v.members, "vertical", n, 0) && -64 <= n <= 64
          ensures IntMember(v.members, "horizontal", -64, 64, 0) == Some(n)
             <==> Number(v.members, "horizontal", n, 0) && -64 <= n <= 64
        {
          IntReads(v.members, names, "vertical", -64, 64, 0, n);
          IntReads(v.members, names, "horizontal", -64, 64, 0, n);
        }
      }
    }
  }

  lemma StepsRead(v: Value, steps: seq<(int, int)>)
    ensures SaysPath(v, steps) <==>
      && v.List? && 1 <= |v.items| <= 256
      && (forall i :: 0 <= i < |v.items| ==> IsStep(v.items[i])) && steps == StepsOf(v.items)
  {
    if v.List? && |v.items| == |steps| && 1 <= |steps| <= 256 {
      forall i | 0 <= i < |steps|
        ensures IsStep(v.items[i]) && steps[i] == (v.items[i].items[0].value, v.items[i].items[1].value)
           <==> v.items[i] == List([Int(steps[i].0), Int(steps[i].1)])
                && -127 <= steps[i].0 <= 127 && -127 <= steps[i].1 <= 127
      {
        if IsStep(v.items[i]) {
          assert v.items[i] == List([Int(v.items[i].items[0].value), Int(v.items[i].items[1].value)]);
        }
      }
    }
  }

  lemma ButtonReads(v: Value, b: Button)
    ensures ButtonOf(v) == Some(b) <==> v == Str(NameOf(b))
  {
  }

  lemma TransitionReads(v: Value, t: Transition)
    ensures TransitionOf(Some(v)) == Some(t) <==> v == Str(WordOf(t))
  {
  }

  /** The names found by the loop are different and just those of the set ... */
  lemma {:induction false} ButtonsRead(items: seq<Value>, n: nat)
    requires n <= |items| && ButtonsOf(items, n).Some?
    ensures NamesFirst(items, n, ButtonsOf(items, n).value)
  {
    if n > 0 {
      ButtonsRead(items, n - 1);
      var b := ButtonOf(items[n - 1]).value;
      ButtonReads(items[n - 1], b);
      OneMoreName(items, n, ButtonsOf(items, n - 1).value, b);
    }
  }

  /** ... and such names are read. */
  lemma {:induction false} NamesRead(items: seq<Value>, n: nat, mask: set<Button>)
    requires n <= |items| && NamesFirst(items, n, mask)
    ensures ButtonsOf(items, n) == Some(mask)
  {
    if n == 0 {
      NoNames(items, mask);
    } else {
      var b := OneNameLess(items, n, mask);
      var rest := mask - {b};
      NamesRead(items, n - 1, rest);
      assert rest + {b} == mask && b !in rest;
      ButtonAdded(items, n, rest, b);
    }
  }

  lemma NoNames(items: seq<Value>, mask: set<Button>)
    requires NamesFirst(items, 0, mask)
    ensures mask == {}
  {
    assert forall b: Button :: !NamedIn(items, 0, b);
  }

  lemma ButtonAdded(items: seq<Value>, n: nat, rest: set<Button>, b: Button)
    requires 0 < n <= |items| && ButtonsOf(items, n - 1) == Some(rest) && b !in rest
    requires items[n - 1] == Str(NameOf(b))
    ensures ButtonsOf(items, n) == Some(rest + {b})
  {
    ButtonReads(items[n - 1], b);
  }

  lemma NamesDiffer(a: Button, b: Button)
    ensures Str(NameOf(a)) == Str(NameOf(b)) <==> a == b
  {
  }

  lemma OneNameLess(items: seq<Value>, n: nat, mask: set<Button>) returns (b: Button)
    requires 0 < n <= |items| && NamesFirst(items, n, mask)
    ensures b in mask && items[n - 1] == Str(NameOf(b)) && NamesFirst(items, n - 1, mask - {b})
  {
    assert NamesOneOf(items[n - 1], mask);
    b :| b in mask && items[n - 1] == Str(NameOf(b));
    forall i | 0 <= i < n - 1
      ensures NamesOneOf(items[i], mask - {b})
    {
      assert NamesOneOf(items[i], mask);
      var c :| c in mask && items[i] == Str(NameOf(c));
      assert items[i] != items[n - 1];
      assert c in mask - {b};
    }
    forall c: Button | c in mask - {b}
      ensures NamedIn(items, n - 1, c)
    {
      assert NamedIn(items, n, c);
      var i :| 0 <= i < n && items[i] == Str(NameOf(c));
      NamesDiffer(b, c);
    }
  }

  lemma OneMoreName(items: seq<Value>, n: nat, before: set<Button>, b: Button)
    requires 0 < n <= |items| && NamesFirst(items, n - 1, before) && items[n - 1] == Str(NameOf(b)) && b !in before
    ensures NamesFirst(items, n, before + {b})
  {
    forall i | 0 <= i < n
      ensures NamesOneOf(items[i], before + {b})
    {
      if i < n - 1 {
        assert NamesOneOf(items[i], before);
        var c :| c in before && items[i] == Str(NameOf(c));
        assert c in before + {b};
      } else {
        assert b in before + {b};
      }
    }
    forall c: Button | c in before + {b}
      ensures NamedIn(items, n, c)
    {
      if c != b {
        assert NamedIn(items, n - 1, c);
      }
    }
    forall i | 0 <= i < n - 1
      ensures items[i] != items[n - 1]
    {
      assert NamesOneOf(items[i], before);
      var c :| c in before && items[i] == Str(NameOf(c));
      NamesDiffer(b, c);
    }
  }

  lemma InputsRead(v: Value, transition: Option<Value>, e: Event)
    ensures ButtonsEvent(v, transition) == Some(e) <==>
      e.Buttons? && transition == Some(Str(WordOf(e.transition))) && NamesButtons(v, e.mask)
  {
    if v.List? {
      if ButtonsOf(v.items, |v.items|).Some? {
        ButtonsRead(v.items, |v.items|);
      }
      if e.Buttons? && NamesFirst(v.items, |v.items|, e.mask) {
        NamesRead(v.items, |v.items|, e.mask);
      }
    }
    if transition.Some? && e.Buttons? {
      TransitionReads(transition.value, e.transition);
    }
  }

  lemma PathReads(v: Value, ms: seq<Member>, e: Event)
    requires AllMouse(ms)
    ensures PathEvent(v, ms) == Some(e) <==>
      e.Path? && SaysPath(v, e.steps) && Number(ms, "interval_ms", e.interval, 20) && 20 <= e.interval <= 1000
  {
    AllowedNames(ms);
    forall n
      ensures IntMember(ms, "interval_ms", 20, 1000, 20) == Some(n)
         <==> Number(ms, "interval_ms", n, 20) && 20 <= n <= 1000
    {
      IntReads(ms, MouseKeys(), "interval_ms", 20, 1000, 20, n);
    }
    if e.Path? {
      StepsRead(v, e.steps);
    }
  }

  // ---------------------------------------------------------------- events

  predicate AllMouse(ms: seq<Member>) {
    forall i :: 0 <= i < |ms| ==> MouseKey(ms[i].key)
  }

  lemma AllowedNames(ms: seq<Member>)
    ensures AllMouse(ms) <==> AllIn(ms, MouseKeys())
    ensures AllMouse(ms) <==> OnlyKeys(ms, MouseKeys())
    ensures forall a :: a in MouseKeys() ==> Small(a)
    ensures forall a :: a in MouseKeys() <==> MouseKey(a)
  {
  }

  /** Each of the members of a mouse object is found under its name. */
  lemma MemberFound(ms: seq<Member>, name: string)
    requires AllMouse(ms) && MouseKey(name)
    ensures Get(ms, name).Some? <==> Has(ms, name)
    ensures forall v :: Get(ms, name) == Some(v) <==> Holds(ms, name, v)
  {
    AllowedNames(ms);
    AllSmall(MouseKeys());
    GetFinds(ms, name, MouseKeys());
  }

  lemma DoesOne(ms: seq<Member>, doing: string, with: string)
    requires AllMouse(ms) && MouseKey(doing) && MouseKey(with)
    ensures HasOnly(ms, doing, with) <==>
      && Has(ms, doing)
      && forall a :: MouseKey(a) && a != "kind" && a != doing && a != with ==> !Has(ms, a)
  {
  }

  /** What a mouse object does, told from the members it has. */
  lemma OneThing(ms: seq<Member>)
    requires AllMouse(ms)
    ensures HasOnly(ms, "inputs", "transition") <==>
      && Has(ms, "inputs")
      && !Has(ms, "move") && !Has(ms, "wheel") && !Has(ms, "path") && !Has(ms, "interval_ms")
    ensures HasOnly(ms, "move", "move") <==>
      && Has(ms, "move") && !Has(ms, "inputs")
      && !Has(ms, "wheel") && !Has(ms, "path") && !Has(ms, "interval_ms") && !Has(ms, "transition")
    ensures HasOnly(ms, "wheel", "wheel") <==>
      && Has(ms, "wheel") && !Has(ms, "inputs")
      && !Has(ms, "move") && !Has(ms, "path") && !Has(ms, "interval_ms") && !Has(ms, "transition")
    ensures HasOnly(ms, "path", "interval_ms") <==>
      && Has(ms, "path")
      && !Has(ms, "inputs") && !Has(ms, "move") && !Has(ms, "wheel") && !Has(ms, "transition")
  {
    DoesOne(ms, "inputs", "transition");
    DoesOne(ms, "move", "move");
    DoesOne(ms, "wheel", "wheel");
    DoesOne(ms, "path", "interval_ms");
  }

  /** The event of a mouse object is what its members say, nothing else. */
  lemma MouseReads(ms: seq<Member>, e: Event)
    ensures MouseEvent(ms) == Some(e) <==> SaysMouse(ms, e)
  {
    AllowedNames(ms);
    if AllMouse(ms) {
      OneThing(ms);
      MemberFound(ms, "inputs");
      MemberFound(ms, "transition");
      MemberFound(ms, "move");
      MemberFound(ms, "wheel");
      MemberFound(ms, "path");
      MemberFound(ms, "interval_ms");
      forall v: Value, transition: Option<Value>
        ensures ButtonsEvent(v, transition) == Some(e) <==>
          e.Buttons? && transition == Some(Str(WordOf(e.transition))) && NamesButtons(v, e.mask)
      {
        InputsRead(v, transition, e);
      }
      forall v: Value
        ensures MoveEvent(v) == Some(e) <==> e.Move? && SaysMove(v, e.x, e.y)
        ensures WheelEvent(v) == Some(e) <==> e.Wheel? && SaysWheel(v, e.vertical, e.horizontal)
        ensures PathEvent(v, ms) == Some(e) <==>
          e.Path? && SaysPath(v, e.steps) && Number(ms, "interval_ms", e.interval, 20) && 20 <= e.interval <= 1000
      {
        MoveReads(v, e);
        WheelReads(v, e);
        PathReads(v, ms, e);
      }
    }
  }

  /** What the kind of the object makes of it. */
  lemma ByKind(ms: seq<Member>, other: Value -> bool)
    ensures MouseEvent(ms).Some? ==>
      EventOf(Obj(ms), other) == if Holds(ms, "kind", Str("mouse")) then MouseEvent(ms) else EventOf(Obj(ms), other)
    ensures EventOf(Obj(ms), other).Some? ==>
      || EventOf(Obj(ms), other) == Some(NotMouse)
      || (EventOf(Obj(ms), other) == MouseEvent(ms) && Holds(ms, "kind", Str("mouse")))
      || (EventOf(Obj(ms), other) == Some(ReleaseAll) && Holds(ms, "kind", Str("release_all"))
          && forall i :: 0 <= i < |ms| ==> ms[i].key == "kind")
    ensures Holds(ms, "kind", Str("release_all")) && (forall i :: 0 <= i < |ms| ==> ms[i].key == "kind") ==>
      EventOf(Obj(ms), other) == Some(ReleaseAll)
  {
    assert OnlyKeys(ms, ["kind"]) <==> forall i :: 0 <= i < |ms| ==> ms[i].key == "kind";
    AllowedNames(ms);
    if AllMouse(ms) {
      MemberFound(ms, "kind");
    }
  }

  /** An object is a mouse event just when it says so: its kind is "mouse" and its members say
      the event, or its only member is the kind "release_all". */
  lemma EventReads(ms: seq<Member>, other: Value -> bool, e: Event)
    requires e != NotMouse
    ensures EventOf(Obj(ms), other) == Some(e) <==>
      if e == ReleaseAll then
        (forall i :: 0 <= i < |ms| ==> ms[i].key == "kind") && Holds(ms, "kind", Str("release_all"))
      else Holds(ms, "kind", Str("mouse")) && SaysMouse(ms, e)
  {
    MouseReads(ms, e);
    ByKind(ms, other);
    IsNotReleaseAll(ms);
  }

  lemma IsNotReleaseAll(ms: seq<Member>)
    ensures MouseEvent(ms) != Some(ReleaseAll) && MouseEvent(ms) != Some(NotMouse)
  {
    if MouseEvent(ms).Some? {
      MouseEventsAreValidated(ms);
    }
  }

  /** A batch is a list of 1 to 64 entries, under "events" and with nothing beside it. */
  lemma RootReads(root: Value, items: seq<Value>)
    ensures EventsField(root) == Some(items) <==>
      && root.Obj? && (forall i :: 0 <= i < |root.members| ==> root.members[i].key == "events")
      && Holds(root.members, "events", List(items)) && 1 <= |items| <= 64
  {
    if root.Obj? && forall i :: 0 <= i < |root.members| ==> root.members[i].key == "events" {
      AllSmall(["events"]);
      GetFinds(root.members, "events", ["events"]);
    }
  }

  // ---------------------------------------------------------------- the order of members

  predicate KeysDiffer(ms: seq<Member>) {
    forall i, j :: 0 <= i < j < |ms| ==> ms[i].key != ms[j].key
  }

  /** The same members in any order. */
  ghost predicate Reordered(ms: seq<Member>, ns: seq<Member>) {
    KeysDiffer(ms) && KeysDiffer(ns) && forall m :: m in ms <==> m in ns
  }

  lemma HoldsAnywhere(ms: seq<Member>, name: string, v: Value)
    requires KeysDiffer(ms)
    ensures Holds(ms, name, v) <==> Member(name, v) in ms
  {
    if Member(name, v) in ms {
      var i :| 0 <= i < |ms| && ms[i] == Member(name, v);
      assert forall k :: 0 <= k < i ==> ms[k].key != ms[i].key;
    }
  }

  lemma LookUpsAgree(ms: seq<Member>, ns: seq<Member>)
    requires Reordered(ms, ns)
    ensures forall name, v :: Holds(ms, name, v) <==> Holds(ns, name, v)
    ensures forall name :: Has(ms, name) <==> Has(ns, name)
  {
    forall name, v
      ensures Holds(ms, name, v) <==> Holds(ns, name, v)
    {
      HoldsAnywhere(ms, name, v);
      HoldsAnywhere(ns, name, v);
    }
    forall name
      ensures Has(ms, name) <==> Has(ns, name)
    {
      HoldsHas(ms, name);
      HoldsHas(ns, name);
    }
  }

  lemma {:induction false} KeysAgree(ms: seq<Member>, ns: seq<Member>, good: string -> bool)
    requires forall m :: m in ms <==> m in ns
    ensures (forall i :: 0 <= i < |ms| ==> good(ms[i].key)) <==> forall i :: 0 <= i < |ns| ==> good(ns[i].key)
  {
    assert forall i :: 0 <= i < |ms| ==> ms[i] in ns;
    assert forall i :: 0 <= i < |ns| ==> ns[i] in ms;
  }

  lemma OnlyAgrees(ms: seq<Member>, ns: seq<Member>, doing: string, with: string)
    requires Reordered(ms, ns)
    ensures HasOnly(ms, doing, with) <==> HasOnly(ns, doing, with)
  {
    LookUpsAgree(ms, ns);
    KeysAgree(ms, ns, (key: string) => MouseKey(key));
    KeysAgree(ms, ns, (key: string) => key == "kind" || key == doing || key == with);
  }

  /** The members of an event may stand in any order ... */
  lemma OrderIsFree(ms: seq<Member>, ns: seq<Member>, other: Value -> bool, e: Event)
    requires Reordered(ms, ns) && e != NotMouse
    ensures EventOf(Obj(ms), other) == Some(e) <==> EventOf(Obj(ns), other) == Some(e)
  {
    EventReads(ms, other, e);
    EventReads(ns, other, e);
    LookUpsAgree(ms, ns);
    KeysAgree(ms, ns, (key: string) => key == "kind");
    OnlyAgrees(ms, ns, "inputs", "transition");
    OnlyAgrees(ms, ns, "move", "move");
    OnlyAgrees(ms, ns, "wheel", "wheel");
    OnlyAgrees(ms, ns, "path", "interval_ms");
  }

  /** ... and so may those of a move and of a turn of the wheel. */
  lemma AxesAreFree(ms: seq<Member>, ns: seq<Member>, a: int, b: int)
    requires Reordered(ms, ns)
    ensures SaysMove(Obj(ms), a, b) <==> SaysMove(Obj(ns), a, b)
    ensures SaysWheel(Obj(ms), a, b) <==> SaysWheel(Obj(ns), a, b)
  {
    NumbersAgree(ms, ns, "x", a);
    NumbersAgree(ms, ns, "y", b);
    NumbersAgree(ms, ns, "vertical", a);
    NumbersAgree(ms, ns, "horizontal", b);
    KeysAgree(ms, ns, (key: string) => key == "x" || key == "y");
    KeysAgree(ms, ns, (key: string) => key == "vertical" || key == "horizontal");
    if ms != [] {
      assert ms[0] in ns;
    }
    if ns != [] {
      assert ns[0] in ms;
    }
  }

  lemma NumbersAgree(ms: seq<Member>, ns: seq<Member>, name: string, n: int)
    requires Reordered(ms, ns)
    ensures Number(ms, name, n, 0) <==> Number(ns, name, n, 0)
  {
    LookUpsAgree(ms, ns);
  }

  // ---------------------------------------------------------------- spelling an event

  function Unless(left: bool, name: string, n: int): seq<Member> {
    if left then [] else [Member(name, Int(n))]
  }

  function AndName(items: seq<Value>, b: Button, mask: set<Button>): seq<Value> {
    if b in mask then items + [Str(NameOf(b))] else items
  }

  function Names(mask: set<Button>): seq<Value> {
    AndName(AndName(AndName([], Left, mask), Right, mask), Middle, mask)
  }

  function Pairs(steps: seq<(int, int)>): seq<Value> {
    seq(|steps|, i requires 0 <= i < |steps| => List([Int(steps[i].0), Int(steps[i].1)]))
  }

  /** What the mouse does; in brief, members that have their defaults are left out. */
  function Doing(e: Event, brief: bool): seq<Member>
    requires IsMouse(e)
  {
    match e
    case Buttons(mask, t) => [Member("inputs", List(Names(mask))), Member("transition", Str(WordOf(t)))]
    case Move(x, y) =>
      [Member("move", Obj(Unless(brief && x == 0 && y != 0, "x", x) + Unless(brief && y == 0, "y", y)))]
    case Wheel(v, h) =>
      [Member("wheel", Obj(Unless(brief && v == 0, "vertical", v) + Unless(brief && h == 0, "horizontal", h)))]
    case Path(steps, interval) =>
      [Member("path", List(Pairs(steps)))] + Unless(brief && interval == 20, "interval_ms", interval)
  }

  function Spelled(e: Event, brief: bool): seq<Member>
    requires IsMouse(e)
  {
    [Member("kind", Str("mouse"))] + Doing(e, brief)
  }

  lemma NameAdded(items: seq<Value>, before: set<Button>, b: Button, mask: set<Button>)
    requires NamesFirst(items, |items|, before) && b !in before && before <= mask
    ensures NamesFirst(AndName(items, b, mask), |AndName(items, b, mask)|, before + mask * {b})
  {
    if b in mask {
      var more := items + [Str(NameOf(b))];
      forall c: Button | c in before
        ensures NamedIn(more, |items|, c)
      {
        assert NamedIn(items, |items|, c);
        var i :| 0 <= i < |items| && items[i] == Str(NameOf(c));
        assert more[i] == Str(NameOf(c));
      }
      OneMoreName(more, |more|, before, b);
      assert mask * {b} == {b};
    } else {
      assert before + mask * {b} == before;
    }
  }

  lemma NamesSay(mask: set<Button>)
    requires mask != {}
    ensures NamesButtons(List(Names(mask)), mask)
  {
    var left := mask * {Left};
    NameAdded([], {}, Left, mask);
    assert {} + mask * {Left} == left;
    NameAdded(AndName([], Left, mask), left, Right, mask);
    NameAdded(AndName(AndName([], Left, mask), Right, mask), left + mask * {Right}, Middle, mask);
    forall b: Button
      ensures b in left + mask * {Right} + mask * {Middle} <==> b in mask
    {
      assert b == Left || b == Right || b == Middle;
    }
    assert left + mask * {Right} + mask * {Middle} == mask;
    NamesFit(mask);
  }

  lemma NamesFit(mask: set<Button>)
    requires mask != {}
    ensures 1 <= |Names(mask)| <= 3
  {
    var some: Button :| some in mask;
    assert some == Left || some == Right || some == Middle;
  }

  lemma AxesSay(x: int, y: int, brief: bool)
    ensures -127 <= x <= 127 && -127 <= y <= 127 ==>
      SaysMove(Obj(Unless(brief && x == 0 && y != 0, "x", x) + Unless(brief && y == 0, "y", y)), x, y)
    ensures -64 <= x <= 64 && -64 <= y <= 64 && (x != 0 || y != 0) ==>
      SaysWheel(Obj(Unless(brief && x == 0, "vertical", x) + Unless(brief && y == 0, "horizontal", y)), x, y)
  {
    TwoMembers(x, y, brief && x == 0 && y != 0, brief && y == 0, "x", "y");
    TwoMembers(x, y, brief && x == 0, brief && y == 0, "vertical", "horizontal");
  }

  lemma TwoMembers(n: int, m: int, noFirst: bool, noSecond: bool, first: string, second: string)
    requires first != second && (noFirst ==> n == 0) && (noSecond ==> m == 0)
    ensures var ms := Unless(noFirst, first, n) + Unless(noSecond, second, m);
      Number(ms, first, n, 0) && Number(ms, second, m, 0)
  {
    var ms := Unless(noFirst, first, n) + Unless(noSecond, second, m);
    assert KeysDiffer(ms);
    HoldsAnywhere(ms, first, Int(n));
    HoldsAnywhere(ms, second, Int(m));
    if !noFirst {
      assert ms[0] == Member(first, Int(n));
    }
    if !noSecond {
      assert ms[|ms| - 1] == Member(second, Int(m));
    }
  }

  /** Every event of the mouse that is in range is read from the object spelled for it. */
  lemma SpelledReads(e: Event, brief: bool, ms: seq<Member>, other: Value -> bool)
    requires IsMouse(e) && Validated(e) && (e.Buttons? ==> e.mask != {})
    requires Reordered(Spelled(e, brief), ms)
    ensures EventOf(Obj(ms), other) == Some(e)
  {
    var ns := Spelled(e, brief);
    OrderIsFree(ns, ms, other, e);
    EventReads(ns, other, e);
    HoldsAnywhere(ns, "kind", Str("mouse"));
    assert ns[0] == Member("kind", Str("mouse"));
    SpelledSays(e, brief);
  }

  lemma ButtonsSay(ns: seq<Member>, mask: set<Button>, t: Transition)
    requires mask != {} && KeysDiffer(ns)
    requires ns == [Member("kind", Str("mouse")), Member("inputs", List(Names(mask))),
                    Member("transition", Str(WordOf(t)))]
    ensures SaysMouse(ns, Buttons(mask, t))
  {
    NamesSay(mask);
    assert ns[1] == Member("inputs", List(Names(mask))) && ns[2] == Member("transition", Str(WordOf(t)));
    HoldsAnywhere(ns, "inputs", List(Names(mask)));
    HoldsAnywhere(ns, "transition", Str(WordOf(t)));
  }

  lemma PathSays(ns: seq<Member>, steps: seq<(int, int)>, interval: nat, brief: bool)
    requires Validated(Path(steps, interval)) && KeysDiffer(ns)
    requires ns == [Member("kind", Str("mouse")), Member("path", List(Pairs(steps)))]
                   + Unless(brief && interval == 20, "interval_ms", interval)
    ensures SaysMouse(ns, Path(steps, interval))
  {
    assert ns[1] == Member("path", List(Pairs(steps)));
    HoldsAnywhere(ns, "path", List(Pairs(steps)));
    HoldsAnywhere(ns, "interval_ms", Int(interval));
    if !(brief && interval == 20) {
      assert ns[2] == Member("interval_ms", Int(interval));
    }
    assert SaysPath(List(Pairs(steps)), steps);
  }

  lemma AxisSays(ns: seq<Member>, name: string, v: Value)
    requires ns == [Member("kind", Str("mouse")), Member(name, v)] && KeysDiffer(ns) && MouseKey(name)
    ensures HasOnly(ns, name, name) && Holds(ns, name, v)
  {
    assert ns[1] == Member(name, v);
    HoldsAnywhere(ns, name, v);
  }

  lemma SpelledSays(e: Event, brief: bool)
    requires IsMouse(e) && Validated(e) && (e.Buttons? ==> e.mask != {})
    requires KeysDiffer(Spelled(e, brief))
    ensures SaysMouse(Spelled(e, brief), e)
  {
    var ns := Spelled(e, brief);
    match e
    case Buttons(mask, t) =>
      ButtonsSay(ns, mask, t);
    case Move(x, y) =>
      AxesSay(x, y, brief);
      AxisSays(ns, "move", ns[1].value);
    case Wheel(v, h) =>
      AxesSay(v, h, brief);
      AxisSays(ns, "wheel", ns[1].value);
    case Path(steps, interval) =>
      PathSays(ns, steps, interval, brief);
  }
}
