/** The keys that REST requests hold down while the menu is open, after route_input_menu.h, on
    values: which are held, the modifier flags they add up to, and the key that repeats. */
module MenuKeys {

  /** Entry 64 of the keyboard map is restore; the others are the matrix, row by row. */
  const KEYS := 64
  const RESTORE := 64

  function Row(key: nat): (r: nat)
    requires key < KEYS
    ensures r < 8
  {
    key / 8
  }

  function Col(key: nat): (r: nat)
    requires key < KEYS
    ensures r < 8
  {
    key % 8
  }

  lemma PlaceIsKey(a: nat, b: nat)
    requires a < KEYS && b < KEYS
    ensures Row(a) == Row(b) && Col(a) == Col(b) <==> a == b
  {
  }

  // ---------------------------------------------------------------- bits of a byte

  function Bit(i: nat): bv8
    requires i < 8
  {
    if i == 0 then 0x01 else if i == 1 then 0x02 else if i == 2 then 0x04 else if i == 3 then 0x08
    else if i == 4 then 0x10 else if i == 5 then 0x20 else if i == 6 then 0x40 else 0x80
  }

  predicate Has(b: bv8, i: nat)
    requires i < 8
  {
    b & Bit(i) != 0
  }

  lemma BitSet(b: bv8, c: nat, d: nat)
    requires c < 8 && d < 8
    ensures Has(b | Bit(c), d) == (c == d || Has(b, d))
  {
  }

  lemma BitCleared(b: bv8, c: nat, d: nat)
    requires c < 8 && d < 8
    ensures Has(b & !Bit(c), d) == (c != d && Has(b, d))
  {
  }

  lemma BitUnion(a: bv8, b: bv8, d: nat)
    requires d < 8
    ensures Has(a | b, d) == (Has(a, d) || Has(b, d))
  {
  }

  // ---------------------------------------------------------------- requests

  datatype Transition = Press | Release | Tap

  datatype Request = Request(keys: seq<nat>, transition: Transition)

  /** What the validation lets through: named keys, none twice, and restore only with a tap. */
  predicate Validated(e: Request) {
    1 <= |e.keys| <= 8
    && (forall i :: 0 <= i < |e.keys| ==> e.keys[i] <= RESTORE)
    && (forall i, j :: 0 <= i < j < |e.keys| ==> e.keys[i] != e.keys[j])
    && (RESTORE in e.keys ==> e.transition == Tap)
  }

  /** The modifier flag of a place of the matrix, and the code of a key under some flags; both
      belong to the keyboard and can be anything here. */
  datatype Keyboard = Keyboard(flag: (nat, nat) -> bv8, code: (nat, nat, bv8) -> int)

  function Flag(kb: Keyboard, key: nat): bv8
    requires key < KEYS
  {
    kb.flag(Row(key), Col(key))
  }

  predicate IsPlain(kb: Keyboard, key: nat) {
    key < KEYS && Flag(kb, key) == 0
  }

  // ---------------------------------------------------------------- the state

  datatype State = State(held: set<nat>, flags: bv8, row: nat, col: nat, delay: int, menu: bool, repeating: bool)

  /** The flags of the held keys below `k`, together. */
  function FlagsOf(kb: Keyboard, held: set<nat>, k: nat): bv8
    requires k <= KEYS
  {
    if k == 0 then 0
    else FlagsOf(kb, held, k - 1) | (if k - 1 in held then Flag(kb, k - 1) else 0)
  }

  /** The held keys below `k` that are no modifiers. */
  function PlainKeys(kb: Keyboard, held: set<nat>, k: nat): seq<nat>
    requires k <= KEYS
  {
    if k == 0 then []
    else PlainKeys(kb, held, k - 1) + (if k - 1 in held && IsPlain(kb, k - 1) then [k - 1] else [])
  }

  function UpdateRepeat(kb: Keyboard, s: State, initialDelay: int): State {
    var plain := PlainKeys(kb, s.held, KEYS);
    if |plain| != 1 || plain[0] >= KEYS then s.(repeating := false, delay := 0)
    else
      var row, col := Row(plain[0]), Col(plain[0]);
      s.(row := row, col := col, repeating := true,
         delay := if !s.repeating || s.row != row || s.col != col then initialDelay else s.delay)
  }

  function Cleared(s: State): State {
    State({}, 0, 0, 0, 0, s.menu, false)
  }

  function HeldAfter(held: set<nat>, e: Request): set<nat> {
    match e.transition
    case Press => held + (set k | k in e.keys && k < KEYS)
    case Release => held - (set k | k in e.keys)
    case Tap => held
  }

  function Applied(kb: Keyboard, s: State, e: Request, initialDelay: int): State {
    if e.transition == Tap then s
    else
      var held := HeldAfter(s.held, e);
      UpdateRepeat(kb, s.(held := held, flags := FlagsOf(kb, held, KEYS)), initialDelay)
  }

  function Synced(s: State, active: bool): State {
    (if s.menu != active then Cleared(s) else s).(menu := active)
  }

  /** A tick of the repeat timer, and the key it types, 0 for none. */
  function Ticked(kb: Keyboard, s: State, speed: int): (State, int) {
    if !s.repeating then (s, 0)
    else if s.delay > 0 then (s.(delay := s.delay - 1), 0)
    else (s.(delay := speed), kb.code(s.row, s.col, s.flags))
  }

  // ---------------------------------------------------------------- runs

  datatype Action = Apply(e: Request) | Clear | Reset | Sync(active: bool) | Tick

  function Step(kb: Keyboard, s: State, a: Action, initialDelay: int, speed: int): State {
    match a
    case Apply(e) => Applied(kb, s, e, initialDelay)
    case Clear => Cleared(s)
    case Reset => Cleared(s.(menu := false))
    case Sync(active) => Synced(s, active)
    case Tick => Ticked(kb, s, speed).0
  }

  const START := State({}, 0, 0, 0, 0, false, false)

  function Run(kb: Keyboard, actions: seq<Action>, initialDelay: int, speed: int): State {
    if actions == [] then START
    else Step(kb, Run(kb, actions[..|actions| - 1], initialDelay, speed), actions[|actions| - 1], initialDelay, speed)
  }

  predicate Proper(actions: seq<Action>) {
    forall i :: 0 <= i < |actions| && actions[i].Apply? ==> Validated(actions[i].e)
  }

  // ---------------------------------------------------------------- what holds in every state

  /** A flag bit is up exactly when a held key has it. */
  predicate FlagsExact(kb: Keyboard, s: State) {
    forall b :: 0 <= b < 8 ==>
      (Has(s.flags, b) <==> exists k :: k in s.held && k < KEYS && Has(Flag(kb, k), b))
  }

  predicate OnlyPlain(kb: Keyboard, held: set<nat>, key: nat) {
    key in held && IsPlain(kb, key) && forall k :: k in held && IsPlain(kb, k) ==> k == key
  }

  /** Repeating exactly when one key that is no modifier is held, and then it is that key. */
  ghost predicate RepeatExact(kb: Keyboard, s: State) {
    (s.repeating <==> exists k: nat :: OnlyPlain(kb, s.held, k))
    && forall k: nat :: s.repeating && OnlyPlain(kb, s.held, k) ==> s.row == Row(k) && s.col == Col(k)
  }

  ghost predicate Inv(kb: Keyboard, s: State) {
    (forall k :: k in s.held ==> k < KEYS) && FlagsExact(kb, s) && RepeatExact(kb, s)
  }

  lemma {:induction false} FlagsOfExact(kb: Keyboard, held: set<nat>, n: nat, b: nat)
    requires n <= KEYS && b < 8
    ensures Has(FlagsOf(kb, held, n), b) <==> exists k :: k in held && k < n && Has(Flag(kb, k), b)
  {
    if n > 0 {
      FlagsOfExact(kb, held, n - 1, b);
      var flag := if n - 1 in held then Flag(kb, n - 1) else 0;
      BitUnion(FlagsOf(kb, held, n - 1), flag, b);
    }
  }

  lemma {:induction false} PlainKeysExact(kb: Keyboard, held: set<nat>, n: nat)
    requires n <= KEYS
    ensures forall k :: k in PlainKeys(kb, held, n) <==> k in held && k < n && IsPlain(kb, k)
    ensures forall i, j :: 0 <= i < j < |PlainKeys(kb, held, n)| ==>
      PlainKeys(kb, held, n)[i] < PlainKeys(kb, held, n)[j]
  {
    if n > 0 {
      PlainKeysExact(kb, held, n - 1);
      var before := PlainKeys(kb, held, n - 1);
      assert forall i :: 0 <= i < |before| ==> before[i] in before;
    }
  }

  lemma AllTheSame(s: seq<nat>, k: nat)
    requires k in s && forall x :: x in s ==> x == k
    requires forall i, j :: 0 <= i < j < |s| ==> s[i] < s[j]
    ensures s == [k]
  {
    var first, last := s[0], s[|s| - 1];
    assert first in s && last in s;
  }

  /** The scan finds one plain key exactly when there is only one. */
  lemma OnlyMeansOne(kb: Keyboard, held: set<nat>, k: nat)
    requires OnlyPlain(kb, held, k)
    ensures PlainKeys(kb, held, KEYS) == [k]
  {
    PlainKeysExact(kb, held, KEYS);
    AllTheSame(PlainKeys(kb, held, KEYS), k);
  }

  lemma OnePlain(kb: Keyboard, held: set<nat>)
    requires forall k :: k in held ==> k < KEYS
    ensures var plain := PlainKeys(kb, held, KEYS);
      (|plain| == 1 <==> exists k: nat :: OnlyPlain(kb, held, k))
      && (|plain| == 1 ==> plain[0] < KEYS && forall k: nat :: OnlyPlain(kb, held, k) ==> k == plain[0])
  {
    var plain := PlainKeys(kb, held, KEYS);
    PlainKeysExact(kb, held, KEYS);
    if |plain| == 1 {
      assert plain[0] in plain;
      assert OnlyPlain(kb, held, plain[0]);
    }
    forall k: nat | OnlyPlain(kb, held, k)
      ensures plain == [k]
    {
      OnlyMeansOne(kb, held, k);
    }
  }

  lemma AppliedKeepsInv(kb: Keyboard, s: State, e: Request, initialDelay: int)
    requires Inv(kb, s) && Validated(e)
    ensures Inv(kb, Applied(kb, s, e, initialDelay))
  {
    if e.transition != Tap {
      var held := HeldAfter(s.held, e);
      forall b | 0 <= b < 8
        ensures Has(FlagsOf(kb, held, KEYS), b) <==> exists k :: k in held && k < KEYS && Has(Flag(kb, k), b)
      {
        FlagsOfExact(kb, held, KEYS, b);
      }
      OnePlain(kb, held);
    }
  }

  lemma ClearedIsFine(kb: Keyboard, menu: bool)
    ensures Inv(kb, State({}, 0, 0, 0, 0, menu, false))
  {
    assert forall b :: 0 <= b < 8 ==> !Has(0, b);
    assert forall k :: !OnlyPlain(kb, {}, k);
  }

  /** Every reachable state, whatever was pressed, released, cleared or timed before. */
  lemma {:induction false} RunKeepsInv(kb: Keyboard, actions: seq<Action>, initialDelay: int, speed: int)
    requires Proper(actions)
    ensures Inv(kb, Run(kb, actions, initialDelay, speed))
  {
    ClearedIsFine(kb, false);
    if actions != [] {
      var before, last := actions[..|actions| - 1], actions[|actions| - 1];
      RunKeepsInv(kb, before, initialDelay, speed);
      var s := Run(kb, before, initialDelay, speed);
      ClearedIsFine(kb, s.menu);
      match last
      case Apply(e) => AppliedKeepsInv(kb, s, e, initialDelay);
      case Sync(active) => ClearedIsFine(kb, active);
      case _ =>
    }
  }

  // ---------------------------------------------------------------- the history behind the matrix

  /** Whether the menu is active after the first `n` actions, as far as they told. */
  function MenuAfter(actions: seq<Action>, n: nat): bool
    requires n <= |actions|
  {
    n > 0 && match actions[n - 1]
             case Sync(active) => active
             case Reset => false
             case _ => MenuAfter(actions, n - 1)
  }

  predicate Presses(a: Action, key: nat) {
    a.Apply? && a.e.transition == Press && key in a.e.keys
  }

  /** Action `i` releases the key, clears everything, or changes whether the menu is active. */
  predicate LetsGo(actions: seq<Action>, i: nat, key: nat)
    requires i < |actions|
  {
    match actions[i]
    case Apply(e) => e.transition == Release && key in e.keys
    case Clear => true
    case Reset => true
    case Sync(active) => active != MenuAfter(actions, i)
    case Tick => false
  }

  predicate PressedAt(actions: seq<Action>, n: nat, i: nat, key: nat)
    requires n <= |actions|
  {
    i < n && Presses(actions[i], key) && forall j :: i < j < n ==> !LetsGo(actions, j, key)
  }

  /** Pressed among the first `n` actions, and not let go of since. */
  ghost predicate StillPressed(actions: seq<Action>, n: nat, key: nat)
    requires n <= |actions|
  {
    exists i :: PressedAt(actions, n, i, key)
  }

  lemma {:induction false} MenuFollows(kb: Keyboard, actions: seq<Action>, n: nat, initialDelay: int, speed: int)
    requires n <= |actions|
    ensures Run(kb, actions[..n], initialDelay, speed).menu == MenuAfter(actions, n)
  {
    if n > 0 {
      assert actions[..n][..n - 1] == actions[..n - 1];
      MenuFollows(kb, actions, n - 1, initialDelay, speed);
    }
  }

  lemma StillPressedStep(actions: seq<Action>, n: nat, key: nat)
    requires 0 < n <= |actions|
    ensures StillPressed(actions, n, key)
       <==> Presses(actions[n - 1], key) || (StillPressed(actions, n - 1, key) && !LetsGo(actions, n - 1, key))
  {
    if Presses(actions[n - 1], key) {
      assert PressedAt(actions, n, n - 1, key);
    }
    if StillPressed(actions, n - 1, key) && !LetsGo(actions, n - 1, key) {
      var i :| PressedAt(actions, n - 1, i, key);
      assert PressedAt(actions, n, i, key);
    }
    if StillPressed(actions, n, key) && !Presses(actions[n - 1], key) {
      var i :| PressedAt(actions, n, i, key);
      assert PressedAt(actions, n - 1, i, key);
    }
  }

  /** The held keys are exactly the matrix keys pressed and not released since the last clear
      or menu change. */
  lemma {:induction false} HeldIsHistory(kb: Keyboard, actions: seq<Action>, n: nat, key: nat, initialDelay: int,
                                         speed: int)
    requires Proper(actions) && n <= |actions|
    ensures key in Run(kb, actions[..n], initialDelay, speed).held <==> StillPressed(actions, n, key)
  {
    if n > 0 {
      assert actions[..n][..n - 1] == actions[..n - 1] && actions[..n][n - 1] == actions[n - 1];
      HeldIsHistory(kb, actions, n - 1, key, initialDelay, speed);
      MenuFollows(kb, actions, n - 1, initialDelay, speed);
      StillPressedStep(actions, n, key);
    }
  }

  // ---------------------------------------------------------------- the rhythm of the repeat

  function Ticks(kb: Keyboard, s: State, speed: int, n: nat): State {
    if n == 0 then s else Ticked(kb, Ticks(kb, s, speed, n - 1), speed).0
  }

  /** While a key repeats, the ticks of its delay type nothing, the next one types the key
      under the current flags, and then the delay is `speed`. */
  lemma {:induction false} DelayThenKey(kb: Keyboard, s: State, speed: int, n: nat)
    requires s.repeating && s.delay >= 0 && n <= s.delay
    ensures Ticks(kb, s, speed, n) == s.(delay := s.delay - n)
    ensures n < s.delay ==> Ticked(kb, Ticks(kb, s, speed, n), speed).1 == 0
    ensures n == s.delay ==>
      Ticked(kb, Ticks(kb, s, speed, n), speed) == (s.(delay := speed), kb.code(s.row, s.col, s.flags))
  {
    if n > 0 {
      DelayThenKey(kb, s, speed, n - 1);
    }
  }

  /** Two more modifiers or none: a change that leaves the same single key held does not start
      its delay again. */
  lemma SameKeyKeepsDelay(kb: Keyboard, s: State, e: Request, initialDelay: int, key: nat)
    requires Inv(kb, s) && Validated(e) && OnlyPlain(kb, s.held, key) && OnlyPlain(kb, HeldAfter(s.held, e), key)
    ensures Applied(kb, s, e, initialDelay).delay == s.delay && Applied(kb, s, e, initialDelay).repeating
  {
    OnePlain(kb, HeldAfter(s.held, e));
  }
}
