/** RouteInputMenuKeyboardState as the object whose bytes its methods change. */
module MenuKeyboard {
  import opened MenuKeys

  /** The keys whose bits are up in the rows of a matrix. */
  ghost function KeysOf(rows: seq<bv8>): set<nat>
    requires |rows| == 8
  {
    set k: nat | k < KEYS && Has(rows[Row(k)], Col(k))
  }

  lemma KeyPressed(rows: seq<bv8>, key: nat)
    requires |rows| == 8 && key < KEYS
    ensures KeysOf(rows[Row(key) := rows[Row(key)] | Bit(Col(key))]) == KeysOf(rows) + {key}
  {
    forall k: nat | k < KEYS
      ensures Has(rows[Row(key) := rows[Row(key)] | Bit(Col(key))][Row(k)], Col(k))
           == (k == key || Has(rows[Row(k)], Col(k)))
    {
      BitSet(rows[Row(key)], Col(key), Col(k));
      PlaceIsKey(key, k);
    }
  }

  lemma KeyReleased(rows: seq<bv8>, key: nat)
    requires |rows| == 8 && key < KEYS
    ensures KeysOf(rows[Row(key) := rows[Row(key)] & !Bit(Col(key))]) == KeysOf(rows) - {key}
  {
    forall k: nat | k < KEYS
      ensures Has(rows[Row(key) := rows[Row(key)] & !Bit(Col(key))][Row(k)], Col(k))
           == (k != key && Has(rows[Row(k)], Col(k)))
    {
      BitCleared(rows[Row(key)], Col(key), Col(k));
      PlaceIsKey(key, k);
    }
  }

  // ---------------------------------------------------------------- the keys an event types

  function RequestFlags(kb: Keyboard, e: Request, n: nat): bv8
    requires n <= |e.keys|
  {
    if n == 0 then 0
    else RequestFlags(kb, e, n - 1) | (if e.keys[n - 1] < KEYS then Flag(kb, e.keys[n - 1]) else 0)
  }

  /** The codes of the first `n` keys that are no modifiers and have one. */
  function Codes(kb: Keyboard, e: Request, flags: bv8, n: nat): (r: seq<int>)
    requires n <= |e.keys|
    ensures |r| <= n
  {
    if n == 0 then []
    else
      var key := e.keys[n - 1];
      Codes(kb, e, flags, n - 1)
      + if IsPlain(kb, key) && kb.code(Row(key), Col(key), flags) != 0 then [kb.code(Row(key), Col(key), flags)] else []
  }

  /** What a press or tap types: its keys under its own and the held modifiers. */
  function Typed(kb: Keyboard, e: Request, flags: bv8): seq<int> {
    if e.transition == Release then []
    else Codes(kb, e, RequestFlags(kb, e, |e.keys|) | flags, |e.keys|)
  }

  // ---------------------------------------------------------------- the object

  class MenuKeyboardState {
    const kb: Keyboard
    const heldMatrix: array<bv8>
    var heldModifierFlags: bv8
    var repeatRow: nat
    var repeatCol: nat
    var repeatDelay: int
    var menuActive: bool
    var repeatActive: bool

    constructor (kb: Keyboard)
      ensures this.kb == kb && Valid() && fresh(heldMatrix) && View() == START
    {
      this.kb := kb;
      heldMatrix := new bv8[8](_ => 0);
      heldModifierFlags, repeatRow, repeatCol, repeatDelay := 0, 0, 0, 0;
      menuActive, repeatActive := false, false;
      new;
      NothingHeld();
    }

    ghost predicate Valid()
      reads this
    {
      heldMatrix.Length == 8
    }

    ghost function Held(): set<nat>
      requires Valid()
      reads this, heldMatrix
    {
      KeysOf(heldMatrix[..])
    }

    ghost function View(): State
      requires Valid()
      reads this, heldMatrix
    {
      State(Held(), heldModifierFlags, repeatRow, repeatCol, repeatDelay, menuActive, repeatActive)
    }

    lemma NothingHeld()
      requires Valid() && forall i :: 0 <= i < 8 ==> heldMatrix[i] == 0
      ensures Held() == {}
    {
      assert forall k: nat :: k < KEYS ==> !Has(heldMatrix[..][Row(k)], Col(k));
    }

    method Clear()
      requires Valid()
      modifies this, heldMatrix
      ensures Valid() && View() == Cleared(old(View()))
    {
      forall i | 0 <= i < 8 {
        heldMatrix[i] := 0;
      }
      heldModifierFlags, repeatRow, repeatCol, repeatDelay, repeatActive := 0, 0, 0, 0, false;
      NothingHeld();
    }

    method Reset()
      requires Valid()
      modifies this, heldMatrix
      ensures Valid() && View() == Cleared(old(View()).(menu := false))
    {
      menuActive := false;
      Clear();
    }

    method Sync(active: bool)
      requires Valid()
      modifies this, heldMatrix
      ensures Valid() && View() == Synced(old(View()), active)
    {
      if menuActive != active {
        Clear();
      }
      menuActive := active;
    }

    predicate IsHeld(key: nat)
      requires Valid() && key < KEYS
      reads this, heldMatrix
      ensures IsHeld(key) == (key in Held())
    {
      heldMatrix[Row(key)] & Bit(Col(key)) != 0
    }

    method ModifierFlags() returns (flags: bv8)
      requires Valid()
      ensures flags == FlagsOf(kb, Held(), KEYS)
    {
      flags := 0;
      ghost var h := Held();
      var i := 0;
      while i < KEYS
        invariant 0 <= i <= KEYS
        invariant flags == FlagsOf(kb, h, i)
      {
        var held := IsHeld(i);
        assert held == (i in h);
        flags := flags | (if held then Flag(kb, i) else 0);
        i := i + 1;
      }
    }

    /** Looks for a held key that is no modifier, and whether there is another one. */
    method FindPlain() returns (found: bool, another: bool, row: nat, col: nat, ghost plain: seq<nat>)
      requires Valid()
      ensures plain == PlainKeys(kb, Held(), KEYS) && found == (plain != []) && another == (|plain| > 1)
      ensures found && !another ==> IsAt(plain, row, col)
    {
      found, another, row, col := false, false, 0, 0;
      var i, key := 0, 0;
      plain := [];
      ghost var h := Held();
      while i < KEYS && !another
        invariant 0 <= i <= KEYS && plain == PlainKeys(kb, h, i)
        invariant found == (plain != []) && another == (|plain| > 1)
        invariant found && !another ==> plain == [key] && 0 <= key < KEYS
      {
        plain := PlainStep(h, i, plain);
        var here := IsHeldPlain(i);
        if here {
          another := found;
          found, key := true, i;
        }
        i := i + 1;
      }
      if another {
        plain := MorePlain(h, i, plain);
      } else if found {
        row, col := Row(key), Col(key);
      }
    }

    method IsHeldPlain(key: nat) returns (yes: bool)
      requires Valid() && key < KEYS
      ensures yes == (key in Held() && IsPlain(kb, key))
    {
      yes := IsHeld(key) && Flag(kb, key) == 0;
    }

    lemma PlainStep(held: set<nat>, i: nat, plain: seq<nat>) returns (plain': seq<nat>)
      requires i < KEYS && plain == PlainKeys(kb, held, i)
      ensures plain' == PlainKeys(kb, held, i + 1)
      ensures plain' == if i in held && IsPlain(kb, i) then plain + [i] else plain
    {
      plain' := PlainKeys(kb, held, i + 1);
    }

    predicate IsAt(plain: seq<nat>, row: nat, col: nat) {
      |plain| == 1 && plain[0] < KEYS && row == Row(plain[0]) && col == Col(plain[0])
    }

    method UpdateTheRepeat(initialDelay: int)
      requires Valid()
      modifies this
      ensures Valid() && View() == UpdateRepeat(kb, old(View()), initialDelay)
    {
      var found, another, row, col, plain := FindPlain();
      if another || !found {
        repeatActive := false;
        repeatDelay := 0;
        return;
      }
      if !repeatActive || repeatRow != row || repeatCol != col {
        repeatDelay := initialDelay;
      }
      repeatRow, repeatCol, repeatActive := row, col, true;
    }

    lemma {:induction false} MorePlain(held: set<nat>, n: nat, plain: seq<nat>) returns (all: seq<nat>)
      requires n <= KEYS && plain == PlainKeys(kb, held, n)
      ensures all == PlainKeys(kb, held, KEYS) && |all| >= |plain|
      decreases KEYS - n
    {
      all := plain;
      if n < KEYS {
        var more := PlainStep(held, n, plain);
        all := MorePlain(held, n + 1, more);
      }
    }

    method PressKey(key: nat)
      requires Valid() && key < KEYS
      modifies heldMatrix
      ensures Held() == old(Held()) + {key}
    {
      ghost var was := heldMatrix[..];
      KeyPressed(was, key);
      heldMatrix[Row(key)] := heldMatrix[Row(key)] | Bit(Col(key));
      assert heldMatrix[..] == was[Row(key) := was[Row(key)] | Bit(Col(key))];
    }

    method ReleaseKey(key: nat)
      requires Valid() && key < KEYS
      modifies heldMatrix
      ensures Held() == old(Held()) - {key}
    {
      ghost var was := heldMatrix[..];
      KeyReleased(was, key);
      heldMatrix[Row(key)] := heldMatrix[Row(key)] & !Bit(Col(key));
      assert heldMatrix[..] == was[Row(key) := was[Row(key)] & !Bit(Col(key))];
    }

    /** Puts the keys of a press into the matrix, or takes those of a release out. */
    method ChangeMatrix(e: Request)
      requires Valid() && Validated(e) && e.transition != Tap
      modifies heldMatrix
      ensures Valid() && Held() == HeldAfter(old(Held()), e)
    {
      var i := 0;
      assert HeldAfter(Held(), e.(keys := e.keys[..0])) == Held();
      while i < |e.keys|
        invariant 0 <= i <= |e.keys|
        invariant Held() == HeldAfter(old(Held()), e.(keys := e.keys[..i]))
      {
        OneKeyMore(old(Held()), e, i);
        assert e.keys[i] in e.keys;
        if e.transition == Press {
          PressKey(e.keys[i]);
        } else {
          ReleaseKey(e.keys[i]);
        }
        i := i + 1;
      }
      assert e.keys[..i] == e.keys;
    }

    static lemma OneKeyMore(held: set<nat>, e: Request, i: nat)
      requires i < |e.keys| && e.transition != Tap && e.keys[i] < KEYS
      ensures HeldAfter(held, e.(keys := e.keys[..i + 1]))
           == if e.transition == Press then HeldAfter(held, e.(keys := e.keys[..i])) + {e.keys[i]}
              else HeldAfter(held, e.(keys := e.keys[..i])) - {e.keys[i]}
    {
      assert e.keys[..i + 1] == e.keys[..i] + [e.keys[i]];
    }

    /** The codes a request types; it never has more keys than there is room for codes. */
    method CollectKeys(e: Request) returns (keys: seq<int>)
      requires Valid() && Validated(e)
      ensures keys == Typed(kb, e, heldModifierFlags)
    {
      var flags: bv8 := 0;
      var i := 0;
      while i < |e.keys|
        invariant 0 <= i <= |e.keys| && flags == RequestFlags(kb, e, i)
      {
        if e.keys[i] < KEYS {
          flags := flags | Flag(kb, e.keys[i]);
        } else {
          assert flags | 0 == flags;
        }
        i := i + 1;
      }
      if e.transition == Release {
        return [];
      }
      keys := CodesUnder(e, flags | heldModifierFlags);
    }

    /** What a release takes back: its keys under the modifiers held before it. */
    method CollectReleaseKeys(e: Request) returns (keys: seq<int>)
      requires Valid() && Validated(e)
      ensures keys == if e.transition == Release then Codes(kb, e, heldModifierFlags, |e.keys|) else []
    {
      if e.transition != Release {
        return [];
      }
      keys := CodesUnder(e, heldModifierFlags);
    }

    method CodesUnder(e: Request, flags: bv8) returns (keys: seq<int>)
      requires Validated(e)
      ensures keys == Codes(kb, e, flags, |e.keys|)
    {
      keys := [];
      var i := 0;
      while i < |e.keys|
        invariant 0 <= i <= |e.keys| && keys == Codes(kb, e, flags, i)
      {
        var key := e.keys[i];
        if IsPlain(kb, key) {
          var code := kb.code(Row(key), Col(key), flags);
          if code != 0 && |keys| < 8 {
            keys := keys + [code];
          }
        }
        i := i + 1;
      }
    }

    method ApplyKeyboardEvent(e: Request, initialDelay: int) returns (keys: seq<int>)
      requires Valid() && Validated(e)
      modifies this, heldMatrix
      ensures Valid() && View() == Applied(kb, old(View()), e, initialDelay)
      ensures keys == Typed(kb, e, old(heldModifierFlags))
    {
      keys := CollectKeys(e);
      if e.transition != Tap {
        ChangeMatrix(e);
        heldModifierFlags := ModifierFlags();
        UpdateTheRepeat(initialDelay);
      }
    }

    method RepeatTick(speed: int) returns (key: int)
      requires Valid()
      modifies this
      ensures Valid() && (View(), key) == Ticked(kb, old(View()), speed)
    {
      if !repeatActive {
        return 0;
      }
      if repeatDelay > 0 {
        repeatDelay := repeatDelay - 1;
        return 0;
      }
      repeatDelay := speed;
      key := kb.code(repeatRow, repeatCol, heldModifierFlags);
    }
  }
}
