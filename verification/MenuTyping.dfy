/** Which codes a request types while the menu is open, told by the keys pressed before it and
    by its own. */
module MenuTyping {
  import opened MenuKeys
  import opened MenuKeyboard

  // ---------------------------------------------------------------- what is typed

  function FlagAt(kb: Keyboard, key: nat): bv8 {
    kb.flag(key / 8, key % 8)
  }

  /** A key has the bit that is still pressed from before, or that the request names. */
  ghost predicate Up(kb: Keyboard, actions: seq<Action>, named: seq<nat>, b: nat)
    requires b < 8
  {
    exists k: nat :: k < 64 && (k in named || StillPressed(actions, |actions|, k)) && Has(FlagAt(kb, k), b)
  }

  ghost predicate FlagsAre(kb: Keyboard, actions: seq<Action>, named: seq<nat>, flags: bv8) {
    forall b :: 0 <= b < 8 ==> (Has(flags, b) <==> Up(kb, actions, named, b))
  }

  predicate Types(kb: Keyboard, key: nat, flags: bv8) {
    key < 64 && FlagAt(kb, key) == 0 && kb.code(key / 8, key % 8, flags) != 0
  }

  /** The places of a list of keys in their order, each key there with its code. */
  predicate Picks(kb: Keyboard, keys: seq<nat>, flags: bv8, at: seq<nat>, typed: seq<int>) {
    && |at| == |typed|
    && (forall j :: 0 <= j < |at| ==> at[j] < |keys|)
    && (forall j :: 0 <= j < |at| ==>
         Types(kb, keys[at[j]], flags) && typed[j] == kb.code(keys[at[j]] / 8, keys[at[j]] % 8, flags))
    && forall j, k :: 0 <= j < k < |at| ==> at[j] < at[k]
  }

  ghost predicate PicksAll(kb: Keyboard, keys: seq<nat>, flags: bv8, at: seq<nat>, typed: seq<int>) {
    Picks(kb, keys, flags, at, typed) && forall i :: 0 <= i < |keys| && Types(kb, keys[i], flags) ==> i in at
  }

  /** The codes of all keys that are no modifiers and have one, in the order of the keys. */
  ghost predicate IsTyped(kb: Keyboard, keys: seq<nat>, flags: bv8, typed: seq<int>) {
    exists at: seq<nat> :: PicksAll(kb, keys, flags, at, typed)
  }

  // ---------------------------------------------------------------- flags

  lemma SameFlags(a: bv8, b: bv8)
    requires forall i :: 0 <= i < 8 ==> (Has(a, i) <==> Has(b, i))
    ensures a == b
  {
    assert Has(a, 0) == Has(b, 0) && Has(a, 1) == Has(b, 1) && Has(a, 2) == Has(b, 2) && Has(a, 3) == Has(b, 3);
    assert Has(a, 4) == Has(b, 4) && Has(a, 5) == Has(b, 5) && Has(a, 6) == Has(b, 6) && Has(a, 7) == Has(b, 7);
  }

  lemma {:induction false} RequestFlagsExact(kb: Keyboard, e: Request, n: nat, b: nat)
    requires n <= |e.keys| && b < 8
    ensures Has(RequestFlags(kb, e, n), b) <==>
      exists i :: 0 <= i < n && e.keys[i] < KEYS && Has(FlagAt(kb, e.keys[i]), b)
  {
    if n > 0 {
      RequestFlagsExact(kb, e, n - 1, b);
      var flag := if e.keys[n - 1] < KEYS then Flag(kb, e.keys[n - 1]) else 0;
      BitUnion(RequestFlags(kb, e, n - 1), flag, b);
    }
  }

  lemma UpTogether(kb: Keyboard, actions: seq<Action>, e: Request, b: nat)
    requires b < 8
    ensures Up(kb, actions, e.keys, b) <==> Has(RequestFlags(kb, e, |e.keys|), b) || Up(kb, actions, [], b)
  {
    RequestFlagsExact(kb, e, |e.keys|, b);
    if Has(RequestFlags(kb, e, |e.keys|), b) {
      var i :| 0 <= i < |e.keys| && e.keys[i] < KEYS && Has(FlagAt(kb, e.keys[i]), b);
      assert e.keys[i] in e.keys;
    }
    if Up(kb, actions, [], b) {
      var k: nat :| k < 64 && StillPressed(actions, |actions|, k) && Has(FlagAt(kb, k), b);
    }
    if Up(kb, actions, e.keys, b) {
      var k: nat :| k < 64 && (k in e.keys || StillPressed(actions, |actions|, k)) && Has(FlagAt(kb, k), b);
    }
  }

  lemma PressedIsHeld(kb: Keyboard, actions: seq<Action>, initialDelay: int, speed: int, b: nat)
    requires Proper(actions) && b < 8
    ensures Has(Run(kb, actions, initialDelay, speed).flags, b) <==> Up(kb, actions, [], b)
  {
    RunKeepsInv(kb, actions, initialDelay, speed);
    assert actions[..|actions|] == actions;
    forall k: nat
      ensures k in Run(kb, actions, initialDelay, speed).held <==> StillPressed(actions, |actions|, k)
    {
      HeldIsHistory(kb, actions, |actions|, k, initialDelay, speed);
    }
  }

  /** Flags of the held keys and of the request's, together. */
  lemma FlagsTogether(kb: Keyboard, actions: seq<Action>, e: Request, initialDelay: int, speed: int)
    requires Proper(actions)
    ensures FlagsAre(kb, actions, e.keys,
                     RequestFlags(kb, e, |e.keys|) | Run(kb, actions, initialDelay, speed).flags)
    ensures FlagsAre(kb, actions, [], Run(kb, actions, initialDelay, speed).flags)
  {
    var held := Run(kb, actions, initialDelay, speed).flags;
    var own := RequestFlags(kb, e, |e.keys|);
    forall b | 0 <= b < 8
      ensures Has(held, b) <==> Up(kb, actions, [], b)
      ensures Has(own | held, b) <==> Up(kb, actions, e.keys, b)
    {
      PressedIsHeld(kb, actions, initialDelay, speed, b);
      UpTogether(kb, actions, e, b);
      BitUnion(own, held, b);
    }
  }

  // ---------------------------------------------------------------- codes

  lemma {:induction false} CodesPick(kb: Keyboard, e: Request, flags: bv8, n: nat) returns (at: seq<nat>)
    requires n <= |e.keys|
    ensures Picks(kb, e.keys[..n], flags, at, Codes(kb, e, flags, n))
    ensures forall i :: 0 <= i < n && Types(kb, e.keys[i], flags) ==> i in at
  {
    at := [];
    if n > 0 {
      at := CodesPick(kb, e, flags, n - 1);
      if Types(kb, e.keys[n - 1], flags) {
        at := at + [n - 1];
      }
    }
  }

  /** In every reachable state, whatever was pressed, released, cleared or timed before: a press
      or a tap types the codes of its keys, in its order, under the flags of the keys that are
      still pressed and of its own; a release types nothing. */
  lemma TypesExactly(kb: Keyboard, actions: seq<Action>, e: Request, initialDelay: int, speed: int, flags: bv8)
    requires Proper(actions) && FlagsAre(kb, actions, e.keys, flags)
    ensures var typed := Typed(kb, e, Run(kb, actions, initialDelay, speed).flags);
      if e.transition == Release then typed == [] else IsTyped(kb, e.keys, flags, typed)
  {
    FlagsTogether(kb, actions, e, initialDelay, speed);
    SameFlags(flags, RequestFlags(kb, e, |e.keys|) | Run(kb, actions, initialDelay, speed).flags);
    var at := CodesPick(kb, e, flags, |e.keys|);
    assert e.keys[..|e.keys|] == e.keys;
    assert PicksAll(kb, e.keys, flags, at, Codes(kb, e, flags, |e.keys|));
  }

  /** What a release takes back: the codes of its keys under the flags of the keys still pressed. */
  lemma TakesBackExactly(kb: Keyboard, actions: seq<Action>, e: Request, initialDelay: int, speed: int, flags: bv8)
    requires Proper(actions) && FlagsAre(kb, actions, [], flags)
    ensures IsTyped(kb, e.keys, flags, Codes(kb, e, Run(kb, actions, initialDelay, speed).flags, |e.keys|))
  {
    FlagsTogether(kb, actions, e, initialDelay, speed);
    SameFlags(flags, Run(kb, actions, initialDelay, speed).flags);
    var at := CodesPick(kb, e, flags, |e.keys|);
    assert e.keys[..|e.keys|] == e.keys;
    assert PicksAll(kb, e.keys, flags, at, Codes(kb, e, flags, |e.keys|));
  }

  /** There are such flags, and only one set of them. */
  lemma FlagsAreOne(kb: Keyboard, actions: seq<Action>, e: Request) returns (flags: bv8)
    requires Proper(actions)
    ensures FlagsAre(kb, actions, e.keys, flags)
    ensures forall other :: FlagsAre(kb, actions, e.keys, other) ==> other == flags
  {
    FlagsTogether(kb, actions, e, 0, 0);
    flags := RequestFlags(kb, e, |e.keys|) | Run(kb, actions, 0, 0).flags;
    forall other | FlagsAre(kb, actions, e.keys, other)
      ensures other == flags
    {
      SameFlags(other, flags);
    }
  }

  lemma PlacesIn(kb: Keyboard, keys: seq<nat>, flags: bv8, at: seq<nat>, one: seq<int>, to: seq<nat>, other: seq<int>)
    requires PicksAll(kb, keys, flags, at, one) && PicksAll(kb, keys, flags, to, other)
    ensures forall x :: x in at ==> x in to
  {
    forall x | x in at
      ensures x in to
    {
      var j :| 0 <= j < |at| && at[j] == x;
      assert Types(kb, keys[at[j]], flags);
    }
  }

  /** And so there is just one list of codes that fits. */
  lemma {:induction false} TypedIsOne(kb: Keyboard, keys: seq<nat>, flags: bv8, one: seq<int>, other: seq<int>)
    requires IsTyped(kb, keys, flags, one) && IsTyped(kb, keys, flags, other)
    ensures one == other
  {
    var at: seq<nat> :| PicksAll(kb, keys, flags, at, one);
    var to: seq<nat> :| PicksAll(kb, keys, flags, to, other);
    PlacesIn(kb, keys, flags, at, one, to, other);
    PlacesIn(kb, keys, flags, to, other, at, one);
    SamePlaces(at, to);
  }

  lemma {:induction false} SamePlaces(at: seq<nat>, to: seq<nat>)
    requires forall j, k :: 0 <= j < k < |at| ==> at[j] < at[k]
    requires forall j, k :: 0 <= j < k < |to| ==> to[j] < to[k]
    requires forall x :: x in at <==> x in to
    ensures at == to
  {
    FirstIn(at);
    FirstIn(to);
    if at != [] && to != [] {
      var last := |at| - 1;
      var end := |to| - 1;
      assert at[last] in to && to[end] in at;
      assert at[last] == to[end];
      forall x
        ensures x in at[..last] <==> x in to[..end]
      {
        assert x in at <==> x in at[..last] || x == at[last];
        assert x in to <==> x in to[..end] || x == to[end];
        assert at[last] !in at[..last] && to[end] !in to[..end];
      }
      SamePlaces(at[..last], to[..end]);
    }
  }

  lemma FirstIn(s: seq<nat>)
    ensures s != [] ==> s[0] in s
  {
  }

  // ---------------------------------------------------------------- the key that repeats

  /** The one key still pressed that is no modifier. */
  ghost predicate OnlyOne(kb: Keyboard, actions: seq<Action>, key: nat) {
    && key < 64 && StillPressed(actions, |actions|, key) && FlagAt(kb, key) == 0
    && forall k: nat :: k < 64 && StillPressed(actions, |actions|, k) && FlagAt(kb, k) == 0 ==> k == key
  }

  /** A tick types something only while there is one such key, and when its delay is over it is
      that key under the flags of the keys still pressed. */
  lemma RepeatsExactly(kb: Keyboard, actions: seq<Action>, initialDelay: int, speed: int, key: nat, flags: bv8)
    requires Proper(actions) && FlagsAre(kb, actions, [], flags)
    ensures var s := Run(kb, actions, initialDelay, speed);
      && (OnlyOne(kb, actions, key) && s.delay <= 0 ==>
           Ticked(kb, s, speed).1 == kb.code(key / 8, key % 8, flags))
      && ((forall k :: !OnlyOne(kb, actions, k)) ==> Ticked(kb, s, speed).1 == 0)
  {
    var s := Run(kb, actions, initialDelay, speed);
    FlagsTogether(kb, actions, Request([], Tap), initialDelay, speed);
    SameFlags(flags, s.flags);
    RunKeepsInv(kb, actions, initialDelay, speed);
    assert actions[..|actions|] == actions;
    forall k: nat
      ensures k in s.held <==> StillPressed(actions, |actions|, k)
    {
      HeldIsHistory(kb, actions, |actions|, k, initialDelay, speed);
    }
    forall k: nat
      ensures OnlyPlain(kb, s.held, k) <==> OnlyOne(kb, actions, k)
    {
    }
  }

  /** A tap changes nothing that is held. After any other request: where one key that is no
      modifier is left, it is the key that repeats, with the whole first delay unless it was that
      key before; where not, nothing repeats. */
  lemma DelayStarts(kb: Keyboard, actions: seq<Action>, e: Request, initialDelay: int, speed: int, key: nat)
    requires Proper(actions) && Validated(e)
    ensures var s := Run(kb, actions, initialDelay, speed);
      var s' := Run(kb, actions + [Apply(e)], initialDelay, speed);
      && (e.transition == Tap ==> s' == s)
      && (e.transition != Tap && OnlyOne(kb, actions + [Apply(e)], key) ==>
           s'.repeating && s'.row == key / 8 && s'.col == key % 8
           && s'.delay == if OnlyOne(kb, actions, key) then s.delay else initialDelay)
      && (e.transition != Tap && (forall k :: !OnlyOne(kb, actions + [Apply(e)], k)) ==> !s'.repeating)
  {
    var after := actions + [Apply(e)];
    assert after[..|after| - 1] == actions;
    OnlyIsPlain(kb, actions, initialDelay, speed);
    OnlyIsPlain(kb, after, initialDelay, speed);
    RunKeepsInv(kb, actions, initialDelay, speed);
    RunKeepsInv(kb, after, initialDelay, speed);
    var s := Run(kb, actions, initialDelay, speed);
    if e.transition != Tap && OnlyOne(kb, after, key) {
      SameRepeat(kb, s, e, initialDelay, key);
    }
  }

  lemma OnlyIsPlain(kb: Keyboard, actions: seq<Action>, initialDelay: int, speed: int)
    requires Proper(actions)
    ensures forall k: nat ::
              OnlyPlain(kb, Run(kb, actions, initialDelay, speed).held, k) <==> OnlyOne(kb, actions, k)
  {
    RunKeepsInv(kb, actions, initialDelay, speed);
    var held := Run(kb, actions, initialDelay, speed).held;
    assert actions[..|actions|] == actions;
    forall k: nat
      ensures k in held <==> StillPressed(actions, |actions|, k)
    {
      HeldIsHistory(kb, actions, |actions|, k, initialDelay, speed);
    }
  }

  lemma SameRepeat(kb: Keyboard, s: State, e: Request, initialDelay: int, key: nat)
    requires Inv(kb, s) && Validated(e) && e.transition != Tap && OnlyPlain(kb, HeldAfter(s.held, e), key)
    ensures var s' := Applied(kb, s, e, initialDelay);
      && s'.repeating && s'.row == key / 8 && s'.col == key % 8
      && s'.delay == if OnlyPlain(kb, s.held, key) then s.delay else initialDelay
  {
    OnlyMeansOne(kb, HeldAfter(s.held, e), key);
    if s.repeating {
      var k: nat :| OnlyPlain(kb, s.held, k);
      PlaceIsKey(k, key);
    }
  }
}
