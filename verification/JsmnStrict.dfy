/** What strict mode refuses on any text: the parents, brackets and sizes of the tokens of every
    parse that is not stopped. */
module JsmnStrict {
  import opened Jsmn
  import opened JsmnInvariants

  /** How many tokens have parent `i`. */
  function Children(toks: seq<Token>, i: int): nat {
    if toks == [] then 0
    else
      var last := |toks| - 1;
      Children(toks[..last], i) + if toks[last].parent == i then 1 else 0
  }

  /** A container spans from its opening bracket to the closing bracket of the same kind. */
  predicate Bracketed(js: string, t: Token) {
    (t.kind == Object ==> Between(js, t, '{', '}')) && (t.kind == Array ==> Between(js, t, '[', ']'))
  }

  predicate Between(js: string, t: Token, first: char, last: char) {
    && 0 <= t.start < |js| && js[t.start] == first
    && (t.end == -1 || (0 < t.end <= |js| && js[t.end - 1] == last))
  }

  /** Below an object there are only strings, its keys; below a key, a primitive is the first. */
  predicate Placed(toks: seq<Token>, j: nat)
    requires j < |toks|
  {
    var p := toks[j].parent;
    0 <= p < |toks| ==>
      && (toks[p].kind == Object ==> toks[j].kind == String)
      && (toks[p].kind == String && toks[j].kind == Primitive ==> forall k :: 0 <= k < j ==> toks[k].parent != p)
  }

  ghost predicate Strict(js: string, toks: seq<Token>) {
    && (forall i :: 0 <= i < |toks| ==> Bracketed(js, toks[i]))
    && (forall i :: 0 <= i < |toks| ==> Placed(toks, i))
    && forall i :: 0 <= i < |toks| ==> toks[i].size == Children(toks, i)
  }

  // ---------------------------------------------------------------- counting children

  /** Tokens of the same kinds and parents have the same places. */
  predicate SameTree(a: seq<Token>, b: seq<Token>) {
    |a| == |b| && forall i :: 0 <= i < |a| ==> a[i].parent == b[i].parent && a[i].kind == b[i].kind
  }

  lemma {:induction false} ChildrenFrame(a: seq<Token>, b: seq<Token>, i: int)
    requires SameTree(a, b)
    ensures Children(a, i) == Children(b, i)
  {
    if a != [] {
      ChildrenFrame(a[..|a| - 1], b[..|b| - 1], i);
    }
  }

  lemma {:induction false} NoChildren(toks: seq<Token>, i: int)
    requires Children(toks, i) == 0
    ensures forall k :: 0 <= k < |toks| ==> toks[k].parent != i
  {
    if toks != [] {
      NoChildren(toks[..|toks| - 1], i);
    }
  }

  lemma {:induction false} NoneYet(toks: seq<Token>, i: int)
    requires Linked(toks) && i >= |toks|
    ensures Children(toks, i) == 0
  {
    if toks != [] {
      NoneYet(toks[..|toks| - 1], i);
    }
  }

  lemma ChildrenOneMore(s: State, t: Token, i: nat)
    requires Shaped(s) && t.parent == s.super
    ensures Children(Bump(s.toks, s.super) + [t], i) == Children(s.toks, i) + if s.super == i then 1 else 0
  {
    var bumped := Bump(s.toks, s.super);
    assert (bumped + [t])[..|bumped|] == bumped;
    ChildrenFrame(bumped, s.toks, i);
  }

  // ---------------------------------------------------------------- the steps

  lemma PlacedFrame(a: seq<Token>, b: seq<Token>, j: nat)
    requires SameTree(a, b) && j < |a| && Placed(a, j)
    ensures Placed(b, j)
  {
  }

  /** A token below the superior one, at a place it may have. */
  lemma PushKeepsStrict(js: string, s: State, t: Token)
    requires Shaped(s) && Strict(js, s.toks) && t.parent == s.super && t.size == 0 && Bracketed(js, t)
    requires s.super != -1 ==>
               && (s.toks[s.super].kind == Object ==> t.kind == String)
               && (s.toks[s.super].kind == String && t.kind == Primitive ==> s.toks[s.super].size == 0)
    ensures Strict(js, Bump(s.toks, s.super) + [t])
  {
    var toks := Bump(s.toks, s.super) + [t];
    var n := |s.toks|;
    forall i | 0 <= i < |toks|
      ensures Bracketed(js, toks[i]) && toks[i].size == Children(toks, i)
    {
      ChildrenOneMore(s, t, i);
      if i == n {
        NoneYet(s.toks, n);
      }
    }
    forall i | 0 <= i < |toks|
      ensures Placed(toks, i)
    {
      if i < n {
        assert Placed(s.toks, i);
      } else if s.super != -1 && s.toks[s.super].size == 0 {
        NoChildren(s.toks, s.super);
      }
    }
  }

  /** A container that gets its closing bracket. */
  lemma CloseKeepsStrict(js: string, s: State, kind: TokenKind)
    requires Shaped(s) && Strict(js, s.toks) && s.pos < |js| && (kind == Object || kind == Array)
    requires js[s.pos] == if kind == Object then '}' else ']'
    ensures Strict(js, Close(s, kind).s.toks)
  {
    var o := Close(s, kind);
    forall i | 0 <= i < |s.toks|
      ensures o.s.toks[i].size == Children(o.s.toks, i) && Placed(o.s.toks, i)
    {
      ChildrenFrame(s.toks, o.s.toks, i);
      PlacedFrame(s.toks, o.s.toks, i);
    }
  }

  lemma StepKeepsStrict(js: string, cap: nat, s: State)
    requires Shaped(s) && !AtEnd(js, s.pos) && Strict(js, s.toks) && Step(js, cap, s).Next?
    ensures Strict(js, Step(js, cap, s).s.toks)
  {
    var c := js[s.pos];
    if c == '{' {
      PushKeepsStrict(js, s, Token(Object, s.pos, -1, 0, s.super));
    } else if c == '[' {
      PushKeepsStrict(js, s, Token(Array, s.pos, -1, 0, s.super));
    } else if c == '}' {
      CloseKeepsStrict(js, s, Object);
    } else if c == ']' {
      CloseKeepsStrict(js, s, Array);
    } else if c == '"' {
      PushKeepsStrict(js, s, Token(String, s.pos + 1, ScanString(js, s.pos + 1).at, 0, s.super));
    } else if StartsPrimitive(c) {
      PushKeepsStrict(js, s, Token(Primitive, s.pos, ScanPrimitive(js, s.pos).at, 0, s.super));
    }
  }

  /** Every parse, on any text, as far as it comes. */
  lemma ReachedIsStrict(js: string, cap: nat, s: State)
    requires Reached(js, cap, s)
    ensures Strict(js, s.toks)
  {
    var r := (t: State) => Shaped(t) && Strict(js, t.toks);
    forall t | r(t) && Shaped(t) && !AtEnd(js, t.pos) && Step(js, cap, t).Next?
      ensures r(Step(js, cap, t).s)
    {
      StepKeepsStrict(js, cap, t);
    }
    assert Closed(js, cap, r);
    assert r(s);
  }

  /** A parse that succeeds: every container spans from a bracket to its counterpart, every size is
      the number of children, objects have only strings below them, and a key has a primitive only
      as its first child. */
  lemma ParseIsStrict(js: string, cap: nat)
    requires Run(js, cap, Initial()).code >= 0
    ensures var toks := Run(js, cap, Initial()).s.toks;
      Strict(js, toks) && forall i :: 0 <= i < |toks| ==> toks[i].end != -1
  {
    ReachedInitially(js, cap);
    RunIsStrict(js, cap, Initial());
  }

  lemma {:induction false} RunIsStrict(js: string, cap: nat, s: State)
    requires Reached(js, cap, s) && Shaped(s) && Run(js, cap, s).code >= 0
    ensures var toks := Run(js, cap, s).s.toks;
      Strict(js, toks) && forall i :: 0 <= i < |toks| ==> toks[i].end != -1
    decreases |js| - s.pos
  {
    if AtEnd(js, s.pos) {
      ReachedIsStrict(js, cap, s);
      ReachedKeepsInv(js, cap, s);
    } else {
      ReachedNext(js, cap, s, Step(js, cap, s).s);
      RunIsStrict(js, cap, Step(js, cap, s).s);
    }
  }
}
