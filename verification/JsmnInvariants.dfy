/** What every run of the tokenizer keeps, on any input, valid JSON or not, and the one kind
    of stop at which it does not. */
module JsmnInvariants {
  import opened Jsmn

  // ---------------------------------------------------------------- parent chains

  /** `i` is token `from` or one of its ancestors. */
  predicate OnChain(toks: seq<Token>, from: int, i: nat)
    requires Linked(toks) && -1 <= from < |toks|
  {
    from != -1 && (from == i || OnChain(toks, toks[from].parent, i))
  }

  /** A chain depends only on the parent links at and below its start. */
  lemma {:induction false} ChainFrame(t1: seq<Token>, t2: seq<Token>, from: int, i: nat)
    requires Linked(t1) && Linked(t2) && -1 <= from < |t1| && from < |t2|
    requires forall k :: 0 <= k <= from ==> t1[k].parent == t2[k].parent
    ensures OnChain(t1, from, i) == OnChain(t2, from, i)
  {
    if from != -1 && from != i {
      ChainFrame(t1, t2, t1[from].parent, i);
    }
  }

  lemma {:induction false} ChainBound(toks: seq<Token>, from: int, i: nat)
    requires Linked(toks) && -1 <= from < |toks| && OnChain(toks, from, i)
    ensures i <= from
  {
    if from != i {
      ChainBound(toks, toks[from].parent, i);
    }
  }

  /** Above the token the walk stops at, a chain meets no open token. */
  lemma {:induction false} WalkSkipsClosed(toks: seq<Token>, from: nat, i: nat)
    requires Linked(toks) && from < |toks| && i < |toks| && OnChain(toks, from, i) && toks[i].IsOpen()
    ensures var w := Walk(toks, from);
      toks[w].IsOpen() && i <= w && OnChain(toks, w, i)
  {
    if toks[from].IsOpen() {
      ChainBound(toks, from, i);
    } else {
      WalkSkipsClosed(toks, toks[from].parent, i);
    }
  }

  // ---------------------------------------------------------------- the invariant

  /** One token of a run that has come to `pos`: what its span covers. */
  predicate TokenOk(js: string, pos: nat, t: Token) {
    && 0 <= t.start < pos <= |js|
    && match t.kind
       case Object => t.end == -1 || t.start < t.end <= pos
       case Array => t.end == -1 || t.start < t.end <= pos
       case String =>
         && 1 <= t.start <= t.end < pos && js[t.start - 1] == '"' && js[t.end] == '"'
         && forall k :: t.start <= k < t.end ==> js[k] != '\0'
       case Primitive =>
         && t.start < t.end <= pos && t.end < |js|
         && StartsPrimitive(js[t.start]) && EndsPrimitive(js[t.end])
         && forall k :: t.start <= k < t.end ==> js[k] != '\0' && !EndsPrimitive(js[k])
       case _ => false
  }

  predicate Spanned(js: string, s: State) {
    s.pos <= |js| && forall i :: 0 <= i < |s.toks| ==> TokenOk(js, s.pos, s.toks[i])
  }

  predicate StartsIncrease(toks: seq<Token>) {
    forall i, j :: 0 <= i < j < |toks| ==> toks[i].start < toks[j].start
  }

  /** Every open token is an ancestor of the last token and of the superior token. */
  predicate OpenOnChains(s: State)
    requires Shaped(s)
  {
    forall i :: 0 <= i < |s.toks| && s.toks[i].IsOpen() ==>
      OnChain(s.toks, |s.toks| - 1, i) && OnChain(s.toks, s.super, i)
  }

  /** The byte after token `j` lies in the bytes of leaf `i`. */
  predicate EndFallsIn(toks: seq<Token>, j: nat, i: nat)
    requires i < |toks| && j < |toks|
  {
    i != j && toks[i].IsLeaf() && !toks[j].IsOpen() && toks[i].start <= toks[j].end < toks[i].end
  }

  /** The end of a token falls inside another leaf only where a primitive follows a
      closing bracket with nothing between. */
  predicate EndsApart(toks: seq<Token>) {
    forall i, j :: 0 <= i < |toks| && 0 <= j < |toks| && EndFallsIn(toks, j, i) ==>
      toks[i].kind == Primitive && !toks[j].IsLeaf() && toks[j].end == toks[i].start
  }

  predicate Inv(js: string, s: State) {
    && Shaped(s)
    && Spanned(js, s)
    && StartsIncrease(s.toks)
    && OpenOnChains(s)
    && EndsApart(s.toks)
  }

  /** A state without the token taken last. */
  function Untaken(s: State): State
    requires |s.toks| > 0
  {
    s.(toks := s.toks[..|s.toks| - 1])
  }

  /** An opening bracket has been refused below an object: the last token is blank, and
      without it the invariant holds. */
  predicate AfterRefusal(js: string, s: State) {
    && |s.toks| > 0 && s.toks[|s.toks| - 1] == Blank
    && Inv(js, Untaken(s))
    && WantsKey(Untaken(s))
  }

  /** A run has stopped with ERROR_INVAL at an opening bracket. */
  predicate Refused(js: string, o: Outcome) {
    o.Halt? && o.code == ERROR_INVAL && !AtEnd(js, o.s.pos) && IsOpening(js[o.s.pos])
  }

  // ---------------------------------------------------------------- preservation

  lemma BumpSame(toks: seq<Token>, i: int)
    requires Linked(toks) && -1 <= i < |toks|
    ensures var b := Bump(toks, i);
      && Linked(b)
      && forall k :: 0 <= k < |toks| ==> b[k] == toks[k].(size := b[k].size)
  {
  }

  /** A token is added below the superior token: the chains follow. */
  lemma AppendKeepsChains(s: State, t: Token, toks': seq<Token>, super': int)
    requires Shaped(s) && OpenOnChains(s)
    requires t.parent == s.super
    requires toks' == Bump(s.toks, s.super) + [t]
    requires (super' == s.super && !t.IsOpen()) || super' == |s.toks|
    ensures Shaped(State(0, super', toks')) && OpenOnChains(State(0, super', toks'))
  {
    BumpSame(s.toks, s.super);
    var n := |s.toks|;
    assert toks'[n] == t;
    forall i | 0 <= i <= n && toks'[i].IsOpen()
      ensures OnChain(toks', n, i) && OnChain(toks', super', i)
    {
      if i < n {
        assert s.toks[i].IsOpen();
        ChainFrame(s.toks, toks', s.super, i);
      }
    }
  }

  lemma AppendKeepsSpans(js: string, s: State, t: Token, pos': nat, toks': seq<Token>)
    requires Shaped(s) && Spanned(js, s) && StartsIncrease(s.toks) && EndsApart(s.toks)
    requires s.pos < pos' <= |js| && s.pos <= t.start && TokenOk(js, pos', t)
    requires t.kind == String ==> s.pos < t.start
    requires toks' == Bump(s.toks, s.super) + [t]
    ensures Spanned(js, State(pos', -1, toks')) && StartsIncrease(toks') && EndsApart(toks')
  {
    BumpSame(s.toks, s.super);
    var n := |s.toks|;
    forall i | 0 <= i < n
      ensures TokenOk(js, pos', toks'[i]) && TokenOk(js, s.pos, s.toks[i]) && s.toks[i].end <= s.pos
    {
      assert TokenOk(js, s.pos, s.toks[i]);
    }
    forall i, j | 0 <= i <= n && 0 <= j <= n && EndFallsIn(toks', j, i)
      ensures toks'[i].kind == Primitive && !toks'[j].IsLeaf() && toks'[j].end == toks'[i].start
    {
      if i < n && j < n {
        assert EndFallsIn(s.toks, j, i);
      } else {
        assert i == n;
      }
    }
  }

  lemma PushLeafKeepsInv(js: string, cap: nat, s: State, kind: TokenKind, start: int, end: int, resume: nat)
    requires Inv(js, s) && s.pos < resume <= |js| && s.pos <= start
    requires kind == String || kind == Primitive
    requires kind == String ==> s.pos < start
    requires TokenOk(js, resume, Token(kind, start, end, 0, s.super))
    ensures Inv(js, PushLeaf(cap, s, kind, start, end, resume).s)
  {
    var o := PushLeaf(cap, s, kind, start, end, resume);
    if o.Next? {
      var t := Token(kind, start, end, 0, s.super);
      AppendKeepsChains(s, t, o.s.toks, s.super);
      AppendKeepsSpans(js, s, t, resume, o.s.toks);
      assert OpenOnChains(State(0, s.super, o.s.toks));
    }
  }

  lemma OpenKeepsInv(js: string, cap: nat, s: State, kind: TokenKind)
    requires Inv(js, s) && s.pos < |js| && (kind == Object || kind == Array)
    requires Open(cap, s, kind).Next?
    ensures Inv(js, Open(cap, s, kind).s)
  {
    var o := Open(cap, s, kind);
    var t := Token(kind, s.pos, -1, 0, s.super);
    AppendKeepsChains(s, t, o.s.toks, |s.toks|);
    AppendKeepsSpans(js, s, t, s.pos + 1, o.s.toks);
    assert OpenOnChains(State(0, |s.toks|, o.s.toks));
  }

  /** A refused bracket leaves a token that starts nowhere. */
  lemma RefusalBreaksInv(js: string, cap: nat, s: State)
    requires Inv(js, s) && !AtEnd(js, s.pos) && Refuses(js, cap, s)
    ensures var s' := Step(js, cap, s).s;
      !Inv(js, s') && AfterRefusal(js, s') && |s'.toks| <= cap
  {
    var s' := Step(js, cap, s).s;
    assert s' == s.(toks := s.toks + [Blank]);
    assert Untaken(s') == s;
    assert s'.toks[|s.toks|] == Blank;
    assert !TokenOk(js, s'.pos, s'.toks[|s.toks|]);
  }

  /** The walk at a closing bracket finds the highest-numbered open token, and no open
      token when there is none. */
  lemma WalkFindsLastOpen(js: string, s: State)
    requires Inv(js, s) && |s.toks| > 0
    ensures var w := Walk(s.toks, |s.toks| - 1);
      && (s.toks[w].IsOpen() <==> AnyOpen(s.toks))
      && (forall i :: w < i < |s.toks| ==> !s.toks[i].IsOpen())
  {
    var w := Walk(s.toks, |s.toks| - 1);
    forall i | 0 <= i < |s.toks| && s.toks[i].IsOpen()
      ensures i <= w && s.toks[w].IsOpen()
    {
      WalkSkipsClosed(s.toks, |s.toks| - 1, i);
    }
  }

  lemma ClosingKeepsChain(toks: seq<Token>, w: nat, end: nat, i: nat)
    requires Linked(toks) && w < |toks| && w == Walk(toks, |toks| - 1)
    requires i < |toks| && i != w && toks[i].IsOpen() && OnChain(toks, |toks| - 1, i)
    ensures var toks' := toks[w := toks[w].(end := end)];
      && Linked(toks')
      && OnChain(toks', |toks| - 1, i)
      && OnChain(toks', toks[w].parent, i)
  {
    var toks' := toks[w := toks[w].(end := end)];
    WalkSkipsClosed(toks, |toks| - 1, i);
    assert OnChain(toks, toks[w].parent, i);
    ChainFrame(toks, toks', |toks| - 1, i);
    ChainFrame(toks, toks', toks[w].parent, i);
  }

  /** `s'` is `s` after the bracket at its position closed the open token `w`. */
  predicate Closing(s: State, w: nat, s': State)
    requires Shaped(s)
  {
    && w < |s.toks| && w == Walk(s.toks, |s.toks| - 1) && s.toks[w].IsOpen()
    && s' == State(s.pos + 1, s.toks[w].parent, s.toks[w := s.toks[w].(end := s.pos + 1)])
  }

  lemma ClosingKeepsChains(s: State, w: nat, s': State)
    requires Shaped(s) && OpenOnChains(s) && Closing(s, w, s')
    ensures Shaped(s') && OpenOnChains(s')
  {
    forall i | 0 <= i < |s'.toks| && s'.toks[i].IsOpen()
      ensures OnChain(s'.toks, |s'.toks| - 1, i) && OnChain(s'.toks, s'.super, i)
    {
      ClosingKeepsChain(s.toks, w, s.pos + 1, i);
    }
  }

  lemma ClosingKeepsSpans(js: string, s: State, w: nat, s': State)
    requires Inv(js, s) && s.pos < |js| && Closing(s, w, s')
    ensures Spanned(js, s') && StartsIncrease(s'.toks) && EndsApart(s'.toks)
  {
    forall i | 0 <= i < |s'.toks|
      ensures TokenOk(js, s.pos + 1, s'.toks[i])
    {
      assert TokenOk(js, s.pos, s.toks[i]);
    }
    forall i, j | 0 <= i < |s'.toks| && 0 <= j < |s'.toks| && EndFallsIn(s'.toks, j, i)
      ensures s'.toks[i].kind == Primitive && !s'.toks[j].IsLeaf() && s'.toks[j].end == s'.toks[i].start
    {
      assert TokenOk(js, s.pos, s.toks[i]);
      assert TokenOk(js, s.pos, s.toks[w]);
      assert i != w;
      if j != w {
        assert EndFallsIn(s.toks, j, i);
      }
    }
  }

  lemma ClosingKeepsInv(js: string, s: State, w: nat, s': State)
    requires Inv(js, s) && s.pos < |js| && Closing(s, w, s')
    ensures Inv(js, s')
  {
    ClosingKeepsChains(s, w, s');
    ClosingKeepsSpans(js, s, w, s');
  }

  lemma CloseKeepsInv(js: string, s: State, kind: TokenKind)
    requires Inv(js, s) && s.pos < |js| && Close(s, kind).Next?
    ensures Inv(js, Close(s, kind).s)
  {
    var w := Walk(s.toks, |s.toks| - 1);
    var s' := CloseOutcome(s, kind);
    if s.toks[w].IsOpen() {
      ClosingKeepsInv(js, s, w, s');
    } else {
      AdvanceKeepsInv(js, s, s.super);
    }
  }

  lemma CloseOutcome(s: State, kind: TokenKind) returns (s': State)
    requires Shaped(s) && Close(s, kind).Next?
    ensures s' == Close(s, kind).s
    ensures var w := Walk(s.toks, |s.toks| - 1);
      s' == if s.toks[w].IsOpen()
            then State(s.pos + 1, s.toks[w].parent, s.toks[w := s.toks[w].(end := s.pos + 1)])
            else State(s.pos + 1, s.super, s.toks)
  {
    s' := Close(s, kind).s;
  }

  /** Only `pos` and possibly `super` move; `super` to a token whose chain has the open ones. */
  lemma AdvanceKeepsInv(js: string, s: State, super': int)
    requires Inv(js, s) && s.pos < |js|
    requires -1 <= super' < |s.toks|
    requires super' == s.super || super' == |s.toks| - 1
             || (s.super != -1 && !s.toks[s.super].IsOpen() && super' == s.toks[s.super].parent)
    ensures Inv(js, State(s.pos + 1, super', s.toks))
  {
    forall i | 0 <= i < |s.toks|
      ensures TokenOk(js, s.pos + 1, s.toks[i])
    {
      assert TokenOk(js, s.pos, s.toks[i]);
    }
  }

  /** A turn of the tokenizer's loop keeps the invariant, whatever the input, if and only if
      it does not refuse a bracket for which it has a token; and what it leaves then. */
  lemma StepKeepsInv(js: string, cap: nat, s: State)
    requires Inv(js, s) && !AtEnd(js, s.pos)
    ensures Inv(js, Step(js, cap, s).s) <==> !Refuses(js, cap, s)
    ensures Refuses(js, cap, s) ==> AfterRefusal(js, Step(js, cap, s).s)
  {
    if Refuses(js, cap, s) {
      RefusalBreaksInv(js, cap, s);
    } else {
      NextKeepsInv(js, cap, s);
    }
  }

  lemma NextKeepsInv(js: string, cap: nat, s: State)
    requires Inv(js, s) && !AtEnd(js, s.pos) && !Refuses(js, cap, s)
    ensures Inv(js, Step(js, cap, s).s)
  {
    var c := js[s.pos];
    if Step(js, cap, s).Next? {
      if c == '{' {
        BracketKeepsInv(js, cap, s, Step(js, cap, s), Object);
      } else if c == '[' {
        BracketKeepsInv(js, cap, s, Step(js, cap, s), Array);
      } else if c == '}' {
        BracketKeepsInv(js, cap, s, Step(js, cap, s), Object);
      } else if c == ']' {
        BracketKeepsInv(js, cap, s, Step(js, cap, s), Array);
      } else if c == '"' {
        QuoteKeepsInv(js, cap, s, Step(js, cap, s));
      } else if StartsPrimitive(c) {
        BareKeepsInv(js, cap, s, Step(js, cap, s));
      } else {
        SeparatorKeepsInv(js, s, c, Step(js, cap, s).s);
      }
    }
  }

  lemma BracketKeepsInv(js: string, cap: nat, s: State, o: Outcome, kind: TokenKind)
    requires Inv(js, s) && !AtEnd(js, s.pos) && o.Next? && (kind == Object || kind == Array)
    requires o == Open(cap, s, kind) || o == Close(s, kind)
    ensures Inv(js, o.s)
  {
    if o == Open(cap, s, kind) {
      OpenKeepsInv(js, cap, s, kind);
    } else {
      CloseKeepsInv(js, s, kind);
    }
  }

  lemma SeparatorKeepsInv(js: string, s: State, c: char, s': State)
    requires Inv(js, s) && s.pos < |js|
    requires s' == if c == ':' then State(s.pos + 1, |s.toks| - 1, s.toks)
                   else if c == ',' then Comma(s) else s.(pos := s.pos + 1)
    ensures Inv(js, s')
  {
    if c == ':' {
      AdvanceKeepsInv(js, s, |s.toks| - 1);
    } else if c == ',' {
      CommaKeepsInv(js, s);
    } else {
      AdvanceKeepsInv(js, s, s.super);
    }
  }

  lemma QuoteKeepsInv(js: string, cap: nat, s: State, o: Outcome)
    requires Inv(js, s) && !AtEnd(js, s.pos) && js[s.pos] == '"'
    requires o == Quote(js, cap, s) && o.Next?
    ensures Inv(js, o.s)
  {
    var q := ScanString(js, s.pos + 1).at;
    PushLeafKeepsInv(js, cap, s, String, s.pos + 1, q, q + 1);
  }

  lemma BareKeepsInv(js: string, cap: nat, s: State, o: Outcome)
    requires Inv(js, s) && !AtEnd(js, s.pos) && StartsPrimitive(js[s.pos])
    requires o == Bare(js, cap, s) && o.Next?
    ensures Inv(js, o.s)
  {
    var q := ScanPrimitive(js, s.pos).at;
    PushLeafKeepsInv(js, cap, s, Primitive, s.pos, q, q);
  }

  lemma CommaKeepsInv(js: string, s: State)
    requires Inv(js, s) && s.pos < |js|
    ensures Inv(js, Comma(s))
  {
    if s.super != -1 {
      assert TokenOk(js, s.pos, s.toks[s.super]);
    }
    AdvanceKeepsInv(js, s, Comma(s).super);
  }

  /** Whole runs: the invariant holds where the run stops, unless that is an opening bracket
      refused with ERROR_INVAL, and then exactly one token too many has been taken. The token
      array is never overrun, and a result that is not an error counts the tokens, all of
      them closed. */
  lemma {:induction false} RunKeepsInv(js: string, cap: nat, s: State)
    requires Inv(js, s) && |s.toks| <= cap
    ensures var o := Run(js, cap, s);
      && (Inv(js, o.s) <==> !Refused(js, o))
      && (Refused(js, o) ==> AfterRefusal(js, o.s))
      && |o.s.toks| <= cap
      && (o.code >= 0 ==>
            && o.code == |o.s.toks|
            && AtEnd(js, o.s.pos)
            && forall i :: 0 <= i < |o.s.toks| ==> 0 <= o.s.toks[i].start <= o.s.toks[i].end <= o.s.pos)
      && (o.code < 0 ==> o.code in {ERROR_NOMEM, ERROR_INVAL, ERROR_PART})
    decreases |js| - s.pos
  {
    if AtEnd(js, s.pos) {
      forall i | 0 <= i < |s.toks|
        ensures TokenOk(js, s.pos, s.toks[i])
      {
      }
    } else {
      StepKeepsInv(js, cap, s);
      var o := Step(js, cap, s);
      if o.Next? {
        RunKeepsInv(js, cap, o.s);
      } else {
        assert Refuses(js, cap, s) <==> Refused(js, o);
      }
    }
  }

  /** The same for a parse that starts fresh. */
  lemma ParseKeepsInv(js: string, cap: nat)
    ensures var o := Run(js, cap, Initial());
      && (Inv(js, o.s) <==> !Refused(js, o))
      && (Refused(js, o) ==> AfterRefusal(js, o.s))
      && (o.code >= 0 ==> o.code == |o.s.toks| <= cap && !AnyOpen(o.s.toks))
  {
    RunKeepsInv(js, cap, Initial());
  }

  /** A list where an object wants a key: the parse leaves two tokens, and the second does
      not start behind the first. */
  lemma RefusedBracketExample(cap: nat)
    requires cap >= 2
    ensures var o := Run("{[", cap, Initial());
      && o == Halt(ERROR_INVAL, State(1, 0, [Token(Object, 0, -1, 0, -1), Blank]))
      && !StartsIncrease(o.s.toks)
  {
    var js := "{[";
    var s := State(1, 0, [Token(Object, 0, -1, 0, -1)]);
    assert Step(js, cap, Initial()) == Next(s);
    var t := Step(js, cap, s);
    assert t.s.toks == [Token(Object, 0, -1, 0, -1), Blank];
    assert t.s.toks[0].start == 0 && t.s.toks[1].start == -1;
    assert Run(js, cap, s) == t;
  }

  /** Where the end of a token is a byte of another leaf, exactly: a primitive that starts
      right behind a closing bracket. */
  lemma EndFallsExactly(js: string, cap: nat, i: nat, j: nat)
    requires Run(js, cap, Initial()).code >= 0
    requires var toks := Run(js, cap, Initial()).s.toks; i < |toks| && j < |toks|
    ensures var toks := Run(js, cap, Initial()).s.toks;
      EndFallsIn(toks, j, i) <==>
        toks[i].kind == Primitive && !toks[j].IsLeaf() && toks[j].end == toks[i].start
  {
    ParseKeepsInv(js, cap);
    var s := Run(js, cap, Initial()).s;
    assert TokenOk(js, s.pos, s.toks[i]);
    assert !s.toks[j].IsOpen();
  }

  // ---------------------------------------------------------------- reachable states

  /** A set of states that holds the initial one and that no turn of the loop leaves. */
  ghost predicate Closed(js: string, cap: nat, r: State -> bool) {
    && r(Initial())
    && forall s :: r(s) && Shaped(s) && !AtEnd(js, s.pos) && Step(js, cap, s).Next? ==> r(Step(js, cap, s).s)
  }

  /** A parse that starts fresh comes to state `s`: every such set has it. */
  ghost predicate Reached(js: string, cap: nat, s: State) {
    forall r: State -> bool :: Closed(js, cap, r) ==> r(s)
  }

  lemma ReachedInitially(js: string, cap: nat)
    ensures Reached(js, cap, Initial())
  {
  }

  lemma ReachedNext(js: string, cap: nat, s: State, s': State)
    requires Reached(js, cap, s) && Shaped(s) && !AtEnd(js, s.pos) && Step(js, cap, s) == Next(s')
    ensures Reached(js, cap, s')
  {
    forall r: State -> bool | Closed(js, cap, r)
      ensures r(s')
    {
      assert r(s);
      assert r(Step(js, cap, s).s);
    }
  }

  /** Every state a parse comes to keeps the invariant, and the parse ends as a parse
      continued from there. */
  lemma ReachedKeepsInv(js: string, cap: nat, s: State)
    requires Reached(js, cap, s)
    ensures Inv(js, s) && |s.toks| <= cap && Run(js, cap, Initial()) == Run(js, cap, s)
  {
    var r := (t: State) => Inv(js, t) && |t.toks| <= cap && Run(js, cap, Initial()) == Run(js, cap, t);
    forall t | r(t) && Shaped(t) && !AtEnd(js, t.pos) && Step(js, cap, t).Next?
      ensures r(Step(js, cap, t).s)
    {
      StepKeepsInv(js, cap, t);
    }
    assert Closed(js, cap, r);
    assert r(s);
  }

  /** A parse that starts fresh leaves a blank token if and only if it comes to an opening
      bracket below an object with a token left for it. */
  lemma RefusedByGuard(js: string, cap: nat)
    ensures Refused(js, Run(js, cap, Initial()))
         <==> exists t :: Reached(js, cap, t) && Meets(js, cap, t)
  {
    if t :| Reached(js, cap, t) && Meets(js, cap, t) {
      ReachedKeepsInv(js, cap, t);
    }
    if Refused(js, Run(js, cap, Initial())) {
      var t := RefusedMeets(js, cap, Initial());
    }
  }

  /** The state is one in which the next turn refuses a bracket it has a token for. */
  predicate Meets(js: string, cap: nat, s: State) {
    Shaped(s) && !AtEnd(js, s.pos) && Refuses(js, cap, s)
  }

  lemma {:induction false} RefusedMeets(js: string, cap: nat, s: State) returns (t: State)
    requires Reached(js, cap, s) && Shaped(s) && |s.toks| <= cap && Refused(js, Run(js, cap, s))
    ensures Reached(js, cap, t) && Meets(js, cap, t)
    decreases |js| - s.pos
  {
    var o := Step(js, cap, s);
    if o.Next? {
      ReachedNext(js, cap, s, o.s);
      ReachedKeepsInv(js, cap, o.s);
      t := RefusedMeets(js, cap, o.s);
    } else {
      t := s;
    }
  }

  lemma ReachedShaped(js: string, cap: nat, s: State)
    requires Reached(js, cap, s)
    ensures Shaped(s)
  {
    ReachedKeepsInv(js, cap, s);
  }
}
