/** Where the NULs that `convert` writes behind the tokens fall into another token's bytes,
    read off the text: a primitive right behind a bracket that closes something. */
module JsmnEnds {
  import opened Jsmn
  import opened JsmnInvariants

  predicate IsClosing(c: char) {
    c == '}' || c == ']'
  }

  /** A parse comes to a closing bracket at `p - 1` with a container open, and a primitive
      starts at `p`. */
  ghost predicate ClosesBefore(js: string, cap: nat, s: State, p: int) {
    && Reached(js, cap, s)
    && s.pos + 1 == p < |js|
    && IsClosing(js[p - 1]) && AnyOpen(s.toks)
    && StartsPrimitive(js[p])
  }

  // ---------------------------------------------------------------- a token's end stays

  /** Tokens closed in `toks` have the same kind and span in `toks'`. */
  ghost predicate Kept(toks: seq<Token>, toks': seq<Token>) {
    && |toks| <= |toks'|
    && forall k :: 0 <= k < |toks| && toks[k].end != -1 ==>
         toks'[k].kind == toks[k].kind && toks'[k].start == toks[k].start && toks'[k].end == toks[k].end
  }

  lemma StepKeepsEnds(js: string, cap: nat, s: State)
    requires Shaped(s) && !AtEnd(js, s.pos)
    ensures Kept(s.toks, Step(js, cap, s).s.toks)
  {
  }

  lemma {:induction false} RunKeepsEnds(js: string, cap: nat, s: State)
    requires Shaped(s)
    ensures Kept(s.toks, Run(js, cap, s).s.toks)
    decreases |js| - s.pos
  {
    if !AtEnd(js, s.pos) {
      StepKeepsEnds(js, cap, s);
      if Step(js, cap, s).Next? {
        RunKeepsEnds(js, cap, Step(js, cap, s).s);
      }
    }
  }

  // ---------------------------------------------------------------- what closed a token

  lemma {:induction false} RunReaches(js: string, cap: nat, s: State)
    requires Shaped(s) && Reached(js, cap, s) && Run(js, cap, s).code >= 0
    ensures Reached(js, cap, Run(js, cap, s).s)
    decreases |js| - s.pos
  {
    if !AtEnd(js, s.pos) {
      var o := Step(js, cap, s);
      ReachedNext(js, cap, s, o.s);
      RunReaches(js, cap, o.s);
    }
  }

  /** A parse has come to a closing bracket at `p` with a container open. */
  ghost predicate ClosedAt(js: string, cap: nat, p: int) {
    exists u :: Reached(js, cap, u) && u.pos == p < |js| && IsClosing(js[p]) && AnyOpen(u.toks)
  }

  /** Each closed container has been closed by such a bracket. */
  ghost predicate ClosedByBrackets(js: string, cap: nat, toks: seq<Token>) {
    forall k :: 0 <= k < |toks| && !toks[k].IsLeaf() && toks[k].end != -1 ==> ClosedAt(js, cap, toks[k].end - 1)
  }

  /** A closed container was closed before, or is closed by the bracket of this turn. */
  lemma EndsOfStep(js: string, cap: nat, s: State, toks: seq<Token>, k: nat)
    requires Shaped(s) && !AtEnd(js, s.pos) && Step(js, cap, s).Next? && toks == Step(js, cap, s).s.toks
    requires k < |toks| && !toks[k].IsLeaf() && toks[k].end != -1
    ensures k < |s.toks| && !s.toks[k].IsLeaf()
    ensures toks[k].end == s.toks[k].end
            || (toks[k].end == s.pos + 1 && s.toks[k].IsOpen() && IsClosing(js[s.pos]))
  {
  }

  lemma StepClosesByBracket(js: string, cap: nat, s: State, toks: seq<Token>)
    requires Reached(js, cap, s) && Shaped(s) && !AtEnd(js, s.pos) && Step(js, cap, s).Next?
    requires ClosedByBrackets(js, cap, s.toks) && toks == Step(js, cap, s).s.toks
    ensures ClosedByBrackets(js, cap, toks)
  {
    forall k | 0 <= k < |toks| && !toks[k].IsLeaf() && toks[k].end != -1
      ensures ClosedAt(js, cap, toks[k].end - 1)
    {
      EndsOfStep(js, cap, s, toks, k);
      if toks[k].end != s.toks[k].end {
        ReachedCloses(js, cap, s);
      }
    }
  }

  lemma ReachedCloses(js: string, cap: nat, s: State)
    requires Reached(js, cap, s) && s.pos < |js| && IsClosing(js[s.pos]) && AnyOpen(s.toks)
    ensures ClosedAt(js, cap, s.pos)
  {
  }

  lemma ReachedClosesByBrackets(js: string, cap: nat, s: State)
    requires Reached(js, cap, s)
    ensures ClosedByBrackets(js, cap, s.toks)
  {
    var r := (t: State) => Reached(js, cap, t) && ClosedByBrackets(js, cap, t.toks);
    forall t | r(t) && Shaped(t) && !AtEnd(js, t.pos) && Step(js, cap, t).Next?
      ensures r(Step(js, cap, t).s)
    {
      ReachedNext(js, cap, t, Step(js, cap, t).s);
      StepClosesByBracket(js, cap, t, Step(js, cap, t).s.toks);
    }
    assert Closed(js, cap, r);
    assert r(s);
  }

  // ---------------------------------------------------------------- the exact condition

  lemma EndFallsOnlyThere(js: string, cap: nat, i: nat, j: nat)
    requires Run(js, cap, Initial()).code >= 0
    requires var toks := Run(js, cap, Initial()).s.toks;
      i < |toks| && j < |toks| && EndFallsIn(toks, j, i)
    ensures exists s :: ClosesBefore(js, cap, s, Run(js, cap, Initial()).s.toks[i].start)
  {
    var s := Run(js, cap, Initial()).s;
    EndFallsExactly(js, cap, i, j);
    ParseKeepsInv(js, cap);
    assert TokenOk(js, s.pos, s.toks[i]);
    assert TokenOk(js, s.pos, s.toks[j]);
    RunReaches(js, cap, Initial());
    ReachedClosesByBrackets(js, cap, s);
    assert ClosedAt(js, cap, s.toks[j].end - 1);
    var u :| Reached(js, cap, u) && u.pos == s.toks[j].end - 1 && IsClosing(js[u.pos]) && AnyOpen(u.toks);
    assert ClosesBefore(js, cap, u, s.toks[i].start);
  }

  /** A closing bracket that is not refused. */
  lemma ClosingTurn(js: string, cap: nat, s: State) returns (kind: TokenKind)
    requires Shaped(s) && s.pos < |js| && IsClosing(js[s.pos]) && Run(js, cap, s).code >= 0
    ensures (kind == Object || kind == Array) && Close(s, kind).Next?
    ensures Run(js, cap, s) == Run(js, cap, Close(s, kind).s)
  {
    kind := if js[s.pos] == '}' then Object else Array;
    assert Step(js, cap, s) == Close(s, kind);
  }

  /** The bracket closes a token. */
  lemma BracketCloses(js: string, s: State, kind: TokenKind) returns (s1: State, w: nat)
    requires Inv(js, s) && s.pos < |js| && AnyOpen(s.toks) && Close(s, kind).Next?
    ensures s1 == Close(s, kind).s && Inv(js, s1) && s1.pos == s.pos + 1
    ensures w < |s1.toks| && s1.toks[w].end == s1.pos && s1.toks[w].kind == kind
  {
    s1 := CloseOutcome(s, kind);
    CloseKeepsInv(js, s, kind);
    w := Walk(s.toks, |s.toks| - 1);
    WalkFindsLastOpen(js, s);
  }

  lemma PrimitivePushed(js: string, cap: nat, s: State) returns (s': State)
    requires Shaped(s) && s.pos < |js| && StartsPrimitive(js[s.pos]) && Run(js, cap, s).code >= 0
    ensures Shaped(s') && Run(js, cap, s) == Run(js, cap, s') && Kept(s.toks, s'.toks)
    ensures |s'.toks| == |s.toks| + 1
    ensures var t := s'.toks[|s.toks|];
      t.kind == Primitive && t.start == s.pos < t.end
  {
    assert Step(js, cap, s) == Bare(js, cap, s);
    StepKeepsEnds(js, cap, s);
    assert !EndsPrimitive(js[s.pos]);
    s' := Step(js, cap, s).s;
  }

  /** A primitive right behind the container `w`. */
  lemma PrimitiveBehind(js: string, cap: nat, s: State, w: nat) returns (n: nat)
    requires Shaped(s) && s.pos < |js| && StartsPrimitive(js[s.pos]) && Run(js, cap, s).code >= 0
    requires w < |s.toks| && s.toks[w].end == s.pos && !s.toks[w].IsLeaf()
    ensures var toks := Run(js, cap, s).s.toks;
      w < n < |toks| && EndFallsIn(toks, w, n) && toks[n].start == s.pos
  {
    n := |s.toks|;
    var s2 := PrimitivePushed(js, cap, s);
    RunKeepsEnds(js, cap, s2);
  }

  lemma PrimitiveBehindBracket(js: string, cap: nat, s: State) returns (w: nat, n: nat)
    requires Inv(js, s) && s.pos + 1 < |js| && IsClosing(js[s.pos]) && AnyOpen(s.toks)
    requires StartsPrimitive(js[s.pos + 1]) && Run(js, cap, s).code >= 0
    ensures var toks := Run(js, cap, s).s.toks;
      w < n < |toks| && EndFallsIn(toks, w, n) && toks[n].start == s.pos + 1
  {
    var kind := ClosingTurn(js, cap, s);
    var s1;
    s1, w := BracketCloses(js, s, kind);
    n := PrimitiveBehind(js, cap, s1, w);
  }

  /** The bracket closes token `w`, and then the primitive is token `n`. */
  lemma BracketThenPrimitive(js: string, cap: nat, s: State, p: nat) returns (w: nat, n: nat)
    requires ClosesBefore(js, cap, s, p) && Run(js, cap, Initial()).code >= 0
    ensures var toks := Run(js, cap, Initial()).s.toks;
      w < n < |toks| && EndFallsIn(toks, w, n) && toks[n].start == p
  {
    ReachedKeepsInv(js, cap, s);
    w, n := PrimitiveBehindBracket(js, cap, s);
  }

  /** After a successful parse, a primitive that starts at `p` has the end of another token
      among its bytes if and only if `p` is right behind a bracket that closes something;
      and no other leaf ever has one. */
  lemma EndFallsByText(js: string, cap: nat, p: nat)
    requires Run(js, cap, Initial()).code >= 0
    ensures var toks := Run(js, cap, Initial()).s.toks;
      (exists i, j :: 0 <= i < |toks| && 0 <= j < |toks| && EndFallsIn(toks, j, i) && toks[i].start == p)
      <==> (exists s :: ClosesBefore(js, cap, s, p))
  {
    var toks := Run(js, cap, Initial()).s.toks;
    forall i, j | 0 <= i < |toks| && 0 <= j < |toks| && EndFallsIn(toks, j, i) && toks[i].start == p
      ensures exists s :: ClosesBefore(js, cap, s, p)
    {
      EndFallsOnlyThere(js, cap, i, j);
    }
    if s :| ClosesBefore(js, cap, s, p) {
      var w, n := BracketThenPrimitive(js, cap, s, p);
    }
  }

  // ---------------------------------------------------------------- on real texts

  lemma RunNext(js: string, cap: nat, s: State, s': State)
    requires Shaped(s) && !AtEnd(js, s.pos) && Step(js, cap, s) == Next(s')
    ensures Run(js, cap, s) == Run(js, cap, s')
  {
  }

  /** The tokens of `[[1]2]`: the inner list ends where the 2 starts. */
  function ClashingTokens(): seq<Token> {
    [Token(Array, 0, 6, 2, -1), Token(Array, 1, 4, 1, 0), Token(Primitive, 2, 3, 0, 1), Token(Primitive, 4, 5, 0, 0)]
  }

  lemma ClashingExample(cap: nat)
    requires cap >= 4
    ensures Run("[[1]2]", cap, Initial()) == Halt(4, State(6, -1, ClashingTokens()))
    ensures EndFallsIn(ClashingTokens(), 1, 3)
  {
    var js := "[[1]2]";
    var s := ClashingInnerList(js, cap);
    ClashingRest(js, cap, s);
  }

  lemma ClashingInnerList(js: string, cap: nat) returns (s: State)
    requires js == "[[1]2]" && cap >= 4
    ensures s == State(3, 1, [Token(Array, 0, -1, 1, -1), Token(Array, 1, -1, 1, 0), Token(Primitive, 2, 3, 0, 1)])
    ensures Run(js, cap, Initial()) == Run(js, cap, s)
  {
    var s1 := ListOpens(js, cap);
    var s2 := State(2, 1, [Token(Array, 0, -1, 1, -1), Token(Array, 1, -1, 0, 0)]);
    assert Step(js, cap, s1) == Next(s2);
    RunNext(js, cap, s1, s2);
    s := State(3, 1, [Token(Array, 0, -1, 1, -1), Token(Array, 1, -1, 1, 0), Token(Primitive, 2, 3, 0, 1)]);
    assert ScanPrimitive(js, 2) == Found(3);
    assert Step(js, cap, s2) == Next(s);
    RunNext(js, cap, s2, s);
  }

  lemma ClashingRest(js: string, cap: nat, s3: State)
    requires js == "[[1]2]" && cap >= 4
    requires s3 == State(3, 1, [Token(Array, 0, -1, 1, -1), Token(Array, 1, -1, 1, 0), Token(Primitive, 2, 3, 0, 1)])
    ensures Run(js, cap, s3) == Halt(4, State(6, -1, ClashingTokens()))
  {
    var s4 := State(4, 0, [Token(Array, 0, -1, 1, -1), Token(Array, 1, 4, 1, 0), Token(Primitive, 2, 3, 0, 1)]);
    assert Walk(s3.toks, 2) == 1;
    CloseTurn(js, cap, s3);
    assert Close(s3, Array) == Next(s4);
    RunNext(js, cap, s3, s4);
    var s5 := State(5, 0, [Token(Array, 0, -1, 2, -1), Token(Array, 1, 4, 1, 0), Token(Primitive, 2, 3, 0, 1),
                           Token(Primitive, 4, 5, 0, 0)]);
    assert ScanPrimitive(js, 4) == Found(5);
    assert Step(js, cap, s4) == Next(s5);
    RunNext(js, cap, s4, s5);
    var s6 := State(6, -1, ClashingTokens());
    assert Walk(s5.toks, 3) == 0;
    CloseTurn(js, cap, s5);
    assert Close(s5, Array) == Next(s6);
    RunNext(js, cap, s5, s6);
    assert !AnyOpen(s6.toks);
    assert Run(js, cap, s6) == Halt(4, s6);
  }

  /** A second bracket may follow a colon and close nothing; no end falls into the 1 behind it. */
  lemma StrayBracketExample(cap: nat)
    requires cap >= 2
    ensures Run("[]:]1 ", cap, Initial())
         == Halt(2, State(6, 0, [Token(Array, 0, 2, 1, -1), Token(Primitive, 4, 5, 0, 0)]))
    ensures !EndFallsIn([Token(Array, 0, 2, 1, -1), Token(Primitive, 4, 5, 0, 0)], 0, 1)
  {
    var js := "[]:]1 ";
    var s := StrayBracketCloses(js, cap);
    StrayBracketRest(js, cap, s);
  }

  lemma StrayBracketCloses(js: string, cap: nat) returns (s: State)
    requires js == "[]:]1 " && cap >= 2
    ensures s == State(3, 0, [Token(Array, 0, 2, 0, -1)]) && Run(js, cap, Initial()) == Run(js, cap, s)
  {
    var s1 := ListOpens(js, cap);
    var s2 := State(2, -1, [Token(Array, 0, 2, 0, -1)]);
    CloseTurn(js, cap, s1);
    assert Close(s1, Array) == Next(s2);
    RunNext(js, cap, s1, s2);
    s := State(3, 0, s2.toks);
    ColonTurn(js, cap, s2);
    RunNext(js, cap, s2, s);
  }

  lemma ListOpens(js: string, cap: nat) returns (s: State)
    requires |js| > 0 && js[0] == '[' && cap > 0
    ensures s == State(1, 0, [Token(Array, 0, -1, 0, -1)]) && Run(js, cap, Initial()) == Run(js, cap, s)
  {
    s := State(1, 0, [Token(Array, 0, -1, 0, -1)]);
    assert Step(js, cap, Initial()) == Next(s);
    RunNext(js, cap, Initial(), s);
  }

  lemma CloseTurn(js: string, cap: nat, s: State)
    requires Shaped(s) && s.pos < |js| && js[s.pos] == ']'
    ensures Step(js, cap, s) == Close(s, Array)
  {
  }

  lemma ColonTurn(js: string, cap: nat, s: State)
    requires Shaped(s) && s.pos < |js| && js[s.pos] == ':'
    ensures Step(js, cap, s) == Next(State(s.pos + 1, |s.toks| - 1, s.toks))
  {
  }

  lemma StrayBracketRest(js: string, cap: nat, s: State)
    requires js == "[]:]1 " && cap >= 2 && s == State(3, 0, [Token(Array, 0, 2, 0, -1)])
    ensures Run(js, cap, s) == Halt(2, State(6, 0, [Token(Array, 0, 2, 1, -1), Token(Primitive, 4, 5, 0, 0)]))
  {
    var s4 := State(4, 0, s.toks);
    assert Step(js, cap, s) == Next(s4);
    RunNext(js, cap, s, s4);
    var s5 := State(5, 0, [Token(Array, 0, 2, 1, -1), Token(Primitive, 4, 5, 0, 0)]);
    assert ScanPrimitive(js, 4) == Found(5);
    assert Step(js, cap, s4) == Next(s5);
    RunNext(js, cap, s4, s5);
    var s6 := s5.(pos := 6);
    assert Step(js, cap, s5) == Next(s6);
    RunNext(js, cap, s5, s6);
    assert !AnyOpen(s6.toks);
    assert Run(js, cap, s6) == Halt(2, s6);
  }
}
