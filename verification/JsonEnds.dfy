/** What `convert` reads where the end of one token falls on the start of another: nothing. */
module JsonEnds {
  import opened Common
  import opened Jsmn
  import opened JsmnInvariants
  import opened JsmnEnds
  import opened Json
  import opened JsonConvert
  import opened JsonConvertSteps
  import opened JsonRoundTrip

  /** The tokens of a parse. */
  function Toks(js: string, cap: nat): seq<Token> {
    Run(js, cap, Initial()).s.toks
  }

  /** A successful parse of `js`, which the text starts with. */
  predicate Accepted(js: string, cap: nat, text: string) {
    js < text && Run(js, cap, Initial()).code >= 0
  }

  lemma TokensInside(js: string, cap: nat, text: string)
    requires Accepted(js, cap, text)
    ensures var toks := Toks(js, cap);
      && Linked(toks) && StartsIncrease(toks) && EndsApart(toks)
      && forall k :: 0 <= k < |toks| ==> TokenOk(js, |js|, toks[k]) && 0 <= toks[k].start <= toks[k].end < |text|
  {
    RunKeepsInv(js, cap, Initial());
    var s := Run(js, cap, Initial()).s;
    forall k | 0 <= k < |s.toks|
      ensures TokenOk(js, |js|, s.toks[k]) && 0 <= s.toks[k].start <= s.toks[k].end < |text|
    {
      assert TokenOk(js, s.pos, s.toks[k]);
    }
  }

  /** The end of another token falls into leaf `i`. */
  predicate Clashes(toks: seq<Token>, i: nat)
    requires i < |toks|
  {
    exists j :: 0 <= j < |toks| && EndFallsIn(toks, j, i)
  }

  /** From its turn on, a leaf is its content, or nothing at all where another token ends in it. */
  lemma LeafReadsOrNot(js: string, text: string, toks: seq<Token>, i: nat, n: nat)
    requires js < text && Linked(toks) && StartsIncrease(toks) && EndsApart(toks)
    requires forall k :: 0 <= k < |toks| ==>
      TokenOk(js, |js|, toks[k]) && 0 <= toks[k].start <= toks[k].end < |text|
    requires i < n <= |toks| && toks[i].IsLeaf()
    ensures CStr(Cut(text, toks, n), toks[i].start) == if Clashes(toks, i) then "" else Content(text, toks[i])
    ensures toks[i].kind == Primitive ==>
      Cut(text, toks, n)[toks[i].start] == if Clashes(toks, i) then '\0' else text[toks[i].start]
  {
    var cut, t := Cut(text, toks, n), toks[i];
    assert TokenOk(js, |js|, t);
    if Clashes(toks, i) {
      var j :| 0 <= j < |toks| && EndFallsIn(toks, j, i);
      assert TokenOk(js, |js|, toks[j]);
      assert j < i;
      CutAt(text, toks, n, t.start);
    } else {
      forall k | 0 <= k < n
        ensures !(t.start <= toks[k].end < t.end)
      {
        assert !EndFallsIn(toks, k, i);
      }
      UncutReads(js, text, toks, t, n);
    }
  }

  /** A leaf's clash, read off the text. */
  lemma ClashesByText(js: string, cap: nat, text: string, i: nat)
    requires Accepted(js, cap, text) && i < |Toks(js, cap)| && Toks(js, cap)[i].IsLeaf()
    ensures Clashes(Toks(js, cap), i) <==> (exists s :: ClosesBefore(js, cap, s, Toks(js, cap)[i].start))
  {
    var toks := Toks(js, cap);
    var p := toks[i].start;
    TokensInside(js, cap, text);
    if j :| 0 <= j < |toks| && EndFallsIn(toks, j, i) {
      EndFallsOnlyThere(js, cap, i, j);
    }
    if s :| ClosesBefore(js, cap, s, p) {
      var w, n := BracketThenPrimitive(js, cap, s, p);
      assert n == i;
    }
  }

  lemma TurnTaken(v: Work, i: nat) returns (w: Work)
    requires WellFormed(v) && i < |v.toks| && SpanOk(v.toks[i])
    ensures WellFormed(w) && |w.toks| == |v.toks| && ConvertFrom(v, i) == ConvertFrom(w, i + 1)
    ensures w.text == v.text[v.toks[i].end := '\0'] && w.toks == Retag(v.toks, i)
  {
    w := ConvertOne(v, i);
  }

  /** The state in which the loop of `convert` comes to token `i`. */
  lemma {:induction false} TurnOf(text: string, toks: seq<Token>, i: nat, goal: Work) returns (w: Work)
    requires Linked(toks) && WellFormed(Start(text, toks)) && i <= |toks| && goal == ConvertFrom(Start(text, toks), 0)
    requires forall k :: 0 <= k < |toks| ==> 0 <= toks[k].start <= toks[k].end < |text|
    ensures WellFormed(w) && |w.toks| == |toks| && ConvertFrom(w, i) == goal
    ensures w.text == Cut(text, toks, i) && w.toks == Tagged(toks, i)
  {
    if i == 0 {
      w := Start(text, toks);
    } else {
      var v := TurnOf(text, toks, i - 1, goal);
      w := TurnFurther(text, toks, v, i - 1);
    }
  }

  lemma TurnFurther(text: string, toks: seq<Token>, v: Work, i: nat) returns (w: Work)
    requires Linked(toks) && WellFormed(v) && i < |v.toks| == |toks|
    requires forall k :: 0 <= k < |toks| ==> 0 <= toks[k].start <= toks[k].end < |text|
    requires v.text == Cut(text, toks, i) && v.toks == Tagged(toks, i)
    ensures WellFormed(w) && |w.toks| == |toks| && ConvertFrom(w, i + 1) == ConvertFrom(v, i)
    ensures w.text == Cut(text, toks, i + 1) && w.toks == Tagged(toks, i + 1)
  {
    TaggedAt(toks, i, i);
    w := TurnTaken(v, i);
    CutFurther(text, toks, i);
  }

  lemma CutFurther(text: string, toks: seq<Token>, i: nat)
    requires Linked(toks) && i < |toks| && forall k :: 0 <= k <= i ==> 0 <= toks[k].end < |text|
    ensures Cut(text, toks, i + 1) == Cut(text, toks, i)[toks[i].end := '\0']
    ensures Tagged(toks, i + 1) == Retag(Tagged(toks, i), i)
  {
  }

  /** What the loop of `convert` makes of a number or boolean at its turn: a 0 if it stands
      right behind a bracket that closes something, and else what its own text says. */
  lemma PrimitiveMade(js: string, cap: nat, text: string, i: nat) returns (w: Work)
    requires Accepted(js, cap, text) && i < |Toks(js, cap)| && Toks(js, cap)[i].kind == Primitive
    ensures WellFormed(Start(text, Toks(js, cap))) && WellFormed(w) && i < |w.toks|
    ensures ConvertFrom(Start(text, Toks(js, cap)), 0) == ConvertFrom(w, i)
    ensures SpanOk(w.toks[i])
    ensures MakeNode(w.text[w.toks[i].end := '\0'], w.toks, i)
         == if exists s :: ClosesBefore(js, cap, s, Toks(js, cap)[i].start) then Some(NInt(0))
            else NodeOf(text, Toks(js, cap), i)
  {
    TokensInside(js, cap, text);
    TokensConvertible(js, cap, text);
    w := PrimitiveTurn(js, text, Toks(js, cap), i);
    ClashesByText(js, cap, text, i);
  }

  lemma PrimitiveTurn(js: string, text: string, toks: seq<Token>, i: nat) returns (w: Work)
    requires js < text && Linked(toks) && StartsIncrease(toks) && EndsApart(toks) && WellFormed(Start(text, toks))
    requires forall k :: 0 <= k < |toks| ==>
      TokenOk(js, |js|, toks[k]) && 0 <= toks[k].start <= toks[k].end < |text|
    requires i < |toks| && toks[i].kind == Primitive
    ensures WellFormed(w) && i < |w.toks| && ConvertFrom(Start(text, toks), 0) == ConvertFrom(w, i)
    ensures SpanOk(w.toks[i])
    ensures MakeNode(w.text[w.toks[i].end := '\0'], w.toks, i)
         == if Clashes(toks, i) then Some(NInt(0)) else NodeOf(text, toks, i)
  {
    w := PrimitiveWork(js, text, toks, i);
    LeafReadsOrNot(js, text, toks, i, i + 1);
    PrimitiveNode(text, toks, i, w, Clashes(toks, i));
  }

  lemma PrimitiveWork(js: string, text: string, toks: seq<Token>, i: nat) returns (w: Work)
    requires Linked(toks) && WellFormed(Start(text, toks))
    requires forall k :: 0 <= k < |toks| ==> 0 <= toks[k].start <= toks[k].end < |text|
    requires i < |toks| && toks[i].kind == Primitive && TokenOk(js, |js|, toks[i])
    ensures WellFormed(w) && |w.toks| == |toks| && ConvertFrom(Start(text, toks), 0) == ConvertFrom(w, i)
    ensures |w.text| == |text| && w.toks[i] == toks[i] && toks[i].start < toks[i].end
    ensures w.text[toks[i].end := '\0'] == Cut(text, toks, i + 1)
  {
    w := TurnOf(text, toks, i, ConvertFrom(Start(text, toks), 0));
    TaggedAt(toks, i, i);
  }

  lemma PrimitiveNode(text: string, toks: seq<Token>, i: nat, w: Work, clash: bool)
    requires WellFormed(w) && Linked(toks) && i < |toks| == |w.toks| && w.toks[i] == toks[i]
    requires 0 <= toks[i].start < toks[i].end < |text| == |w.text| && toks[i].kind == Primitive
    requires var cut := w.text[toks[i].end := '\0'];
      && CStr(cut, toks[i].start) == (if clash then "" else Content(text, toks[i]))
      && cut[toks[i].start] == if clash then '\0' else text[toks[i].start]
    ensures MakeNode(w.text[w.toks[i].end := '\0'], w.toks, i)
         == if clash then Some(NInt(0)) else NodeOf(text, toks, i)
  {
    assert StrToL("") == 0;
  }

  /** `[[1]2]` is taken for `[[1],0]`: four tokens and a tree, and no error. */
  lemma ClashingConverts(cap: nat)
    requires cap >= 4
    ensures ParseText("[[1]2]\0", 6, cap)
         == Parse(4, Some([Some(NList([1, 3])), Some(NList([2])), Some(NInt(1)), Some(NInt(0))]))
  {
    var text := "[[1]2]\0";
    assert text[..6] == "[[1]2]";
    ClashingExample(cap);
    ClashingTable(text);
  }

  /** An item is made and linked to its list. */
  lemma ItemTurn(w: Work, i: nat, text: string, node: Option<Node>, members: seq<nat>) returns (w': Work)
    requires WellFormed(w) && i < |w.toks| && SpanOk(w.toks[i])
    requires text == w.text[w.toks[i].end := '\0'] && node == MakeNode(text, w.toks, i) && node.Some?
    requires w.toks[i].parent >= 0 && w.toks[w.toks[i].parent].kind == Array
    requires w.objs[w.toks[i].parent] == Some(NList(members))
    ensures w' == Work(text, w.toks, w.objs[i := node][w.toks[i].parent := Some(NList(members + [i]))], w.invalid)
    ensures WellFormed(w') && ConvertFrom(w, i) == ConvertFrom(w', i + 1)
  {
    w' := ConvertOne(w, i);
    assert !IsKey(w.toks, i);
  }

  lemma ClashingTable(text: string)
    requires text == "[[1]2]\0"
    ensures WellFormed(Start(text, ClashingTokens()))
    ensures var w := ConvertFrom(Start(text, ClashingTokens()), 0);
      !w.invalid && w.objs == [Some(NList([1, 3])), Some(NList([2])), Some(NInt(1)), Some(NInt(0))]
  {
    var toks := ClashingTokens();
    assert |text| == 7 && text[2] == '1' && text[6 := '\0'] == text;
    var w1 := ClashingOuter(text, toks);
    var w2 := ClashingInner(w1, toks);
    var w3 := ClashingOne(w2, toks);
    var w4 := ClashingTwo(w3, toks);
  }

  lemma ClashingOuter(text: string, toks: seq<Token>) returns (w: Work)
    requires |text| == 7 && text[6 := '\0'] == text && toks == ClashingTokens()
    ensures WellFormed(Start(text, toks))
    ensures w == Work(text, toks, [Some(NList([])), None, None, None], false)
    ensures WellFormed(w) && ConvertFrom(Start(text, toks), 0) == ConvertFrom(w, 1)
  {
    var w0 := Start(text, toks);
    assert w0.objs == [None, None, None, None];
    w := ConvertOne(w0, 0);
    assert MakeNode(text, toks, 0) == Some(NList([]));
    assert w == Attach(Work(text, toks, w0.objs[0 := Some(NList([]))], false), 0);
  }

  lemma ClashingInner(w: Work, toks: seq<Token>) returns (w': Work)
    requires toks == ClashingTokens() && WellFormed(w) && |w.text| == 7
    requires w == Work(w.text, toks, [Some(NList([])), None, None, None], false)
    ensures w' == Work(w.text[4 := '\0'], toks, [Some(NList([1])), Some(NList([])), None, None], false)
    ensures WellFormed(w') && ConvertFrom(w, 1) == ConvertFrom(w', 2)
  {
    w' := ItemTurn(w, 1, w.text[4 := '\0'], Some(NList([])), []);
    assert [] + [1] == [1];
  }

  lemma ClashingOne(w: Work, toks: seq<Token>) returns (w': Work)
    requires toks == ClashingTokens() && WellFormed(w) && |w.text| == 7 && w.text[2] == '1'
    requires w == Work(w.text, toks, [Some(NList([1])), Some(NList([])), None, None], false)
    ensures w' == Work(w.text[3 := '\0'], toks, [Some(NList([1])), Some(NList([2])), Some(NInt(1)), None], false)
    ensures WellFormed(w') && ConvertFrom(w, 2) == ConvertFrom(w', 3)
  {
    ReadsDigit(w.text[3 := '\0']);
    w' := ItemTurn(w, 2, w.text[3 := '\0'], Some(NInt(1)), []);
    assert [] + [2] == [2];
  }

  lemma ClashingTwo(w: Work, toks: seq<Token>) returns (w': Work)
    requires toks == ClashingTokens() && WellFormed(w) && |w.text| == 7 && w.text[4] == '\0'
    requires w == Work(w.text, toks, [Some(NList([1])), Some(NList([2])), Some(NInt(1)), None], false)
    ensures w'.objs == [Some(NList([1, 3])), Some(NList([2])), Some(NInt(1)), Some(NInt(0))] && !w'.invalid
    ensures WellFormed(w') && ConvertFrom(w, 3) == w'
  {
    assert CStr(w.text[5 := '\0'], 4) == "" && StrToL("") == 0;
    w' := ItemTurn(w, 3, w.text[5 := '\0'], Some(NInt(0)), [1]);
    assert [1] + [3] == [1, 3];
  }

  lemma ReadsDigit(text: string)
    requires |text| > 3 && text[2] == '1' && text[3] == '\0'
    ensures StrToL(CStr(text, 2)) == 1
  {
    CStrSlice(text, 2, 3);
    assert text[2..3] == "1";
    assert ReadDigits("1"[1..], 10, 1) == 1;
  }
}
