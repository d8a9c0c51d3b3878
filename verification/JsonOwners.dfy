/** Who owns the objects of an accepted text: what deleting the object handed out frees. */
module JsonOwners {
  import opened Common
  import opened Jsmn
  import opened JsmnInvariants
  import opened JsmnEnds
  import opened Json
  import opened JsonConvert
  import opened JsonTree
  import opened JsonRoundTrip

  // ---------------------------------------------------------------- owners

  /** Object `k` has a link to object `j`. */
  predicate Owns(objs: Table, k: nat, j: nat)
    requires k < |objs|
  {
    exists a :: 0 <= a < |Links(objs, k)| && Links(objs, k)[a] == j
  }

  predicate Owned(objs: Table, j: nat) {
    exists k :: 0 <= k < |objs| && Owns(objs, k, j)
  }

  /** Object `j` is `root` or lies below it. */
  predicate Reaches(objs: Table, root: nat, j: nat)
    decreases j
  {
    j == root || exists k :: 0 <= k < j && k < |objs| && Owns(objs, k, j) && Reaches(objs, root, k)
  }

  predicate MakesObject(t: Token) {
    t.kind == Object || t.kind == Array || t.kind == String || t.kind == Primitive
  }

  /** After the first `i` tokens nothing has failed: an object is owned exactly if its token
      has a parent, and tokens without a parent have made objects. */
  predicate Placed(w: Work, i: nat)
    requires |w.objs| == |w.toks|
  {
    && !w.invalid && i <= |w.toks|
    && (forall j :: i <= j < |w.objs| ==> w.objs[j] == None)
    && (forall j :: 0 <= j < i && w.objs[j].Some? ==> (Owned(w.objs, j) <==> w.toks[j].parent >= 0))
    && (forall j :: 0 <= j < i && w.toks[j].parent < 0 && MakesObject(w.toks[j]) ==> w.objs[j].Some?)
  }

  // ---------------------------------------------------------------- the loop of convert

  lemma {:induction false} InvalidStays(w: Work, i: nat)
    requires WellFormed(w) && i <= |w.toks| && w.invalid
    ensures ConvertFrom(w, i).invalid
    decreases |w.toks| - i
  {
    if i < |w.toks| && SpanOk(w.toks[i]) {
      InvalidStays(ConvertOne(w, i), i + 1);
    }
  }

  /** A new object has no links, and nothing owns it. */
  lemma OwnersOfNew(objs: Table, i: nat, node: Option<Node>, j: nat)
    requires i < |objs| && objs[i] == None && |Links(objs[i := node], i)| == 0
    ensures Owned(objs[i := node], j) == Owned(objs, j)
  {
    var objs' := objs[i := node];
    forall k | 0 <= k < |objs|
      ensures Owns(objs', k, j) == Owns(objs, k, j)
    {
      assert k != i ==> Links(objs', k) == Links(objs, k);
    }
  }

  lemma OwnersOfLinked(objs: Table, objs': Table, o: nat, i: nat, j: nat)
    requires LinkAdded(objs, objs', o, i)
    ensures Owned(objs', j) == (Owned(objs, j) || j == i)
  {
    assert Links(objs', o)[|Links(objs, o)|] == i;
    assert Owns(objs', o, i);
    forall k | 0 <= k < |objs|
      ensures Owns(objs', k, j) == (Owns(objs, k, j) || (k == o && j == i))
    {
      if k == o && Owns(objs, k, j) {
        var a :| 0 <= a < |Links(objs, k)| && Links(objs, k)[a] == j;
        assert Links(objs', k)[a] == j;
      }
    }
  }

  /** What linking did, when it did not fail. */
  lemma Attached(w: Work, i: nat) returns (objs': Table)
    requires WellFormed(w) && i < |w.toks| && !w.invalid && !Attach(w, i).invalid
    ensures Attach(w, i) == w.(objs := objs') && |objs'| == |w.objs|
    ensures w.toks[i].parent < 0 || w.objs[i].None? ==> objs' == w.objs
    ensures w.toks[i].parent >= 0 && w.objs[i].Some? ==>
      exists o :: 0 <= o < |w.objs| && LinkAdded(w.objs, objs', o, i)
    ensures forall j :: 0 <= j < |objs'| ==> objs'[j].Some? == w.objs[j].Some?
  {
    objs' := Attach(w, i).objs;
    var p := w.toks[i].parent;
    if p >= 0 && w.objs[i].Some? {
      var o := if w.toks[p].kind == Key then w.toks[p].parent else p;
      assert LinkAdded(w.objs, objs', o, i);
    }
  }

  lemma ConvertOnePlaces(w: Work, i: nat, w': Work)
    requires WellFormed(w) && i < |w.toks| && SpanOk(w.toks[i]) && Placed(w, i) && Forest(w.objs, i)
    requires w' == ConvertOne(w, i) && !w'.invalid
    ensures Placed(w', i + 1)
  {
    var text := w.text[w.toks[i].end := '\0'];
    var node := MakeNode(text, w.toks, i);
    var objs := if node.Some? then w.objs[i := node] else w.objs;
    var w1 := Work(text, Retag(w.toks, i), objs, w.invalid);
    assert objs == w.objs[i := node];
    var objs' := Attached(w1, i);
    forall j | 0 <= j <= i && objs'[j].Some?
      ensures Owned(objs', j) <==> w'.toks[j].parent >= 0
    {
      OwnersOfNew(w.objs, i, node, j);
      if w1.toks[i].parent >= 0 && objs[i].Some? {
        var o :| 0 <= o < |objs| && LinkAdded(objs, objs', o, i);
        OwnersOfLinked(objs, objs', o, i, j);
      }
      if j == i {
        NotOwnedYet(w.objs, i);
      }
    }
  }

  lemma NotOwnedYet(objs: Table, i: nat)
    requires Forest(objs, i)
    ensures !Owned(objs, i)
  {
  }

  /** Retyping keys changes no parent, and no token without one. */
  predicate Akin(a: seq<Token>, b: seq<Token>) {
    |a| == |b| && forall j :: 0 <= j < |a| ==> a[j].parent == b[j].parent && (a[j].parent < 0 ==> a[j] == b[j])
  }

  lemma AkinTransitive(a: seq<Token>, b: seq<Token>, c: seq<Token>)
    requires Akin(a, b) && Akin(b, c)
    ensures Akin(a, c)
  {
  }

  /** The loop has come to token `i` of `toks` in state `w`, and will end in `end`. */
  predicate OnTheWay(w: Work, i: nat, toks: seq<Token>, end: Work) {
    && WellFormed(w) && i <= |w.toks| && Placed(w, i) && Forest(w.objs, i)
    && Akin(toks, w.toks) && end == ConvertFrom(w, i) && !end.invalid
  }

  lemma OnTheWayFurther(w: Work, i: nat, toks: seq<Token>, end: Work) returns (w': Work)
    requires OnTheWay(w, i, toks, end) && i < |toks|
    ensures OnTheWay(w', i + 1, toks, end)
  {
    w' := PlacedFurther(w, i);
    AkinTransitive(toks, w.toks, w'.toks);
  }

  lemma {:induction false} ConvertPlaces(w: Work, i: nat, toks: seq<Token>, end: Work) returns (last: Work)
    requires OnTheWay(w, i, toks, end)
    ensures OnTheWay(last, |toks|, toks, end)
    decreases |toks| - i
  {
    if i == |toks| {
      last := w;
    } else {
      var w' := OnTheWayFurther(w, i, toks, end);
      last := ConvertPlaces(w', i + 1, toks, end);
    }
  }

  lemma PlacedFurther(w: Work, i: nat) returns (w': Work)
    requires WellFormed(w) && i < |w.toks| && Placed(w, i) && Forest(w.objs, i) && !ConvertFrom(w, i).invalid
    ensures WellFormed(w') && Akin(w.toks, w'.toks) && ConvertFrom(w', i + 1) == ConvertFrom(w, i)
    ensures Placed(w', i + 1) && Forest(w'.objs, i + 1)
  {
    w' := NotFailed(w, i);
    ConvertOnePlaces(w, i, w');
    ConvertOneKeepsForest(w, i);
  }

  /** A turn of a loop that does not fail. */
  lemma NotFailed(w: Work, i: nat) returns (w': Work)
    requires WellFormed(w) && i < |w.toks| && !ConvertFrom(w, i).invalid
    ensures SpanOk(w.toks[i]) && w' == ConvertOne(w, i) && !w'.invalid
    ensures WellFormed(w') && Akin(w.toks, w'.toks) && ConvertFrom(w', i + 1) == ConvertFrom(w, i)
  {
    w' := ConvertOne(w, i);
    if w'.invalid {
      InvalidStays(w', i + 1);
    }
  }

  // ---------------------------------------------------------------- what the root reaches

  lemma {:induction false} OwnedAreReached(objs: Table, j: nat)
    requires LinksLive(objs, |objs|) && j < |objs|
    requires forall k :: 0 < k < |objs| && objs[k].Some? ==> Owned(objs, k)
    requires objs[j].Some?
    ensures Reaches(objs, 0, j)
    decreases j
  {
    if j > 0 {
      var k :| 0 <= k < |objs| && Owns(objs, k, j);
      OwnedAreReached(objs, k);
    }
  }

  /** The first object reaches all others if and only if all others are owned. */
  lemma ReachedExactly(objs: Table)
    requires LinksLive(objs, |objs|)
    ensures (forall j :: 0 <= j < |objs| && objs[j].Some? ==> Reaches(objs, 0, j))
       <==> (forall j :: 0 < j < |objs| && objs[j].Some? ==> Owned(objs, j))
  {
    if forall j :: 0 < j < |objs| && objs[j].Some? ==> Owned(objs, j) {
      forall j | 0 <= j < |objs| && objs[j].Some?
        ensures Reaches(objs, 0, j)
      {
        OwnedAreReached(objs, j);
      }
    }
    if forall j :: 0 <= j < |objs| && objs[j].Some? ==> Reaches(objs, 0, j) {
      forall j | 0 < j < |objs| && objs[j].Some?
        ensures Owned(objs, j)
      {
        assert Reaches(objs, 0, j);
      }
    }
  }

  // ---------------------------------------------------------------- what deleting it frees

  /** The objects that deleting object `j` deletes, each as often as it is deleted. */
  function Freed(objs: Table, j: nat): multiset<nat>
    requires LinksLive(objs, |objs|) && j < |objs|
    decreases |objs| - j, 0
  {
    multiset{j} + FreedLinks(objs, j, 0)
  }

  /** What the destructor of object `j` deletes from its link `a` on. */
  function FreedLinks(objs: Table, j: nat, a: nat): multiset<nat>
    requires LinksLive(objs, |objs|) && j < |objs| && a <= |Links(objs, j)|
    decreases |objs| - j - 1, |Links(objs, j)| - a + 1
  {
    if a == |Links(objs, j)| then multiset{}
    else Freed(objs, Links(objs, j)[a]) + FreedLinks(objs, j, a + 1)
  }

  lemma {:induction false} ReachesForward(objs: Table, r: nat, j: nat)
    requires Reaches(objs, r, j)
    ensures r <= j
    decreases j
  {
    if j != r {
      var k :| 0 <= k < j && k < |objs| && Owns(objs, k, j) && Reaches(objs, r, k);
      ReachesForward(objs, r, k);
    }
  }

  lemma OneOwner(objs: Table, k: nat, l: nat, x: nat)
    requires OwnedOnce(objs) && k < |objs| && l < |objs| && Owns(objs, k, x) && Owns(objs, l, x)
    ensures k == l
  {
    var a :| 0 <= a < |Links(objs, k)| && Links(objs, k)[a] == x;
    var b :| 0 <= b < |Links(objs, l)| && Links(objs, l)[b] == x;
  }

  /** A child of an object does not lie below another. */
  lemma ChildBelowChild(objs: Table, j: nat, a: nat, b: nat)
    requires LinksLive(objs, |objs|) && OwnedOnce(objs) && j < |objs|
    requires a < |Links(objs, j)| && b < |Links(objs, j)| && a != b
    ensures !Reaches(objs, Links(objs, j)[b], Links(objs, j)[a])
  {
    var c, d := Links(objs, j)[a], Links(objs, j)[b];
    assert c != d && Owns(objs, j, c);
    if Reaches(objs, d, c) {
      var k :| 0 <= k < c && k < |objs| && Owns(objs, k, c) && Reaches(objs, d, k);
      OneOwner(objs, j, k, c);
      ReachesForward(objs, d, j);
    }
  }

  /** Two children of one object have no object below both. */
  lemma {:induction false} ChildrenApart(objs: Table, j: nat, a: nat, b: nat, x: nat)
    requires LinksLive(objs, |objs|) && OwnedOnce(objs) && j < |objs|
    requires a < b < |Links(objs, j)|
    ensures !(Reaches(objs, Links(objs, j)[a], x) && Reaches(objs, Links(objs, j)[b], x))
    decreases x
  {
    var c, d := Links(objs, j)[a], Links(objs, j)[b];
    ChildBelowChild(objs, j, a, b);
    ChildBelowChild(objs, j, b, a);
    if x != c && x != d && Reaches(objs, c, x) && Reaches(objs, d, x) {
      var k :| 0 <= k < x && k < |objs| && Owns(objs, k, x) && Reaches(objs, c, k);
      var l :| 0 <= l < x && l < |objs| && Owns(objs, l, x) && Reaches(objs, d, l);
      OneOwner(objs, k, l, x);
      ChildrenApart(objs, j, a, b, k);
    }
  }

  /** Below an object is what is below one of its children. */
  lemma {:induction false} ReachesThrough(objs: Table, j: nat, x: nat)
    requires LinksLive(objs, |objs|) && j < |objs| && x != j
    ensures Reaches(objs, j, x) <==>
      exists a :: 0 <= a < |Links(objs, j)| && Reaches(objs, Links(objs, j)[a], x)
    decreases x
  {
    if Reaches(objs, j, x) {
      var k :| 0 <= k < x && k < |objs| && Owns(objs, k, x) && Reaches(objs, j, k);
      if k == j {
        var a :| 0 <= a < |Links(objs, j)| && Links(objs, j)[a] == x;
        assert Reaches(objs, Links(objs, j)[a], x);
      } else {
        ReachesThrough(objs, j, k);
        var a :| 0 <= a < |Links(objs, j)| && Reaches(objs, Links(objs, j)[a], k);
        assert Reaches(objs, Links(objs, j)[a], x);
      }
    }
    if a :| 0 <= a < |Links(objs, j)| && Reaches(objs, Links(objs, j)[a], x) {
      var c := Links(objs, j)[a];
      if x == c {
        assert Owns(objs, j, x) && Reaches(objs, j, j);
      } else {
        var k :| 0 <= k < x && k < |objs| && Owns(objs, k, x) && Reaches(objs, c, k);
        ReachesForward(objs, c, k);
        ReachesThrough(objs, j, k);
      }
    }
  }

  /** Deleting an object deletes each object below it once, and no other. */
  lemma {:induction false} FreedOnce(objs: Table, j: nat, x: nat)
    requires LinksLive(objs, |objs|) && OwnedOnce(objs) && j < |objs|
    ensures Freed(objs, j)[x] == if Reaches(objs, j, x) then 1 else 0
    decreases |objs| - j, 0
  {
    FreedLinksOnce(objs, j, 0, x);
    if x == j {
      if a :| 0 <= a < |Links(objs, j)| && Reaches(objs, Links(objs, j)[a], x) {
        ReachesForward(objs, Links(objs, j)[a], x);
      }
    } else {
      ReachesThrough(objs, j, x);
    }
  }

  /** Object `x` lies below one of the links of `j` from `a` on. */
  predicate BelowLinks(objs: Table, j: nat, a: nat, x: nat)
    requires j < |objs|
  {
    exists b :: a <= b < |Links(objs, j)| && Reaches(objs, Links(objs, j)[b], x)
  }

  lemma {:induction false} FreedLinksOnce(objs: Table, j: nat, a: nat, x: nat)
    requires LinksLive(objs, |objs|) && OwnedOnce(objs) && j < |objs| && a <= |Links(objs, j)|
    ensures FreedLinks(objs, j, a)[x] == if BelowLinks(objs, j, a, x) then 1 else 0
    decreases |objs| - j - 1, |Links(objs, j)| - a + 1
  {
    if a < |Links(objs, j)| {
      FreedOnce(objs, Links(objs, j)[a], x);
      FreedLinksOnce(objs, j, a + 1, x);
      if Reaches(objs, Links(objs, j)[a], x) && BelowLinks(objs, j, a + 1, x) {
        var b :| a + 1 <= b < |Links(objs, j)| && Reaches(objs, Links(objs, j)[b], x);
        ChildrenApart(objs, j, a, b, x);
      }
    }
  }

  // ---------------------------------------------------------------- accepted texts

  /** The tokens of an accepted text, converted: all are placed, and those without a parent
      are the ones that nothing owns. */
  lemma AcceptedPlaced(text: string, size: nat, maxTokens: nat) returns (objs: Table, toks: seq<Token>)
    requires size < |text| && ParseText(text, size, maxTokens).objs.Some?
    ensures objs == ParseText(text, size, maxTokens).objs.value
    ensures toks == Run(text[..size], maxTokens, Initial()).s.toks && 0 < |objs| == |toks| && objs[0].Some?
    ensures Forest(objs, |objs|)
    ensures forall j :: 0 <= j < |objs| && objs[j].Some? ==> (Owned(objs, j) <==> toks[j].parent >= 0)
    ensures forall j :: 0 <= j < |toks| && toks[j].parent < 0 ==> toks[j].parent == -1 && objs[j].Some?
  {
    var js := text[..size];
    var o := Run(js, maxTokens, Initial());
    toks := o.s.toks;
    TokensConvertible(js, maxTokens, text);
    RunKeepsInv(js, maxTokens, Initial());
    var w := Start(text, toks);
    ConvertKeepsForest(w, 0);
    var end := ConvertFrom(w, 0);
    var last := ConvertPlaces(w, 0, toks, end);
    assert last == end;
    objs := end.objs;
    forall j | 0 <= j < |toks|
      ensures MakesObject(toks[j])
    {
      assert TokenOk(js, o.s.pos, toks[j]);
    }
  }

  lemma ReachedAreObjects(objs: Table, j: nat)
    requires LinksLive(objs, |objs|) && |objs| > 0 && objs[0].Some? && Reaches(objs, 0, j)
    ensures j < |objs| && objs[j].Some?
  {
  }

  /** Deleting the object that is handed out deletes no object twice, and deletes every object
      if and only if only the first token has no parent. */
  lemma FreedExactly(text: string, size: nat, maxTokens: nat)
    requires size < |text| && ParseText(text, size, maxTokens).objs.Some?
    ensures var objs := ParseText(text, size, maxTokens).objs.value;
      var toks := Run(text[..size], maxTokens, Initial()).s.toks;
      && |objs| > 0 && LinksLive(objs, |objs|)
      && (forall j: nat :: Freed(objs, 0)[j] <= 1)
      && (forall j: nat :: j in Freed(objs, 0) ==> j < |objs| && objs[j].Some?)
      && ((forall j :: 0 <= j < |objs| && objs[j].Some? ==> j in Freed(objs, 0))
          <==> (forall j :: 0 < j < |toks| ==> toks[j].parent != -1))
  {
    var objs, toks := AcceptedPlaced(text, size, maxTokens);
    forall j: nat
      ensures Freed(objs, 0)[j] == if Reaches(objs, 0, j) then 1 else 0
      ensures Reaches(objs, 0, j) ==> j < |objs| && objs[j].Some?
    {
      FreedOnce(objs, 0, j);
      if Reaches(objs, 0, j) {
        ReachedAreObjects(objs, j);
      }
    }
    ReachedExactly(objs);
  }

  /** Two lists one behind the other are accepted, and the second is never deleted. */
  lemma SecondListExample()
    ensures ParseText("[] []\0", 5, 2) == Parse(2, Some(TwoListObjects()))
    ensures LinksLive(TwoListObjects(), 2) && Freed(TwoListObjects(), 0) == multiset{0}
  {
    TwoListsParse("[] []\0");
    SecondNotFreed(TwoListObjects());
  }

  lemma TwoListsParse(text: string)
    requires text == "[] []\0"
    ensures ParseText(text, 5, 2) == Parse(2, Some(TwoListObjects()))
  {
    assert text[..5] == "[] []";
    TwoLists(text[..5]);
    TwoListTable(text);
  }

  lemma SecondNotFreed(objs: Table)
    requires objs == TwoListObjects()
    ensures LinksLive(objs, 2) && Freed(objs, 0) == multiset{0}
  {
    assert Links(objs, 0) == [] && Links(objs, 1) == [];
    assert FreedLinks(objs, 0, 0) == multiset{};
  }

  function TwoListObjects(): (objs: Table)
    ensures |objs| == 2
  {
    [Some(NList([])), Some(NList([]))]
  }

  function TwoListTokens(): seq<Token> {
    [Token(Array, 0, 2, 0, -1), Token(Array, 3, 5, 0, -1)]
  }

  lemma TwoListTable(text: string)
    requires |text| == 6
    ensures WellFormed(Start(text, TwoListTokens()))
    ensures var w := ConvertFrom(Start(text, TwoListTokens()), 0);
      w.objs == TwoListObjects() && !w.invalid
  {
    var w := Start(text, TwoListTokens());
    assert w.objs == [None, None];
    var w1 := RootList(w, 0);
    assert w1.objs == [Some(NList([])), None];
    var w2 := RootList(w1, 1);
    assert w2.objs == TwoListObjects();
  }

  /** A list at the top makes an object and links nothing. */
  lemma RootList(w: Work, i: nat) returns (w': Work)
    requires WellFormed(w) && i < |w.toks| && SpanOk(w.toks[i])
    requires w.toks[i].kind == Array && w.toks[i].parent < 0
    ensures WellFormed(w') && w'.toks == w.toks && |w'.text| == |w.text|
    ensures w'.objs == w.objs[i := Some(NList([]))] && w'.invalid == w.invalid
    ensures ConvertFrom(w, i) == ConvertFrom(w', i + 1)
  {
    w' := ConvertOne(w, i);
  }

  lemma TwoLists(js: string)
    requires js == "[] []"
    ensures Run(js, 2, Initial())
         == Halt(2, State(5, -1, TwoListTokens()))
  {
    var s1 := JsmnEnds.ListOpens(js, 2);
    var first := Token(Array, 0, 2, 0, -1);
    var s2 := State(2, -1, [first]);
    CloseTurn(js, 2, s1);
    assert Close(s1, Array) == Next(s2);
    RunNext(js, 2, s1, s2);
    var s3 := State(3, -1, [first]);
    assert Step(js, 2, s2) == Next(s3);
    RunNext(js, 2, s2, s3);
    SecondList(js, s3);
  }

  lemma SecondList(js: string, s: State)
    requires js == "[] []" && s == State(3, -1, [Token(Array, 0, 2, 0, -1)])
    ensures Run(js, 2, s) == Halt(2, State(5, -1, TwoListTokens()))
  {
    var first := Token(Array, 0, 2, 0, -1);
    var s4 := State(4, 1, [first, Token(Array, 3, -1, 0, -1)]);
    assert Open(2, s, Array) == Next(s4);
    assert Step(js, 2, s) == Next(s4);
    RunNext(js, 2, s, s4);
    var s5 := State(5, -1, [first, Token(Array, 3, 5, 0, -1)]);
    CloseTurn(js, 2, s4);
    assert Walk(s4.toks, 1) == 1 && Close(s4, Array) == Next(s5);
    RunNext(js, 2, s4, s5);
    assert !AnyOpen(s5.toks);
  }
}
