/** Which texts are made into objects, and which objects: told from the tokens alone, for every
    text whose tokens are found, whether it is good JSON or not. */
module JsonAcceptance {
  import opened Common
  import opened Jsmn
  import opened JsmnInvariants
  import opened JsmnStrict
  import opened JsmnEnds
  import opened Json
  import opened JsonConvert
  import opened JsonConvertSteps
  import opened JsonOwners
  import opened JsonRoundTrip
  import opened JsonEnds

  // ---------------------------------------------------------------- what tokens say

  /** A string below an object. */
  predicate KeyAt(toks: seq<Token>, i: nat)
    requires Linked(toks) && i < |toks|
  {
    toks[i].kind == String && toks[i].parent >= 0 && toks[toks[i].parent].kind == Object
  }

  /** Tokens stand at the top, in a list, in an object, or behind a key; a value behind anything
      else has no place. */
  predicate Misplaced(toks: seq<Token>, i: nat)
    requires Linked(toks) && i < |toks|
  {
    var p := toks[i].parent;
    p >= 0 && toks[p].kind != Array && toks[p].kind != Object && !KeyAt(toks, p)
  }

  /** The container a value belongs to: its list, or the object of its key. */
  function Home(toks: seq<Token>, i: nat): int
    requires Linked(toks) && i < |toks|
  {
    var p := toks[i].parent;
    if p < 0 then -1
    else if KeyAt(toks, p) then toks[p].parent
    else if toks[p].kind == Array then p
    else -1
  }

  /** The first `n` tokens that belong to container `j`, in their order. */
  function Inside(toks: seq<Token>, j: nat, n: nat): seq<nat>
    requires Linked(toks) && n <= |toks|
  {
    if n == 0 then []
    else Inside(toks, j, n - 1) + if Home(toks, n - 1) == j then [n - 1] else []
  }

  /** The keys of values are the texts of their parents. */
  predicate KeysAre(text: string, toks: seq<Token>, keys: seq<string>, values: seq<nat>) {
    && |keys| == |values|
    && forall a :: 0 <= a < |values| ==>
         && values[a] < |toks| && 0 <= toks[values[a]].parent < |toks|
         && keys[a] == Content(text, toks[toks[values[a]].parent])
  }

  /** The object of token `j`, as far as the first `n` tokens go. */
  predicate IsObject(text: string, toks: seq<Token>, j: nat, n: nat, node: Option<Node>)
    requires Linked(toks) && j < |toks| && n <= |toks|
  {
    match toks[j].kind
    case Object =>
      node.Some? && node.value.NObj?
      && node.value.values == Inside(toks, j, n) && KeysAre(text, toks, node.value.keys, node.value.values)
    case Array => node == Some(NList(Inside(toks, j, n)))
    case String => node == if KeyAt(toks, j) then None else Some(NStr(Content(text, toks[j])))
    case Primitive => node == if Clashes(toks, j) then Some(NInt(0)) else PrimitiveOf(Content(text, toks[j]))
    case _ => true
  }

  function PrimitiveOf(s: string): Option<Node> {
    Some(if s != "" && s[0] == 't' then NBool(true) else if s != "" && s[0] == 'f' then NBool(false)
         else NInt(StrToL(s)))
  }

  // ---------------------------------------------------------------- one turn

  /** The tokens of a parse. */
  predicate Sound(js: string, text: string, toks: seq<Token>) {
    && js < text && Linked(toks) && StartsIncrease(toks) && EndsApart(toks)
    && (forall k :: 0 <= k < |toks| ==> TokenOk(js, |js|, toks[k]) && 0 <= toks[k].start <= toks[k].end < |text|)
    && forall k :: 0 <= k < |toks| && toks[k].parent >= 0 && toks[toks[k].parent].kind == Object ==>
         toks[k].kind == String
  }

  predicate TableIs(text: string, toks: seq<Token>, objs: Table, n: nat)
    requires Linked(toks) && n <= |toks|
  {
    && |objs| == |toks|
    && (forall j :: 0 <= j < n ==> IsObject(text, toks, j, n, objs[j]))
    && forall j :: n <= j < |objs| ==> objs[j] == None
  }

  predicate WorkIs(text: string, toks: seq<Token>, w: Work, n: nat)
    requires Linked(toks) && n <= |toks| && forall k :: 0 <= k < |toks| ==> 0 <= toks[k].end < |text|
  {
    WellFormed(w) && w.text == Cut(text, toks, n) && w.toks == Tagged(toks, n) && !w.invalid
    && TableIs(text, toks, w.objs, n)
  }

  /** The object of a token at its turn. */
  function Made(text: string, toks: seq<Token>, i: nat): Option<Node>
    requires Linked(toks) && i < |toks|
  {
    match toks[i].kind
    case Object => Some(NObj([], []))
    case Array => Some(NList([]))
    case String => if KeyAt(toks, i) then None else Some(NStr(Content(text, toks[i])))
    case Primitive => if Clashes(toks, i) then Some(NInt(0)) else PrimitiveOf(Content(text, toks[i]))
    case _ => None
  }

  lemma MadeAtTurn(js: string, text: string, toks: seq<Token>, w: Work, i: nat)
    requires Sound(js, text, toks) && i < |toks| && WorkIs(text, toks, w, i)
    ensures w.toks[i] == toks[i] && SpanOk(w.toks[i]) && w.text[w.toks[i].end := '\0'] == Cut(text, toks, i + 1)
    ensures MakeNode(Cut(text, toks, i + 1), w.toks, i) == Made(text, toks, i)
    ensures Retag(w.toks, i) == Tagged(toks, i + 1)
  {
    KeyStays(toks, i);
    assert TokenOk(js, |js|, toks[i]);
    if toks[i].IsLeaf() {
      LeafReadsOrNot(js, text, toks, i, i + 1);
    }
    MakeIs(text, toks, Cut(text, toks, i + 1), w.toks, i);
  }

  lemma MakeIs(text: string, toks: seq<Token>, cut: string, tagged: seq<Token>, i: nat)
    requires Linked(toks) && Linked(tagged) && i < |toks| == |tagged| && |cut| == |text|
    requires SpanOk(toks[i]) && toks[i].end < |text| && (toks[i].kind == Primitive ==> toks[i].start < toks[i].end)
    requires tagged[i] == toks[i] && IsKey(tagged, i) == IsKey(toks, i)
    requires toks[i].IsLeaf() ==>
      CStr(cut, toks[i].start) == if Clashes(toks, i) then "" else Content(text, toks[i])
    requires toks[i].kind == String ==> !Clashes(toks, i)
    requires toks[i].kind == Primitive ==>
      cut[toks[i].start] == if Clashes(toks, i) then '\0' else text[toks[i].start]
    ensures MakeNode(cut, tagged, i) == Made(text, toks, i)
  {
    assert StrToL("") == 0;
  }

  // ---------------------------------------------------------------- linking

  lemma {:induction false} InsideNone(toks: seq<Token>, j: nat, n: nat)
    requires Linked(toks) && n <= |toks| && n <= j + 1
    ensures Inside(toks, j, n) == []
  {
    if n > 0 {
      InsideNone(toks, j, n - 1);
    }
  }

  /** The table with the new object, which has nothing inside yet. */
  lemma MadeIsObject(text: string, toks: seq<Token>, i: nat)
    requires Linked(toks) && i < |toks|
    ensures IsObject(text, toks, i, i + 1, Made(text, toks, i))
  {
    InsideNone(toks, i, i + 1);
  }

  /** An object that the next token does not belong to stays. */
  lemma StaysObject(text: string, toks: seq<Token>, j: nat, i: nat, node: Option<Node>)
    requires Linked(toks) && j < |toks| && i < |toks| && IsObject(text, toks, j, i, node) && Home(toks, i) != j
    ensures IsObject(text, toks, j, i + 1, node)
  {
    assert Inside(toks, j, i + 1) == Inside(toks, j, i);
  }

  lemma LinkedObject(text: string, toks: seq<Token>, o: nat, i: nat, keys: seq<string>, values: seq<nat>, key: string)
    requires Linked(toks) && o < |toks| && i < |toks| && toks[o].kind == Object && Home(toks, i) == o
    requires IsObject(text, toks, o, i, Some(NObj(keys, values))) && key == Content(text, toks[toks[i].parent])
    ensures IsObject(text, toks, o, i + 1, Some(NObj(keys + [key], values + [i])))
  {
    KeysOneMore(text, toks, keys, values, i, key);
  }

  lemma KeysOneMore(text: string, toks: seq<Token>, keys: seq<string>, values: seq<nat>, i: nat, key: string)
    requires i < |toks| && KeysAre(text, toks, keys, values) && 0 <= toks[i].parent < |toks|
    requires key == Content(text, toks[toks[i].parent])
    ensures KeysAre(text, toks, keys + [key], values + [i])
  {
  }

  lemma LinkedList(text: string, toks: seq<Token>, p: nat, i: nat, members: seq<nat>)
    requires Linked(toks) && p < |toks| && i < |toks| && toks[p].kind == Array && Home(toks, i) == p
    requires IsObject(text, toks, p, i, Some(NList(members)))
    ensures IsObject(text, toks, p, i + 1, Some(NList(members + [i])))
  {
  }

  /** The work between making and linking. */
  predicate Halfway(text: string, toks: seq<Token>, w: Work, i: nat)
    requires Linked(toks) && i < |toks| && forall k :: 0 <= k < |toks| ==> 0 <= toks[k].end < |text|
  {
    && WellFormed(w) && w.text == Cut(text, toks, i + 1) && w.toks == Tagged(toks, i + 1) && !w.invalid
    && |w.objs| == |toks| && w.objs[i] == Made(text, toks, i)
    && (forall j :: 0 <= j < i ==> IsObject(text, toks, j, i, w.objs[j]))
    && forall j :: i < j < |toks| ==> w.objs[j] == None
  }

  lemma AllOthers(text: string, toks: seq<Token>, objs: Table, i: nat, home: int, last: Table)
    requires Linked(toks) && i < |toks| == |objs| == |last| && home == Home(toks, i)
    requires objs[i] == Made(text, toks, i) && (forall j :: i < j < |toks| ==> objs[j] == None)
    requires forall j :: 0 <= j < i ==> IsObject(text, toks, j, i, objs[j])
    requires forall j :: 0 <= j < |objs| && j != home ==> last[j] == objs[j]
    requires home < i && (home >= 0 ==> IsObject(text, toks, home, i + 1, last[home]))
    ensures TableIs(text, toks, last, i + 1)
  {
    forall j | 0 <= j < i + 1
      ensures IsObject(text, toks, j, i + 1, last[j])
    {
      if j == i {
        MadeIsObject(text, toks, i);
      } else if j != home {
        StaysObject(text, toks, j, i, objs[j]);
      }
    }
  }

  /** A key at its turn, and a value in its list or object, are linked. */
  lemma LinkStep(js: string, text: string, toks: seq<Token>, w: Work, i: nat)
    requires Sound(js, text, toks) && i < |toks| && Halfway(text, toks, w, i) && !Misplaced(toks, i)
    ensures var w' := Attach(w, i);
      w'.text == w.text && w'.toks == w.toks && !w'.invalid && TableIs(text, toks, w'.objs, i + 1)
  {
    var p, home := toks[i].parent, Home(toks, i);
    TaggedAt(toks, i + 1, i);
    assert TokenOk(js, |js|, toks[i]);
    if p >= 0 {
      TaggedAt(toks, i + 1, p);
      assert TokenOk(js, |js|, toks[p]);
    }
    if home < 0 {
      NotLinked(text, toks, w, i);
      AllOthers(text, toks, w.objs, i, home, w.objs);
    } else if KeyAt(toks, p) {
      KeyStillReads(js, text, toks, w, i);
      var last := LinkedToObject(text, toks, w, i);
      AllOthers(text, toks, w.objs, i, home, last);
    } else {
      var last := LinkedToList(text, toks, w, i);
      AllOthers(text, toks, w.objs, i, home, last);
    }
  }

  lemma NotLinked(text: string, toks: seq<Token>, w: Work, i: nat)
    requires Linked(toks) && i < |toks| && forall k :: 0 <= k < |toks| ==> 0 <= toks[k].end < |text|
    requires Halfway(text, toks, w, i) && Home(toks, i) < 0 && !Misplaced(toks, i)
    requires w.toks[i].parent == toks[i].parent
    requires toks[i].parent >= 0 ==>
      w.toks[toks[i].parent].kind == toks[toks[i].parent].kind
      && (toks[toks[i].parent].kind == Object ==> KeyAt(toks, i))
    ensures Attach(w, i) == w
  {
  }

  lemma KeyStillReads(js: string, text: string, toks: seq<Token>, w: Work, i: nat)
    requires Sound(js, text, toks) && i < |toks| && Halfway(text, toks, w, i)
    requires toks[i].parent >= 0 && KeyAt(toks, toks[i].parent)
    ensures CStr(w.text, toks[toks[i].parent].start) == Content(text, toks[toks[i].parent])
  {
    var p := toks[i].parent;
    LeafReadsOrNot(js, text, toks, p, i + 1);
    NoClash(toks, p);
  }

  lemma NoClash(toks: seq<Token>, p: nat)
    requires EndsApart(toks) && p < |toks| && toks[p].kind == String
    ensures !Clashes(toks, p)
  {
  }

  lemma LinkedToObject(text: string, toks: seq<Token>, w: Work, i: nat) returns (last: Table)
    requires Linked(toks) && i < |toks| && forall k :: 0 <= k < |toks| ==> 0 <= toks[k].end < |text|
    requires Halfway(text, toks, w, i) && toks[i].parent >= 0 && KeyAt(toks, toks[i].parent)
    requires var p := toks[i].parent;
      w.toks[i].parent == p && w.toks[p] == toks[p].(kind := Key)
      && CStr(w.text, toks[p].start) == Content(text, toks[p])
    requires toks[i].kind == Object || toks[i].kind == Array || toks[i].IsLeaf()
    ensures var o := Home(toks, i);
      && 0 <= o < i && |last| == |w.objs| && Attach(w, i) == w.(objs := last)
      && (forall j :: 0 <= j < |last| && j != o ==> last[j] == w.objs[j])
      && IsObject(text, toks, o, i + 1, last[o])
  {
    var p := toks[i].parent;
    var o := toks[p].parent;
    assert IsObject(text, toks, o, i, w.objs[o]);
    var node := w.objs[o].value;
    var key := Content(text, toks[p]);
    LinkedObject(text, toks, o, i, node.keys, node.values, key);
    last := w.objs[o := Some(NObj(node.keys + [key], node.values + [i]))];
  }

  lemma LinkedToList(text: string, toks: seq<Token>, w: Work, i: nat) returns (last: Table)
    requires Linked(toks) && i < |toks| && forall k :: 0 <= k < |toks| ==> 0 <= toks[k].end < |text|
    requires Halfway(text, toks, w, i) && toks[i].parent >= 0 && toks[toks[i].parent].kind == Array
    requires w.toks[i].parent == toks[i].parent && w.toks[toks[i].parent].kind == Array
    requires toks[i].kind == Object || toks[i].kind == Array || toks[i].IsLeaf()
    ensures var p := toks[i].parent;
      && p < i && Home(toks, i) == p && |last| == |w.objs| && Attach(w, i) == w.(objs := last)
      && (forall j :: 0 <= j < |last| && j != p ==> last[j] == w.objs[j])
      && IsObject(text, toks, p, i + 1, last[p])
  {
    var p := toks[i].parent;
    assert IsObject(text, toks, p, i, w.objs[p]);
    var members := Inside(toks, p, i);
    LinkedList(text, toks, p, i, members);
    last := w.objs[p := Some(NList(members + [i]))];
  }

  /** A value without a place spoils everything. */
  lemma MisplacedStep(js: string, text: string, toks: seq<Token>, w: Work, i: nat)
    requires Sound(js, text, toks) && i < |toks| && Halfway(text, toks, w, i) && Misplaced(toks, i)
    ensures Attach(w, i).invalid
  {
    var p := toks[i].parent;
    TaggedAt(toks, i + 1, i);
    TaggedAt(toks, i + 1, p);
    assert TokenOk(js, |js|, toks[i]);
    assert TokenOk(js, |js|, toks[p]);
  }

  // ---------------------------------------------------------------- the loop

  /** Making the object of a token. */
  lemma MakeStep(js: string, text: string, toks: seq<Token>, w: Work, i: nat) returns (half: Work)
    requires Sound(js, text, toks) && i < |toks| && WorkIs(text, toks, w, i)
    ensures SpanOk(w.toks[i]) && Halfway(text, toks, half, i) && ConvertOne(w, i) == Attach(half, i)
  {
    MadeAtTurn(js, text, toks, w, i);
    var node := Made(text, toks, i);
    var objs := if node.Some? then w.objs[i := node] else w.objs;
    half := Work(Cut(text, toks, i + 1), Tagged(toks, i + 1), objs, w.invalid);
    OneTurn(w, half, i, node);
    HalfwayFormed(w, half, i, toks);
  }

  lemma HalfwayFormed(w: Work, half: Work, i: nat, toks: seq<Token>)
    requires WellFormed(w) && i < |w.toks| && half.toks == Retag(w.toks, i) && |half.text| == |w.text|
    requires |half.objs| == |w.objs| && SpanOk(w.toks[i])
    ensures WellFormed(half)
  {
  }

  /** Up to the first token without a place the table is told by the tokens; from it on the work
      is spoilt. */
  lemma {:induction false} LoopTells(js: string, text: string, toks: seq<Token>, w: Work, n: nat, end: Work)
    requires Sound(js, text, toks) && n <= |toks| && WorkIs(text, toks, w, n) && end == ConvertFrom(w, n)
    ensures end.invalid <==> exists i :: n <= i < |toks| && Misplaced(toks, i)
    ensures !end.invalid ==> TableIs(text, toks, end.objs, |toks|)
    decreases |toks| - n
  {
    if n < |toks| {
      var w' := TurnTells(js, text, toks, w, n, end);
      if !Misplaced(toks, n) {
        LoopTells(js, text, toks, w', n + 1, end);
      }
    }
  }

  lemma TurnTells(js: string, text: string, toks: seq<Token>, w: Work, n: nat, end: Work) returns (w': Work)
    requires Sound(js, text, toks) && n < |toks| && WorkIs(text, toks, w, n) && end == ConvertFrom(w, n)
    ensures Misplaced(toks, n) ==> end.invalid
    ensures !Misplaced(toks, n) ==> WorkIs(text, toks, w', n + 1) && end == ConvertFrom(w', n + 1)
  {
    var half := MakeStep(js, text, toks, w, n);
    w' := TurnIs(w, n, half, end);
    if Misplaced(toks, n) {
      MisplacedStep(js, text, toks, half, n);
      SpoiltEnds(w', n, end);
    } else {
      PlacedTurn(js, text, toks, half, n, w');
    }
  }

  lemma SpoiltEnds(w': Work, n: nat, end: Work)
    requires WellFormed(w') && n < |w'.toks| && w'.invalid && end == ConvertFrom(w', n + 1)
    ensures end.invalid
  {
    InvalidStays(w', n + 1);
  }

  lemma PlacedTurn(js: string, text: string, toks: seq<Token>, half: Work, n: nat, w': Work)
    requires Sound(js, text, toks) && n < |toks| && Halfway(text, toks, half, n) && !Misplaced(toks, n)
    requires w' == Attach(half, n) && WellFormed(w')
    ensures WorkIs(text, toks, w', n + 1)
  {
    LinkStep(js, text, toks, half, n);
  }

  lemma TurnIs(w: Work, n: nat, half: Work, end: Work) returns (w': Work)
    requires WellFormed(w) && n < |w.toks| && SpanOk(w.toks[n]) && WellFormed(half) && n < |half.toks|
    requires ConvertOne(w, n) == Attach(half, n) && end == ConvertFrom(w, n)
    ensures w' == Attach(half, n) && WellFormed(w') && |w'.toks| == |w.toks| && end == ConvertFrom(w', n + 1)
  {
    w' := ConvertOne(w, n);
  }

  lemma ParseIsSound(js: string, cap: nat, text: string)
    requires js < text && Run(js, cap, Initial()).code >= 0
    ensures Sound(js, text, Run(js, cap, Initial()).s.toks)
  {
    TokensInside(js, cap, text);
    ParseIsStrict(js, cap);
    var toks := Run(js, cap, Initial()).s.toks;
    forall k | 0 <= k < |toks| && toks[k].parent >= 0 && toks[toks[k].parent].kind == Object
      ensures toks[k].kind == String
    {
      assert JsmnStrict.Placed(toks, k);
    }
  }

  lemma StartIs(js: string, text: string, toks: seq<Token>)
    requires Sound(js, text, toks)
    ensures WorkIs(text, toks, Start(text, toks), 0)
  {
    forall k | 0 <= k < |toks|
      ensures toks[k].kind != Key
    {
      assert TokenOk(js, |js|, toks[k]);
    }
  }

  /** A text is made into objects exactly if tokens are found, at least one, and each of them has
      a place; and then every object is what the tokens say: a list of the tokens inside of it
      in their order, an object of such with its keys, a string's or primitive's own text. */
  lemma AcceptedExactly(text: string, size: nat, maxTokens: nat)
    requires size < |text|
    ensures var o, p := Run(text[..size], maxTokens, Initial()), ParseText(text, size, maxTokens);
      && (p.objs.Some? <==> o.code > 0 && forall i :: 0 <= i < |o.s.toks| ==> !Misplaced(o.s.toks, i))
      && (p.objs.Some? ==> p.code == o.code && TableIs(text, o.s.toks, p.objs.value, |o.s.toks|))
      && (p.objs.None? ==> p.code == if o.code < 0 && size > 0 && maxTokens > 0 then o.code else ERROR_ILLEGAL)
  {
    var js := text[..size];
    var o := Run(js, maxTokens, Initial());
    RunKeepsInv(js, maxTokens, Initial());
    if o.code >= 0 {
      var toks := o.s.toks;
      ParseIsSound(js, maxTokens, text);
      StartIs(js, text, toks);
      TokensConvertible(js, maxTokens, text);
      var end := ConvertFrom(Start(text, toks), 0);
      LoopTells(js, text, toks, Start(text, toks), 0, end);
      if |toks| > 0 && !end.invalid {
        FirstIsObject(js, text, toks, end.objs);
      }
    }
  }

  lemma FirstIsObject(js: string, text: string, toks: seq<Token>, objs: Table)
    requires Sound(js, text, toks) && |toks| > 0 && TableIs(text, toks, objs, |toks|)
    ensures objs[0].Some?
  {
    assert TokenOk(js, |js|, toks[0]);
    assert IsObject(text, toks, 0, |toks|, objs[0]);
  }
}
