/** The loop of `convert` on the tokens of a parse, in terms of the text as it was before the
    NULs were written: the NULs never change what a token reads, and each turn adds one
    object to a table that `Grow` describes without text, cuts or retagged tokens. */
module JsonConvertSteps {
  import opened Common
  import opened Jsmn
  import opened JsmnInvariants
  import opened Json
  import opened JsonConvert

  // ---------------------------------------------------------------- the text while it is converted

  /** The text after the ends of the first `i` tokens were overwritten with NULs. */
  function Cut(text: string, toks: seq<Token>, i: nat): (r: string)
    requires i <= |toks| && forall k :: 0 <= k < i ==> 0 <= toks[k].end < |text|
    ensures |r| == |text|
  {
    if i == 0 then text else Cut(text, toks, i - 1)[toks[i - 1].end := '\0']
  }

  lemma {:induction false} CutAt(text: string, toks: seq<Token>, i: nat, q: nat)
    requires i <= |toks| && forall k :: 0 <= k < i ==> 0 <= toks[k].end < |text|
    requires q < |text|
    ensures (exists k :: 0 <= k < i && toks[k].end == q) ==> Cut(text, toks, i)[q] == '\0'
    ensures (forall k :: 0 <= k < i ==> toks[k].end != q) ==> Cut(text, toks, i)[q] == text[q]
  {
    if i > 0 {
      CutAt(text, toks, i - 1, q);
    }
  }

  lemma {:induction false} CStrSlice(text: string, p: nat, e: nat)
    requires p <= e < |text| && text[e] == '\0'
    requires forall q :: p <= q < e ==> text[q] != '\0'
    ensures CStr(text, p) == text[p..e]
    decreases e - p
  {
    if p < e {
      CStrSlice(text, p + 1, e);
    }
  }

  /** The NULs leave the bytes of every leaf alone. */
  predicate LeavesApart(toks: seq<Token>) {
    forall i, j :: 0 <= i < |toks| && 0 <= j < |toks| ==> !EndFallsIn(toks, j, i)
  }

  /** What convert can rely on: the tokens of a parse of `js`, which the text starts with. */
  predicate Parsed(js: string, text: string, toks: seq<Token>) {
    && js <= text && |js| < |text|
    && Linked(toks) && LeavesApart(toks)
    && forall i :: 0 <= i < |toks| ==> TokenOk(js, |js|, toks[i]) && toks[i].end != -1
  }

  function Content(text: string, t: Token): string {
    if 0 <= t.start <= t.end <= |text| then text[t.start..t.end] else ""
  }

  /** A token in whose bytes none of the first `n` ends, and that is one of them itself. */
  lemma UncutReads(js: string, text: string, toks: seq<Token>, t: Token, n: nat)
    requires js < text && n <= |toks| && t in toks[..n] && t.IsLeaf() && TokenOk(js, |js|, t)
    requires forall k :: 0 <= k < n ==> 0 <= toks[k].end < |text| && !(t.start <= toks[k].end < t.end)
    ensures CStr(Cut(text, toks, n), t.start) == Content(text, t)
    ensures t.start < t.end ==> Cut(text, toks, n)[t.start] == text[t.start]
  {
    var cut := Cut(text, toks, n);
    forall q | t.start <= q < t.end
      ensures cut[q] == text[q] && text[q] != '\0'
    {
      CutAt(text, toks, n, q);
      assert text[q] == js[q];
    }
    CutAt(text, toks, n, t.end);
    CStrSlice(cut, t.start, t.end);
    assert cut[t.start..t.end] == text[t.start..t.end];
  }

  /** Once a leaf's own end is cut, its C string is its content, for the rest of the run. */
  lemma LeafReads(js: string, text: string, toks: seq<Token>, i: nat, n: nat)
    requires Parsed(js, text, toks) && i < n <= |toks| && toks[i].IsLeaf()
    ensures var cut := Cut(text, toks, n);
      && CStr(cut, toks[i].start) == Content(text, toks[i])
      && (toks[i].kind == Primitive ==> cut[toks[i].start] == text[toks[i].start])
  {
    assert TokenOk(js, |js|, toks[i]);
    forall k | 0 <= k < n
      ensures 0 <= toks[k].end < |text| && !(toks[i].start <= toks[k].end < toks[i].end)
    {
      assert TokenOk(js, |js|, toks[k]);
      assert !EndFallsIn(toks, k, i);
    }
    UncutReads(js, text, toks, toks[i], n);
  }

  // ---------------------------------------------------------------- the token types meanwhile

  /** The tokens after the first `i` were looked at for keys. */
  function Tagged(toks: seq<Token>, i: nat): (r: seq<Token>)
    requires Linked(toks) && i <= |toks|
    ensures |r| == |toks| && Linked(r)
  {
    if i == 0 then toks else Retag(Tagged(toks, i - 1), i - 1)
  }

  lemma {:induction false} TaggedAt(toks: seq<Token>, i: nat, k: nat)
    requires Linked(toks) && i <= |toks| && k < |toks|
    ensures Tagged(toks, i)[k] == if k < i && IsKey(toks, k) then toks[k].(kind := Key) else toks[k]
  {
    if i > 0 {
      TaggedAt(toks, i - 1, k);
      TaggedAt(toks, i - 1, i - 1);
      if toks[i - 1].parent >= 0 {
        TaggedAt(toks, i - 1, toks[i - 1].parent);
      }
    }
  }

  // ---------------------------------------------------------------- one token, in terms of the original text

  function NodeOf(text: string, toks: seq<Token>, i: nat): Option<Node>
    requires Linked(toks) && i < |toks|
  {
    match toks[i].kind
    case String => if IsKey(toks, i) then None else Some(NStr(Content(text, toks[i])))
    case Primitive =>
      var s := Content(text, toks[i]);
      if s != "" && s[0] == 't' then Some(NBool(true))
      else if s != "" && s[0] == 'f' then Some(NBool(false))
      else Some(NInt(StrToL(s)))
    case Array => Some(NList([]))
    case Object => Some(NObj([], []))
    case _ => None
  }

  /** Token `i` can be linked: its parent's object is there and of the right sort. */
  predicate Ready(toks: seq<Token>, objs: Table, i: nat)
    requires Linked(toks) && i <= |objs| && i < |toks|
  {
    var p := toks[i].parent;
    if p < 0 then true
    else if IsKey(toks, p) then
      var o := toks[p].parent;
      !IsKey(toks, i) && objs[o].Some? && objs[o].value.NObj?
    else if toks[p].kind == Array then objs[p].Some? && objs[p].value.NList?
    else IsKey(toks, i)
  }

  /** The table of the first `i` tokens, with the link to token `i`. */
  function LinkTo(text: string, toks: seq<Token>, objs: Table, i: nat): (r: Table)
    requires Linked(toks) && i <= |objs| && i < |toks| && Ready(toks, objs, i)
    ensures |r| == |objs|
  {
    var p := toks[i].parent;
    if p < 0 then objs
    else if IsKey(toks, p) then
      var o := toks[p].parent;
      var obj := objs[o].value;
      objs[o := Some(NObj(obj.keys + [Content(text, toks[p])], obj.values + [i]))]
    else if toks[p].kind == Array then objs[p := Some(NList(objs[p].value.members + [i]))]
    else objs
  }

  /** The table after one token more. */
  function Grow(text: string, toks: seq<Token>, objs: Table): Table
    requires Linked(toks) && |objs| < |toks| && Ready(toks, objs, |objs|)
  {
    LinkTo(text, toks, objs, |objs|) + [NodeOf(text, toks, |objs|)]
  }

  /** The state of `convert` in which the first tokens have made `objs` and nothing failed. */
  function WorkAt(text: string, toks: seq<Token>, objs: Table): Work
    requires Linked(toks) && |objs| <= |toks|
    requires forall k :: 0 <= k < |toks| ==> 0 <= toks[k].end < |text|
  {
    Work(Cut(text, toks, |objs|), Tagged(toks, |objs|), objs + NoObjects(|toks| - |objs|), false)
  }

  lemma WorkAtWellFormed(js: string, text: string, toks: seq<Token>, objs: Table)
    requires Parsed(js, text, toks) && |objs| <= |toks|
    ensures forall k :: 0 <= k < |toks| ==> 0 <= toks[k].end < |text|
    ensures WellFormed(WorkAt(text, toks, objs))
  {
    forall k | 0 <= k < |toks|
      ensures 0 <= toks[k].start <= toks[k].end < |text|
    {
      assert TokenOk(js, |js|, toks[k]);
    }
    var w := WorkAt(text, toks, objs);
    forall k | 0 <= k < |toks|
      ensures w.toks[k].start < |w.text| && w.toks[k].end < |w.text|
      ensures w.toks[k].kind == Key ==> w.toks[k].parent >= 0 && w.toks[k].start >= 0
    {
      TaggedAt(toks, |objs|, k);
      assert TokenOk(js, |js|, toks[k]);
    }
  }

  lemma MakeNodeIs(js: string, text: string, toks: seq<Token>, i: nat)
    requires Parsed(js, text, toks) && i < |toks|
    requires forall k :: 0 <= k < |toks| ==> 0 <= toks[k].end < |text|
    ensures SpanOk(Tagged(toks, i)[i]) && Tagged(toks, i)[i].end < |text|
    ensures MakeNode(Cut(text, toks, i + 1), Tagged(toks, i), i) == NodeOf(text, toks, i)
  {
    assert TokenOk(js, |js|, toks[i]);
    KeyStays(toks, i);
    if toks[i].IsLeaf() {
      LeafReads(js, text, toks, i, i + 1);
    }
    NodeReads(Cut(text, toks, i + 1), text, Tagged(toks, i), toks, i);
  }

  /** A token is still what it was at its turn. */
  lemma KeyStays(toks: seq<Token>, i: nat)
    requires Linked(toks) && i < |toks|
    ensures Tagged(toks, i)[i] == toks[i] && IsKey(Tagged(toks, i), i) == IsKey(toks, i)
  {
    TaggedAt(toks, i, i);
    if toks[i].parent >= 0 {
      TaggedAt(toks, i, toks[i].parent);
    }
  }

  lemma NodeReads(cut: string, text: string, tagged: seq<Token>, toks: seq<Token>, i: nat)
    requires Linked(toks) && Linked(tagged) && i < |toks| == |tagged| && |cut| == |text|
    requires SpanOk(toks[i]) && toks[i].end < |text| && (toks[i].kind == Primitive ==> toks[i].start < toks[i].end)
    requires tagged[i] == toks[i] && IsKey(tagged, i) == IsKey(toks, i)
    requires toks[i].IsLeaf() ==> CStr(cut, toks[i].start) == Content(text, toks[i])
    requires toks[i].kind == Primitive ==> cut[toks[i].start] == text[toks[i].start]
    ensures MakeNode(cut, tagged, i) == NodeOf(text, toks, i)
  {
  }

  lemma SetInFront(objs: Table, c: nat, node: Option<Node>, more: Table)
    requires c < |objs|
    ensures (objs + more)[c := node] == objs[c := node] + more
  {
  }

  /** What `tagged` says of a token: its own type, or that it is a key. */
  predicate TagOf(toks: seq<Token>, tagged: seq<Token>, p: int)
    requires Linked(toks) && |tagged| == |toks|
  {
    0 <= p < |toks| ==>
      tagged[p].parent == toks[p].parent && tagged[p].start == toks[p].start && toks[p].kind != Key
      && tagged[p].kind == if IsKey(toks, p) then Key else toks[p].kind
  }

  /** Linking an object works on the table of the tokens so far, whatever comes behind it. */
  lemma AttachLinks(w: Work, text: string, toks: seq<Token>, objs: Table, node: Option<Node>, more: Table)
    requires WellFormed(w) && !w.invalid && |w.toks| == |toks| && Linked(toks)
    requires |objs| < |toks| && w.objs == objs + ([node] + more)
    requires Ready(toks, objs, |objs|) && (node.Some? <==> !IsKey(toks, |objs|))
    requires TagOf(toks, w.toks, |objs|) && TagOf(toks, w.toks, toks[|objs|].parent)
    requires toks[|objs|].parent >= 0 && IsKey(toks, toks[|objs|].parent) ==>
      CStr(w.text, toks[toks[|objs|].parent].start) == Content(text, toks[toks[|objs|].parent])
    ensures Attach(w, |objs|) == w.(objs := LinkTo(text, toks, objs, |objs|) + ([node] + more))
  {
    var i := |objs|;
    var p := toks[i].parent;
    assert w.objs[i] == node;
    if p >= 0 {
      var linked := LinkTo(text, toks, objs, i);
      if IsKey(toks, p) {
        SetInFront(objs, toks[p].parent, linked[toks[p].parent], [node] + more);
      } else if toks[p].kind == Array {
        SetInFront(objs, p, linked[p], [node] + more);
      }
    }
  }

  lemma AttachIs(js: string, text: string, toks: seq<Token>, objs: Table) returns (w: Work, w': Work)
    requires Parsed(js, text, toks) && |objs| < |toks| && Ready(toks, objs, |objs|)
    requires forall k :: 0 <= k < |toks| ==> 0 <= toks[k].end < |text|
    requires NodeOf(text, toks, |objs|).Some? || IsKey(toks, |objs|)
    ensures var i := |objs|;
      w == Work(Cut(text, toks, i + 1), Tagged(toks, i + 1),
                objs + [NodeOf(text, toks, i)] + NoObjects(|toks| - i - 1), false)
    ensures WellFormed(w) && w' == Attach(w, |objs|)
    ensures w' == w.(objs := Grow(text, toks, objs) + NoObjects(|toks| - |objs| - 1))
  {
    var i := |objs|;
    var node, more := NodeOf(text, toks, i), NoObjects(|toks| - i - 1);
    WorkAtWellFormed(js, text, toks, objs + [node]);
    w := Work(Cut(text, toks, i + 1), Tagged(toks, i + 1), objs + [node] + more, false);
    TagsAre(js, text, toks, i, w.toks);
    KeyReads(js, text, toks, i, w.text);
    Regroup(objs, [node], more);
    AttachLinks(w, text, toks, objs, node, more);
    Regroup(LinkTo(text, toks, objs, i), [node], more);
    w' := Attach(w, i);
  }

  lemma TagsAre(js: string, text: string, toks: seq<Token>, i: nat, tagged: seq<Token>)
    requires Parsed(js, text, toks) && i < |toks| && tagged == Tagged(toks, i + 1)
    ensures TagOf(toks, tagged, i) && TagOf(toks, tagged, toks[i].parent)
    ensures NodeOf(text, toks, i).Some? <==> !IsKey(toks, i)
  {
    TaggedAt(toks, i + 1, i);
    assert TokenOk(js, |js|, toks[i]);
    var p := toks[i].parent;
    if p >= 0 {
      assert TokenOk(js, |js|, toks[p]);
      TaggedAt(toks, i + 1, p);
    }
  }

  lemma KeyReads(js: string, text: string, toks: seq<Token>, i: nat, cut: string)
    requires Parsed(js, text, toks) && i < |toks|
    requires forall k :: 0 <= k < |toks| ==> 0 <= toks[k].end < |text|
    requires cut == Cut(text, toks, i + 1)
    ensures toks[i].parent >= 0 && IsKey(toks, toks[i].parent) ==>
      CStr(cut, toks[toks[i].parent].start) == Content(text, toks[toks[i].parent])
  {
    var p := toks[i].parent;
    if p >= 0 && IsKey(toks, p) {
      LeafReads(js, text, toks, p, i + 1);
    }
  }

  lemma NodeOrKey(js: string, text: string, toks: seq<Token>, i: nat)
    requires Parsed(js, text, toks) && i < |toks|
    ensures NodeOf(text, toks, i).Some? || IsKey(toks, i)
  {
    assert TokenOk(js, |js|, toks[i]);
  }

  /** One turn of the loop makes the table grow by one token. */
  lemma ConvertOneIs(js: string, text: string, toks: seq<Token>, objs: Table)
    requires Parsed(js, text, toks) && |objs| < |toks| && Ready(toks, objs, |objs|)
    requires forall k :: 0 <= k < |toks| ==> 0 <= toks[k].end < |text|
    ensures var w := WorkAt(text, toks, objs);
      && WellFormed(w) && SpanOk(w.toks[|objs|])
      && ConvertOne(w, |objs|) == WorkAt(text, toks, Grow(text, toks, objs))
  {
    var i := |objs|;
    WorkAtWellFormed(js, text, toks, objs);
    MakeNodeIs(js, text, toks, i);
    NodeOrKey(js, text, toks, i);
    var next, done := AttachIs(js, text, toks, objs);
    TaggedAt(toks, i, i);
    PutNode(objs, NodeOf(text, toks, i), |toks| - i);
    OneTurn(WorkAt(text, toks, objs), next, i, NodeOf(text, toks, i));
    SameWork(done, WorkAt(text, toks, Grow(text, toks, objs)));
  }

  lemma OneTurn(w: Work, next: Work, i: nat, node: Option<Node>)
    requires WellFormed(w) && i < |w.toks| && SpanOk(w.toks[i])
    requires next.text == w.text[w.toks[i].end := '\0'] && next.toks == Retag(w.toks, i) && next.invalid == w.invalid
    requires node == MakeNode(next.text, w.toks, i) && next.objs == if node.Some? then w.objs[i := node] else w.objs
    ensures ConvertOne(w, i) == Attach(next, i)
  {
  }

  lemma SameWork(a: Work, b: Work)
    ensures a.text == b.text && a.toks == b.toks && a.objs == b.objs && a.invalid == b.invalid ==> a == b
  {
  }

  /** The new object's place, the first one free. */
  lemma PutNode(objs: Table, node: Option<Node>, free: nat)
    requires free > 0
    ensures var all := objs + NoObjects(free);
      (if node.Some? then all[|objs| := node] else all) == objs + [node] + NoObjects(free - 1)
  {
    assert NoObjects(free) == [None] + NoObjects(free - 1);
  }

  // ---------------------------------------------------------------- tables the loop comes to

  ghost predicate GrowClosed(text: string, toks: seq<Token>, r: Table -> bool) {
    && r([])
    && forall objs :: r(objs) && Linked(toks) && |objs| < |toks| && Ready(toks, objs, |objs|)
         ==> r(Grow(text, toks, objs))
  }

  /** The first tokens of `toks` make `objs`. */
  ghost predicate Grown(text: string, toks: seq<Token>, objs: Table) {
    forall r: Table -> bool :: GrowClosed(text, toks, r) ==> r(objs)
  }

  lemma GrownNext(text: string, toks: seq<Token>, objs: Table)
    requires Grown(text, toks, objs) && Linked(toks) && |objs| < |toks| && Ready(toks, objs, |objs|)
    ensures Grown(text, toks, Grow(text, toks, objs))
  {
    forall r: Table -> bool | GrowClosed(text, toks, r)
      ensures r(Grow(text, toks, objs))
    {
      assert r(objs);
    }
  }

  /** The loop of convert, started on the tokens, comes to the state of table `objs`. */
  predicate OnTrack(text: string, toks: seq<Token>, objs: Table) {
    && Linked(toks) && |objs| <= |toks|
    && (forall k :: 0 <= k < |toks| ==> 0 <= toks[k].end < |text|)
    && WellFormed(WorkAt(text, toks, []))
    && WellFormed(WorkAt(text, toks, objs))
    && ConvertFrom(WorkAt(text, toks, []), 0) == ConvertFrom(WorkAt(text, toks, objs), |objs|)
  }

  lemma OnTrackNext(js: string, text: string, toks: seq<Token>, objs: Table)
    requires Parsed(js, text, toks) && OnTrack(text, toks, objs)
    requires |objs| < |toks| && Ready(toks, objs, |objs|)
    ensures OnTrack(text, toks, Grow(text, toks, objs))
  {
    ConvertOneIs(js, text, toks, objs);
    WorkAtWellFormed(js, text, toks, Grow(text, toks, objs));
  }

  /** A table the steps come to is where the loop of convert comes to. */
  lemma GrownIsOnTrack(js: string, text: string, toks: seq<Token>, objs: Table)
    requires Parsed(js, text, toks) && Grown(text, toks, objs)
    ensures OnTrack(text, toks, objs)
  {
    WorkAtWellFormed(js, text, toks, []);
    var r := (t: Table) => OnTrack(text, toks, t);
    forall t | r(t) && |t| < |toks| && Ready(toks, t, |t|)
      ensures r(Grow(text, toks, t))
    {
      OnTrackNext(js, text, toks, t);
    }
    assert GrowClosed(text, toks, r);
    assert r(objs);
  }

  lemma GrownIsConverted(js: string, text: string, toks: seq<Token>, objs: Table)
    requires Parsed(js, text, toks) && Grown(text, toks, objs) && |objs| == |toks|
    ensures WellFormed(Start(text, toks))
    ensures ConvertFrom(Start(text, toks), 0) == Work(Cut(text, toks, |toks|), Tagged(toks, |toks|), objs, false)
  {
    GrownIsOnTrack(js, text, toks, objs);
    assert WorkAt(text, toks, []) == Start(text, toks);
    assert objs + NoObjects(0) == objs;
  }
}
