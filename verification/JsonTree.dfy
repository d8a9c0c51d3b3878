/** What the object table of `convert` is on any input: a forest. No object has two owners,
    no link leads to a deleted object, and every link leads to a later token, so the tree a
    root stands for can be read off. What deleting a root frees is in module JsonOwners. */
module JsonTree {
  import opened Common
  import opened Jsmn
  import opened Json
  import opened JsonConvert

  function Links(objs: Table, j: nat): seq<nat>
    requires j < |objs|
  {
    if objs[j].None? then []
    else
      match objs[j].value
      case NObj(_, values) => values
      case NList(members) => members
      case _ => []
  }

  /** Links go forward, below `bound`, to objects that live. */
  predicate LinksLive(objs: Table, bound: nat) {
    forall j, a :: 0 <= j < |objs| && 0 <= a < |Links(objs, j)| ==>
      j < Links(objs, j)[a] < bound && Links(objs, j)[a] < |objs| && objs[Links(objs, j)[a]].Some?
  }

  predicate OwnedOnce(objs: Table) {
    forall j, a, k, b ::
      (0 <= j < |objs| && 0 <= a < |Links(objs, j)| && 0 <= k < |objs| && 0 <= b < |Links(objs, k)|
       && Links(objs, j)[a] == Links(objs, k)[b]) ==> j == k && a == b
  }

  /** An object node has one key for each value. */
  predicate KeysMatch(objs: Table) {
    forall j :: 0 <= j < |objs| && objs[j].Some? && objs[j].value.NObj? ==>
      |objs[j].value.keys| == |objs[j].value.values|
  }

  predicate Forest(objs: Table, bound: nat) {
    LinksLive(objs, bound) && OwnedOnce(objs) && KeysMatch(objs)
  }

  /** What reading a tree off the table takes. */
  predicate Readable(objs: Table) {
    LinksLive(objs, |objs|) && KeysMatch(objs)
  }

  /** A new object without links is put at `i`, which nothing links to yet. */
  lemma AddNodeKeepsForest(objs: Table, i: nat, node: Option<Node>)
    requires Forest(objs, i) && i < |objs| && |Links(objs, i)| == 0
    requires node.Some? && node.value.NObj? ==> node.value.keys == [] && node.value.values == []
    requires node.Some? && node.value.NList? ==> node.value.members == []
    ensures Forest(objs[i := node], i) && |Links(objs[i := node], i)| == 0
  {
    var objs' := objs[i := node];
    assert forall j :: 0 <= j < |objs| ==> Links(objs', j) == Links(objs, j);
  }

  /** Node `o` gets `i` as its last link, all other nodes keep theirs. */
  predicate LinkAdded(objs: Table, objs': Table, o: nat, i: nat) {
    && |objs'| == |objs| && o < |objs|
    && Links(objs', o) == Links(objs, o) + [i]
    && forall j :: 0 <= j < |objs| && j != o ==> Links(objs', j) == Links(objs, j)
  }

  lemma LinkAddedLive(objs: Table, objs': Table, o: nat, i: nat)
    requires LinkAdded(objs, objs', o, i) && LinksLive(objs, i) && o < i < |objs|
    requires forall j :: 0 <= j < |objs| ==> objs'[j].Some? == objs[j].Some?
    requires objs[i].Some?
    ensures LinksLive(objs', i + 1)
  {
  }

  lemma LinkAddedOwned(objs: Table, objs': Table, o: nat, i: nat)
    requires LinkAdded(objs, objs', o, i) && LinksLive(objs, i) && OwnedOnce(objs)
    ensures OwnedOnce(objs')
  {
    forall j, a | 0 <= j < |objs'| && 0 <= a < |Links(objs', j)|
      ensures Links(objs', j)[a] == i <==> j == o && a == |Links(objs, o)|
    {
    }
  }

  /** The last object is linked below `o`. */
  lemma AddLinkKeepsForest(objs: Table, o: nat, i: nat, node: Node)
    requires Forest(objs, i) && o < i < |objs| && objs[i].Some? && objs[o].Some?
    requires Links(objs[o := Some(node)], o) == Links(objs, o) + [i]
    requires node.NObj? ==> |node.keys| == |node.values|
    ensures Forest(objs[o := Some(node)], i + 1)
  {
    var objs' := objs[o := Some(node)];
    assert LinkAdded(objs, objs', o, i);
    LinkAddedLive(objs, objs', o, i);
    LinkAddedOwned(objs, objs', o, i);
  }

  lemma AttachKeepsForest(w: Work, i: nat)
    requires WellFormed(w) && i < |w.toks| && Forest(w.objs, i) && |Links(w.objs, i)| == 0
    ensures Forest(Attach(w, i).objs, i + 1)
  {
    var p := w.toks[i].parent;
    AddNodeKeepsForest(w.objs, i, None);
    if p >= 0 && w.objs[i].Some? {
      var o := if w.toks[p].kind == Key then w.toks[p].parent else p;
      if w.objs[o].Some? {
        var node := w.objs[o].value;
        if w.toks[p].kind == Key && node.NObj? {
          AddLinkKeepsForest(w.objs, o, i,
            NObj(node.keys + [CStr(w.text, w.toks[p].start)], node.values + [i]));
        } else if w.toks[p].kind == Array && node.NList? {
          AddLinkKeepsForest(w.objs, o, i, NList(node.members + [i]));
        }
      }
    }
  }

  /** Whatever the tokens, the loop keeps the table a forest. */
  lemma {:induction false} ConvertKeepsForest(w: Work, i: nat)
    requires WellFormed(w) && i <= |w.toks| && Forest(w.objs, i)
    requires forall j :: i <= j < |w.objs| ==> w.objs[j] == None
    ensures Forest(ConvertFrom(w, i).objs, |w.toks|)
    decreases |w.toks| - i
  {
    if i < |w.toks| && SpanOk(w.toks[i]) {
      ConvertOneKeepsForest(w, i);
      ConvertKeepsForest(ConvertOne(w, i), i + 1);
    }
  }

  lemma ConvertOneKeepsForest(w: Work, i: nat)
    requires WellFormed(w) && i < |w.toks| && SpanOk(w.toks[i]) && Forest(w.objs, i)
    requires forall j :: i <= j < |w.objs| ==> w.objs[j] == None
    ensures var w' := ConvertOne(w, i);
      Forest(w'.objs, i + 1) && forall j :: i < j < |w'.objs| ==> w'.objs[j] == None
  {
    var text := w.text[w.toks[i].end := '\0'];
    var node := MakeNode(text, w.toks, i);
    AddNodeKeepsForest(w.objs, i, node);
    var objs := if node.Some? then w.objs[i := node] else w.objs;
    AttachKeepsForest(Work(text, Retag(w.toks, i), objs, w.invalid), i);
  }

  // ---------------------------------------------------------------- the tree of a root

  function TreeAt(objs: Table, j: nat): Value
    requires Readable(objs) && j < |objs| && objs[j].Some?
    decreases |objs| - j
  {
    match objs[j].value
    case NStr(text) => Str(text)
    case NInt(value) => Int(value)
    case NBool(flag) => Bool(flag)
    case NObj(keys, values) =>
      Obj(seq(|values|, a requires 0 <= a < |Links(objs, j)| && |keys| == |values| == |Links(objs, j)| =>
                          Member(keys[a], TreeAt(objs, Links(objs, j)[a]))))
    case NList(members) =>
      List(seq(|members|, a requires 0 <= a < |Links(objs, j)| => TreeAt(objs, Links(objs, j)[a])))
  }
}
