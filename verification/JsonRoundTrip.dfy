/** convert_text_to_json_objects, and the proof that it rebuilds what the printer printed. */
module JsonRoundTrip {
  import opened Common
  import opened Jsmn
  import opened JsmnInvariants
  import opened JsmnParser
  import opened Json
  import opened JsonTokens
  import opened JsonConvert
  import opened JsonConvertSteps
  import opened JsonTree

  // ---------------------------------------------------------------- the objects of a tree

  /** The objects of `v`, the first of them number `k`. */
  function Nodes(v: Value, k: nat): (t: Table)
    ensures |t| == Size(v)
    decreases v, 0
  {
    match v
    case Str(text) => [Some(NStr(text))]
    case Int(value) => [Some(NInt(value))]
    case Bool(flag) => [Some(NBool(flag))]
    case Obj(members) => [Some(NObj(Keys(members, 0), MemberLinks(members, 0, k + 1)))] + MemberNodes(members, 0, k + 1)
    case List(items) => [Some(NList(ItemLinks(items, 0, k + 1)))] + ItemNodes(items, 0, k + 1)
  }

  function Keys(ms: seq<Member>, i: nat): seq<string>
    decreases |ms| - i
  {
    if i >= |ms| then [] else [ms[i].key] + Keys(ms, i + 1)
  }

  function MemberLinks(ms: seq<Member>, i: nat, k: nat): seq<nat>
    decreases |ms| - i
  {
    if i >= |ms| then [] else [k + 1] + MemberLinks(ms, i + 1, k + 1 + Size(ms[i].value))
  }

  function ItemLinks(vs: seq<Value>, i: nat, k: nat): seq<nat>
    decreases |vs| - i
  {
    if i >= |vs| then [] else [k] + ItemLinks(vs, i + 1, k + Size(vs[i]))
  }

  function MemberNodes(ms: seq<Member>, i: nat, k: nat): (t: Table)
    ensures |t| == MembersSize(ms, i)
    decreases ms, |ms| - i
  {
    if i >= |ms| then []
    else ([None] + Nodes(ms[i].value, k + 1)) + MemberNodes(ms, i + 1, k + 1 + Size(ms[i].value))
  }

  function ItemNodes(vs: seq<Value>, i: nat, k: nat): (t: Table)
    ensures |t| == ItemsSize(vs, i)
    decreases vs, |vs| - i
  {
    if i >= |vs| then [] else Nodes(vs[i], k) + ItemNodes(vs, i + 1, k + Size(vs[i]))
  }

  /** The tokens `part` of the list, numbered from `k`. */
  predicate SliceAt<T(==)>(all: seq<T>, k: nat, part: seq<T>) {
    k + |part| <= |all| && all[k..k + |part|] == part
  }

  lemma SliceSplit<T>(all: seq<T>, k: nat, a: seq<T>, b: seq<T>)
    requires SliceAt(all, k, a + b)
    ensures SliceAt(all, k, a) && SliceAt(all, k + |a|, b)
  {
    var w := all[k..k + |a + b|];
    assert w[..|a|] == a && w[|a|..] == b;
    assert all[k..k + |a|] == w[..|a|];
    assert all[k + |a|..k + |a| + |b|] == w[|a|..];
  }

  lemma SliceHead<T>(all: seq<T>, k: nat, part: seq<T>)
    requires SliceAt(all, k, part) && part != []
    ensures k < |all| && all[k] == part[0]
  {
    assert all[k..k + |part|][0] == all[k];
  }

  // ---------------------------------------------------------------- convert on the tokens of a tree

  /** `v` was printed at `pos`, its tokens numbered from `k`, and `objs` are the objects
      before it; the object it goes below is there. */
  predicate CanBuild(text: string, toks: seq<Token>, objs: Table, v: Value, pos: nat, parent: int) {
    && Linked(toks) && Printable(v) && TextAt(text, pos, Render(v))
    && SliceAt(toks, |objs|, Tokens(v, pos, |objs|, parent))
    && |objs| < |toks|
    && Ready(toks, objs, |objs|) && !IsKey(toks, |objs|)
  }

  lemma HeadToken(toks: seq<Token>, k: nat, v: Value, pos: nat, parent: int)
    requires SliceAt(toks, k, Tokens(v, pos, k, parent))
    ensures k < |toks| && toks[k] == Tokens(v, pos, k, parent)[0]
  {
    SliceHead(toks, k, Tokens(v, pos, k, parent));
  }

  lemma BuildLeaf(text: string, toks: seq<Token>, objs: Table, v: Value, pos: nat, parent: int, all: Table)
    requires Grown(text, toks, objs) && CanBuild(text, toks, objs, v, pos, parent)
    requires !v.Obj? && !v.List? && all == LinkTo(text, toks, objs, |objs|) + Nodes(v, |objs|)
    ensures Grown(text, toks, all)
  {
    HeadToken(toks, |objs|, v, pos, parent);
    LeafNode(text, toks, |objs|, v, pos, parent);
    GrownNext(text, toks, objs);
  }

  lemma LeafNode(text: string, toks: seq<Token>, k: nat, v: Value, pos: nat, parent: int)
    requires Linked(toks) && Printable(v) && TextAt(text, pos, Render(v)) && !v.Obj? && !v.List?
    requires k < |toks| && toks[k] == Tokens(v, pos, k, parent)[0] && !IsKey(toks, k)
    ensures [NodeOf(text, toks, k)] == Nodes(v, k)
  {
    match v
    case Str(s) => StringNode(text, toks, k, s, pos, parent);
    case Int(n) => IntNode(text, toks, k, n, pos, parent);
    case Bool(_) =>
  }

  lemma StringNode(text: string, toks: seq<Token>, k: nat, s: string, pos: nat, parent: int)
    requires Linked(toks) && TextAt(text, pos, Render(Str(s)))
    requires k < |toks| && toks[k] == Tokens(Str(s), pos, k, parent)[0] && !IsKey(toks, k)
    ensures NodeOf(text, toks, k) == Some(NStr(s))
  {
    assert Render(Str(s)) == "\"" + (s + "\"");
    TextSplit(text, pos, "\"", s + "\"");
    TextSplit(text, pos + 1, s, "\"");
  }

  lemma IntNode(text: string, toks: seq<Token>, k: nat, n: int, pos: nat, parent: int)
    requires Linked(toks) && Printable(Int(n)) && TextAt(text, pos, Render(Int(n)))
    requires k < |toks| && toks[k] == Tokens(Int(n), pos, k, parent)[0]
    ensures NodeOf(text, toks, k) == Some(NInt(n))
  {
    var s := IntText(n);
    IntRoundTrip(n);
    assert Render(Int(n)) == s;
    ContentIs(text, toks[k], pos, s);
    NoLetter(n);
    NumberReads(text, toks, k, s, n);
  }

  lemma NumberReads(text: string, toks: seq<Token>, k: nat, s: string, n: int)
    requires Linked(toks) && k < |toks| && toks[k].kind == Primitive && Content(text, toks[k]) == s
    requires s != "" && s[0] != 't' && s[0] != 'f' && StrToL(s) == n
    ensures NodeOf(text, toks, k) == Some(NInt(n))
  {
  }

  lemma ContentIs(text: string, t: Token, pos: nat, s: string)
    requires TextAt(text, pos, s) && t.start == pos && t.end == pos + |s|
    ensures Content(text, t) == s
  {
  }

  lemma NoLetter(n: int)
    ensures IntText(n) != "" && IntText(n)[0] != 't' && IntText(n)[0] != 'f'
  {
    DigitsShape(if n < 0 then -n else n);
  }

  /** `all` is the table with the objects of `v`, linked to what they go below. */
  lemma {:induction false} BuildValue(text: string, toks: seq<Token>, objs: Table, v: Value, pos: nat, parent: int,
                                      all: Table)
    requires Grown(text, toks, objs) && CanBuild(text, toks, objs, v, pos, parent)
    requires all == LinkTo(text, toks, objs, |objs|) + Nodes(v, |objs|)
    ensures Grown(text, toks, all)
    decreases v, 1
  {
    match v
    case Obj(ms) => BuildObject(text, toks, objs, ms, pos, parent, all);
    case List(vs) => BuildList(text, toks, objs, vs, pos, parent, all);
    case _ => BuildLeaf(text, toks, objs, v, pos, parent, all);
  }

  lemma {:induction false} BuildObject(text: string, toks: seq<Token>, objs: Table, ms: seq<Member>, pos: nat,
                                       parent: int, all: Table)
    requires Grown(text, toks, objs) && CanBuild(text, toks, objs, Obj(ms), pos, parent)
    requires all == LinkTo(text, toks, objs, |objs|) + Nodes(Obj(ms), |objs|)
    ensures Grown(text, toks, all)
    decreases Obj(ms), 0
  {
    var k := |objs|;
    var objs1 := ObjectOpens(text, toks, objs, ms, pos, parent);
    ObjectJoin(LinkTo(text, toks, objs, k), ms);
    BuildMembers(text, toks, objs1, ms, 0, pos + 3, k, [], [], all);
  }

  /** The object of a brace, still empty; its members come next. */
  lemma ObjectOpens(text: string, toks: seq<Token>, objs: Table, ms: seq<Member>, pos: nat, parent: int)
    returns (objs1: Table)
    requires Grown(text, toks, objs) && CanBuild(text, toks, objs, Obj(ms), pos, parent)
    ensures toks[|objs|].kind == Object && Grown(text, toks, objs1)
    ensures objs1 == LinkTo(text, toks, objs, |objs|) + [Some(NObj([], []))]
    ensures forall j :: 0 <= j < |ms| ==> Plain(ms[j].key) && Printable(ms[j].value)
    ensures TextAt(text, pos + 3, RenderMembers(ms, 0))
    ensures SliceAt(toks, |objs| + 1, MemberTokens(ms, 0, pos + 3, |objs| + 1, |objs|))
  {
    var k := |objs|;
    var v := Obj(ms);
    HeadToken(toks, k, v, pos, parent);
    GrownNext(text, toks, objs);
    objs1 := Grow(text, toks, objs);
    var head := Tokens(v, pos, k, parent)[..1];
    assert Tokens(v, pos, k, parent) == head + MemberTokens(ms, 0, pos + 3, k + 1, k);
    SliceSplit(toks, k, head, MemberTokens(ms, 0, pos + 3, k + 1, k));
    TextSplit(text, pos, "{ \n", RenderMembers(ms, 0));
  }

  lemma ObjectJoin(objs: Table, ms: seq<Member>)
    ensures var k := |objs|;
      (objs + [Some(NObj([], []))])[k := Some(NObj([] + Keys(ms, 0), [] + MemberLinks(ms, 0, k + 1)))]
        + MemberNodes(ms, 0, k + 1)
      == objs + Nodes(Obj(ms), k)
  {
    var keys, links := Keys(ms, 0), MemberLinks(ms, 0, |objs| + 1);
    assert [] + keys == keys && [] + links == links;
  }

  lemma {:induction false} BuildList(text: string, toks: seq<Token>, objs: Table, vs: seq<Value>, pos: nat,
                                     parent: int, all: Table)
    requires Grown(text, toks, objs) && CanBuild(text, toks, objs, List(vs), pos, parent)
    requires all == LinkTo(text, toks, objs, |objs|) + Nodes(List(vs), |objs|)
    ensures Grown(text, toks, all)
    decreases List(vs), 0
  {
    var k := |objs|;
    var objs1 := ListOpens(text, toks, objs, vs, pos, parent);
    ListJoin(LinkTo(text, toks, objs, k), vs);
    BuildItems(text, toks, objs1, vs, 0, pos + 2, k, [], all);
  }

  /** The list of a bracket, still empty; its items come next. */
  lemma ListOpens(text: string, toks: seq<Token>, objs: Table, vs: seq<Value>, pos: nat, parent: int)
    returns (objs1: Table)
    requires Grown(text, toks, objs) && CanBuild(text, toks, objs, List(vs), pos, parent)
    ensures toks[|objs|].kind == Array && Grown(text, toks, objs1)
    ensures objs1 == LinkTo(text, toks, objs, |objs|) + [Some(NList([]))]
    ensures forall j :: 0 <= j < |vs| ==> Printable(vs[j])
    ensures TextAt(text, pos + 2, RenderItems(vs, 0))
    ensures SliceAt(toks, |objs| + 1, ItemTokens(vs, 0, pos + 2, |objs| + 1, |objs|))
  {
    var k := |objs|;
    var v := List(vs);
    HeadToken(toks, k, v, pos, parent);
    GrownNext(text, toks, objs);
    objs1 := Grow(text, toks, objs);
    var head := Tokens(v, pos, k, parent)[..1];
    assert Tokens(v, pos, k, parent) == head + ItemTokens(vs, 0, pos + 2, k + 1, k);
    SliceSplit(toks, k, head, ItemTokens(vs, 0, pos + 2, k + 1, k));
    TextSplit(text, pos, "[ ", RenderItems(vs, 0));
  }

  lemma ListJoin(objs: Table, vs: seq<Value>)
    ensures var k := |objs|;
      (objs + [Some(NList([]))])[k := Some(NList([] + ItemLinks(vs, 0, k + 1)))] + ItemNodes(vs, 0, k + 1)
      == objs + Nodes(List(vs), k)
  {
    var links := ItemLinks(vs, 0, |objs| + 1);
    assert [] + links == links;
  }

  /** The table after one member was added to object `c`. */
  function WithMember(objs: Table, c: nat, keys: seq<string>, values: seq<nat>, m: Member): Table
    requires c < |objs|
  {
    var k := |objs|;
    objs[c := Some(NObj(keys + [m.key], values + [k + 1]))] + ([None] + Nodes(m.value, k + 1))
  }

  lemma {:induction false} BuildMember(text: string, toks: seq<Token>, objs: Table, m: Member, pos: nat, c: nat,
                                       keys: seq<string>, values: seq<nat>, all: Table)
    requires Grown(text, toks, objs) && Linked(toks)
    requires c < |objs| < |toks| && toks[c].kind == Object && objs[c] == Some(NObj(keys, values))
    requires Plain(m.key) && Printable(m.value)
    requires TextAt(text, pos + 3, m.key) && TextAt(text, pos + |m.key| + 7, Render(m.value))
    requires toks[|objs|] == KeyToken(m.key, pos, 1, c)
    requires SliceAt(toks, |objs| + 1, Tokens(m.value, pos + |m.key| + 7, |objs| + 1, |objs|))
    requires all == WithMember(objs, c, keys, values, m)
    ensures Grown(text, toks, all)
    decreases m, 2
  {
    var objs1 := KeyGrows(text, toks, objs, m.key, pos, c, keys, values);
    MemberReady(text, toks, objs, objs1, m, pos, c, keys, values);
    WithMemberIs(objs, objs1, c, keys, values, m);
    BuildValue(text, toks, objs1, m.value, pos + |m.key| + 7, |objs|, all);
  }

  lemma WithMemberIs(objs: Table, objs1: Table, c: nat, keys: seq<string>, values: seq<nat>, m: Member)
    requires c < |objs| && objs1 == objs + [None]
    ensures objs1[c := Some(NObj(keys + [m.key], values + [|objs| + 1]))] + Nodes(m.value, |objs1|)
         == WithMember(objs, c, keys, values, m)
  {
    var node := Some(NObj(keys + [m.key], values + [|objs| + 1]));
    var nodes := Nodes(m.value, |objs| + 1);
    KeyJoin(objs, c, node, nodes);
    assert WithMember(objs, c, keys, values, m) == objs[c := node] + ([None] + nodes);
  }

  /** The value behind a key can be built, and where it goes. */
  lemma MemberReady(text: string, toks: seq<Token>, objs: Table, objs1: Table, m: Member, pos: nat, c: nat,
                    keys: seq<string>, values: seq<nat>)
    requires Linked(toks) && c < |objs| < |toks| && toks[c].kind == Object && objs[c] == Some(NObj(keys, values))
    requires Printable(m.value) && TextAt(text, pos + 3, m.key) && TextAt(text, pos + |m.key| + 7, Render(m.value))
    requires toks[|objs|] == KeyToken(m.key, pos, 1, c) && objs1 == objs + [None]
    requires SliceAt(toks, |objs| + 1, Tokens(m.value, pos + |m.key| + 7, |objs| + 1, |objs|))
    ensures CanBuild(text, toks, objs1, m.value, pos + |m.key| + 7, |objs|)
    ensures LinkTo(text, toks, objs1, |objs1|) == objs1[c := Some(NObj(keys + [m.key], values + [|objs| + 1]))]
  {
    HeadToken(toks, |objs| + 1, m.value, pos + |m.key| + 7, |objs|);
    ValueBehindKey(text, toks, objs, objs1, m.key, pos, c, keys, values);
  }

  lemma KeyJoin(objs: Table, c: nat, node: Option<Node>, nodes: Table)
    requires c < |objs|
    ensures (objs + [None])[c := node] + nodes == objs[c := node] + ([None] + nodes)
  {
  }

  /** A key makes no object. */
  lemma KeyGrows(text: string, toks: seq<Token>, objs: Table, key: string, pos: nat, c: nat, keys: seq<string>,
                 values: seq<nat>)
    returns (objs1: Table)
    requires Grown(text, toks, objs) && Linked(toks)
    requires c < |objs| < |toks| && toks[c].kind == Object && objs[c] == Some(NObj(keys, values))
    requires toks[|objs|] == KeyToken(key, pos, 1, c)
    ensures objs1 == objs + [None] && Grown(text, toks, objs1)
  {
    GrownNext(text, toks, objs);
    objs1 := Grow(text, toks, objs);
  }

  /** The value behind a key goes into the key's object. */
  lemma ValueBehindKey(text: string, toks: seq<Token>, objs: Table, objs1: Table, key: string, pos: nat, c: nat,
                       keys: seq<string>, values: seq<nat>)
    requires Linked(toks) && c < |objs| && |objs| + 1 < |toks| && toks[c].kind == Object
    requires objs[c] == Some(NObj(keys, values)) && objs1 == objs + [None]
    requires toks[|objs|] == KeyToken(key, pos, 1, c) && TextAt(text, pos + 3, key) && toks[|objs| + 1].parent == |objs|
    ensures !IsKey(toks, |objs| + 1) && Ready(toks, objs1, |objs1|)
    ensures LinkTo(text, toks, objs1, |objs1|) == objs1[c := Some(NObj(keys + [key], values + [|objs| + 1]))]
  {
    assert Content(text, toks[|objs|]) == key;
  }

  lemma MemberTexts(text: string, ms: seq<Member>, i: nat, pos: nat)
    requires i < |ms| && TextAt(text, pos, RenderMembers(ms, i))
    ensures TextAt(text, pos + 3, ms[i].key)
    ensures TextAt(text, pos + |ms[i].key| + 7, Render(ms[i].value))
    ensures TextAt(text, pos + |RenderMember(ms, i)|, RenderMembers(ms, i + 1))
  {
    var key := ms[i].key;
    TextSplit(text, pos, RenderMember(ms, i), RenderMembers(ms, i + 1));
    MemberText(text, pos, ms, i);
    KeyText(text, pos, key);
    assert "\"" + key + "\"" == "\"" + (key + "\"");
    TextSplit(text, pos + 2, "\"", key + "\"");
    TextSplit(text, pos + 3, key, "\"");
  }

  lemma MemberSlices(toks: seq<Token>, ms: seq<Member>, i: nat, pos: nat, k: nat, c: nat)
    requires i < |ms| && SliceAt(toks, k, MemberTokens(ms, i, pos, k, c))
    ensures k < |toks| && toks[k] == KeyToken(ms[i].key, pos, 1, c)
    ensures SliceAt(toks, k + 1, Tokens(ms[i].value, pos + |ms[i].key| + 7, k + 1, k))
    ensures var n := k + 1 + Size(ms[i].value);
      SliceAt(toks, n, MemberTokens(ms, i + 1, pos + |RenderMember(ms, i)|, n, c))
  {
    var a, b, rest := MemberTokensUnfold(ms, i, pos, k, c);
    SliceSplit(toks, k, a, b + rest);
    SliceHead(toks, k, a);
    SliceSplit(toks, k + 1, b, rest);
  }

  /** The table after the members from `i` on were added to object `c`. */
  function WithMembers(objs: Table, c: nat, keys: seq<string>, values: seq<nat>, ms: seq<Member>, i: nat): Table
    requires c < |objs|
  {
    objs[c := Some(NObj(keys + Keys(ms, i), values + MemberLinks(ms, i, |objs|)))] + MemberNodes(ms, i, |objs|)
  }

  lemma {:induction false} BuildMembers(text: string, toks: seq<Token>, objs: Table, ms: seq<Member>, i: nat,
                                        pos: nat, c: nat,
                                        keys: seq<string>, values: seq<nat>, all: Table)
    requires Grown(text, toks, objs) && Linked(toks) && i <= |ms|
    requires c < |objs| && c < |toks| && toks[c].kind == Object && objs[c] == Some(NObj(keys, values))
    requires forall j :: i <= j < |ms| ==> Plain(ms[j].key) && Printable(ms[j].value)
    requires TextAt(text, pos, RenderMembers(ms, i))
    requires SliceAt(toks, |objs|, MemberTokens(ms, i, pos, |objs|, c))
    requires all == WithMembers(objs, c, keys, values, ms, i)
    ensures Grown(text, toks, all)
    decreases ms, |ms| - i
  {
    if i == |ms| {
      NoMembersLeft(objs, ms, c, keys, values);
    } else {
      var next, objs1 := BuildNextMember(text, toks, objs, ms, i, pos, c, keys, values);
      var keys1, values1 := MemberJoin(objs, ms, i, c, keys, values, objs1, all);
      BuildMembers(text, toks, objs1, ms, i + 1, next, c, keys1, values1, all);
    }
  }

  lemma {:induction false} BuildNextMember(text: string, toks: seq<Token>, objs: Table, ms: seq<Member>, i: nat,
                                           pos: nat, c: nat,
                                           keys: seq<string>, values: seq<nat>) returns (next: nat, objs1: Table)
    requires Grown(text, toks, objs) && Linked(toks) && i < |ms|
    requires Plain(ms[i].key) && Printable(ms[i].value)
    requires c < |objs| && c < |toks| && toks[c].kind == Object && objs[c] == Some(NObj(keys, values))
    requires TextAt(text, pos, RenderMembers(ms, i))
    requires SliceAt(toks, |objs|, MemberTokens(ms, i, pos, |objs|, c))
    ensures objs1 == WithMember(objs, c, keys, values, ms[i]) && Grown(text, toks, objs1)
    ensures |objs1| == |objs| + 1 + Size(ms[i].value)
    ensures TextAt(text, next, RenderMembers(ms, i + 1))
    ensures SliceAt(toks, |objs1|, MemberTokens(ms, i + 1, next, |objs1|, c))
    decreases ms, 0
  {
    objs1 := MemberAdded(objs, c, keys, values, ms[i]);
    next := MemberPlaces(text, toks, ms, i, pos, |objs|, |objs1|, c);
    BuildMember(text, toks, objs, ms[i], pos, c, keys, values, objs1);
  }

  lemma MemberAdded(objs: Table, c: nat, keys: seq<string>, values: seq<nat>, m: Member) returns (objs1: Table)
    requires c < |objs|
    ensures objs1 == WithMember(objs, c, keys, values, m) && |objs1| == |objs| + 1 + Size(m.value)
  {
    objs1 := WithMember(objs, c, keys, values, m);
  }

  /** Text and tokens of a member, and of those behind it. */
  lemma MemberPlaces(text: string, toks: seq<Token>, ms: seq<Member>, i: nat, pos: nat, k: nat, n: nat, c: nat)
    returns (next: nat)
    requires i < |ms| && n == k + 1 + Size(ms[i].value)
    requires TextAt(text, pos, RenderMembers(ms, i)) && SliceAt(toks, k, MemberTokens(ms, i, pos, k, c))
    ensures TextAt(text, pos + 3, ms[i].key) && TextAt(text, pos + |ms[i].key| + 7, Render(ms[i].value))
    ensures k < |toks| && toks[k] == KeyToken(ms[i].key, pos, 1, c)
    ensures SliceAt(toks, k + 1, Tokens(ms[i].value, pos + |ms[i].key| + 7, k + 1, k))
    ensures TextAt(text, next, RenderMembers(ms, i + 1))
    ensures SliceAt(toks, n, MemberTokens(ms, i + 1, next, n, c))
  {
    next := pos + |RenderMember(ms, i)|;
    MemberTexts(text, ms, i, pos);
    MemberSlices(toks, ms, i, pos, k, c);
  }

  lemma NoMembersLeft(objs: Table, ms: seq<Member>, c: nat, keys: seq<string>, values: seq<nat>)
    requires c < |objs| && objs[c] == Some(NObj(keys, values))
    ensures WithMembers(objs, c, keys, values, ms, |ms|) == objs
  {
    assert keys + [] == keys && values + [] == values;
  }

  /** A node's links, growing at the end, and the tables behind it. */
  lemma JoinNode(objs: Table, c: nat, keys: seq<string>, key: string, keys2: seq<string>,
                 values: seq<nat>, k: nat, values2: seq<nat>, nodes: Table, more: Table)
    requires c < |objs|
    ensures (objs[c := Some(NObj(keys + [key], values + [k]))] + nodes)
              [c := Some(NObj((keys + [key]) + keys2, (values + [k]) + values2))] + more
         == objs[c := Some(NObj(keys + ([key] + keys2), values + ([k] + values2)))] + (nodes + more)
  {
    Regroup(keys, [key], keys2);
    Regroup(values, [k], values2);
    TableJoin(objs, c, Some(NObj(keys + [key], values + [k])),
              Some(NObj(keys + ([key] + keys2), values + ([k] + values2))), nodes, more);
  }

  lemma MemberJoin(objs: Table, ms: seq<Member>, i: nat, c: nat, keys: seq<string>, values: seq<nat>, objs1: Table,
                   all: Table)
    returns (keys1: seq<string>, values1: seq<nat>)
    requires i < |ms| && c < |objs| && objs1 == WithMember(objs, c, keys, values, ms[i])
    requires all == WithMembers(objs, c, keys, values, ms, i)
    ensures keys1 == keys + [ms[i].key] && values1 == values + [|objs| + 1]
    ensures |objs1| == |objs| + 1 + Size(ms[i].value) && objs1[c] == Some(NObj(keys1, values1))
    ensures all == WithMembers(objs1, c, keys1, values1, ms, i + 1)
  {
    keys1, values1 := keys + [ms[i].key], values + [|objs| + 1];
    var keys2, values2, nodes, more := MembersUnfold(ms, i, |objs|, |objs1|);
    JoinNode(objs, c, keys, ms[i].key, keys2, values, |objs| + 1, values2, nodes, more);
  }

  /** The keys, links and objects of member `i`, and those of the members behind it. */
  lemma MembersUnfold(ms: seq<Member>, i: nat, k: nat, n: nat)
    returns (keys: seq<string>, values: seq<nat>, nodes: Table, more: Table)
    requires i < |ms| && n == k + 1 + Size(ms[i].value)
    ensures keys == Keys(ms, i + 1) && Keys(ms, i) == [ms[i].key] + keys
    ensures values == MemberLinks(ms, i + 1, n) && MemberLinks(ms, i, k) == [k + 1] + values
    ensures nodes == [None] + Nodes(ms[i].value, k + 1) && |nodes| == n - k
    ensures more == MemberNodes(ms, i + 1, n) && MemberNodes(ms, i, k) == nodes + more
  {
    keys, values := Keys(ms, i + 1), MemberLinks(ms, i + 1, n);
    nodes, more := [None] + Nodes(ms[i].value, k + 1), MemberNodes(ms, i + 1, n);
  }

  /** The table after the items from `i` on were added to list `c`. */
  function WithItems(objs: Table, c: nat, links: seq<nat>, vs: seq<Value>, i: nat): Table
    requires c < |objs|
  {
    objs[c := Some(NList(links + ItemLinks(vs, i, |objs|)))] + ItemNodes(vs, i, |objs|)
  }

  function WithItem(objs: Table, c: nat, links: seq<nat>, v: Value): Table
    requires c < |objs|
  {
    objs[c := Some(NList(links + [|objs|]))] + Nodes(v, |objs|)
  }

  lemma ItemSlices(toks: seq<Token>, vs: seq<Value>, i: nat, pos: nat, k: nat, c: nat) returns (next: nat)
    requires i < |vs| && SliceAt(toks, k, ItemTokens(vs, i, pos, k, c))
    ensures k < |toks| && toks[k].parent == c && SliceAt(toks, k, Tokens(vs[i], pos, k, c))
    ensures next == pos + |Render(vs[i])| + |ItemTail(vs, i)|
    ensures SliceAt(toks, k + Size(vs[i]), ItemTokens(vs, i + 1, next, k + Size(vs[i]), c))
  {
    var first, rest;
    next, first, rest := ItemTokensUnfold(vs, i, pos, k, c);
    SliceSplit(toks, k, first, rest);
    HeadToken(toks, k, vs[i], pos, c);
  }

  lemma {:induction false} BuildItem(text: string, toks: seq<Token>, objs: Table, vs: seq<Value>, i: nat, pos: nat,
                                     c: nat,
                                     links: seq<nat>) returns (next: nat, objs1: Table)
    requires Grown(text, toks, objs) && Linked(toks) && i < |vs| && Printable(vs[i])
    requires c < |objs| && c < |toks| && toks[c].kind == Array && objs[c] == Some(NList(links))
    requires TextAt(text, pos, RenderItems(vs, i))
    requires SliceAt(toks, |objs|, ItemTokens(vs, i, pos, |objs|, c))
    ensures objs1 == WithItem(objs, c, links, vs[i]) && Grown(text, toks, objs1)
    ensures |objs1| == |objs| + Size(vs[i]) && objs1[c] == Some(NList(links + [|objs|]))
    ensures TextAt(text, next, RenderItems(vs, i + 1))
    ensures SliceAt(toks, |objs1|, ItemTokens(vs, i + 1, next, |objs1|, c))
    decreases vs, 0
  {
    next := ItemPlaces(text, toks, vs, i, pos, |objs|, c);
    ItemLinked(text, toks, objs, c, links);
    objs1 := ItemAdded(objs, c, links, vs[i]);
    BuildValue(text, toks, objs, vs[i], pos, c, objs1);
  }

  lemma ItemAdded(objs: Table, c: nat, links: seq<nat>, v: Value) returns (objs1: Table)
    requires c < |objs|
    ensures objs1 == WithItem(objs, c, links, v)
    ensures objs1 == objs[c := Some(NList(links + [|objs|]))] + Nodes(v, |objs|)
    ensures |objs1| == |objs| + Size(v) && objs1[c] == Some(NList(links + [|objs|]))
  {
    objs1 := WithItem(objs, c, links, v);
  }

  /** Text and tokens of an item, and of those behind it. */
  lemma ItemPlaces(text: string, toks: seq<Token>, vs: seq<Value>, i: nat, pos: nat, k: nat, c: nat) returns (next: nat)
    requires i < |vs| && TextAt(text, pos, RenderItems(vs, i)) && SliceAt(toks, k, ItemTokens(vs, i, pos, k, c))
    ensures TextAt(text, pos, Render(vs[i])) && SliceAt(toks, k, Tokens(vs[i], pos, k, c))
    ensures k < |toks| && toks[k].parent == c
    ensures TextAt(text, next, RenderItems(vs, i + 1))
    ensures SliceAt(toks, k + Size(vs[i]), ItemTokens(vs, i + 1, next, k + Size(vs[i]), c))
  {
    ItemText(text, pos, vs, i);
    next := ItemSlices(toks, vs, i, pos, k, c);
  }

  /** An item goes into its list. */
  lemma ItemLinked(text: string, toks: seq<Token>, objs: Table, c: nat, links: seq<nat>)
    requires Linked(toks) && c < |objs| < |toks| && toks[c].kind == Array && objs[c] == Some(NList(links))
    requires toks[|objs|].parent == c
    ensures !IsKey(toks, |objs|) && Ready(toks, objs, |objs|)
    ensures LinkTo(text, toks, objs, |objs|) == objs[c := Some(NList(links + [|objs|]))]
  {
  }

  lemma {:induction false} BuildItems(text: string, toks: seq<Token>, objs: Table, vs: seq<Value>, i: nat, pos: nat,
                                      c: nat,
                                      links: seq<nat>, all: Table)
    requires Grown(text, toks, objs) && Linked(toks) && i <= |vs|
    requires c < |objs| && c < |toks| && toks[c].kind == Array && objs[c] == Some(NList(links))
    requires forall j :: i <= j < |vs| ==> Printable(vs[j])
    requires TextAt(text, pos, RenderItems(vs, i))
    requires SliceAt(toks, |objs|, ItemTokens(vs, i, pos, |objs|, c))
    requires all == WithItems(objs, c, links, vs, i)
    ensures Grown(text, toks, all)
    decreases vs, |vs| - i
  {
    if i == |vs| {
      NoItemsLeft(objs, vs, c, links);
    } else {
      var next, objs1 := BuildItem(text, toks, objs, vs, i, pos, c, links);
      ItemJoin(objs, vs, i, c, links, objs1);
      BuildItems(text, toks, objs1, vs, i + 1, next, c, links + [|objs|], all);
    }
  }

  lemma TableJoin(objs: Table, c: nat, first: Option<Node>, last: Option<Node>, a: Table, b: Table)
    requires c < |objs|
    ensures (objs[c := first] + a)[c := last] + b == objs[c := last] + (a + b)
  {
  }

  lemma NoItemsLeft(objs: Table, vs: seq<Value>, c: nat, links: seq<nat>)
    requires c < |objs| && objs[c] == Some(NList(links))
    ensures WithItems(objs, c, links, vs, |vs|) == objs
  {
    assert links + [] == links;
  }

  lemma ItemJoin(objs: Table, vs: seq<Value>, i: nat, c: nat, links: seq<nat>, objs1: Table)
    requires i < |vs| && c < |objs| && objs1 == WithItem(objs, c, links, vs[i])
    ensures |objs1| == |objs| + Size(vs[i]) && objs1[c] == Some(NList(links + [|objs|]))
    ensures WithItems(objs1, c, links + [|objs|], vs, i + 1) == WithItems(objs, c, links, vs, i)
  {
    var n := |objs1|;
    Regroup(links, [|objs|], ItemLinks(vs, i + 1, n));
    TableJoin(objs, c, Some(NList(links + [|objs|])), Some(NList(links + ItemLinks(vs, i, |objs|))),
              Nodes(vs[i], |objs|), ItemNodes(vs, i + 1, n));
  }

  // ---------------------------------------------------------------- reading the tree back

  /** Object `c` is the root of the tree `v`. */
  predicate Stands(objs: Table, c: nat, v: Value) {
    Readable(objs) && c < |objs| && objs[c].Some? && TreeAt(objs, c) == v
  }

  lemma {:induction false} TreeOfNodes(objs: Table, v: Value, k: nat)
    requires Readable(objs) && SliceAt(objs, k, Nodes(v, k))
    ensures Stands(objs, k, v)
    decreases v, 1
  {
    SliceHead(objs, k, Nodes(v, k));
    match v
    case Obj(ms) => TreeOfObject(objs, ms, k);
    case List(vs) => TreeOfList(objs, vs, k);
    case _ =>
  }

  lemma {:induction false} TreeOfObject(objs: Table, ms: seq<Member>, k: nat)
    requires Readable(objs) && SliceAt(objs, k, Nodes(Obj(ms), k))
    ensures Stands(objs, k, Obj(ms))
    decreases Obj(ms), 0
  {
    SliceHead(objs, k, Nodes(Obj(ms), k));
    SliceSplit(objs, k, Nodes(Obj(ms), k)[..1], MemberNodes(ms, 0, k + 1));
    LinkCounts(ms, 0, k + 1);
    var t := TreeAt(objs, k);
    forall a | 0 <= a < |ms|
      ensures t.members[a] == ms[a]
    {
      TreeOfMember(objs, ms, 0, k + 1, a);
    }
    assert t.members == ms;
  }

  lemma {:induction false} TreeOfList(objs: Table, vs: seq<Value>, k: nat)
    requires Readable(objs) && SliceAt(objs, k, Nodes(List(vs), k))
    ensures Stands(objs, k, List(vs))
    decreases List(vs), 0
  {
    SliceHead(objs, k, Nodes(List(vs), k));
    SliceSplit(objs, k, Nodes(List(vs), k)[..1], ItemNodes(vs, 0, k + 1));
    ItemLinkCount(vs, 0, k + 1);
    var t := TreeAt(objs, k);
    forall a | 0 <= a < |vs|
      ensures t.items[a] == vs[a]
    {
      TreeOfItem(objs, vs, 0, k + 1, a);
    }
    assert t.items == vs;
  }

  lemma {:induction false} LinkCounts(ms: seq<Member>, i: nat, k: nat)
    requires i <= |ms|
    ensures |Keys(ms, i)| == |MemberLinks(ms, i, k)| == |ms| - i
    decreases |ms| - i
  {
    if i < |ms| {
      LinkCounts(ms, i + 1, k + 1 + Size(ms[i].value));
    }
  }

  lemma {:induction false} ItemLinkCount(vs: seq<Value>, i: nat, k: nat)
    requires i <= |vs|
    ensures |ItemLinks(vs, i, k)| == |vs| - i
    decreases |vs| - i
  {
    if i < |vs| {
      ItemLinkCount(vs, i + 1, k + Size(vs[i]));
    }
  }

  lemma MemberNodesSplit(objs: Table, ms: seq<Member>, i: nat, k: nat)
    requires i < |ms| && SliceAt(objs, k, MemberNodes(ms, i, k))
    ensures SliceAt(objs, k + 1, Nodes(ms[i].value, k + 1))
    ensures SliceAt(objs, k + 1 + Size(ms[i].value), MemberNodes(ms, i + 1, k + 1 + Size(ms[i].value)))
  {
    var nodes, rest := Nodes(ms[i].value, k + 1), MemberNodes(ms, i + 1, k + 1 + Size(ms[i].value));
    SliceSplit(objs, k, [None] + nodes, rest);
    SliceSplit(objs, k, [None], nodes);
  }

  lemma {:induction false} TreeOfMember(objs: Table, ms: seq<Member>, i: nat, k: nat, a: nat)
    requires Readable(objs) && i + a < |ms| && SliceAt(objs, k, MemberNodes(ms, i, k))
    ensures a < |Keys(ms, i)| && a < |MemberLinks(ms, i, k)|
    ensures Keys(ms, i)[a] == ms[i + a].key && Stands(objs, MemberLinks(ms, i, k)[a], ms[i + a].value)
    decreases ms, |ms| - i
  {
    var v := ms[i].value;
    MemberNodesSplit(objs, ms, i, k);
    if a == 0 {
      TreeOfNodes(objs, v, k + 1);
    } else {
      TreeOfMember(objs, ms, i + 1, k + 1 + Size(v), a - 1);
    }
  }

  lemma {:induction false} TreeOfItem(objs: Table, vs: seq<Value>, i: nat, k: nat, a: nat)
    requires Readable(objs) && i + a < |vs| && SliceAt(objs, k, ItemNodes(vs, i, k))
    ensures a < |ItemLinks(vs, i, k)| && Stands(objs, ItemLinks(vs, i, k)[a], vs[i + a])
    decreases vs, |vs| - i
  {
    var rest := ItemNodes(vs, i + 1, k + Size(vs[i]));
    SliceSplit(objs, k, Nodes(vs[i], k), rest);
    if a == 0 {
      TreeOfNodes(objs, vs[i], k);
    } else {
      TreeOfItem(objs, vs, i + 1, k + Size(vs[i]), a - 1);
    }
  }

  // ---------------------------------------------------------------- no NUL lands in a printed leaf

  /** A closed container is followed by the end of the text or a separator. */
  predicate EndsClean(js: string, t: Token) {
    t.IsLeaf() || Separated(js, t.end)
  }

  predicate Separated(js: string, p: int) {
    p == |js| || (0 <= p < |js| && (js[p] == ',' || js[p] == ' ' || js[p] == '\n'))
  }

  predicate AllClean(js: string, toks: seq<Token>) {
    forall i :: 0 <= i < |toks| ==> EndsClean(js, toks[i])
  }

  lemma {:induction false} TokensClean(js: string, v: Value, pos: nat, index: nat, parent: int)
    requires TextAt(js, pos, Render(v)) && Separated(js, pos + |Render(v)|)
    ensures AllClean(js, Tokens(v, pos, index, parent))
    decreases v, 0
  {
    match v
    case Obj(ms) =>
      TextSplit(js, pos, "{ \n", RenderMembers(ms, 0));
      MemberTokensClean(js, ms, 0, pos + 3, index + 1, index);
    case List(vs) =>
      TextSplit(js, pos, "[ ", RenderItems(vs, 0));
      ItemTokensClean(js, vs, 0, pos + 2, index + 1, index, ItemTokens(vs, 0, pos + 2, index + 1, index));
    case _ =>
  }

  lemma {:induction false} MemberTokensClean(js: string, ms: seq<Member>, i: nat, pos: nat, index: nat, parent: int)
    requires TextAt(js, pos, RenderMembers(ms, i))
    ensures AllClean(js, MemberTokens(ms, i, pos, index, parent))
    decreases ms, |ms| - i
  {
    if i < |ms| {
      var next := pos + |RenderMember(ms, i)|;
      MemberTexts(js, ms, i, pos);
      MemberValueClean(js, ms, i, pos, index);
      MemberTokensClean(js, ms, i + 1, next, index + 1 + Size(ms[i].value), parent);
      CleanJoin(js, KeyToken(ms[i].key, pos, 1, parent), Tokens(ms[i].value, pos + |ms[i].key| + 7, index + 1, index),
                MemberTokens(ms, i + 1, next, index + 1 + Size(ms[i].value), parent));
    }
  }

  lemma {:induction false} MemberValueClean(js: string, ms: seq<Member>, i: nat, pos: nat, index: nat)
    requires i < |ms| && TextAt(js, pos, RenderMembers(ms, i))
    ensures AllClean(js, Tokens(ms[i].value, pos + |ms[i].key| + 7, index + 1, index))
    decreases ms, 0
  {
    MemberValueEnds(js, ms, i, pos);
    TokensClean(js, ms[i].value, pos + |ms[i].key| + 7, index + 1, index);
  }

  lemma MemberValueEnds(js: string, ms: seq<Member>, i: nat, pos: nat)
    requires i < |ms| && TextAt(js, pos, RenderMembers(ms, i))
    ensures var q := pos + |ms[i].key| + 7;
      TextAt(js, q, Render(ms[i].value)) && Separated(js, q + |Render(ms[i].value)|)
  {
    TextSplit(js, pos, RenderMember(ms, i), RenderMembers(ms, i + 1));
    MemberText(js, pos, ms, i);
    TextChar(js, pos + |ms[i].key| + 7 + |Render(ms[i].value)|, MemberTail(ms, i), 0);
  }

  lemma CleanJoin(js: string, t: Token, a: seq<Token>, b: seq<Token>)
    requires t.IsLeaf() && AllClean(js, a) && AllClean(js, b)
    ensures AllClean(js, [t] + a + b)
  {
  }

  lemma {:induction false} ItemTokensClean(js: string, vs: seq<Value>, i: nat, pos: nat, index: nat, parent: int,
                                           toks: seq<Token>)
    requires TextAt(js, pos, RenderItems(vs, i)) && toks == ItemTokens(vs, i, pos, index, parent)
    ensures AllClean(js, toks)
    decreases vs, |vs| - i
  {
    if i < |vs| {
      var next, first, rest := ItemTokensUnfold(vs, i, pos, index, parent);
      ItemEnds(js, vs, i, pos, next);
      TokensClean(js, vs[i], pos, index, parent);
      ItemTokensClean(js, vs, i + 1, next, index + Size(vs[i]), parent, rest);
      CleanBoth(js, first, rest);
    }
  }

  lemma ItemEnds(js: string, vs: seq<Value>, i: nat, pos: nat, next: nat)
    requires i < |vs| && TextAt(js, pos, RenderItems(vs, i)) && next == pos + |Render(vs[i])| + |ItemTail(vs, i)|
    ensures TextAt(js, pos, Render(vs[i])) && Separated(js, pos + |Render(vs[i])|)
    ensures TextAt(js, next, RenderItems(vs, i + 1))
  {
    ItemText(js, pos, vs, i);
  }

  lemma CleanBoth(js: string, a: seq<Token>, b: seq<Token>)
    requires AllClean(js, a) && AllClean(js, b)
    ensures AllClean(js, a + b)
  {
  }

  lemma ItemTokensUnfold(vs: seq<Value>, i: nat, pos: nat, index: nat, parent: int)
    returns (next: nat, first: seq<Token>, rest: seq<Token>)
    requires i < |vs|
    ensures next == pos + |Render(vs[i])| + |ItemTail(vs, i)|
    ensures first == Tokens(vs[i], pos, index, parent)
    ensures rest == ItemTokens(vs, i + 1, next, index + Size(vs[i]), parent)
    ensures ItemTokens(vs, i, pos, index, parent) == first + rest
  {
    next := pos + |Render(vs[i])| + |ItemTail(vs, i)|;
    first := Tokens(vs[i], pos, index, parent);
    rest := ItemTokens(vs, i + 1, next, index + Size(vs[i]), parent);
  }

  /** The tokens of a printed tree are what convert relies on. */
  lemma PrintedIsParsed(v: Value, text: string)
    requires Printable(v) && !IsBare(v) && Render(v) < text
    ensures Parsed(Render(v), text, Tokens(v, 0, 0, -1))
  {
    var js, toks := Render(v), Tokens(v, 0, 0, -1);
    PrintedSpans(v);
    TokensClean(js, v, 0, 0, -1);
    CleanApart(js, toks);
  }

  lemma PrintedSpans(v: Value)
    requires Printable(v) && !IsBare(v)
    ensures var js, toks := Render(v), Tokens(v, 0, 0, -1);
      && Linked(toks) && EndsApart(toks)
      && forall i :: 0 <= i < |toks| ==> TokenOk(js, |js|, toks[i]) && toks[i].end != -1
  {
    var js, toks := Render(v), Tokens(v, 0, 0, -1);
    TokenizePrinted(v, Size(v));
    RunKeepsInv(js, Size(v), Initial());
    forall i | 0 <= i < |toks|
      ensures TokenOk(js, |js|, toks[i]) && toks[i].end != -1
    {
      assert !toks[i].IsOpen();
    }
  }

  lemma CleanApart(js: string, toks: seq<Token>)
    requires EndsApart(toks) && AllClean(js, toks)
    requires forall i :: 0 <= i < |toks| ==> TokenOk(js, |js|, toks[i])
    ensures LeavesApart(toks)
  {
    forall i, j | 0 <= i < |toks| && 0 <= j < |toks|
      ensures !EndFallsIn(toks, j, i)
    {
      assert TokenOk(js, |js|, toks[i]);
      assert EndsClean(js, toks[j]);
    }
  }

  // ---------------------------------------------------------------- text to tree

  const ERROR_ILLEGAL := -4

  datatype Parse = Parse(code: int, objs: Option<Table>)

  /** The tokens of a successful parse can be converted. */
  lemma TokensConvertible(js: string, cap: nat, text: string)
    requires js < text
    ensures var o := Run(js, cap, Initial());
      o.code >= 0 ==> WellFormed(Start(text, o.s.toks))
  {
    RunKeepsInv(js, cap, Initial());
    var o := Run(js, cap, Initial());
    if o.code >= 0 {
      forall i | 0 <= i < |o.s.toks|
        ensures o.s.toks[i].start < |text| && o.s.toks[i].end < |text| && o.s.toks[i].kind != Key
      {
        assert TokenOk(js, o.s.pos, o.s.toks[i]);
      }
    }
  }

  /** convert_text_to_json_objects on the first `size` characters of a buffer that has at
      least one more: the number of tokens and the objects, or an error. */
  function ParseText(text: string, size: nat, maxTokens: nat): Parse
    requires size < |text|
  {
    if size == 0 || maxTokens == 0 then Parse(ERROR_ILLEGAL, None)
    else
      var o := Run(text[..size], maxTokens, Initial());
      if o.code < 0 then Parse(o.code, None)
      else
        TokensConvertible(text[..size], maxTokens, text);
        var w := ConvertFrom(Start(text, o.s.toks), 0);
        if |w.objs| == 0 || w.objs[0].None? || w.invalid then Parse(ERROR_ILLEGAL, None)
        else Parse(o.code, Some(w.objs))
  }

  /** The same in place: tokens in an array of their own, the text cut up by convert. */
  method ConvertText(text: array<char>, textSize: nat, maxTokens: nat) returns (code: int, objs: Option<Table>)
    requires textSize < text.Length
    modifies text
    ensures Parse(code, objs) == ParseText(old(text[..]), textSize, maxTokens)
  {
    if textSize == 0 || maxTokens == 0 {
      return ERROR_ILLEGAL, None;
    }
    var js := text[..textSize];
    var parser := new Parser();
    var tokens := new Token[maxTokens];
    assert parser.View(tokens) == Initial();
    code := parser.Parse(js, tokens, maxTokens);
    if code < 0 {
      return code, None;
    }
    TokensConvertible(js, maxTokens, text[..]);
    RunKeepsInv(js, maxTokens, Initial());
    ghost var toks := tokens[..code];
    assert parser.View(tokens).toks == toks;
    var objects := new Option<Node>[code](_ => None);
    var invalid := Convert(text, tokens, code, objects);
    if code == 0 || objects[0] == None || invalid {
      return ERROR_ILLEGAL, None;
    }
    objs := Some(objects[..]);
  }

  lemma PrintedConverts(v: Value, text: string)
    requires Printable(v) && !IsBare(v) && Render(v) < text
    ensures var toks := Tokens(v, 0, 0, -1);
      && WellFormed(Start(text, toks))
      && ConvertFrom(Start(text, toks), 0).objs == Nodes(v, 0)
      && !ConvertFrom(Start(text, toks), 0).invalid
  {
    var js, toks := Render(v), Tokens(v, 0, 0, -1);
    PrintedIsParsed(v, text);
    assert SliceAt(toks, 0, toks);
    assert TextAt(text, 0, js);
    BuildValue(text, toks, [], v, 0, -1, LinkTo(text, toks, [], 0) + Nodes(v, 0));
    assert LinkTo(text, toks, [], 0) + Nodes(v, 0) == Nodes(v, 0);
    GrownIsConverted(js, text, toks, Nodes(v, 0));
  }

  lemma PrintedTree(v: Value, text: string)
    requires Printable(v) && !IsBare(v) && Render(v) < text
    ensures Forest(Nodes(v, 0), Size(v)) && Stands(Nodes(v, 0), 0, v)
  {
    PrintedConverts(v, text);
    ConvertKeepsForest(Start(text, Tokens(v, 0, 0, -1)), 0);
    assert SliceAt(Nodes(v, 0), 0, Nodes(v, 0));
    TreeOfNodes(Nodes(v, 0), v, 0);
  }

  /** Print, then parse: the same tree, for every tree but a bare number or boolean, which
      the strict tokenizer refuses for want of a delimiter. */
  lemma PrintThenParse(v: Value, text: string, maxTokens: nat)
    requires Printable(v) && Render(v) < text && Size(v) <= maxTokens
    ensures var p := ParseText(text, |Render(v)|, maxTokens);
      if IsBare(v) then p == Parse(ERROR_PART, None)
      else p.code == Size(v) && p.objs.Some?
           && Forest(p.objs.value, |p.objs.value|) && Stands(p.objs.value, 0, v)
  {
    assert text[..|Render(v)|] == Render(v);
    TokenizePrinted(v, maxTokens);
    if IsBare(v) {
      BareText(v);
    } else {
      PrintedConverts(v, text);
      PrintedTree(v, text);
    }
  }
}
