/** Reading JSON: whatever RFC 8259 spelling a tree has, parsing the text gives the tree. */
module JsonReading {
  import opened Common
  import opened Jsmn
  import opened JsmnInvariants
  import opened Json
  import opened JsonTokens
  import opened JsonConvert
  import opened JsonConvertSteps
  import opened JsonTree
  import opened JsonRoundTrip
  import opened JsonSpelling

  // ---------------------------------------------------------------- the tree of a spelling

  function Decimal(s: string): nat
    requires AllDigits(s)
  {
    if s == "" then 0 else 10 * Decimal(s[..|s| - 1]) + (s[|s| - 1] - '0') as nat
  }

  /** A number is its whole part, or the nearest that 32 bits hold. */
  function ValueOf(n: Numeral): int
    requires AllDigits(n.whole)
  {
    var m: int := Decimal(n.whole);
    if n.minus then (if m <= 2147483648 then -m else -2147483648)
    else (if m <= 2147483647 then m else 2147483647)
  }

  /** Strings keep their escapes, null is the number 0. */
  function TreeOf(d: Doc): Value
    requires DocOk(d)
  {
    match d
    case Text(units) => Str(UnitsText(units))
    case Number(numeral) => Int(ValueOf(numeral))
    case Word(name) => if name == Null then Int(0) else Bool(name == True)
    case Record(_, members) => Obj(MemberTrees(members))
    case Listing(_, items) => List(ItemTrees(items))
  }

  function MemberTrees(ms: Members): seq<Json.Member>
    requires MembersOk(ms)
  {
    if ms.NoMember? then [] else [Json.Member(UnitsText(ms.key), TreeOf(ms.value))] + MemberTrees(ms.more)
  }

  function ItemTrees(vs: Items): seq<Value>
    requires ItemsOk(vs)
  {
    if vs.NoItem? then [] else [TreeOf(vs.value)] + ItemTrees(vs.more)
  }

  // ---------------------------------------------------------------- numbers

  lemma {:induction false} ReadsDecimal(s: string)
    requires AllDigits(s)
    ensures ReadDigits(s, 10, 0) == Decimal(s)
  {
    if s != "" {
      var front, last := s[..|s| - 1], s[|s| - 1..];
      ReadsDecimal(front);
      assert s == front + last;
      ReadDigitsAppend(front, last, 0);
      assert last[1..] == "";
    }
  }

  /** What may come behind the whole part of a number is no digit. */
  lemma WholeReads(s: string, rest: string)
    requires s != "" && AllDigits(s) && (s[0] == '0' ==> |s| == 1)
    requires rest == "" || rest[0] == '.' || rest[0] == 'e' || rest[0] == 'E'
    ensures ReadPrefixed(s + rest) == Decimal(s)
  {
    ReadsDecimal(s);
    if s[0] == '0' {
      assert s == ['0'] && (s + rest)[1..] == rest;
      assert Decimal(s) == 0 by {
        assert s[..0] == "";
      }
      assert ReadDigits(rest, 8, 0) == 0;
    } else {
      assert ReadDigits(rest, 10, Decimal(s)) == Decimal(s);
      ReadDigitsAppend(s, rest, 0);
    }
  }

  lemma NumeralParts(n: Numeral) returns (rest: string)
    requires NumeralOk(n)
    ensures rest == "" || rest[0] == '.' || rest[0] == 'e' || rest[0] == 'E'
    ensures NumeralText(n) == if n.minus then ['-'] + (n.whole + rest) else n.whole + rest
  {
    var sign := if n.minus then ['-'] else [];
    var fraction := if n.fraction == "" then [] else ['.'] + n.fraction;
    rest := fraction + ExponentText(n.exponent);
    ExponentStarts(n.exponent);
    Regroup(sign + n.whole, fraction, ExponentText(n.exponent));
    Regroup(sign, n.whole, rest);
    assert [] + (n.whole + rest) == n.whole + rest;
  }

  lemma ExponentStarts(e: Exponent)
    ensures ExponentText(e) == "" || ExponentText(e)[0] == 'e' || ExponentText(e)[0] == 'E'
  {
  }

  lemma NumeralReads(n: Numeral)
    requires NumeralOk(n)
    ensures StrToL(NumeralText(n)) == ValueOf(n)
  {
    var rest := NumeralParts(n);
    WholeReads(n.whole, rest);
    assert (n.whole + rest)[0] == n.whole[0];
    if n.minus {
      assert NumeralText(n)[1..] == n.whole + rest;
    }
  }

  lemma NullReads()
    ensures StrToL(NameText(Null)) == 0
  {
  }

  // ---------------------------------------------------------------- the objects of a spelling

  /** The objects of the tree, the first of them number `k`. */
  function DocNodes(d: Doc, k: nat): (t: Table)
    requires DocOk(d)
    ensures |t| == Room(d)
  {
    match d
    case Text(units) => [Some(NStr(UnitsText(units)))]
    case Number(numeral) => [Some(NInt(ValueOf(numeral)))]
    case Word(name) => [Some(if name == Null then NInt(0) else NBool(name == True))]
    case Record(_, members) =>
      [Some(NObj(KeysOf(members), MemberRoots(members, k + 1)))] + NodesOfMembers(members, k + 1)
    case Listing(_, items) => [Some(NList(ItemRoots(items, k + 1)))] + NodesOfItems(items, k + 1)
  }

  function KeysOf(ms: Members): seq<string> {
    if ms.NoMember? then [] else [UnitsText(ms.key)] + KeysOf(ms.more)
  }

  function MemberRoots(ms: Members, k: nat): seq<nat> {
    if ms.NoMember? then [] else [k + 1] + MemberRoots(ms.more, k + 1 + Room(ms.value))
  }

  function ItemRoots(vs: Items, k: nat): seq<nat> {
    if vs.NoItem? then [] else [k] + ItemRoots(vs.more, k + Room(vs.value))
  }

  function NodesOfMembers(ms: Members, k: nat): (t: Table)
    requires MembersOk(ms)
    ensures |t| == MembersRoom(ms)
  {
    if ms.NoMember? then []
    else ([None] + DocNodes(ms.value, k + 1)) + NodesOfMembers(ms.more, k + 1 + Room(ms.value))
  }

  function NodesOfItems(vs: Items, k: nat): (t: Table)
    requires ItemsOk(vs)
    ensures |t| == ItemsRoom(vs)
  {
    if vs.NoItem? then [] else DocNodes(vs.value, k) + NodesOfItems(vs.more, k + Room(vs.value))
  }

  // ---------------------------------------------------------------- where the parts stand

  /** The leaves of the tree, as far as they stand where they are spelled, each value of a
      container before what may end a primitive. */
  predicate DocAt(text: string, pos: nat, d: Doc)
    decreases d
  {
    match d
    case Record(gap, members) => MembersAt(text, pos + 1 + |gap|, members)
    case Listing(gap, items) => ItemsAt(text, pos + 1 + |gap|, items)
    case _ => TextAt(text, pos, Spell(d))
  }

  predicate EnderAt(text: string, q: nat) {
    q < |text| && Ender(text[q])
  }

  predicate MembersAt(text: string, pos: nat, ms: Members)
    decreases ms
  {
    ms.Member? ==>
      && TextAt(text, pos + |ms.before|, Quoted(ms.key))
      && DocAt(text, pos + |SpellKey(ms)|, ms.value)
      && EnderAt(text, pos + |SpellKey(ms)| + |Spell(ms.value)|)
      && MembersAt(text, pos + MemberWidth(ms), ms.more)
  }

  predicate ItemsAt(text: string, pos: nat, vs: Items)
    decreases vs
  {
    vs.Item? ==>
      && DocAt(text, pos + |vs.before|, vs.value)
      && EnderAt(text, pos + |vs.before| + |Spell(vs.value)|)
      && ItemsAt(text, pos + ItemWidth(vs), vs.more)
  }

  lemma {:induction false} DocStands(text: string, pos: nat, d: Doc)
    requires DocOk(d) && TextAt(text, pos, Spell(d))
    ensures DocAt(text, pos, d)
    decreases d
  {
    match d
    case Record(gap, members) =>
      ChildrenAt(text, pos, '{', gap, SpellMembers(members));
      MembersStand(text, pos + 1 + |gap|, members);
    case Listing(gap, items) =>
      ChildrenAt(text, pos, '[', gap, SpellItems(items));
      ItemsStand(text, pos + 1 + |gap|, items);
    case _ =>
  }

  lemma ChildrenAt(js: string, pos: nat, bracket: char, gap: string, rest: string)
    requires TextAt(js, pos, [bracket] + (gap + rest))
    ensures TextAt(js, pos + 1 + |gap|, rest)
  {
    TextSplit(js, pos, [bracket], gap + rest);
    TextSplit(js, pos + 1, gap, rest);
  }

  lemma {:induction false} MembersStand(text: string, pos: nat, ms: Members)
    requires MembersOk(ms) && TextAt(text, pos, SpellMembers(ms))
    ensures MembersAt(text, pos, ms)
    decreases ms
  {
    if ms.Member? {
      SpelledMember(text, ms, pos);
      DocStands(text, pos + |SpellKey(ms)|, ms.value);
      MembersStand(text, pos + MemberWidth(ms), ms.more);
    }
  }

  lemma SpelledMember(text: string, ms: Members, pos: nat)
    requires MembersOk(ms) && ms.Member? && TextAt(text, pos, SpellMembers(ms))
    ensures TextAt(text, pos + |ms.before|, Quoted(ms.key))
    ensures TextAt(text, pos + |SpellKey(ms)|, Spell(ms.value))
    ensures EnderAt(text, pos + |SpellKey(ms)| + |Spell(ms.value)|)
    ensures TextAt(text, pos + MemberWidth(ms), SpellMembers(ms.more))
  {
    var tail := MemberTailOf(ms);
    MemberEnder(ms, tail);
    ValueAndTail(text, pos, SpellKey(ms), Spell(ms.value), tail, ms.after, MemberSep(ms.more), SpellMembers(ms.more),
                 pos + MemberWidth(ms));
    SpelledKey(text, ms, pos);
  }

  lemma SpelledKey(text: string, ms: Members, pos: nat)
    requires ms.Member? && TextAt(text, pos, SpellKey(ms))
    ensures TextAt(text, pos + |ms.before|, Quoted(ms.key))
  {
    var colon := ms.left + ([':'] + ms.right);
    TextSplit(text, pos, ms.before, Quoted(ms.key) + colon);
    TextSplit(text, pos + |ms.before|, Quoted(ms.key), colon);
  }

  lemma ValueAndTail(text: string, pos: nat, front: string, value: string, tail: string, after: string, sep: string,
                     more: string, next: nat)
    requires next == pos + |front| + |value| + |after| + |sep|
    requires tail == after + (sep + more) && tail != "" && Ender(tail[0]) && TextAt(text, pos, front + (value + tail))
    ensures TextAt(text, pos, front) && TextAt(text, pos + |front|, value)
    ensures EnderAt(text, pos + |front| + |value|)
    ensures TextAt(text, next, more)
  {
    TextSplit(text, pos, front, value + tail);
    TextSplit(text, pos + |front|, value, tail);
    TextChar(text, pos + |front| + |value|, tail, 0);
    TextSplit(text, pos + |front| + |value|, after, sep + more);
    TextSplit(text, pos + |front| + |value| + |after|, sep, more);
  }

  lemma {:induction false} ItemsStand(text: string, pos: nat, vs: Items)
    requires ItemsOk(vs) && TextAt(text, pos, SpellItems(vs))
    ensures ItemsAt(text, pos, vs)
    decreases vs
  {
    if vs.Item? {
      SpelledItem(text, vs, pos);
      DocStands(text, pos + |vs.before|, vs.value);
      ItemsStand(text, pos + ItemWidth(vs), vs.more);
    }
  }

  lemma SpelledItem(text: string, vs: Items, pos: nat)
    requires ItemsOk(vs) && vs.Item? && TextAt(text, pos, SpellItems(vs))
    ensures TextAt(text, pos + |vs.before|, Spell(vs.value))
    ensures EnderAt(text, pos + |vs.before| + |Spell(vs.value)|)
    ensures TextAt(text, pos + ItemWidth(vs), SpellItems(vs.more))
  {
    var tail := ItemTailOf(vs);
    ItemEnder(vs, tail);
    ValueAndTail(text, pos, vs.before, Spell(vs.value), tail, vs.after, ItemSep(vs.more), SpellItems(vs.more),
                 pos + ItemWidth(vs));
  }

  // ---------------------------------------------------------------- where the tokens are

  function Head(d: Doc, pos: nat, parent: int): Token {
    match d
    case Text(_) => Token(String, pos + 1, pos + |Spell(d)| - 1, 0, parent)
    case Record(_, members) => Token(Object, pos, pos + |Spell(d)|, MembersCount(members), parent)
    case Listing(_, items) => Token(Array, pos, pos + |Spell(d)|, ItemsCount(items), parent)
    case _ => Token(Primitive, pos, pos + |Spell(d)|, 0, parent)
  }

  /** The tokens of the tree are there, from number `k` on. */
  predicate Marked(toks: seq<Token>, k: nat, d: Doc, pos: nat, parent: int)
    decreases d
  {
    && k < |toks| && toks[k] == Head(d, pos, parent)
    && match d
       case Record(gap, members) => MembersMarked(toks, k + 1, members, pos + 1 + |gap|, k)
       case Listing(gap, items) => ItemsMarked(toks, k + 1, items, pos + 1 + |gap|, k)
       case _ => true
  }

  predicate MembersMarked(toks: seq<Token>, k: nat, ms: Members, pos: nat, c: nat)
    decreases ms
  {
    ms.Member? ==>
      && k < |toks| && toks[k] == KeyMark(ms, pos, 1, c)
      && Marked(toks, k + 1, ms.value, pos + |SpellKey(ms)|, k)
      && MembersMarked(toks, k + 1 + Room(ms.value), ms.more, pos + MemberWidth(ms), c)
  }

  predicate ItemsMarked(toks: seq<Token>, k: nat, vs: Items, pos: nat, c: nat)
    decreases vs
  {
    vs.Item? ==>
      && Marked(toks, k, vs.value, pos + |vs.before|, c)
      && ItemsMarked(toks, k + Room(vs.value), vs.more, pos + ItemWidth(vs), c)
  }

  lemma {:induction false} MarksAreThere(toks: seq<Token>, k: nat, d: Doc, pos: nat, parent: int, marks: seq<Token>)
    requires SliceAt(toks, k, marks) && marks == Marks(d, pos, k, parent)
    ensures Marked(toks, k, d, pos, parent)
    decreases d, 1
  {
    SliceHead(toks, k, marks);
    match d
    case Record(_, _) => RecordThere(toks, k, d, pos, parent, marks);
    case Listing(_, _) => ListingThere(toks, k, d, pos, parent, marks);
    case _ =>
  }

  lemma {:induction false} RecordThere(toks: seq<Token>, k: nat, d: Doc, pos: nat, parent: int, marks: seq<Token>)
    requires d.Record? && SliceAt(toks, k, marks) && marks == Marks(d, pos, k, parent)
    ensures MembersMarked(toks, k + 1, d.members, pos + 1 + |d.gap|, k)
    decreases d, 0
  {
    var more := RecordSplit(d, pos, k, parent);
    SliceSplit(toks, k, [Head(d, pos, parent)], more);
    MembersAreThere(toks, k + 1, d.members, pos + 1 + |d.gap|, k, more);
  }

  lemma {:induction false} ListingThere(toks: seq<Token>, k: nat, d: Doc, pos: nat, parent: int, marks: seq<Token>)
    requires d.Listing? && SliceAt(toks, k, marks) && marks == Marks(d, pos, k, parent)
    ensures ItemsMarked(toks, k + 1, d.items, pos + 1 + |d.gap|, k)
    decreases d, 0
  {
    var more := ListingSplit(d, pos, k, parent);
    SliceSplit(toks, k, [Head(d, pos, parent)], more);
    ItemsAreThere(toks, k + 1, d.items, pos + 1 + |d.gap|, k, more);
  }

  lemma RecordSplit(d: Doc, pos: nat, k: nat, parent: int) returns (more: seq<Token>)
    requires d.Record?
    ensures more == MemberMarks(d.members, pos + 1 + |d.gap|, k + 1, k)
    ensures Marks(d, pos, k, parent) == [Head(d, pos, parent)] + more
  {
    more := MemberMarks(d.members, pos + 1 + |d.gap|, k + 1, k);
  }

  lemma ListingSplit(d: Doc, pos: nat, k: nat, parent: int) returns (more: seq<Token>)
    requires d.Listing?
    ensures more == ItemMarks(d.items, pos + 1 + |d.gap|, k + 1, k)
    ensures Marks(d, pos, k, parent) == [Head(d, pos, parent)] + more
  {
    more := ItemMarks(d.items, pos + 1 + |d.gap|, k + 1, k);
  }

  lemma {:induction false} MembersAreThere(toks: seq<Token>, k: nat, ms: Members, pos: nat, c: nat, marks: seq<Token>)
    requires SliceAt(toks, k, marks) && marks == MemberMarks(ms, pos, k, c)
    ensures MembersMarked(toks, k, ms, pos, c)
    decreases ms
  {
    if ms.Member? {
      var key, value, more, n := MemberMarksAre(ms, pos, k, c);
      SliceSplit(toks, k, [key], value + more);
      SliceHead(toks, k, [key]);
      SliceSplit(toks, k + 1, value, more);
      MarksAreThere(toks, k + 1, ms.value, pos + |SpellKey(ms)|, k, value);
      MembersAreThere(toks, n, ms.more, pos + MemberWidth(ms), c, more);
    }
  }

  lemma MemberMarksAre(ms: Members, pos: nat, k: nat, c: nat)
    returns (key: Token, value: seq<Token>, more: seq<Token>, n: nat)
    requires ms.Member?
    ensures n == k + 1 + Room(ms.value) && key == KeyMark(ms, pos, 1, c)
    ensures value == Marks(ms.value, pos + |SpellKey(ms)|, k + 1, k) && |value| == Room(ms.value)
    ensures more == MemberMarks(ms.more, pos + MemberWidth(ms), n, c)
    ensures MemberMarks(ms, pos, k, c) == [key] + (value + more)
  {
    key, value := FirstMemberIs(ms, pos, k, c);
    n := k + 1 + |value|;
    more := MemberMarks(ms.more, pos + MemberWidth(ms), n, c);
    FirstAndMore(ms, pos, k, c, [key] + value, more);
    Regroup([key], value, more);
  }

  lemma FirstMemberIs(ms: Members, pos: nat, k: nat, c: nat) returns (key: Token, value: seq<Token>)
    requires ms.Member?
    ensures key == KeyMark(ms, pos, 1, c) && FirstMember(ms, pos, k, c) == [key] + value
    ensures value == Marks(ms.value, pos + |SpellKey(ms)|, k + 1, k) && |value| == Room(ms.value)
  {
    key := KeyMark(ms, pos, 1, c);
    value := Marks(ms.value, pos + |SpellKey(ms)|, k + 1, k);
  }

  lemma FirstAndMore(ms: Members, pos: nat, k: nat, c: nat, first: seq<Token>, more: seq<Token>)
    requires ms.Member? && first == FirstMember(ms, pos, k, c)
    requires more == MemberMarks(ms.more, pos + MemberWidth(ms), k + |first|, c)
    ensures MemberMarks(ms, pos, k, c) == first + more
  {
  }

  lemma {:induction false} ItemsAreThere(toks: seq<Token>, k: nat, vs: Items, pos: nat, c: nat, marks: seq<Token>)
    requires SliceAt(toks, k, marks) && marks == ItemMarks(vs, pos, k, c)
    ensures ItemsMarked(toks, k, vs, pos, c)
    decreases vs
  {
    if vs.Item? {
      var value, more, n := ItemMarksAre(vs, pos, k, c);
      SliceSplit(toks, k, value, more);
      MarksAreThere(toks, k, vs.value, pos + |vs.before|, c, value);
      ItemsAreThere(toks, n, vs.more, pos + ItemWidth(vs), c, more);
    }
  }

  lemma ItemMarksAre(vs: Items, pos: nat, k: nat, c: nat) returns (value: seq<Token>, more: seq<Token>, n: nat)
    requires vs.Item?
    ensures n == k + Room(vs.value) && value == Marks(vs.value, pos + |vs.before|, k, c) && |value| == Room(vs.value)
    ensures more == ItemMarks(vs.more, pos + ItemWidth(vs), n, c) && ItemMarks(vs, pos, k, c) == value + more
  {
    n := k + Room(vs.value);
    value := Marks(vs.value, pos + |vs.before|, k, c);
    more := ItemMarks(vs.more, pos + ItemWidth(vs), n, c);
  }

  // ---------------------------------------------------------------- converting

  /** The tree is spelled at `pos`, its tokens numbered from `|objs|`; what it goes below is there. */
  predicate CanMake(text: string, toks: seq<Token>, objs: Table, d: Doc, pos: nat, parent: int) {
    && Linked(toks) && DocOk(d) && DocAt(text, pos, d) && Marked(toks, |objs|, d, pos, parent)
    && |objs| < |toks| && Ready(toks, objs, |objs|) && !IsKey(toks, |objs|)
  }

  lemma {:induction false} MakeDoc(text: string, toks: seq<Token>, objs: Table, d: Doc, pos: nat, parent: int,
                                   all: Table)
    requires Grown(text, toks, objs) && CanMake(text, toks, objs, d, pos, parent)
    requires all == LinkTo(text, toks, objs, |objs|) + DocNodes(d, |objs|)
    ensures Grown(text, toks, all)
    decreases d, 1
  {
    match d
    case Record(_, _) => MakeRecord(text, toks, objs, d, pos, parent, all);
    case Listing(_, _) => MakeListing(text, toks, objs, d, pos, parent, all);
    case _ =>
      LeafMade(text, toks, |objs|, d, pos, parent);
      GrownNext(text, toks, objs);
  }

  lemma LeafMade(text: string, toks: seq<Token>, k: nat, d: Doc, pos: nat, parent: int)
    requires Linked(toks) && DocOk(d) && TextAt(text, pos, Spell(d)) && !d.Record? && !d.Listing?
    requires k < |toks| && toks[k] == Head(d, pos, parent) && !IsKey(toks, k)
    ensures [NodeOf(text, toks, k)] == DocNodes(d, k)
  {
    match d
    case Text(units) =>
      QuotedContent(text, pos, units, toks[k]);
    case Number(numeral) =>
      ContentIs(text, toks[k], pos, Spell(d));
      NumeralChars(numeral);
      NumeralReads(numeral);
    case Word(name) =>
      ContentIs(text, toks[k], pos, Spell(d));
      NullReads();
  }

  lemma QuotedContent(text: string, pos: nat, us: seq<Unit>, t: Token)
    requires TextAt(text, pos, Quoted(us)) && t.start == pos + 1 && t.end == pos + |Quoted(us)| - 1
    ensures Content(text, t) == UnitsText(us)
  {
    TextSplit(text, pos, ['"'], UnitsText(us) + ['"']);
    TextSplit(text, pos + 1, UnitsText(us), ['"']);
  }

  /** The object of a bracket, still empty; its children come next. */
  lemma ContainerOpens(text: string, toks: seq<Token>, objs: Table, node: Node) returns (objs1: Table)
    requires Grown(text, toks, objs) && Linked(toks) && |objs| < |toks| && Ready(toks, objs, |objs|)
    requires (toks[|objs|].kind == Object && node == NObj([], [])) || (toks[|objs|].kind == Array && node == NList([]))
    ensures objs1 == LinkTo(text, toks, objs, |objs|) + [Some(node)] && Grown(text, toks, objs1)
  {
    GrownNext(text, toks, objs);
    objs1 := Grow(text, toks, objs);
  }

  /** A table whose last node is completed and gets its children behind it. */
  lemma Completed(objs: Table, empty: Option<Node>, full: Option<Node>, rest: Table)
    ensures (objs + [empty])[|objs| := full] + rest == objs + ([full] + rest)
  {
  }

  lemma {:induction false} MakeRecord(text: string, toks: seq<Token>, objs: Table, d: Doc, pos: nat, parent: int,
                                      all: Table)
    requires Grown(text, toks, objs) && CanMake(text, toks, objs, d, pos, parent) && d.Record?
    requires all == LinkTo(text, toks, objs, |objs|) + DocNodes(d, |objs|)
    ensures Grown(text, toks, all)
    decreases d, 0
  {
    var k := |objs|;
    var objs1 := ContainerOpens(text, toks, objs, NObj([], []));
    RecordJoin(LinkTo(text, toks, objs, k), d, objs1, all);
    MakeMembers(text, toks, objs1, d.members, pos + 1 + |d.gap|, k, [], [], all);
  }

  lemma RecordJoin(objs: Table, d: Doc, objs1: Table, all: Table)
    requires DocOk(d) && d.Record? && objs1 == objs + [Some(NObj([], []))] && all == objs + DocNodes(d, |objs|)
    ensures all == WithMembersOf(objs1, |objs|, [], [], d.members)
  {
    var full, rest := RecordNodes(d, |objs|);
    Completed(objs, Some(NObj([], [])), full, rest);
  }

  lemma RecordNodes(d: Doc, k: nat) returns (full: Option<Node>, rest: Table)
    requires DocOk(d) && d.Record?
    ensures full == Some(NObj([] + KeysOf(d.members), [] + MemberRoots(d.members, k + 1)))
    ensures rest == NodesOfMembers(d.members, k + 1) && DocNodes(d, k) == [full] + rest
  {
    var keys, links := KeysOf(d.members), MemberRoots(d.members, k + 1);
    assert [] + keys == keys && [] + links == links;
    full := Some(NObj(keys, links));
    rest := NodesOfMembers(d.members, k + 1);
  }

  lemma {:induction false} MakeListing(text: string, toks: seq<Token>, objs: Table, d: Doc, pos: nat, parent: int,
                                       all: Table)
    requires Grown(text, toks, objs) && CanMake(text, toks, objs, d, pos, parent) && d.Listing?
    requires all == LinkTo(text, toks, objs, |objs|) + DocNodes(d, |objs|)
    ensures Grown(text, toks, all)
    decreases d, 0
  {
    var k := |objs|;
    var objs1 := ContainerOpens(text, toks, objs, NList([]));
    ListingJoin(LinkTo(text, toks, objs, k), d, objs1, all);
    MakeItems(text, toks, objs1, d.items, pos + 1 + |d.gap|, k, [], all);
  }

  lemma ListingJoin(objs: Table, d: Doc, objs1: Table, all: Table)
    requires DocOk(d) && d.Listing? && objs1 == objs + [Some(NList([]))] && all == objs + DocNodes(d, |objs|)
    ensures all == WithItemsOf(objs1, |objs|, [], d.items)
  {
    var full, rest := ListingNodes(d, |objs|);
    Completed(objs, Some(NList([])), full, rest);
  }

  lemma ListingNodes(d: Doc, k: nat) returns (full: Option<Node>, rest: Table)
    requires DocOk(d) && d.Listing?
    ensures full == Some(NList([] + ItemRoots(d.items, k + 1)))
    ensures rest == NodesOfItems(d.items, k + 1) && DocNodes(d, k) == [full] + rest
  {
    var links := ItemRoots(d.items, k + 1);
    assert [] + links == links;
    full := Some(NList(links));
    rest := NodesOfItems(d.items, k + 1);
  }

  // ---------------------------------------------------------------- members

  /** The table after the members were added to object `c`. */
  function WithMembersOf(objs: Table, c: nat, keys: seq<string>, values: seq<nat>, ms: Members): Table
    requires c < |objs| && MembersOk(ms)
  {
    objs[c := Some(NObj(keys + KeysOf(ms), values + MemberRoots(ms, |objs|)))] + NodesOfMembers(ms, |objs|)
  }

  /** The table after one member was added. */
  function WithMemberOf(objs: Table, c: nat, keys: seq<string>, values: seq<nat>, ms: Members): Table
    requires c < |objs| && MembersOk(ms) && ms.Member?
  {
    objs[c := Some(NObj(keys + [UnitsText(ms.key)], values + [|objs| + 1]))]
    + ([None] + DocNodes(ms.value, |objs| + 1))
  }

  lemma {:induction false} MakeMembers(text: string, toks: seq<Token>, objs: Table, ms: Members, pos: nat, c: nat,
                                       keys: seq<string>, values: seq<nat>, all: Table)
    requires Grown(text, toks, objs) && Linked(toks) && MembersOk(ms)
    requires c < |objs| && c < |toks| && toks[c].kind == Object && objs[c] == Some(NObj(keys, values))
    requires MembersAt(text, pos, ms) && MembersMarked(toks, |objs|, ms, pos, c)
    requires all == WithMembersOf(objs, c, keys, values, ms)
    ensures Grown(text, toks, all)
    decreases ms, 2
  {
    if ms.NoMember? {
      NoneLeft(objs, ms, c, keys, values);
    } else {
      var objs1, keys1, values1, next := MakeNext(text, toks, objs, ms, pos, c, keys, values, all);
      MakeMembers(text, toks, objs1, ms.more, next, c, keys1, values1, all);
    }
  }

  /** The first member; the others come next and make the same table. */
  lemma {:induction false} MakeNext(text: string, toks: seq<Token>, objs: Table, ms: Members, pos: nat, c: nat,
                                    keys: seq<string>, values: seq<nat>, all: Table)
    returns (objs1: Table, keys1: seq<string>, values1: seq<nat>, next: nat)
    requires Grown(text, toks, objs) && Linked(toks) && MembersOk(ms) && ms.Member?
    requires c < |objs| && c < |toks| && toks[c].kind == Object && objs[c] == Some(NObj(keys, values))
    requires MembersAt(text, pos, ms) && MembersMarked(toks, |objs|, ms, pos, c)
    requires all == WithMembersOf(objs, c, keys, values, ms)
    ensures Grown(text, toks, objs1) && c < |objs1| && objs1[c] == Some(NObj(keys1, values1))
    ensures MembersAt(text, next, ms.more) && MembersMarked(toks, |objs1|, ms.more, next, c)
    ensures all == WithMembersOf(objs1, c, keys1, values1, ms.more)
    decreases ms, 1
  {
    next := pos + MemberWidth(ms);
    objs1 := MemberTable(objs, c, keys, values, ms);
    keys1, values1 := MembersJoin(objs, ms, c, keys, values, objs1, all);
    MakeMember(text, toks, objs, ms, pos, c, keys, values, objs1);
  }

  lemma NoneLeft(objs: Table, ms: Members, c: nat, keys: seq<string>, values: seq<nat>)
    requires ms.NoMember? && c < |objs| && objs[c] == Some(NObj(keys, values))
    ensures WithMembersOf(objs, c, keys, values, ms) == objs
  {
    assert keys + [] == keys && values + [] == values;
  }

  lemma {:induction false} MakeMember(text: string, toks: seq<Token>, objs: Table, ms: Members, pos: nat, c: nat,
                                      keys: seq<string>, values: seq<nat>, all: Table)
    requires Grown(text, toks, objs) && Linked(toks) && MembersOk(ms) && ms.Member?
    requires c < |objs| && c < |toks| && toks[c].kind == Object && objs[c] == Some(NObj(keys, values))
    requires MembersAt(text, pos, ms) && MembersMarked(toks, |objs|, ms, pos, c)
    requires all == (objs + [None])[c := Some(NObj(keys + [UnitsText(ms.key)], values + [|objs| + 1]))]
                    + DocNodes(ms.value, |objs| + 1)
    ensures Grown(text, toks, all)
    decreases ms, 0
  {
    var objs1 := KeyMade(text, toks, objs, ms, pos, c);
    ValueLinked(text, toks, objs, objs1, ms, pos, c, keys, values);
    MakeDoc(text, toks, objs1, ms.value, pos + |SpellKey(ms)|, |objs|, all);
  }

  lemma MemberTable(objs: Table, c: nat, keys: seq<string>, values: seq<nat>, ms: Members) returns (all: Table)
    requires c < |objs| && MembersOk(ms) && ms.Member?
    ensures all == WithMemberOf(objs, c, keys, values, ms) && |all| == |objs| + 1 + Room(ms.value)
    ensures all == (objs + [None])[c := Some(NObj(keys + [UnitsText(ms.key)], values + [|objs| + 1]))]
                   + DocNodes(ms.value, |objs| + 1)
  {
    var node := Some(NObj(keys + [UnitsText(ms.key)], values + [|objs| + 1]));
    all := WithMemberOf(objs, c, keys, values, ms);
    KeyJoin(objs, c, node, DocNodes(ms.value, |objs| + 1));
  }

  /** A key makes no object. */
  lemma KeyMade(text: string, toks: seq<Token>, objs: Table, ms: Members, pos: nat, c: nat) returns (objs1: Table)
    requires Grown(text, toks, objs) && Linked(toks) && ms.Member?
    requires c < |objs| < |toks| && toks[c].kind == Object && toks[|objs|] == KeyMark(ms, pos, 1, c)
    ensures objs1 == objs + [None] && Grown(text, toks, objs1)
  {
    GrownNext(text, toks, objs);
    objs1 := Grow(text, toks, objs);
  }

  /** The value behind a key goes into the key's object. */
  lemma ValueLinked(text: string, toks: seq<Token>, objs: Table, objs1: Table, ms: Members, pos: nat, c: nat,
                    keys: seq<string>, values: seq<nat>)
    requires Linked(toks) && ms.Member? && c < |objs| && |objs| + 1 < |toks| && toks[c].kind == Object
    requires objs[c] == Some(NObj(keys, values)) && objs1 == objs + [None]
    requires toks[|objs|] == KeyMark(ms, pos, 1, c) && toks[|objs| + 1].parent == |objs|
    requires TextAt(text, pos + |ms.before|, Quoted(ms.key))
    ensures !IsKey(toks, |objs| + 1) && Ready(toks, objs1, |objs1|)
    ensures LinkTo(text, toks, objs1, |objs1|)
         == objs1[c := Some(NObj(keys + [UnitsText(ms.key)], values + [|objs| + 1]))]
  {
    QuotedContent(text, pos + |ms.before|, ms.key, toks[|objs|]);
  }

  lemma MembersJoin(objs: Table, ms: Members, c: nat, keys: seq<string>, values: seq<nat>, objs1: Table, all: Table)
    returns (keys1: seq<string>, values1: seq<nat>)
    requires MembersOk(ms) && ms.Member? && c < |objs| && objs1 == WithMemberOf(objs, c, keys, values, ms)
    requires all == WithMembersOf(objs, c, keys, values, ms)
    ensures keys1 == keys + [UnitsText(ms.key)] && values1 == values + [|objs| + 1]
    ensures |objs1| == |objs| + 1 + Room(ms.value) && objs1[c] == Some(NObj(keys1, values1))
    ensures all == WithMembersOf(objs1, c, keys1, values1, ms.more)
  {
    keys1, values1 := keys + [UnitsText(ms.key)], values + [|objs| + 1];
    var keys2, values2, nodes, more := MembersSplit(ms, |objs|, |objs1|);
    JoinNode(objs, c, keys, UnitsText(ms.key), keys2, values, |objs| + 1, values2, nodes, more);
  }

  lemma MembersSplit(ms: Members, k: nat, n: nat)
    returns (keys: seq<string>, values: seq<nat>, nodes: Table, more: Table)
    requires MembersOk(ms) && ms.Member? && n == k + 1 + Room(ms.value)
    ensures keys == KeysOf(ms.more) && KeysOf(ms) == [UnitsText(ms.key)] + keys
    ensures values == MemberRoots(ms.more, n) && MemberRoots(ms, k) == [k + 1] + values
    ensures nodes == [None] + DocNodes(ms.value, k + 1) && |nodes| == n - k
    ensures more == NodesOfMembers(ms.more, n) && NodesOfMembers(ms, k) == nodes + more
  {
    keys, values := KeysOf(ms.more), MemberRoots(ms.more, n);
    nodes, more := [None] + DocNodes(ms.value, k + 1), NodesOfMembers(ms.more, n);
  }

  // ---------------------------------------------------------------- items

  function WithItemsOf(objs: Table, c: nat, links: seq<nat>, vs: Items): Table
    requires c < |objs| && ItemsOk(vs)
  {
    objs[c := Some(NList(links + ItemRoots(vs, |objs|)))] + NodesOfItems(vs, |objs|)
  }

  lemma {:induction false} MakeItems(text: string, toks: seq<Token>, objs: Table, vs: Items, pos: nat, c: nat,
                                     links: seq<nat>, all: Table)
    requires Grown(text, toks, objs) && Linked(toks) && ItemsOk(vs)
    requires c < |objs| && c < |toks| && toks[c].kind == Array && objs[c] == Some(NList(links))
    requires ItemsAt(text, pos, vs) && ItemsMarked(toks, |objs|, vs, pos, c)
    requires all == WithItemsOf(objs, c, links, vs)
    ensures Grown(text, toks, all)
    decreases vs, 2
  {
    if vs.NoItem? {
      NoItemLeft(objs, vs, c, links);
    } else {
      var objs1, links1, next := MakeNextItem(text, toks, objs, vs, pos, c, links, all);
      MakeItems(text, toks, objs1, vs.more, next, c, links1, all);
    }
  }

  /** The first item; the others come next and make the same table. */
  lemma {:induction false} MakeNextItem(text: string, toks: seq<Token>, objs: Table, vs: Items, pos: nat, c: nat,
                                        links: seq<nat>, all: Table)
    returns (objs1: Table, links1: seq<nat>, next: nat)
    requires Grown(text, toks, objs) && Linked(toks) && ItemsOk(vs) && vs.Item?
    requires c < |objs| && c < |toks| && toks[c].kind == Array && objs[c] == Some(NList(links))
    requires ItemsAt(text, pos, vs) && ItemsMarked(toks, |objs|, vs, pos, c)
    requires all == WithItemsOf(objs, c, links, vs)
    ensures Grown(text, toks, objs1) && c < |objs1| && objs1[c] == Some(NList(links1))
    ensures ItemsAt(text, next, vs.more) && ItemsMarked(toks, |objs1|, vs.more, next, c)
    ensures all == WithItemsOf(objs1, c, links1, vs.more)
    decreases vs, 1
  {
    next, links1 := pos + ItemWidth(vs), links + [|objs|];
    objs1 := ItemsJoin(objs, vs, c, links, all);
    MakeItem(text, toks, objs, vs, pos, c, links, objs1);
  }

  lemma {:induction false} MakeItem(text: string, toks: seq<Token>, objs: Table, vs: Items, pos: nat, c: nat,
                                    links: seq<nat>, objs1: Table)
    requires Grown(text, toks, objs) && Linked(toks) && ItemsOk(vs) && vs.Item?
    requires c < |objs| && c < |toks| && toks[c].kind == Array && objs[c] == Some(NList(links))
    requires ItemsAt(text, pos, vs) && ItemsMarked(toks, |objs|, vs, pos, c)
    requires objs1 == objs[c := Some(NList(links + [|objs|]))] + DocNodes(vs.value, |objs|)
    ensures Grown(text, toks, objs1)
    decreases vs, 0
  {
    ItemLinked(text, toks, objs, c, links);
    MakeDoc(text, toks, objs, vs.value, pos + |vs.before|, c, objs1);
  }

  lemma NoItemLeft(objs: Table, vs: Items, c: nat, links: seq<nat>)
    requires vs.NoItem? && c < |objs| && objs[c] == Some(NList(links))
    ensures WithItemsOf(objs, c, links, vs) == objs
  {
    assert links + [] == links;
  }

  lemma ItemsJoin(objs: Table, vs: Items, c: nat, links: seq<nat>, all: Table) returns (objs1: Table)
    requires ItemsOk(vs) && vs.Item? && c < |objs| && all == WithItemsOf(objs, c, links, vs)
    ensures objs1 == objs[c := Some(NList(links + [|objs|]))] + DocNodes(vs.value, |objs|)
    ensures |objs1| == |objs| + Room(vs.value) && objs1[c] == Some(NList(links + [|objs|]))
    ensures all == WithItemsOf(objs1, c, links + [|objs|], vs.more)
  {
    objs1 := objs[c := Some(NList(links + [|objs|]))] + DocNodes(vs.value, |objs|);
    var n := |objs1|;
    Regroup(links, [|objs|], ItemRoots(vs.more, n));
    TableJoin(objs, c, Some(NList(links + [|objs|])), Some(NList(links + ItemRoots(vs, |objs|))),
              DocNodes(vs.value, |objs|), NodesOfItems(vs.more, n));
  }

  // ---------------------------------------------------------------- reading the tree

  lemma {:induction false} TreeStands(objs: Table, d: Doc, k: nat)
    requires DocOk(d) && JsonTree.Readable(objs) && SliceAt(objs, k, DocNodes(d, k))
    ensures Stands(objs, k, TreeOf(d))
    decreases d, 1
  {
    SliceHead(objs, k, DocNodes(d, k));
    match d
    case Record(_, _) => RecordStands(objs, d, k);
    case Listing(_, _) => ListingStands(objs, d, k);
    case _ =>
  }

  lemma {:induction false} RecordStands(objs: Table, d: Doc, k: nat)
    requires DocOk(d) && d.Record? && JsonTree.Readable(objs) && SliceAt(objs, k, DocNodes(d, k))
    ensures Stands(objs, k, TreeOf(d))
    decreases d, 0
  {
    var ms := d.members;
    SliceHead(objs, k, DocNodes(d, k));
    SliceSplit(objs, k, DocNodes(d, k)[..1], NodesOfMembers(ms, k + 1));
    RootCounts(ms, k + 1);
    var t := TreeAt(objs, k);
    forall a | 0 <= a < |MemberTrees(ms)|
      ensures t.members[a] == MemberTrees(ms)[a]
    {
      MemberStands(objs, ms, k + 1, a);
    }
    assert t.members == MemberTrees(ms);
  }

  lemma {:induction false} ListingStands(objs: Table, d: Doc, k: nat)
    requires DocOk(d) && d.Listing? && JsonTree.Readable(objs) && SliceAt(objs, k, DocNodes(d, k))
    ensures Stands(objs, k, TreeOf(d))
    decreases d, 0
  {
    var vs := d.items;
    SliceHead(objs, k, DocNodes(d, k));
    SliceSplit(objs, k, DocNodes(d, k)[..1], NodesOfItems(vs, k + 1));
    ItemRootCount(vs, k + 1);
    var t := TreeAt(objs, k);
    forall a | 0 <= a < |ItemTrees(vs)|
      ensures t.items[a] == ItemTrees(vs)[a]
    {
      ItemStands(objs, vs, k + 1, a);
    }
    assert t.items == ItemTrees(vs);
  }

  lemma {:induction false} RootCounts(ms: Members, k: nat)
    requires MembersOk(ms)
    ensures |KeysOf(ms)| == |MemberRoots(ms, k)| == |MemberTrees(ms)|
  {
    if ms.Member? {
      RootCounts(ms.more, k + 1 + Room(ms.value));
    }
  }

  lemma {:induction false} ItemRootCount(vs: Items, k: nat)
    requires ItemsOk(vs)
    ensures |ItemRoots(vs, k)| == |ItemTrees(vs)|
  {
    if vs.Item? {
      ItemRootCount(vs.more, k + Room(vs.value));
    }
  }

  lemma {:induction false} MemberStands(objs: Table, ms: Members, k: nat, a: nat)
    requires MembersOk(ms) && JsonTree.Readable(objs) && SliceAt(objs, k, NodesOfMembers(ms, k))
    requires a < |MemberTrees(ms)|
    ensures a < |KeysOf(ms)| && a < |MemberRoots(ms, k)| && KeysOf(ms)[a] == MemberTrees(ms)[a].key
    ensures Stands(objs, MemberRoots(ms, k)[a], MemberTrees(ms)[a].value)
    decreases ms
  {
    var n := k + 1 + Room(ms.value);
    var keys, values, nodes, more := MembersSplit(ms, k, n);
    SliceSplit(objs, k, nodes, more);
    if a == 0 {
      SliceSplit(objs, k, [None], DocNodes(ms.value, k + 1));
      TreeStands(objs, ms.value, k + 1);
    } else {
      MemberStands(objs, ms.more, n, a - 1);
    }
  }

  lemma {:induction false} ItemStands(objs: Table, vs: Items, k: nat, a: nat)
    requires ItemsOk(vs) && JsonTree.Readable(objs) && SliceAt(objs, k, NodesOfItems(vs, k)) && a < |ItemTrees(vs)|
    ensures a < |ItemRoots(vs, k)| && Stands(objs, ItemRoots(vs, k)[a], ItemTrees(vs)[a])
    decreases vs
  {
    SliceSplit(objs, k, DocNodes(vs.value, k), NodesOfItems(vs.more, k + Room(vs.value)));
    if a == 0 {
      TreeStands(objs, vs.value, k);
    } else {
      ItemStands(objs, vs.more, k + Room(vs.value), a - 1);
    }
  }

  // ---------------------------------------------------------------- no NUL lands in a leaf

  /** Behind a container there is the end of the text or what may end a primitive. */
  predicate Apart(js: string, t: Token) {
    t.IsLeaf() || t.end == |js| || (0 <= t.end < |js| && Ender(js[t.end]))
  }

  predicate AllApart(js: string, toks: seq<Token>) {
    forall i :: 0 <= i < |toks| ==> Apart(js, toks[i])
  }

  /** The tokens of the tree are apart, from number `k` on. */
  lemma {:induction false} DocApart(js: string, toks: seq<Token>, k: nat, d: Doc, pos: nat, parent: int, width: nat)
    requires DocAt(js, pos, d) && Marked(toks, k, d, pos, parent) && width == |Spell(d)|
    requires pos + width == |js| || EnderAt(js, pos + width)
    ensures ApartFrom(js, toks, k, Room(d))
    decreases d, 1
  {
    HeadApart(js, toks[k], d, pos, parent);
    match d
    case Record(_, _) => RecordApart(js, toks, k, d, pos);
    case Listing(_, _) => ListingApart(js, toks, k, d, pos);
    case _ =>
  }

  lemma HeadApart(js: string, t: Token, d: Doc, pos: nat, parent: int)
    requires t == Head(d, pos, parent) && (pos + |Spell(d)| == |js| || EnderAt(js, pos + |Spell(d)|))
    ensures Apart(js, t)
  {
  }

  lemma {:induction false} RecordApart(js: string, toks: seq<Token>, k: nat, d: Doc, pos: nat)
    requires d.Record? && k < |toks| && Apart(js, toks[k]) && MembersAt(js, pos + 1 + |d.gap|, d.members)
    requires MembersMarked(toks, k + 1, d.members, pos + 1 + |d.gap|, k)
    ensures ApartFrom(js, toks, k, Room(d))
    decreases d, 0
  {
    MembersApart(js, toks, k + 1, d.members, pos + 1 + |d.gap|, k);
  }

  lemma {:induction false} ListingApart(js: string, toks: seq<Token>, k: nat, d: Doc, pos: nat)
    requires d.Listing? && k < |toks| && Apart(js, toks[k]) && ItemsAt(js, pos + 1 + |d.gap|, d.items)
    requires ItemsMarked(toks, k + 1, d.items, pos + 1 + |d.gap|, k)
    ensures ApartFrom(js, toks, k, Room(d))
    decreases d, 0
  {
    ItemsApart(js, toks, k + 1, d.items, pos + 1 + |d.gap|, k);
  }

  predicate ApartFrom(js: string, toks: seq<Token>, k: nat, n: nat) {
    k + n <= |toks| && forall i :: k <= i < k + n ==> Apart(js, toks[i])
  }

  lemma {:induction false} MembersApart(js: string, toks: seq<Token>, k: nat, ms: Members, pos: nat, c: nat)
    requires MembersAt(js, pos, ms) && MembersMarked(toks, k, ms, pos, c) && k <= |toks|
    ensures ApartFrom(js, toks, k, MembersRoom(ms))
    decreases ms, 1
  {
    if ms.Member? {
      MemberApart(js, toks, k, ms, pos, c);
      MembersApart(js, toks, k + 1 + Room(ms.value), ms.more, pos + MemberWidth(ms), c);
    }
  }

  lemma {:induction false} MemberApart(js: string, toks: seq<Token>, k: nat, ms: Members, pos: nat, c: nat)
    requires ms.Member? && MembersAt(js, pos, ms) && MembersMarked(toks, k, ms, pos, c)
    ensures ApartFrom(js, toks, k, 1 + Room(ms.value))
    decreases ms, 0
  {
    DocApart(js, toks, k + 1, ms.value, pos + |SpellKey(ms)|, k, |Spell(ms.value)|);
  }

  lemma {:induction false} ItemsApart(js: string, toks: seq<Token>, k: nat, vs: Items, pos: nat, c: nat)
    requires ItemsAt(js, pos, vs) && ItemsMarked(toks, k, vs, pos, c) && k <= |toks|
    ensures ApartFrom(js, toks, k, ItemsRoom(vs))
    decreases vs, 0
  {
    if vs.Item? {
      DocApart(js, toks, k, vs.value, pos + |vs.before|, c, |Spell(vs.value)|);
      ItemsApart(js, toks, k + Room(vs.value), vs.more, pos + ItemWidth(vs), c);
    }
  }

  lemma ApartLeaves(js: string, toks: seq<Token>)
    requires EndsApart(toks) && AllApart(js, toks)
    requires forall i :: 0 <= i < |toks| ==> TokenOk(js, |js|, toks[i])
    ensures LeavesApart(toks)
  {
    forall i, j | 0 <= i < |toks| && 0 <= j < |toks|
      ensures !EndFallsIn(toks, j, i)
    {
      assert TokenOk(js, |js|, toks[i]);
      assert Apart(js, toks[j]);
    }
  }

  // ---------------------------------------------------------------- whole texts

  /** The tokens of a spelling are what convert relies on. */
  lemma SpelledIsParsed(js: string, text: string, d: Doc, pos: nat, toks: seq<Token>)
    requires DocOk(d) && js < text && TextAt(js, pos, Spell(d)) && toks == Marks(d, pos, 0, -1)
    requires pos + |Spell(d)| == |js| || EnderAt(js, pos + |Spell(d)|)
    requires Linked(toks) && EndsApart(toks)
    requires forall i :: 0 <= i < |toks| ==> TokenOk(js, |js|, toks[i]) && toks[i].end != -1
    ensures Parsed(js, text, toks) && Marked(toks, 0, d, pos, -1)
  {
    MarksFromStart(d, pos, toks);
    SpelledApart(js, d, pos, toks);
    ApartLeaves(js, toks);
  }

  lemma MarksFromStart(d: Doc, pos: nat, toks: seq<Token>)
    requires toks == Marks(d, pos, 0, -1)
    ensures Marked(toks, 0, d, pos, -1)
  {
    assert SliceAt(toks, 0, toks);
    MarksAreThere(toks, 0, d, pos, -1, toks);
  }

  lemma SpelledSpans(lead: string, d: Doc, trail: string)
    requires Gap(lead) && DocOk(d) && Gap(trail) && !(IsPrimitive(d) && trail == "")
    ensures var js, toks := lead + (Spell(d) + trail), Marks(d, |lead|, 0, -1);
      && Linked(toks) && EndsApart(toks)
      && forall i :: 0 <= i < |toks| ==> TokenOk(js, |js|, toks[i]) && toks[i].end != -1
  {
    var js, toks := lead + (Spell(d) + trail), Marks(d, |lead|, 0, -1);
    TokenizeSpelled(lead, d, trail, Room(d));
    ParseSpans(js, Room(d), toks);
    MarksClosed(d, |lead|, 0, -1);
  }

  /** What holds of the tokens of a successful parse. */
  lemma ParseSpans(js: string, cap: nat, toks: seq<Token>)
    requires Run(js, cap, Initial()) == Halt(|toks|, State(|js|, -1, toks))
    ensures Linked(toks) && EndsApart(toks)
    ensures forall i :: 0 <= i < |toks| ==> TokenOk(js, |js|, toks[i]) && toks[i].end != -1
  {
    RunKeepsInv(js, cap, Initial());
  }

  lemma SpelledApart(js: string, d: Doc, pos: nat, toks: seq<Token>)
    requires DocOk(d) && TextAt(js, pos, Spell(d)) && Marked(toks, 0, d, pos, -1) && |toks| == Room(d)
    requires pos + |Spell(d)| == |js| || EnderAt(js, pos + |Spell(d)|)
    ensures AllApart(js, toks)
  {
    DocStands(js, pos, d);
    DocApart(js, toks, 0, d, pos, -1, |Spell(d)|);
  }

  lemma SpelledInside(lead: string, d: Doc, trail: string, js: string, text: string)
    requires Gap(trail) && js == lead + (Spell(d) + trail) && js < text
    ensures TextAt(text, |lead|, Spell(d)) && TextAt(js, |lead|, Spell(d))
    ensures |lead| + |Spell(d)| == |js| || EnderAt(js, |lead| + |Spell(d)|)
  {
    TextWhole(js);
    TextSplit(js, 0, lead, Spell(d) + trail);
    TextSplit(js, |lead|, Spell(d), trail);
    TextFurther(js, text, |lead|, Spell(d));
    if trail != "" {
      TextChar(js, |lead| + |Spell(d)|, trail, 0);
    }
  }

  lemma TextFurther(js: string, text: string, pos: nat, w: string)
    requires js <= text && TextAt(js, pos, w)
    ensures TextAt(text, pos, w)
  {
    assert text[pos..pos + |w|] == text[..|js|][pos..pos + |w|];
  }

  lemma SpelledMakes(text: string, d: Doc, pos: nat, toks: seq<Token>)
    requires DocOk(d) && TextAt(text, pos, Spell(d)) && Linked(toks) && Marked(toks, 0, d, pos, -1)
    ensures Grown(text, toks, DocNodes(d, 0))
  {
    DocStands(text, pos, d);
    assert LinkTo(text, toks, [], 0) + DocNodes(d, 0) == DocNodes(d, 0);
    MakeDoc(text, toks, [], d, pos, -1, DocNodes(d, 0));
  }

  lemma SpelledConverts(lead: string, d: Doc, trail: string, text: string)
    requires Gap(lead) && DocOk(d) && Gap(trail) && !(IsPrimitive(d) && trail == "")
    requires lead + (Spell(d) + trail) < text
    ensures var toks := Marks(d, |lead|, 0, -1);
      && WellFormed(Start(text, toks))
      && ConvertFrom(Start(text, toks), 0).objs == DocNodes(d, 0)
      && !ConvertFrom(Start(text, toks), 0).invalid
    ensures Forest(DocNodes(d, 0), Room(d)) && Stands(DocNodes(d, 0), 0, TreeOf(d))
  {
    var js, toks := lead + (Spell(d) + trail), Marks(d, |lead|, 0, -1);
    SpelledSpans(lead, d, trail);
    SpelledInside(lead, d, trail, js, text);
    SpelledTable(js, text, d, |lead|, toks);
  }

  lemma SpelledTable(js: string, text: string, d: Doc, pos: nat, toks: seq<Token>)
    requires DocOk(d) && js < text && TextAt(js, pos, Spell(d)) && TextAt(text, pos, Spell(d))
    requires pos + |Spell(d)| == |js| || EnderAt(js, pos + |Spell(d)|)
    requires toks == Marks(d, pos, 0, -1) && Linked(toks) && EndsApart(toks)
    requires forall i :: 0 <= i < |toks| ==> TokenOk(js, |js|, toks[i]) && toks[i].end != -1
    ensures WellFormed(Start(text, toks)) && ConvertFrom(Start(text, toks), 0).objs == DocNodes(d, 0)
    ensures !ConvertFrom(Start(text, toks), 0).invalid
    ensures Forest(DocNodes(d, 0), Room(d)) && Stands(DocNodes(d, 0), 0, TreeOf(d))
  {
    SpelledIsParsed(js, text, d, pos, toks);
    SpelledMakes(text, d, pos, toks);
    GrownIsConverted(js, text, toks, DocNodes(d, 0));
    ConvertKeepsForest(Start(text, toks), 0);
    RootStands(d);
  }

  lemma RootStands(d: Doc)
    requires DocOk(d) && Forest(DocNodes(d, 0), Room(d))
    ensures Stands(DocNodes(d, 0), 0, TreeOf(d))
  {
    assert SliceAt(DocNodes(d, 0), 0, DocNodes(d, 0));
    TreeStands(DocNodes(d, 0), d, 0);
  }

  /** Whatever the spelling, with white space around it or not: parsing gives the tree, as soon as
      there is room for its tokens; only a number or name at the very end waits for more. */
  lemma SpelledParses(lead: string, d: Doc, trail: string, text: string, maxTokens: nat)
    requires Gap(lead) && DocOk(d) && Gap(trail) && lead + (Spell(d) + trail) < text && Room(d) <= maxTokens
    ensures var p := ParseText(text, |lead + (Spell(d) + trail)|, maxTokens);
      if IsPrimitive(d) && trail == "" then p == Parse(ERROR_PART, None)
      else p.code == Room(d) && p.objs.Some?
           && Forest(p.objs.value, |p.objs.value|) && Stands(p.objs.value, 0, TreeOf(d))
  {
    var js := lead + (Spell(d) + trail);
    assert text[..|js|] == js;
    TokenizeSpelled(lead, d, trail, maxTokens);
    SpelledNotEmpty(d);
    if !(IsPrimitive(d) && trail == "") {
      SpelledConverts(lead, d, trail, text);
    }
  }

  lemma SpelledNotEmpty(d: Doc)
    requires DocOk(d)
    ensures Spell(d) != ""
  {
    if d.Number? {
      NumeralChars(d.numeral);
    }
  }

  /** No white space at all: an object that ends right behind a number. */
  lemma CompactExample()
    ensures var p := ParseText("{\"x\":5}\0", 7, 3);
      p.code == 3 && p.objs.Some? && Stands(p.objs.value, 0, Obj([Json.Member("x", Int(5))]))
  {
    var five := Number(Numeral(false, "5", "", NoExponent));
    var ms := JsonSpelling.Member("", [Itself('x')], "", "", five, "", NoMember);
    FiveIs(five);
    XIs(ms);
    assert Spell(Record("", ms)) == "{\"x\":5}";
    assert "" + (Spell(Record("", ms)) + "") == "{\"x\":5}";
    assert MemberTrees(ms) == [Json.Member("x", TreeOf(five))];
    SpelledParses("", Record("", ms), "", "{\"x\":5}\0", 3);
  }

  lemma FiveIs(five: Doc)
    requires five == Number(Numeral(false, "5", "", NoExponent))
    ensures DocOk(five) && Spell(five) == "5" && TreeOf(five) == Int(5)
  {
    assert Decimal("5") == 5 by {
      assert "5"[..0] == "";
    }
  }

  lemma XIs(ms: Members)
    requires ms.Member? && ms.key == [Itself('x')] && ms.before == ms.left == ms.right == "" && ms.more == NoMember
    ensures UnitsText(ms.key) == "x" && SpellKey(ms) == "\"x\":" && SpellMembers(ms.more) == "}"
  {
    assert ms.key[1..] == [];
    assert UnitsText(ms.key) == "x";
    assert Quoted(ms.key) == "\"x\"";
  }
}
