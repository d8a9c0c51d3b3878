/** Tokenizing what the printer printed: the tokens are those of the tree, one by one. */
module JsonTokens {
  import opened Common
  import opened Jsmn
  import opened JsmnInvariants
  import opened Json

  /** A string or key that survives the trip: no quote, no backslash, no NUL. */
  predicate Plain(s: string) {
    forall i :: 0 <= i < |s| ==> s[i] != '"' && s[i] != '\\' && s[i] != '\0'
  }

  /** Every string and key of the tree is plain and every number fits an int. */
  predicate Printable(v: Value) {
    match v
    case Str(text) => Plain(text)
    case Int(value) => INT_MIN <= value <= INT_MAX
    case Bool(_) => true
    case Obj(members) =>
      forall i :: 0 <= i < |members| ==> Plain(members[i].key) && Printable(members[i].value)
    case List(items) => forall i :: 0 <= i < |items| ==> Printable(items[i])
  }

  /** Numbers and booleans, which need a delimiter after them. */
  predicate IsBare(v: Value) {
    v.Int? || v.Bool?
  }

  // ---------------------------------------------------------------- the tokens of a tree

  function Size(v: Value): (n: nat)
    ensures n > 0
    decreases v, 0
  {
    match v
    case Obj(members) => 1 + MembersSize(members, 0)
    case List(items) => 1 + ItemsSize(items, 0)
    case _ => 1
  }

  function MembersSize(ms: seq<Member>, i: nat): nat
    decreases ms, |ms| - i
  {
    if i >= |ms| then 0 else 1 + Size(ms[i].value) + MembersSize(ms, i + 1)
  }

  function ItemsSize(vs: seq<Value>, i: nat): nat
    decreases vs, |vs| - i
  {
    if i >= |vs| then 0 else Size(vs[i]) + ItemsSize(vs, i + 1)
  }

  /** The tokens of `v` printed at `pos`, the first numbered `index`. */
  function Tokens(v: Value, pos: nat, index: nat, parent: int): (t: seq<Token>)
    ensures |t| == Size(v)
    decreases v, 0
  {
    match v
    case Str(text) => [Token(String, pos + 1, pos + 1 + |text|, 0, parent)]
    case Obj(members) =>
      [Token(Object, pos, pos + |Render(v)|, |members|, parent)]
      + MemberTokens(members, 0, pos + 3, index + 1, index)
    case List(items) =>
      [Token(Array, pos, pos + |Render(v)|, |items|, parent)]
      + ItemTokens(items, 0, pos + 2, index + 1, index)
    case _ => [Token(Primitive, pos, pos + |Render(v)|, 0, parent)]
  }

  function KeyToken(key: string, pos: nat, size: nat, parent: int): Token {
    Token(String, pos + 3, pos + 3 + |key|, size, parent)
  }

  /** The members from `i` on, printed at `pos`: for each its key, then its value. */
  function MemberTokens(ms: seq<Member>, i: nat, pos: nat, index: nat, parent: int): (t: seq<Token>)
    ensures |t| == MembersSize(ms, i)
    decreases ms, |ms| - i
  {
    if i >= |ms| then []
    else
      [KeyToken(ms[i].key, pos, 1, parent)]
      + Tokens(ms[i].value, pos + |ms[i].key| + 7, index + 1, index)
      + MemberTokens(ms, i + 1, pos + |RenderMember(ms, i)|, index + 1 + Size(ms[i].value), parent)
  }

  function ItemTokens(vs: seq<Value>, i: nat, pos: nat, index: nat, parent: int): (t: seq<Token>)
    ensures |t| == ItemsSize(vs, i)
    decreases vs, |vs| - i
  {
    if i >= |vs| then []
    else
      Tokens(vs[i], pos, index, parent)
      + ItemTokens(vs, i + 1, pos + |Render(vs[i])| + |ItemTail(vs, i)|, index + Size(vs[i]), parent)
  }

  predicate AllClosed(toks: seq<Token>) {
    forall i :: 0 <= i < |toks| ==> !toks[i].IsOpen()
  }

  lemma {:induction false} TokensClosed(v: Value, pos: nat, index: nat, parent: int)
    ensures AllClosed(Tokens(v, pos, index, parent))
    decreases v, 0
  {
    match v
    case Obj(members) => MemberTokensClosed(members, 0, pos + 3, index + 1, index);
    case List(items) => ItemTokensClosed(items, 0, pos + 2, index + 1, index);
    case _ =>
  }

  lemma {:induction false} MemberTokensClosed(ms: seq<Member>, i: nat, pos: nat, index: nat, parent: int)
    ensures AllClosed(MemberTokens(ms, i, pos, index, parent))
    decreases ms, |ms| - i
  {
    if i < |ms| {
      TokensClosed(ms[i].value, pos + |ms[i].key| + 7, index + 1, index);
      MemberTokensClosed(ms, i + 1, pos + |RenderMember(ms, i)|, index + 1 + Size(ms[i].value), parent);
    }
  }

  lemma {:induction false} ItemTokensClosed(vs: seq<Value>, i: nat, pos: nat, index: nat, parent: int)
    ensures AllClosed(ItemTokens(vs, i, pos, index, parent))
    decreases vs, |vs| - i
  {
    if i < |vs| {
      TokensClosed(vs[i], pos, index, parent);
      ItemTokensClosed(vs, i + 1, pos + |Render(vs[i])| + |ItemTail(vs, i)|, index + Size(vs[i]), parent);
    }
  }

  // ---------------------------------------------------------------- text at a position

  predicate TextAt(js: string, p: nat, w: string) {
    p + |w| <= |js| && js[p..p + |w|] == w
  }

  lemma TextChar(js: string, p: nat, w: string, k: nat)
    requires TextAt(js, p, w) && k < |w|
    ensures p + k < |js| && js[p + k] == w[k]
  {
    assert js[p..p + |w|][k] == js[p + k];
  }

  lemma TextSplit(js: string, p: nat, a: string, b: string)
    requires TextAt(js, p, a + b)
    ensures TextAt(js, p, a) && TextAt(js, p + |a|, b)
  {
    var w := js[p..p + |a + b|];
    assert w[..|a|] == a && w[|a|..] == b;
    assert js[p..p + |a|] == w[..|a|];
    assert js[p + |a|..p + |a| + |b|] == w[|a|..];
  }

  // ---------------------------------------------------------------- scanning printed leaves

  lemma {:induction false} ScanPlainString(js: string, p: nat, s: string)
    requires Plain(s) && TextAt(js, p, s + "\"")
    ensures ScanString(js, p) == Found(p + |s|)
    decreases |s|
  {
    TextChar(js, p, s + "\"", 0);
    if s != "" {
      assert s + "\"" == [s[0]] + (s[1..] + "\"");
      TextSplit(js, p, [s[0]], s[1..] + "\"");
      ScanPlainString(js, p + 1, s[1..]);
    }
  }

  predicate PrimitiveText(s: string) {
    && s != "" && StartsPrimitive(s[0])
    && forall i :: 0 <= i < |s| ==> ' ' < s[i] < 127 as char && !EndsPrimitive(s[i])
  }

  lemma {:induction false} ScanPrintedPrimitive(js: string, p: nat, s: string)
    requires forall i :: 0 <= i < |s| ==> ' ' < s[i] < 127 as char && !EndsPrimitive(s[i])
    requires TextAt(js, p, s) && p + |s| < |js| && EndsPrimitive(js[p + |s|])
    ensures ScanPrimitive(js, p) == Found(p + |s|)
    decreases |s|
  {
    if s != "" {
      TextChar(js, p, s, 0);
      assert s == [s[0]] + s[1..];
      TextSplit(js, p, [s[0]], s[1..]);
      ScanPrintedPrimitive(js, p + 1, s[1..]);
    }
  }

  lemma BareText(v: Value)
    requires IsBare(v)
    ensures PrimitiveText(Render(v))
  {
    if v.Int? {
      DigitsShape(if v.value < 0 then -v.value else v.value);
    }
  }

  // ---------------------------------------------------------------- steps over printed text

  lemma StepBlank(js: string, cap: nat, s: State)
    requires Reached(js, cap, s) && s.pos < |js| && IsBlank(js[s.pos])
    ensures Reached(js, cap, s.(pos := s.pos + 1))
  {
    ReachedShaped(js, cap, s);
    ReachedNext(js, cap, s, s.(pos := s.pos + 1));
  }

  lemma StepColon(js: string, cap: nat, s: State)
    requires Reached(js, cap, s) && s.pos < |js| && js[s.pos] == ':'
    ensures Reached(js, cap, State(s.pos + 1, |s.toks| - 1, s.toks))
  {
    ReachedShaped(js, cap, s);
    ReachedNext(js, cap, s, State(s.pos + 1, |s.toks| - 1, s.toks));
  }

  /** The comma after a value takes the superior token back from a key to its object. */
  lemma StepComma(js: string, cap: nat, s: State)
    requires Reached(js, cap, s) && s.pos < |js| && js[s.pos] == ','
    requires 0 <= s.super < |s.toks|
    requires var k := s.toks[s.super].kind; k == String || k == Array
    ensures var super' := if s.toks[s.super].kind == String then s.toks[s.super].parent else s.super;
      Reached(js, cap, State(s.pos + 1, super', s.toks))
  {
    ReachedShaped(js, cap, s);
    ReachedNext(js, cap, s, Comma(s));
  }

  lemma StepString(js: string, cap: nat, s: State, text: string)
    requires Reached(js, cap, s) && |s.toks| < cap
    requires s.pos < |js| && js[s.pos] == '"' && Plain(text) && TextAt(js, s.pos + 1, text + "\"")
    ensures Reached(js, cap, State(s.pos + |text| + 2, s.super,
        Bump(s.toks, s.super) + [Token(String, s.pos + 1, s.pos + 1 + |text|, 0, s.super)]))
  {
    ReachedShaped(js, cap, s);
    var s' := StringTaken(js, cap, s, text);
    ReachedNext(js, cap, s, s');
  }

  lemma StringTaken(js: string, cap: nat, s: State, text: string) returns (s': State)
    requires Shaped(s) && |s.toks| < cap && s.pos < |js| && js[s.pos] == '"'
    requires Plain(text) && TextAt(js, s.pos + 1, text + "\"")
    ensures s' == State(s.pos + |text| + 2, s.super,
                        Bump(s.toks, s.super) + [Token(String, s.pos + 1, s.pos + 1 + |text|, 0, s.super)])
    ensures Step(js, cap, s) == Next(s')
  {
    ScanPlainString(js, s.pos + 1, text);
    s' := Quote(js, cap, s).s;
  }

  lemma StepBare(js: string, cap: nat, s: State, text: string)
    requires Reached(js, cap, s) && |s.toks| < cap && Welcome(s)
    requires PrimitiveText(text) && TextAt(js, s.pos, text)
    requires s.pos + |text| < |js| && EndsPrimitive(js[s.pos + |text|])
    ensures Reached(js, cap, State(s.pos + |text|, s.super,
        Bump(s.toks, s.super) + [Token(Primitive, s.pos, s.pos + |text|, 0, s.super)]))
  {
    ReachedShaped(js, cap, s);
    TextChar(js, s.pos, text, 0);
    ScanPrintedPrimitive(js, s.pos, text);
    ReachedNext(js, cap, s, Bare(js, cap, s).s);
  }

  lemma StepOpen(js: string, cap: nat, s: State, kind: TokenKind)
    requires Reached(js, cap, s) && |s.toks| < cap && Welcome(s) && s.pos < |js|
    requires (kind == Object && js[s.pos] == '{') || (kind == Array && js[s.pos] == '[')
    ensures Reached(js, cap, State(s.pos + 1, |s.toks|,
        Bump(s.toks, s.super) + [Token(kind, s.pos, -1, 0, s.super)]))
  {
    ReachedShaped(js, cap, s);
    ReachedNext(js, cap, s, Open(cap, s, kind).s);
  }

  /** The closing bracket finds the container that is being filled. */
  lemma StepClose(js: string, cap: nat, s: State, c: nat, kind: TokenKind)
    requires Reached(js, cap, s) && Filling(s, c, kind) && s.pos < |js|
    requires (kind == Object && js[s.pos] == '}') || (kind == Array && js[s.pos] == ']')
    ensures Reached(js, cap, Filled(s, c, 1, 0, []))
  {
    ReachedShaped(js, cap, s);
    assert Walk(s.toks, |s.toks| - 1) == c by {
      ReachedKeepsInv(js, cap, s);
      WalkFindsLastOpen(js, s);
    }
    assert Filled(s, c, 1, 0, []) == Close(s, kind).s;
    ReachedNext(js, cap, s, Close(s, kind).s);
  }

  /** Where a value may stand: at the top, in an array, or after a key that has no value yet. */
  predicate Welcome(s: State) {
    s.super == -1
    || (0 <= s.super < |s.toks|
        && (s.toks[s.super].kind == Array
            || (s.toks[s.super].kind == String && s.toks[s.super].size == 0)))
  }

  /** Container `c` is open, everything after it is closed. */
  predicate Filling(s: State, c: nat, kind: TokenKind)
  {
    c < |s.toks| && s.toks[c].IsOpen() && s.toks[c].kind == kind
    && forall i :: c < i < |s.toks| ==> !s.toks[i].IsOpen()
  }

  /** The state after the rest of container `c`, its bracket included: `width` characters on,
      `added` children more, their tokens in `rest`. */
  function Filled(s: State, c: nat, width: nat, added: nat, rest: seq<Token>): State
    requires c < |s.toks|
  {
    var t := s.toks[c];
    State(s.pos + width, t.parent,
          s.toks[c := t.(size := t.size + added, end := s.pos + width)] + rest)
  }

  // ---------------------------------------------------------------- runs of steps

  lemma TakeBlanks(js: string, cap: nat, s: State, w: string)
    requires Reached(js, cap, s) && TextAt(js, s.pos, w) && |w| <= 2
    requires forall i :: 0 <= i < |w| ==> IsBlank(w[i])
    ensures Reached(js, cap, s.(pos := s.pos + |w|))
  {
    if |w| > 0 {
      TextChar(js, s.pos, w, 0);
      StepBlank(js, cap, s);
      if |w| > 1 {
        TextChar(js, s.pos, w, 1);
        StepBlank(js, cap, s.(pos := s.pos + 1));
      }
    }
  }

  lemma TakeColon(js: string, cap: nat, s: State) returns (s': State)
    requires Reached(js, cap, s) && TextAt(js, s.pos, " : ")
    ensures s' == State(s.pos + 3, |s.toks| - 1, s.toks) && Reached(js, cap, s')
  {
    s' := State(s.pos + 3, |s.toks| - 1, s.toks);
    TextChar(js, s.pos, " : ", 0);
    TextChar(js, s.pos, " : ", 1);
    TextChar(js, s.pos, " : ", 2);
    StepBlank(js, cap, s);
    StepColon(js, cap, s.(pos := s.pos + 1));
    StepBlank(js, cap, State(s.pos + 2, |s.toks| - 1, s.toks));
  }

  lemma TakeString(js: string, cap: nat, s: State, text: string) returns (s': State)
    requires Reached(js, cap, s) && |s.toks| < cap
    requires Plain(text) && TextAt(js, s.pos, "\"" + text + "\"")
    ensures s' == State(s.pos + |text| + 2, s.super,
                        Bump(s.toks, s.super) + [Token(String, s.pos + 1, s.pos + 1 + |text|, 0, s.super)])
    ensures Reached(js, cap, s')
  {
    s' := State(s.pos + |text| + 2, s.super,
                Bump(s.toks, s.super) + [Token(String, s.pos + 1, s.pos + 1 + |text|, 0, s.super)]);
    assert "\"" + text + "\"" == "\"" + (text + "\"");
    TextSplit(js, s.pos, "\"", text + "\"");
    TextChar(js, s.pos, "\"", 0);
    StepString(js, cap, s, text);
  }

  /** The state after the key and colon of a member. */
  function AfterKey(s: State, key: string): State {
    State(s.pos + |key| + 7, |s.toks|, Bump(s.toks, s.super) + [KeyToken(key, s.pos, 0, s.super)])
  }

  function MemberHead(key: string): (s: string)
    ensures |s| == |key| + 7
  {
    "  \"" + key + "\" : "
  }

  lemma KeyText(js: string, p: nat, key: string)
    requires TextAt(js, p, MemberHead(key))
    ensures TextAt(js, p, "  ")
    ensures TextAt(js, p + 2, "\"" + key + "\"")
    ensures TextAt(js, p + |key| + 4, " : ")
  {
    var quoted := "\"" + key + "\"";
    assert MemberHead(key) == "  " + (quoted + " : ");
    TextSplit(js, p, "  ", quoted + " : ");
    TextSplit(js, p + 2, quoted, " : ");
  }

  lemma TakeKey(js: string, cap: nat, s: State, key: string) returns (s': State)
    requires Reached(js, cap, s) && |s.toks| < cap
    requires Plain(key) && TextAt(js, s.pos, MemberHead(key))
    ensures s' == AfterKey(s, key) && Reached(js, cap, s')
  {
    KeyText(js, s.pos, key);
    TakeBlanks(js, cap, s, "  ");
    s' := TakeString(js, cap, s.(pos := s.pos + 2), key);
    s' := TakeColon(js, cap, s');
  }

  lemma TakeOpen(js: string, cap: nat, s: State, kind: TokenKind, head: string) returns (s': State)
    requires Reached(js, cap, s) && Welcome(s) && |s.toks| < cap
    requires (kind == Object && head == "{ \n") || (kind == Array && head == "[ ")
    requires TextAt(js, s.pos, head)
    ensures s' == State(s.pos + |head|, |s.toks|, Bump(s.toks, s.super) + [Token(kind, s.pos, -1, 0, s.super)])
    ensures Reached(js, cap, s') && Filling(s', |s.toks|, kind)
  {
    s' := State(s.pos + 1, |s.toks|, Bump(s.toks, s.super) + [Token(kind, s.pos, -1, 0, s.super)]);
    TextChar(js, s.pos, head, 0);
    StepOpen(js, cap, s, kind);
    assert head == [head[0]] + head[1..];
    TextSplit(js, s.pos, [head[0]], head[1..]);
    TakeBlanks(js, cap, s', head[1..]);
    s' := s'.(pos := s.pos + |head|);
  }

  // ---------------------------------------------------------------- values

  /** The state after value `v` was read. */
  function After(s: State, v: Value): State {
    State(s.pos + |Render(v)|, s.super,
          Bump(s.toks, s.super) + Tokens(v, s.pos, |s.toks|, s.super))
  }

  /** The text of `v` at the current position, room for its tokens, and a delimiter after a
      number or boolean. */
  predicate CanRead(js: string, cap: nat, s: State, v: Value) {
    && Printable(v) && TextAt(js, s.pos, Render(v)) && Welcome(s)
    && |s.toks| + Size(v) <= cap
    && (IsBare(v) ==> s.pos + |Render(v)| < |js| && EndsPrimitive(js[s.pos + |Render(v)|]))
  }

  /** Reading a printed value gives exactly the value's tokens. */
  lemma {:induction false} TakeValue(js: string, cap: nat, s: State, v: Value)
    requires Reached(js, cap, s) && CanRead(js, cap, s, v)
    ensures Reached(js, cap, After(s, v))
    decreases v, 1
  {
    match v
    case Obj(members) => TakeObject(js, cap, s, members);
    case List(items) => TakeList(js, cap, s, items);
    case _ => TakeLeaf(js, cap, s, v);
  }

  lemma TakeLeaf(js: string, cap: nat, s: State, v: Value)
    requires Reached(js, cap, s) && CanRead(js, cap, s, v) && !v.Obj? && !v.List?
    ensures Reached(js, cap, After(s, v))
  {
    if v.Str? {
      var s' := TakeString(js, cap, s, v.text);
      assert s' == After(s, v);
    } else {
      TakeBare(js, cap, s, v);
    }
  }

  lemma TakeBare(js: string, cap: nat, s: State, v: Value)
    requires Reached(js, cap, s) && CanRead(js, cap, s, v) && IsBare(v)
    ensures Reached(js, cap, After(s, v))
  {
    BareText(v);
    StepBare(js, cap, s, Render(v));
    assert Tokens(v, s.pos, |s.toks|, s.super) == [Token(Primitive, s.pos, s.pos + |Render(v)|, 0, s.super)];
  }

  lemma {:induction false} TakeObject(js: string, cap: nat, s: State, ms: seq<Member>)
    requires Reached(js, cap, s) && CanRead(js, cap, s, Obj(ms))
    ensures Reached(js, cap, After(s, Obj(ms)))
    decreases Obj(ms), 0
  {
    TextSplit(js, s.pos, "{ \n", RenderMembers(ms, 0));
    var s1 := TakeOpen(js, cap, s, Object, "{ \n");
    ObjectTokens(s, ms);
    TakeMembers(js, cap, s1, ms, 0, |s.toks|, After(s, Obj(ms)));
  }

  lemma {:induction false} TakeList(js: string, cap: nat, s: State, vs: seq<Value>)
    requires Reached(js, cap, s) && CanRead(js, cap, s, List(vs))
    ensures Reached(js, cap, After(s, List(vs)))
    decreases List(vs), 0
  {
    TextSplit(js, s.pos, "[ ", RenderItems(vs, 0));
    var s1 := TakeOpen(js, cap, s, Array, "[ ");
    ListTokens(s, vs);
    TakeItems(js, cap, s1, vs, 0, |s.toks|, After(s, List(vs)));
  }

  /** The tokens of a container are its own token, completed, and those of its children. */
  lemma ObjectTokens(s: State, ms: seq<Member>)
    ensures var s1 := State(s.pos + 3, |s.toks|, Bump(s.toks, s.super) + [Token(Object, s.pos, -1, 0, s.super)]);
      After(s, Obj(ms)) == Filled(s1, |s.toks|, |RenderMembers(ms, 0)|, |ms|,
                                  MemberTokens(ms, 0, s1.pos, |s1.toks|, |s.toks|))
  {
  }

  lemma ListTokens(s: State, vs: seq<Value>)
    ensures var s1 := State(s.pos + 2, |s.toks|, Bump(s.toks, s.super) + [Token(Array, s.pos, -1, 0, s.super)]);
      After(s, List(vs)) == Filled(s1, |s.toks|, |RenderItems(vs, 0)|, |vs|,
                                   ItemTokens(vs, 0, s1.pos, |s1.toks|, |s.toks|))
  {
  }

  /** One member of an object: its key, its value, its separator. */
  function AfterMember(s: State, ms: seq<Member>, i: nat): State
    requires i < |ms|
  {
    var q := |s.toks|;
    State(s.pos + |RenderMember(ms, i)|, if i + 1 < |ms| then s.super else q,
          Bump(s.toks, s.super) + [KeyToken(ms[i].key, s.pos, 1, s.super)]
          + Tokens(ms[i].value, s.pos + |ms[i].key| + 7, q + 1, q))
  }

  lemma MemberText(js: string, p: nat, ms: seq<Member>, i: nat)
    requires i < |ms| && TextAt(js, p, RenderMember(ms, i))
    ensures var q := p + |ms[i].key| + 7;
      && TextAt(js, p, MemberHead(ms[i].key))
      && TextAt(js, q, Render(ms[i].value))
      && TextAt(js, q + |Render(ms[i].value)|, MemberTail(ms, i))
  {
    var head, text, tail := MemberPieces(ms, i);
    ThreePieces(js, p, head, text, tail);
  }

  lemma MemberPieces(ms: seq<Member>, i: nat) returns (head: string, text: string, tail: string)
    requires i < |ms|
    ensures head == MemberHead(ms[i].key) && |head| == |ms[i].key| + 7
    ensures text == Render(ms[i].value) && tail == MemberTail(ms, i) && RenderMember(ms, i) == head + text + tail
  {
    head, text, tail := MemberHead(ms[i].key), Render(ms[i].value), MemberTail(ms, i);
  }

  lemma ThreePieces(js: string, p: nat, a: string, b: string, c: string)
    requires TextAt(js, p, a + b + c)
    ensures TextAt(js, p, a) && TextAt(js, p + |a|, b) && TextAt(js, p + |a| + |b|, c)
  {
    assert a + b + c == a + (b + c);
    TextSplit(js, p, a, b + c);
    TextSplit(js, p + |a|, b, c);
  }

  lemma {:induction false} TakeMember(js: string, cap: nat, s: State, ms: seq<Member>, i: nat)
    requires Reached(js, cap, s) && i < |ms| && 0 <= s.super < |s.toks|
    requires Plain(ms[i].key) && Printable(ms[i].value)
    requires TextAt(js, s.pos, RenderMember(ms, i)) && |s.toks| + 1 + Size(ms[i].value) <= cap
    ensures Reached(js, cap, AfterMember(s, ms, i))
    decreases ms, 0
  {
    var s1 := TakeMemberKey(js, cap, s, ms, i);
    TakeValue(js, cap, s1, ms[i].value);
    var s2 := MemberTokensSoFar(s, s1, ms, i);
    var s3 := TakeMemberTail(js, cap, s2, |s.toks|, ms, i);
  }

  /** The key of a member; its value can be read then, and its separator comes behind. */
  lemma TakeMemberKey(js: string, cap: nat, s: State, ms: seq<Member>, i: nat) returns (s1: State)
    requires Reached(js, cap, s) && i < |ms| && 0 <= s.super < |s.toks|
    requires Plain(ms[i].key) && Printable(ms[i].value)
    requires TextAt(js, s.pos, RenderMember(ms, i)) && |s.toks| + 1 + Size(ms[i].value) <= cap
    ensures s1 == AfterKey(s, ms[i].key) && Reached(js, cap, s1) && CanRead(js, cap, s1, ms[i].value)
    ensures TextAt(js, s1.pos + |Render(ms[i].value)|, MemberTail(ms, i))
  {
    MemberText(js, s.pos, ms, i);
    s1 := TakeKey(js, cap, s, ms[i].key);
    TextChar(js, s1.pos + |Render(ms[i].value)|, MemberTail(ms, i), 0);
  }

  lemma MemberTokensSoFar(s: State, s1: State, ms: seq<Member>, i: nat) returns (s2: State)
    requires i < |ms| && 0 <= s.super < |s.toks| && s1 == AfterKey(s, ms[i].key)
    ensures s2 == After(s1, ms[i].value) && s2.pos == s1.pos + |Render(ms[i].value)|
    ensures s2.super == |s.toks| < |s2.toks| && s2.toks[|s.toks|] == KeyToken(ms[i].key, s.pos, 1, s.super)
    ensures AfterMember(s, ms, i)
         == State(s2.pos + |MemberTail(ms, i)|, if i + 1 < |ms| then s.super else |s.toks|, s2.toks)
  {
    var q := |s.toks|;
    s2 := After(s1, ms[i].value);
    assert s2.toks == Bump(s.toks, s.super) + [KeyToken(ms[i].key, s.pos, 1, s.super)]
                      + Tokens(ms[i].value, s.pos + |ms[i].key| + 7, q + 1, q);
  }

  lemma TakeMemberTail(js: string, cap: nat, s: State, q: nat, ms: seq<Member>, i: nat) returns (s': State)
    requires Reached(js, cap, s) && i < |ms| && TextAt(js, s.pos, MemberTail(ms, i))
    requires s.super == q < |s.toks| && s.toks[q].kind == String
    ensures s' == State(s.pos + |MemberTail(ms, i)|, if i + 1 < |ms| then s.toks[q].parent else q, s.toks)
    ensures Reached(js, cap, s')
  {
    s' := State(s.pos + |MemberTail(ms, i)|, if i + 1 < |ms| then s.toks[q].parent else q, s.toks);
    TextChar(js, s.pos, MemberTail(ms, i), 0);
    if i + 1 < |ms| {
      TextChar(js, s.pos, MemberTail(ms, i), 1);
      StepComma(js, cap, s);
      StepBlank(js, cap, State(s.pos + 1, s.toks[q].parent, s.toks));
    } else {
      StepBlank(js, cap, s);
    }
  }

  /** The members from `i` on and the closing brace. */
  lemma {:induction false} TakeMembers(js: string, cap: nat, s: State, ms: seq<Member>, i: nat, c: nat, end: State)
    requires Reached(js, cap, s) && Filling(s, c, Object) && i <= |ms|
    requires i < |ms| ==> s.super == c
    requires forall k :: i <= k < |ms| ==> Plain(ms[k].key) && Printable(ms[k].value)
    requires TextAt(js, s.pos, RenderMembers(ms, i)) && |s.toks| + MembersSize(ms, i) <= cap
    requires end == Filled(s, c, |RenderMembers(ms, i)|, |ms| - i, MemberTokens(ms, i, s.pos, |s.toks|, c))
    ensures Reached(js, cap, end)
    decreases ms, |ms| - i + 1
  {
    if i == |ms| {
      TakeObjectEnd(js, cap, s, c);
    } else {
      var s' := NextMember(js, cap, s, ms, i, c, end);
      TakeMembers(js, cap, s', ms, i + 1, c, end);
    }
  }

  lemma TakeObjectEnd(js: string, cap: nat, s: State, c: nat)
    requires Reached(js, cap, s) && Filling(s, c, Object) && TextAt(js, s.pos, "}")
    ensures Reached(js, cap, Filled(s, c, 1, 0, []))
  {
    TextChar(js, s.pos, "}", 0);
    StepClose(js, cap, s, c, Object);
  }

  /** Member `i`: the object goes on being filled, and will end the same. */
  lemma {:induction false} NextMember(js: string, cap: nat, s: State, ms: seq<Member>, i: nat, c: nat, end: State)
    returns (s': State)
    requires Reached(js, cap, s) && Filling(s, c, Object) && s.super == c && i < |ms|
    requires Plain(ms[i].key) && Printable(ms[i].value)
    requires TextAt(js, s.pos, RenderMembers(ms, i)) && |s.toks| + MembersSize(ms, i) <= cap
    requires end == Filled(s, c, |RenderMembers(ms, i)|, |ms| - i, MemberTokens(ms, i, s.pos, |s.toks|, c))
    ensures Reached(js, cap, s') && Filling(s', c, Object) && (i + 1 < |ms| ==> s'.super == c)
    ensures TextAt(js, s'.pos, RenderMembers(ms, i + 1)) && |s'.toks| + MembersSize(ms, i + 1) <= cap
    ensures end == Filled(s', c, |RenderMembers(ms, i + 1)|, |ms| - (i + 1),
                          MemberTokens(ms, i + 1, s'.pos, |s'.toks|, c))
    decreases ms, 1
  {
    TextSplit(js, s.pos, RenderMember(ms, i), RenderMembers(ms, i + 1));
    TakeMember(js, cap, s, ms, i);
    StillFillingObject(s, ms, i, c);
    MemberThenRest(s, ms, i, c);
    s' := AfterMember(s, ms, i);
  }

  lemma StillFillingObject(s: State, ms: seq<Member>, i: nat, c: nat)
    requires i < |ms| && Filling(s, c, Object) && s.super == c
    ensures Filling(AfterMember(s, ms, i), c, Object)
    ensures |AfterMember(s, ms, i).toks| == |s.toks| + 1 + Size(ms[i].value)
  {
    TokensClosed(ms[i].value, s.pos + |ms[i].key| + 7, |s.toks| + 1, |s.toks|);
  }

  /** One child more, its tokens `part`, and the rest of a container. */
  lemma FilledStep(s: State, s1: State, c: nat, width: nat, more: nat, total: nat, added: nat, children: nat,
                   part: seq<Token>, rest: seq<Token>, all: seq<Token>)
    requires c < |s.toks| && s1.pos == s.pos + width && s1.toks == Bump(s.toks, c) + part
    requires total == width + more && children == added + 1 && all == part + rest
    ensures Filled(s, c, total, children, all) == Filled(s1, c, more, added, rest)
  {
    var t := s.toks[c];
    assert s1.toks[c] == t.(size := t.size + 1);
    SetInFront(s.toks, part, rest, c, t.(size := t.size + 1), t.(size := t.size + added + 1, end := s1.pos + more));
  }

  lemma SetInFront(toks: seq<Token>, part: seq<Token>, rest: seq<Token>, c: nat, one: Token, last: Token)
    requires c < |toks|
    ensures (toks[c := one] + part)[c := last] + rest == toks[c := last] + (part + rest)
  {
  }

  /** The tokens of member `i`, and those of the members behind it. */
  lemma MemberTokensUnfold(ms: seq<Member>, i: nat, pos: nat, k: nat, c: int)
    returns (key: seq<Token>, value: seq<Token>, rest: seq<Token>)
    requires i < |ms|
    ensures key == [KeyToken(ms[i].key, pos, 1, c)]
    ensures value == Tokens(ms[i].value, pos + |ms[i].key| + 7, k + 1, k) && |value| == Size(ms[i].value)
    ensures rest == MemberTokens(ms, i + 1, pos + |RenderMember(ms, i)|, k + 1 + Size(ms[i].value), c)
    ensures MemberTokens(ms, i, pos, k, c) == key + (value + rest)
  {
    key := [KeyToken(ms[i].key, pos, 1, c)];
    value := Tokens(ms[i].value, pos + |ms[i].key| + 7, k + 1, k);
    rest := MemberTokens(ms, i + 1, pos + |RenderMember(ms, i)|, k + 1 + Size(ms[i].value), c);
    Regroup(key, value, rest);
  }

  lemma MemberThenRest(s: State, ms: seq<Member>, i: nat, c: nat)
    requires i < |ms| && s.super == c < |s.toks|
    ensures var s1 := AfterMember(s, ms, i);
      Filled(s, c, |RenderMembers(ms, i)|, |ms| - i, MemberTokens(ms, i, s.pos, |s.toks|, c))
      == Filled(s1, c, |RenderMembers(ms, i + 1)|, |ms| - i - 1, MemberTokens(ms, i + 1, s1.pos, |s1.toks|, c))
  {
    var key := [KeyToken(ms[i].key, s.pos, 1, c)];
    var value := Tokens(ms[i].value, s.pos + |ms[i].key| + 7, |s.toks| + 1, |s.toks|);
    var s1 := AfterMemberIs(s, ms, i, c, key, value);
    MemberFilled(s, s1, ms, i, c, key, value);
  }

  lemma MemberFilled(s: State, s1: State, ms: seq<Member>, i: nat, c: nat, key: seq<Token>, value: seq<Token>)
    requires i < |ms| && c < |s.toks| && key == [KeyToken(ms[i].key, s.pos, 1, c)]
    requires value == Tokens(ms[i].value, s.pos + |ms[i].key| + 7, |s.toks| + 1, |s.toks|)
    requires s1.pos == s.pos + |RenderMember(ms, i)| && s1.toks == Bump(s.toks, c) + (key + value)
    requires |s1.toks| == |s.toks| + 1 + Size(ms[i].value)
    ensures Filled(s, c, |RenderMembers(ms, i)|, |ms| - i, MemberTokens(ms, i, s.pos, |s.toks|, c))
         == Filled(s1, c, |RenderMembers(ms, i + 1)|, |ms| - i - 1, MemberTokens(ms, i + 1, s1.pos, |s1.toks|, c))
  {
    var key', value', part, rest := MemberAndRest(ms, i, s.pos, |s.toks|, c);
    FilledStep(s, s1, c, |RenderMember(ms, i)|, |RenderMembers(ms, i + 1)|, |RenderMembers(ms, i)|,
               |ms| - i - 1, |ms| - i, part, rest, MemberTokens(ms, i, s.pos, |s.toks|, c));
  }

  lemma MemberAndRest(ms: seq<Member>, i: nat, pos: nat, k: nat, c: int)
    returns (key: seq<Token>, value: seq<Token>, part: seq<Token>, rest: seq<Token>)
    requires i < |ms|
    ensures key == [KeyToken(ms[i].key, pos, 1, c)] && value == Tokens(ms[i].value, pos + |ms[i].key| + 7, k + 1, k)
    ensures part == key + value && MemberTokens(ms, i, pos, k, c) == part + rest
    ensures rest == MemberTokens(ms, i + 1, pos + |RenderMember(ms, i)|, k + 1 + Size(ms[i].value), c)
    ensures |RenderMembers(ms, i)| == |RenderMember(ms, i)| + |RenderMembers(ms, i + 1)|
  {
    key, value, rest := MemberTokensUnfold(ms, i, pos, k, c);
    part := key + value;
    Regroup(key, value, rest);
  }

  lemma AfterMemberIs(s: State, ms: seq<Member>, i: nat, c: nat, key: seq<Token>, value: seq<Token>)
    returns (s1: State)
    requires i < |ms| && s.super == c < |s.toks| && key == [KeyToken(ms[i].key, s.pos, 1, c)]
    requires value == Tokens(ms[i].value, s.pos + |ms[i].key| + 7, |s.toks| + 1, |s.toks|)
    ensures s1 == AfterMember(s, ms, i) && s1.pos == s.pos + |RenderMember(ms, i)|
    ensures s1.toks == Bump(s.toks, c) + (key + value) && |s1.toks| == |s.toks| + 1 + Size(ms[i].value)
  {
    s1 := AfterMember(s, ms, i);
    Regroup(Bump(s.toks, c), key, value);
  }

  /** One item of a list and its separator. */
  function AfterItem(s: State, vs: seq<Value>, i: nat): State
    requires i < |vs|
  {
    After(s, vs[i]).(pos := s.pos + |Render(vs[i])| + |ItemTail(vs, i)|)
  }

  lemma ItemText(js: string, p: nat, vs: seq<Value>, i: nat)
    requires i < |vs| && TextAt(js, p, RenderItems(vs, i))
    ensures var q := p + |Render(vs[i])|;
      && TextAt(js, p, Render(vs[i]))
      && TextAt(js, q, ItemTail(vs, i))
      && TextAt(js, q + |ItemTail(vs, i)|, RenderItems(vs, i + 1))
      && q < |js| && (js[q] == ',' || js[q] == ' ')
  {
    var text, tail, more := ItemAndRest(vs, i);
    ItemPieces(js, p, text, tail, more);
  }

  lemma ItemAndRest(vs: seq<Value>, i: nat) returns (text: string, tail: string, more: string)
    requires i < |vs|
    ensures text == Render(vs[i]) && tail == ItemTail(vs, i) && more == RenderItems(vs, i + 1)
    ensures RenderItems(vs, i) == text + tail + more
    ensures tail + more != "" && ((tail + more)[0] == ',' || (tail + more)[0] == ' ')
  {
    text, tail, more := Render(vs[i]), ItemTail(vs, i), RenderItems(vs, i + 1);
  }

  lemma ItemPieces(js: string, p: nat, a: string, tail: string, more: string)
    requires TextAt(js, p, a + tail + more) && tail + more != ""
    ensures TextAt(js, p, a) && TextAt(js, p + |a|, tail) && TextAt(js, p + |a| + |tail|, more)
    ensures p + |a| < |js| && js[p + |a|] == (tail + more)[0]
  {
    assert a + tail + more == a + (tail + more);
    TextSplit(js, p, a, tail + more);
    TextSplit(js, p + |a|, tail, more);
    TextChar(js, p + |a|, tail + more, 0);
  }

  lemma {:induction false} TakeItem(js: string, cap: nat, s: State, vs: seq<Value>, i: nat)
    requires Reached(js, cap, s) && i < |vs| && Printable(vs[i])
    requires 0 <= s.super < |s.toks| && s.toks[s.super].kind == Array
    requires TextAt(js, s.pos, RenderItems(vs, i)) && |s.toks| + Size(vs[i]) <= cap
    ensures Reached(js, cap, AfterItem(s, vs, i))
    decreases vs, 0
  {
    ItemReadable(js, cap, s, vs, i);
    TakeValue(js, cap, s, vs[i]);
    TakeItemTail(js, cap, After(s, vs[i]), vs, i);
  }

  lemma ItemReadable(js: string, cap: nat, s: State, vs: seq<Value>, i: nat)
    requires i < |vs| && Printable(vs[i]) && TextAt(js, s.pos, RenderItems(vs, i))
    requires 0 <= s.super < |s.toks| && s.toks[s.super].kind == Array && |s.toks| + Size(vs[i]) <= cap
    ensures CanRead(js, cap, s, vs[i]) && TextAt(js, s.pos + |Render(vs[i])|, ItemTail(vs, i))
  {
    ItemText(js, s.pos, vs, i);
  }

  lemma TakeItemTail(js: string, cap: nat, s: State, vs: seq<Value>, i: nat)
    requires Reached(js, cap, s) && i < |vs| && TextAt(js, s.pos, ItemTail(vs, i))
    requires 0 <= s.super < |s.toks| && s.toks[s.super].kind == Array
    ensures Reached(js, cap, s.(pos := s.pos + |ItemTail(vs, i)|))
  {
    if i + 1 < |vs| {
      TextChar(js, s.pos, ", ", 0);
      TextChar(js, s.pos, ", ", 1);
      StepComma(js, cap, s);
      StepBlank(js, cap, s.(pos := s.pos + 1));
    }
  }

  /** The items from `i` on and the closing bracket. */
  lemma {:induction false} TakeItems(js: string, cap: nat, s: State, vs: seq<Value>, i: nat, c: nat, end: State)
    requires Reached(js, cap, s) && Filling(s, c, Array) && s.super == c && i <= |vs|
    requires forall k :: i <= k < |vs| ==> Printable(vs[k])
    requires TextAt(js, s.pos, RenderItems(vs, i)) && |s.toks| + ItemsSize(vs, i) <= cap
    requires end == Filled(s, c, |RenderItems(vs, i)|, |vs| - i, ItemTokens(vs, i, s.pos, |s.toks|, c))
    ensures Reached(js, cap, end)
    decreases vs, |vs| - i + 1
  {
    if i == |vs| {
      TakeListEnd(js, cap, s, c);
    } else {
      var s' := NextItem(js, cap, s, vs, i, c, end);
      TakeItems(js, cap, s', vs, i + 1, c, end);
    }
  }

  /** Item `i`: the list goes on being filled, and will end the same. */
  lemma {:induction false} NextItem(js: string, cap: nat, s: State, vs: seq<Value>, i: nat, c: nat, end: State)
    returns (s': State)
    requires Reached(js, cap, s) && Filling(s, c, Array) && s.super == c && i < |vs| && Printable(vs[i])
    requires TextAt(js, s.pos, RenderItems(vs, i)) && |s.toks| + ItemsSize(vs, i) <= cap
    requires end == Filled(s, c, |RenderItems(vs, i)|, |vs| - i, ItemTokens(vs, i, s.pos, |s.toks|, c))
    ensures Reached(js, cap, s') && Filling(s', c, Array) && s'.super == c
    ensures TextAt(js, s'.pos, RenderItems(vs, i + 1)) && |s'.toks| + ItemsSize(vs, i + 1) <= cap
    ensures end == Filled(s', c, |RenderItems(vs, i + 1)|, |vs| - (i + 1), ItemTokens(vs, i + 1, s'.pos, |s'.toks|, c))
    decreases vs, 1
  {
    TakeItem(js, cap, s, vs, i);
    StillFillingList(s, vs, i, c);
    ItemThenRest(s, vs, i, c);
    s' := TextAfterItem(js, s, vs, i);
  }

  lemma TextAfterItem(js: string, s: State, vs: seq<Value>, i: nat) returns (s': State)
    requires i < |vs| && TextAt(js, s.pos, RenderItems(vs, i))
    ensures s' == AfterItem(s, vs, i) && TextAt(js, s'.pos, RenderItems(vs, i + 1))
    ensures s'.super == s.super && |s'.toks| == |s.toks| + Size(vs[i])
  {
    ItemText(js, s.pos, vs, i);
    s' := AfterItem(s, vs, i);
  }

  lemma TakeListEnd(js: string, cap: nat, s: State, c: nat)
    requires Reached(js, cap, s) && Filling(s, c, Array) && TextAt(js, s.pos, " ]")
    ensures Reached(js, cap, Filled(s, c, 2, 0, []))
  {
    TextChar(js, s.pos, " ]", 0);
    TextChar(js, s.pos, " ]", 1);
    StepBlank(js, cap, s);
    StepClose(js, cap, s.(pos := s.pos + 1), c, Array);
    assert Filled(s.(pos := s.pos + 1), c, 1, 0, []) == Filled(s, c, 2, 0, []);
  }

  lemma StillFillingList(s: State, vs: seq<Value>, i: nat, c: nat)
    requires i < |vs| && Filling(s, c, Array) && s.super == c
    ensures Filling(AfterItem(s, vs, i), c, Array)
    ensures |AfterItem(s, vs, i).toks| == |s.toks| + Size(vs[i])
  {
    TokensClosed(vs[i], s.pos, |s.toks|, c);
  }

  lemma ItemThenRest(s: State, vs: seq<Value>, i: nat, c: nat)
    requires i < |vs| && s.super == c < |s.toks|
    ensures var s1 := AfterItem(s, vs, i);
      Filled(s, c, |RenderItems(vs, i)|, |vs| - i, ItemTokens(vs, i, s.pos, |s.toks|, c))
      == Filled(s1, c, |RenderItems(vs, i + 1)|, |vs| - i - 1, ItemTokens(vs, i + 1, s1.pos, |s1.toks|, c))
  {
  }

  // ---------------------------------------------------------------- the whole text

  /** Tokenizing the printed text of a tree gives the tree's tokens, and the count of them,
      whenever the array has room; only a bare number or boolean at the top is refused. */
  lemma TokenizePrinted(v: Value, cap: nat)
    requires Printable(v) && Size(v) <= cap
    ensures var o := Run(Render(v), cap, Initial());
      if IsBare(v) then o.code == ERROR_PART
      else o == Halt(Size(v), State(|Render(v)|, -1, Tokens(v, 0, 0, -1)))
  {
    var js := Render(v);
    ReachedInitially(js, cap);
    if IsBare(v) {
      BareText(v);
      UnendedPrimitive(js, 0, js);
    } else {
      TakeValue(js, cap, Initial(), v);
      var s := State(|js|, -1, Tokens(v, 0, 0, -1));
      assert After(Initial(), v) == s;
      ReachedKeepsInv(js, cap, s);
      TokensClosed(v, 0, 0, -1);
    }
  }

  lemma {:induction false} UnendedPrimitive(js: string, p: nat, s: string)
    requires forall i :: 0 <= i < |s| ==> ' ' < s[i] < 127 as char && !EndsPrimitive(s[i])
    requires p + |s| == |js| && js[p..] == s
    ensures ScanPrimitive(js, p) == Bad(ERROR_PART)
    decreases |s|
  {
    if s != "" {
      assert js[p] == s[0] && js[p + 1..] == s[1..];
      UnendedPrimitive(js, p + 1, s[1..]);
    }
  }
}
