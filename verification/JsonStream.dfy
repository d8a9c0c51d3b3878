/** The second printer of json.h, which writes to a stream: what it writes, and when that is
    the text of the first. */
module JsonStream {
  import opened Common
  import opened Json
  import opened Printf
  import opened Jsmn
  import opened JsonTokens
  import opened JsonTree
  import opened JsonRoundTrip

  // ---------------------------------------------------------------- what the printer writes

  /** Each call of format is cut by itself; commas, line ends and closing braces never are. */
  function Shown(v: Value): string
    decreases v, 0
  {
    match v
    case Str(text) => Cut("\"" + text + "\"")
    case Int(value) => Cut(IntText(value))
    case Bool(flag) => if flag then "true" else "false"
    case Obj(members) => "{ \n" + ShownMembers(members, 0)
    case List(items) => "[ " + ShownItems(items, 0)
  }

  function ShownMembers(ms: seq<Member>, i: nat): string
    decreases ms, |ms| - i
  {
    if i >= |ms| then "}"
    else ShownMember(ms, i) + ShownMembers(ms, i + 1)
  }

  function ShownMember(ms: seq<Member>, i: nat): string
    requires i < |ms|
    decreases ms, 0
  {
    Cut("  \"" + ms[i].key + "\" : ") + Shown(ms[i].value) + MemberTail(ms, i)
  }

  function ShownItems(vs: seq<Value>, i: nat): string
    decreases vs, |vs| - i
  {
    if i >= |vs| then " ]"
    else Shown(vs[i]) + ItemTail(vs, i) + ShownItems(vs, i + 1)
  }

  // ---------------------------------------------------------------- the formats in use

  /** One string between two plain texts. */
  lemma {:induction false} StringFormat(fmt: string, before: string, text: string, behind: string)
    requires fmt == before + "%s" + behind && '%' !in before && '%' !in behind
    ensures Matches(fmt, [Text(text)]) && Expand(fmt, [Text(text)]) == before + text + behind
    decreases |before|
  {
    if before == "" {
      assert fmt == "%s" + behind && fmt[2..] == behind && [Text(text)][1..] == [];
      PlainFormat(behind);
      assert before + text == text;
    } else {
      var rest, shown := before[1..] + "%s" + behind, before[1..] + text + behind;
      StringFormat(rest, before[1..], text, behind);
      FormatHead(before[0], rest, [Text(text)]);
      assert fmt == [before[0]] + rest && before + text + behind == [before[0]] + shown;
    }
  }

  lemma FormatHead(c: char, rest: string, args: seq<Arg>)
    requires c != '%' && Matches(rest, args)
    ensures Matches([c] + rest, args) && Expand([c] + rest, args) == [c] + Expand(rest, args)
  {
    assert ([c] + rest)[1..] == rest;
  }

  lemma QuotedFormat(text: string)
    ensures Matches("\"%s\"", [Text(text)]) && Expand("\"%s\"", [Text(text)]) == "\"" + text + "\""
  {
    StringFormat("\"%s\"", "\"", text, "\"");
  }

  lemma KeyFormat(key: string)
    ensures Matches("  \"%s\" : ", [Text(key)]) && Expand("  \"%s\" : ", [Text(key)]) == "  \"" + key + "\" : "
  {
    StringFormat("  \"%s\" : ", "  \"", key, "\" : ");
  }

  lemma NumberFormat(n: int)
    ensures Matches("%d", [Number(n)]) && Expand("%d", [Number(n)]) == IntText(n)
  {
    assert "%d"[2..] == "" && [Number(n)][1..] == [];
  }

  /** A format without a percent sign is written as it is. */
  lemma {:induction false} PlainFormat(fmt: string)
    requires '%' !in fmt
    ensures Matches(fmt, []) && Expand(fmt, []) == fmt
  {
    if fmt != "" {
      PlainFormat(fmt[1..]);
    }
  }

  // ---------------------------------------------------------------- the code

  /** render(StreamRamFile *): every node appends to the one stream. */
  method RenderValue(v: Value, s: Stream)
    modifies s
    ensures s.written == old(s.written) + Shown(v)
    decreases v, 0
  {
    match v
    case Str(text) =>
      QuotedFormat(text);
      s.Format("\"%s\"", [Text(text)]);
    case Int(value) =>
      NumberFormat(value);
      s.Format("%d", [Number(value)]);
    case Bool(flag) =>
      PlainFormat(if flag then "true" else "false");
      s.Format(if flag then "true" else "false", []);
    case Obj(members) =>
      RenderObject(members, s);
    case List(items) =>
      RenderList(items, s);
  }

  method RenderMemberLine(members: seq<Member>, i: nat, s: Stream)
    requires i < |members|
    modifies s
    ensures s.written == old(s.written) + ShownMember(members, i)
    decreases members, 0
  {
    KeyFormat(members[i].key);
    s.Format("  \"%s\" : ", [Text(members[i].key)]);
    RenderValue(members[i].value, s);
    if i != |members| - 1 {
      s.CharOut(',');
    }
    s.CharOut('\n');
  }

  method RenderObject(members: seq<Member>, s: Stream)
    modifies s
    ensures s.written == old(s.written) + ("{ \n" + ShownMembers(members, 0))
    decreases members, 1
  {
    ghost var goal := s.written + ("{ \n" + ShownMembers(members, 0));
    PlainFormat("{ \n");
    s.Format("{ \n", []);
    var i := 0;
    while i < |members|
      invariant 0 <= i <= |members|
      invariant s.written + ShownMembers(members, i) == goal
    {
      Regroup(s.written, ShownMember(members, i), ShownMembers(members, i + 1));
      RenderMemberLine(members, i, s);
      i := i + 1;
    }
    s.CharOut('}');
  }

  method RenderItem(items: seq<Value>, i: nat, s: Stream)
    requires i < |items|
    modifies s
    ensures s.written == old(s.written) + (Shown(items[i]) + ItemTail(items, i))
    decreases items, 0
  {
    RenderValue(items[i], s);
    if i != |items| - 1 {
      PlainFormat(", ");
      s.Format(", ", []);
    }
  }

  method RenderList(items: seq<Value>, s: Stream)
    modifies s
    ensures s.written == old(s.written) + ("[ " + ShownItems(items, 0))
    decreases items, 1
  {
    ghost var goal := s.written + ("[ " + ShownItems(items, 0));
    PlainFormat("[ ");
    s.Format("[ ", []);
    var i := 0;
    while i < |items|
      invariant 0 <= i <= |items|
      invariant s.written + ShownItems(items, i) == goal
    {
      Regroup(s.written, Shown(items[i]) + ItemTail(items, i), ShownItems(items, i + 1));
      RenderItem(items, i, s);
      i := i + 1;
    }
    PlainFormat(" ]");
    s.Format(" ]", []);
  }

  // ---------------------------------------------------------------- when it is the same text

  const LONGEST_STRING := 9997
  const LONGEST_KEY := 9992

  /** No string and no key is too long for its call of format. */
  predicate Short(v: Value) {
    match v
    case Str(text) => |text| <= LONGEST_STRING
    case Int(_) => true
    case Bool(_) => true
    case Obj(members) => forall i :: 0 <= i < |members| ==> ShortMember(members[i])
    case List(items) => forall i :: 0 <= i < |items| ==> Short(items[i])
  }

  predicate ShortMember(m: Member) {
    |m.key| <= LONGEST_KEY && Short(m.value)
  }

  /** The numbers are ints. */
  predicate Ints(v: Value) {
    match v
    case Str(_) => true
    case Int(value) => INT_MIN <= value <= INT_MAX
    case Bool(_) => true
    case Obj(members) => forall i :: 0 <= i < |members| ==> Ints(members[i].value)
    case List(items) => forall i :: 0 <= i < |items| ==> Ints(items[i])
  }

  lemma {:induction false} DigitsFew(n: nat, k: nat, bound: nat)
    requires k > 0 && n < bound && bound == Power10(k)
    ensures |Digits(n)| <= k
  {
    if n >= 10 {
      DigitsFew(n / 10, k - 1, bound / 10);
    }
  }

  function Power10(k: nat): nat {
    if k == 0 then 1 else 10 * Power10(k - 1)
  }

  /** A text printed part by part is the whole text if all parts are whole, and shorter otherwise. */
  predicate WholeIf(shown: string, whole: string, short: bool) {
    |shown| <= |whole| && (short ==> shown == whole) && (!short ==> |shown| < |whole|)
  }

  lemma WholeJoin(a: string, a': string, p: bool, b: string, b': string, q: bool)
    requires WholeIf(a, a', p) && WholeIf(b, b', q)
    ensures WholeIf(a + b, a' + b', p && q)
  {
  }

  lemma IntsAreShort(n: int)
    requires INT_MIN <= n <= INT_MAX
    ensures |IntText(n)| <= 11
  {
    var m := if n < 0 then -n else n;
    assert Power10(4) == 10000 && Power10(7) == 10000000 && Power10(10) == 10000000000;
    DigitsFew(m, 10, Power10(10));
  }

  lemma {:induction false} ShownOrCut(v: Value)
    requires Ints(v)
    ensures WholeIf(Shown(v), Render(v), Short(v))
    decreases v, 1
  {
    match v
    case Str(_) =>
    case Int(n) => IntsAreShort(n);
    case Bool(_) =>
    case Obj(ms) =>
      MembersShownOrCut(ms, 0);
      WholeJoin("{ \n", "{ \n", true, ShownMembers(ms, 0), RenderMembers(ms, 0), ShortFrom(ms, 0));
    case List(vs) =>
      ItemsShownOrCut(vs, 0);
      WholeJoin("[ ", "[ ", true, ShownItems(vs, 0), RenderItems(vs, 0), ShortItems(vs, 0));
  }

  predicate ShortFrom(ms: seq<Member>, i: nat) {
    forall k :: i <= k < |ms| ==> ShortMember(ms[k])
  }

  predicate ShortItems(vs: seq<Value>, i: nat) {
    forall k :: i <= k < |vs| ==> Short(vs[k])
  }

  lemma {:induction false} MembersShownOrCut(ms: seq<Member>, i: nat)
    requires forall k :: i <= k < |ms| ==> Ints(ms[k].value)
    ensures WholeIf(ShownMembers(ms, i), RenderMembers(ms, i), ShortFrom(ms, i))
    decreases ms, |ms| - i
  {
    if i < |ms| {
      var head, v := "  \"" + ms[i].key + "\" : ", ms[i].value;
      ShownOrCut(v);
      WholeJoin(Cut(head), head, |ms[i].key| <= LONGEST_KEY, Shown(v), Render(v), Short(v));
      WholeJoin(Cut(head) + Shown(v), head + Render(v), ShortMember(ms[i]), MemberTail(ms, i), MemberTail(ms, i), true);
      MembersShownOrCut(ms, i + 1);
      WholeJoin(ShownMember(ms, i), RenderMember(ms, i), ShortMember(ms[i]),
                ShownMembers(ms, i + 1), RenderMembers(ms, i + 1), ShortFrom(ms, i + 1));
      assert ShortFrom(ms, i) == (ShortMember(ms[i]) && ShortFrom(ms, i + 1));
    }
  }

  lemma {:induction false} ItemsShownOrCut(vs: seq<Value>, i: nat)
    requires forall k :: i <= k < |vs| ==> Ints(vs[k])
    ensures WholeIf(ShownItems(vs, i), RenderItems(vs, i), ShortItems(vs, i))
    decreases vs, |vs| - i
  {
    if i < |vs| {
      var v := vs[i];
      ShownOrCut(v);
      WholeJoin(Shown(v), Render(v), Short(v), ItemTail(vs, i), ItemTail(vs, i), true);
      ItemsShownOrCut(vs, i + 1);
      WholeJoin(Shown(v) + ItemTail(vs, i), Render(v) + ItemTail(vs, i), Short(v),
                ShownItems(vs, i + 1), RenderItems(vs, i + 1), ShortItems(vs, i + 1));
      assert ShortItems(vs, i) == (Short(v) && ShortItems(vs, i + 1));
    }
  }

  /** The two printers give the same text if and only if no string has more than 9997 characters
      and no key more than 9992. */
  lemma StreamTextExactly(v: Value)
    requires Ints(v)
    ensures Shown(v) == Render(v) <==> Short(v)
  {
    ShownOrCut(v);
  }

  // ---------------------------------------------------------------- what that means to a reader

  lemma {:induction false} PrintableInts(v: Value)
    requires Printable(v)
    ensures Ints(v)
  {
    match v
    case Obj(ms) =>
      forall i | 0 <= i < |ms|
        ensures Ints(ms[i].value)
      {
        PrintableInts(ms[i].value);
      }
    case List(vs) =>
      forall i | 0 <= i < |vs|
        ensures Ints(vs[i])
      {
        PrintableInts(vs[i]);
      }
    case _ =>
  }

  /** What was printed to a stream parses to the tree again, if its strings and keys are short. */
  lemma StreamThenParse(v: Value, text: string, maxTokens: nat)
    requires Printable(v) && !IsBare(v) && Short(v) && Shown(v) < text && Size(v) <= maxTokens
    ensures var p := ParseText(text, |Shown(v)|, maxTokens);
      p.code == Size(v) && p.objs.Some? && Forest(p.objs.value, |p.objs.value|) && Stands(p.objs.value, 0, v)
  {
    PrintableInts(v);
    StreamTextExactly(v);
    PrintThenParse(v, text, maxTokens);
  }

  lemma {:induction false} ScanUnclosed(js: string, p: nat)
    requires p <= |js| && Plain(js[p..])
    ensures ScanString(js, p) == Bad(ERROR_PART)
    decreases |js| - p
  {
    if p < |js| {
      assert js[p] == js[p..][0] && js[p + 1..] == js[p..][1..];
      ScanUnclosed(js, p + 1);
    }
  }

  /** A plain string of 9998 characters or more loses at least its closing quote, and the
      tokenizer takes what is left for an unfinished text. */
  lemma LongStringIsRefused(s: string, cap: nat)
    requires Plain(s) && |s| > LONGEST_STRING
    ensures Shown(Str(s)) == "\"" + s[..LONGEST_STRING + 1]
    ensures Run(Shown(Str(s)), cap, Initial()).code == ERROR_PART
  {
    var js := Shown(Str(s));
    assert js == "\"" + s[..LONGEST_STRING + 1];
    assert js[1..] == s[..LONGEST_STRING + 1];
    ScanUnclosed(js, 1);
    assert Step(js, cap, Initial()) == Halt(ERROR_PART, Initial());
  }

  /** 9998 letters: all of them come out, and no closing quote. */
  lemma LongStringExample()
    ensures var s := seq(9998, _ => 'a');
      && Render(Str(s)) == "\"" + s + "\"" && Shown(Str(s)) == "\"" + s
      && forall cap: nat :: Run(Shown(Str(s)), cap, Initial()).code == ERROR_PART
  {
    var s := seq(9998, _ => 'a');
    assert s[..9998] == s;
    forall cap: nat
      ensures Run(Shown(Str(s)), cap, Initial()).code == ERROR_PART
    {
      LongStringIsRefused(s, cap);
    }
  }
}
