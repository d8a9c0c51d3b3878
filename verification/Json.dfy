/** JSON trees and their printers, after json.h. */
module Json {
  import opened Common

  datatype Value =
    | Str(text: string)
    | Int(value: int)
    | Bool(flag: bool)
    | Obj(members: seq<Member>)
    | List(items: seq<Value>)

  datatype Member = Member(key: string, value: Value)

  // ---------------------------------------------------------------- numbers

  /** The digits of %d for a number that is not negative. */
  function Digits(n: nat): (s: string)
    ensures |s| > 0
  {
    if n < 10 then [n as char + '0'] else Digits(n / 10) + [(n % 10) as char + '0']
  }

  function IntText(v: int): string {
    if v < 0 then "-" + Digits(-v) else Digits(v)
  }

  function DigitValue(c: char): int {
    if '0' <= c <= '9' then (c - '0') as int
    else if 'a' <= c <= 'z' then (c - 'a') as int + 10
    else if 'A' <= c <= 'Z' then (c - 'A') as int + 10
    else 36
  }

  /** The number the leading digits of `s` stand for, after `acc`. */
  function ReadDigits(s: string, base: nat, acc: nat): nat
  {
    if s == "" || DigitValue(s[0]) >= base then acc
    else ReadDigits(s[1..], base, acc * base + DigitValue(s[0]))
  }

  /** The base-0 prefix rule of strtol, after the sign. */
  function ReadPrefixed(s: string): nat {
    if |s| >= 3 && s[0] == '0' && (s[1] == 'x' || s[1] == 'X') && DigitValue(s[2]) < 16 then
      ReadDigits(s[2..], 16, 0)
    else if |s| >= 1 && s[0] == '0' then ReadDigits(s, 8, 0)
    else ReadDigits(s, 10, 0)
  }

  const INT_MIN := -0x8000_0000
  const INT_MAX := 0x7fff_ffff

  function Clamp(v: int): int {
    if v < INT_MIN then INT_MIN else if v > INT_MAX then INT_MAX else v
  }

  predicate IsSpace(c: char) {
    c == ' ' || 9 as char <= c <= 13 as char
  }

  /** strtol(s, NULL, 0) where long has 32 bits. */
  function StrToL(s: string): int {
    if s != "" && IsSpace(s[0]) then StrToL(s[1..])
    else if s != "" && s[0] == '-' then Clamp(0 - ReadPrefixed(s[1..]))
    else if s != "" && s[0] == '+' then Clamp(ReadPrefixed(s[1..]))
    else Clamp(ReadPrefixed(s))
  }

  lemma {:induction false} ReadDigitsAppend(s: string, t: string, acc: nat)
    requires forall i :: 0 <= i < |s| ==> '0' <= s[i] <= '9'
    ensures ReadDigits(s + t, 10, acc) == ReadDigits(t, 10, ReadDigits(s, 10, acc))
  {
    if s == "" {
      assert s + t == t;
    } else {
      assert (s + t)[1..] == s[1..] + t;
      ReadDigitsAppend(s[1..], t, acc * 10 + DigitValue(s[0]));
    }
  }

  lemma {:induction false} DigitsShape(n: nat)
    ensures forall i :: 0 <= i < |Digits(n)| ==> '0' <= Digits(n)[i] <= '9'
    ensures Digits(n)[0] == '0' ==> n == 0
  {
    if n >= 10 {
      DigitsShape(n / 10);
    }
  }

  lemma {:induction false} ReadDigitsOfDigits(n: nat)
    ensures ReadDigits(Digits(n), 10, 0) == n
  {
    if n >= 10 {
      DigitsShape(n / 10);
      ReadDigitsOfDigits(n / 10);
      var last := [(n % 10) as char + '0'];
      ReadDigitsAppend(Digits(n / 10), last, 0);
      assert last[1..] == "";
    } else {
      assert Digits(n)[1..] == "";
    }
  }

  lemma ReadPrefixedOfDigits(n: nat)
    ensures ReadPrefixed(Digits(n)) == n
  {
    DigitsShape(n);
    ReadDigitsOfDigits(n);
    if n == 0 {
      assert Digits(0)[1..] == "";
    }
  }

  /** Reading back what %d printed gives the same 32-bit number. */
  lemma IntRoundTrip(v: int)
    requires INT_MIN <= v <= INT_MAX
    ensures StrToL(IntText(v)) == v
  {
    if v < 0 {
      ReadPrefixedOfDigits(-v);
      assert IntText(v)[1..] == Digits(-v);
    } else {
      ReadPrefixedOfDigits(v);
      DigitsShape(v);
    }
  }

  // ---------------------------------------------------------------- rendering

  /** The text render() gives. */
  function Render(v: Value): string
    decreases v, 0
  {
    match v
    case Str(text) => "\"" + text + "\""
    case Int(value) => IntText(value)
    case Bool(flag) => if flag then "true" else "false"
    case Obj(members) => "{ \n" + RenderMembers(members, 0)
    case List(items) => "[ " + RenderItems(items, 0)
  }

  /** The members from `i` on, and the closing bracket. */
  function RenderMembers(ms: seq<Member>, i: nat): string
    decreases ms, |ms| - i
  {
    if i >= |ms| then "}"
    else RenderMember(ms, i) + RenderMembers(ms, i + 1)
  }

  function RenderMember(ms: seq<Member>, i: nat): string
    requires i < |ms|
    decreases ms, 0
  {
    "  \"" + ms[i].key + "\" : " + Render(ms[i].value) + MemberTail(ms, i)
  }

  function MemberTail(ms: seq<Member>, i: nat): string {
    if i + 1 < |ms| then ",\n" else "\n"
  }

  /** The items from `i` on, and the closing bracket. */
  function RenderItems(vs: seq<Value>, i: nat): string
    decreases vs, |vs| - i
  {
    if i >= |vs| then " ]"
    else Render(vs[i]) + ItemTail(vs, i) + RenderItems(vs, i + 1)
  }

  function ItemTail(vs: seq<Value>, i: nat): string {
    if i + 1 < |vs| then ", " else ""
  }

  /** render() of a string buffer: each node returns its own text. */
  method RenderText(v: Value) returns (renderspace: string)
    ensures renderspace == Render(v)
    decreases v, 0
  {
    match v
    case Str(text) =>
      renderspace := "\"" + text + "\"";
    case Int(value) =>
      renderspace := IntText(value);
    case Bool(flag) =>
      renderspace := if flag then "true" else "false";
    case Obj(members) =>
      renderspace := RenderObjectText(members);
    case List(items) =>
      renderspace := RenderListText(items);
  }

  method RenderObjectText(members: seq<Member>) returns (renderspace: string)
    ensures renderspace == "{ \n" + RenderMembers(members, 0)
    decreases members, 1
  {
    renderspace := "{ \n";
    var i := 0;
    while i < |members|
      invariant 0 <= i <= |members|
      invariant renderspace + RenderMembers(members, i) == "{ \n" + RenderMembers(members, 0)
    {
      var text := RenderText(members[i].value);
      var line := "  \"" + members[i].key + "\" : " + text;
      if i != |members| - 1 {
        line := line + ",";
      }
      line := line + "\n";
      assert line == RenderMember(members, i);
      Regroup(renderspace, line, RenderMembers(members, i + 1));
      renderspace := renderspace + line;
      i := i + 1;
    }
    renderspace := renderspace + "}";
  }

  method RenderListText(items: seq<Value>) returns (renderspace: string)
    ensures renderspace == "[ " + RenderItems(items, 0)
    decreases items, 1
  {
    renderspace := "[ ";
    var i := 0;
    while i < |items|
      invariant 0 <= i <= |items|
      invariant renderspace + RenderItems(items, i) == "[ " + RenderItems(items, 0)
    {
      var text := RenderText(items[i]);
      if i != |items| - 1 {
        text := text + ", ";
      }
      assert text == Render(items[i]) + ItemTail(items, i);
      Regroup(renderspace, text, RenderItems(items, i + 1));
      renderspace := renderspace + text;
      i := i + 1;
    }
    renderspace := renderspace + " ]";
  }
}
