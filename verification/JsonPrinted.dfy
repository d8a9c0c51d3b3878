/** What the printer prints is JSON: for every tree, the spelling it chooses, blank by blank. */
module JsonPrinted {
  import opened Common
  import opened Json
  import opened JsonTokens
  import opened JsonSpelling
  import opened JsonReading

  /** Characters that stand for themselves. */
  function Units(s: string): seq<Unit> {
    seq(|s|, i requires 0 <= i < |s| => Itself(s[i]))
  }

  function Wrote(v: Value): Doc
    decreases v, 0
  {
    match v
    case Str(text) => Text(Units(text))
    case Int(value) =>
      Number(Numeral(value < 0, Digits(if value < 0 then -value else value), "", NoExponent))
    case Bool(flag) => Word(if flag then True else False)
    case Obj(members) => Record(" \n", WroteMembers(members, 0))
    case List(items) => if items == [] then Listing("  ", NoItem) else Listing("", WroteItems(items, 0))
  }

  /** A member has two blanks in front, one on each side of the colon, and ends its line. */
  function WroteMembers(ms: seq<Json.Member>, i: nat): Members
    decreases ms, |ms| - i
  {
    if i >= |ms| then NoMember
    else
      JsonSpelling.Member(if i == 0 then "  " else "\n  ", Units(ms[i].key), " ", " ", Wrote(ms[i].value),
                          if i + 1 < |ms| then "" else "\n", WroteMembers(ms, i + 1))
  }

  /** An item has a blank in front, the last one also behind. */
  function WroteItems(vs: seq<Value>, i: nat): Items
    decreases vs, |vs| - i
  {
    if i >= |vs| then NoItem
    else JsonSpelling.Item(" ", Wrote(vs[i]), if i + 1 < |vs| then "" else " ", WroteItems(vs, i + 1))
  }

  lemma {:induction false} UnitsAreText(s: string)
    requires Plain(s)
    ensures UnitsOk(Units(s)) && UnitsText(Units(s)) == s
  {
    if s != "" {
      UnitsAreText(s[1..]);
      assert Units(s)[1..] == Units(s[1..]);
      assert s == [s[0]] + s[1..];
    }
  }

  lemma {:induction false} DigitsAreDecimal(n: nat)
    ensures AllDigits(Digits(n)) && Decimal(Digits(n)) == n
    ensures Digits(n)[0] == '0' ==> |Digits(n)| == 1
  {
    DigitsShape(n);
    if n < 10 {
      assert Digits(n)[..0] == "";
      assert Decimal("") == 0;
    } else {
      DigitsAreDecimal(n / 10);
      var front, last := Digits(n / 10), [(n % 10) as char + '0'];
      assert Digits(n) == front + last && Digits(n)[..|Digits(n)| - 1] == front;
    }
  }

  lemma WholeNumber(v: int)
    requires INT_MIN <= v <= INT_MAX
    ensures DocOk(Wrote(Int(v))) && Spell(Wrote(Int(v))) == IntText(v) && TreeOf(Wrote(Int(v))) == Int(v)
  {
    var n := if v < 0 then -v else v;
    DigitsAreDecimal(n);
    PlainNumeral(v < 0, Digits(n));
    assert Render(Int(v)) == IntText(v);
  }

  lemma PlainNumeral(minus: bool, digits: string)
    ensures NumeralText(Numeral(minus, digits, "", NoExponent)) == if minus then "-" + digits else digits
  {
    var sign := if minus then ['-'] else [];
    assert sign + digits + [] + [] == sign + digits;
  }

  /** Printing is spelling: every tree in the printer's layout, which stands for that tree. */
  lemma {:induction false} PrintedIsSpelled(v: Value)
    requires Printable(v)
    ensures DocOk(Wrote(v)) && Spell(Wrote(v)) == Render(v) && TreeOf(Wrote(v)) == v
    decreases v, 1
  {
    match v
    case Str(text) => UnitsAreText(text);
    case Int(value) => WholeNumber(value);
    case Bool(_) =>
    case Obj(members) =>
      MembersAreSpelled(members, 0);
      ObjectText(members, WroteMembers(members, 0));
    case List(items) =>
      if items != [] {
        ItemsAreSpelled(items, 0);
      }
      ListText(items, WroteItems(items, 0));
  }

  lemma ObjectText(ms: seq<Json.Member>, wrote: Members)
    requires wrote == WroteMembers(ms, 0) && MembersOk(wrote) && SpellMembers(wrote) == RenderMembers(ms, 0)
    requires MemberTrees(wrote) == ms[0..]
    ensures DocOk(Wrote(Obj(ms))) && Spell(Wrote(Obj(ms))) == Render(Obj(ms)) && TreeOf(Wrote(Obj(ms))) == Obj(ms)
  {
    assert ['{'] + (" \n" + RenderMembers(ms, 0)) == "{ \n" + RenderMembers(ms, 0);
    assert ms[0..] == ms;
  }

  lemma ListText(vs: seq<Value>, wrote: Items)
    requires wrote == WroteItems(vs, 0)
    requires vs != [] ==>
      ItemsOk(wrote) && SpellItems(wrote) == " " + RenderItems(vs, 0) && ItemTrees(wrote) == vs[0..]
    ensures DocOk(Wrote(List(vs))) && Spell(Wrote(List(vs))) == Render(List(vs))
    ensures TreeOf(Wrote(List(vs))) == List(vs)
  {
    if vs == [] {
      EmptyJoins();
    } else {
      ListJoins(RenderItems(vs, 0));
      assert vs[0..] == vs;
    }
  }

  lemma EmptyJoins()
    ensures ['['] + ("  " + [']']) == "[ " + " ]"
  {
  }

  lemma ListJoins(rest: string)
    ensures ['['] + ("" + (" " + rest)) == "[ " + rest
  {
  }

  lemma {:induction false} MembersAreSpelled(ms: seq<Json.Member>, i: nat)
    requires i <= |ms| && forall k :: i <= k < |ms| ==> Plain(ms[k].key) && Printable(ms[k].value)
    ensures var wrote := WroteMembers(ms, i);
      && MembersOk(wrote) && MemberTrees(wrote) == ms[i..]
      && SpellMembers(wrote) == (if 0 < i < |ms| then "\n" else "") + RenderMembers(ms, i)
    decreases ms, |ms| - i
  {
    if i < |ms| {
      UnitsAreText(ms[i].key);
      PrintedIsSpelled(ms[i].value);
      MembersAreSpelled(ms, i + 1);
      MemberText(ms, i, WroteMembers(ms, i), Render(ms[i].value));
    }
  }

  lemma MemberText(ms: seq<Json.Member>, i: nat, wrote: Members, value: string)
    requires i < |ms| && wrote == WroteMembers(ms, i) && value == Render(ms[i].value) && Plain(ms[i].key)
    requires UnitsOk(Units(ms[i].key)) && UnitsText(Units(ms[i].key)) == ms[i].key
    requires DocOk(Wrote(ms[i].value)) && Spell(Wrote(ms[i].value)) == value
    requires TreeOf(Wrote(ms[i].value)) == ms[i].value
    requires var more := WroteMembers(ms, i + 1);
      && MembersOk(more) && MemberTrees(more) == ms[i + 1..]
      && SpellMembers(more) == (if i + 1 < |ms| then "\n" else "") + RenderMembers(ms, i + 1)
    ensures MembersOk(wrote) && MemberTrees(wrote) == ms[i..]
    ensures SpellMembers(wrote) == (if 0 < i then "\n" else "") + RenderMembers(ms, i)
  {
    assert ms[i..] == [Json.Member(ms[i].key, ms[i].value)] + ms[i + 1..];
    KeyText(ms, i, wrote);
    MemberJoins(if 0 < i then "\n" else "", ms[i].key, value, i + 1 < |ms|, RenderMembers(ms, i + 1));
  }

  lemma KeyText(ms: seq<Json.Member>, i: nat, wrote: Members)
    requires i < |ms| && wrote == WroteMembers(ms, i) && UnitsText(Units(ms[i].key)) == ms[i].key
    ensures SpellKey(wrote) == (if 0 < i then "\n" else "") + ("  \"" + ms[i].key + "\" : ")
    ensures wrote.after == if i + 1 < |ms| then "" else "\n"
    ensures MemberSep(wrote.more) == if i + 1 < |ms| then [','] else []
  {
    KeyJoins(if i == 0 then "  " else "\n  ", if 0 < i then "\n" else "", ms[i].key);
  }

  lemma KeyJoins(before: string, lead: string, key: string)
    requires before == lead + "  "
    ensures before + ((['"'] + (key + ['"'])) + (" " + ([':'] + " "))) == lead + ("  \"" + key + "\" : ")
  {
  }

  lemma MemberJoins(lead: string, key: string, value: string, more: bool, rest: string)
    ensures (lead + ("  \"" + key + "\" : "))
            + (value + ((if more then "" else "\n") + ((if more then [','] else [])
                                                       + ((if more then "\n" else "") + rest))))
         == lead + ("  \"" + key + "\" : " + value + (if more then ",\n" else "\n") + rest)
  {
  }

  lemma {:induction false} ItemsAreSpelled(vs: seq<Value>, i: nat)
    requires i < |vs| && forall k :: i <= k < |vs| ==> Printable(vs[k])
    ensures var wrote := WroteItems(vs, i);
      ItemsOk(wrote) && ItemTrees(wrote) == vs[i..] && SpellItems(wrote) == " " + RenderItems(vs, i)
    decreases vs, |vs| - i
  {
    PrintedIsSpelled(vs[i]);
    if i + 1 < |vs| {
      ItemsAreSpelled(vs, i + 1);
    }
    ItemText(vs, i, WroteItems(vs, i), Render(vs[i]));
  }

  lemma ItemText(vs: seq<Value>, i: nat, wrote: Items, value: string)
    requires i < |vs| && wrote == WroteItems(vs, i) && value == Render(vs[i])
    requires DocOk(Wrote(vs[i])) && Spell(Wrote(vs[i])) == value && TreeOf(Wrote(vs[i])) == vs[i]
    requires i + 1 < |vs| ==>
      var more := WroteItems(vs, i + 1);
      ItemsOk(more) && ItemTrees(more) == vs[i + 1..] && SpellItems(more) == " " + RenderItems(vs, i + 1)
    ensures ItemsOk(wrote) && ItemTrees(wrote) == vs[i..] && SpellItems(wrote) == " " + RenderItems(vs, i)
  {
    assert vs[i..] == [vs[i]] + vs[i + 1..];
    if i + 1 < |vs| {
      MiddleJoins(value, RenderItems(vs, i + 1));
    } else {
      LastJoins(value);
      assert vs[i + 1..] == [];
    }
  }

  lemma MiddleJoins(value: string, rest: string)
    ensures " " + (value + ("" + ([','] + (" " + rest)))) == " " + (value + ", " + rest)
  {
  }

  lemma LastJoins(value: string)
    ensures " " + (value + (" " + ([] + [']']))) == " " + (value + "" + " ]")
  {
  }
}
