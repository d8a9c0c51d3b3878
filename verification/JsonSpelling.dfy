/** Every way to write JSON down, after RFC 8259, and the tokens that each of them has. The
    spellings are given character by character; nothing here is told by the scanner's own sets
    of characters. */
module JsonSpelling {
  import opened Common
  import opened Jsmn
  import opened JsmnInvariants
  import opened JsmnResume
  import opened JsonTokens

  // ---------------------------------------------------------------- spellings

  /** Section 2: insignificant white space, also none. */
  predicate Gap(w: string) {
    forall i :: 0 <= i < |w| ==> w[i] == ' ' || w[i] == '\t' || w[i] == '\n' || w[i] == '\r'
  }

  predicate Hex(c: char) {
    '0' <= c <= '9' || 'a' <= c <= 'f' || 'A' <= c <= 'F'
  }

  /** Section 7: a character that stands for itself, an escape of two characters, or one of six. */
  datatype Unit = Itself(c: char) | Short(c: char) | Long(a: char, b: char, c: char, d: char)

  predicate UnitOk(u: Unit) {
    match u
    case Itself(c) => c != '"' && c != '\\' && c != '\0'
    case Short(c) =>
      c == '"' || c == '\\' || c == '/' || c == 'b' || c == 'f' || c == 'n' || c == 'r' || c == 't'
    case Long(a, b, c, d) => Hex(a) && Hex(b) && Hex(c) && Hex(d)
  }

  function UnitText(u: Unit): string {
    match u
    case Itself(c) => [c]
    case Short(c) => ['\\', c]
    case Long(a, b, c, d) => ['\\', 'u', a, b, c, d]
  }

  predicate UnitsOk(us: seq<Unit>) {
    forall i :: 0 <= i < |us| ==> UnitOk(us[i])
  }

  function UnitsText(us: seq<Unit>): string {
    if us == [] then "" else UnitText(us[0]) + UnitsText(us[1..])
  }

  function Quoted(us: seq<Unit>): string {
    ['"'] + (UnitsText(us) + ['"'])
  }

  /** Section 6: a minus sign or none, digits, a fraction or none, an exponent or none. */
  datatype Numeral = Numeral(minus: bool, whole: string, fraction: string, exponent: Exponent)

  datatype Exponent = NoExponent | Exponent(big: bool, sign: Sign, digits: string)

  datatype Sign = NoSign | Plus | Minus

  predicate AllDigits(s: string) {
    forall i :: 0 <= i < |s| ==> '0' <= s[i] <= '9'
  }

  predicate NumeralOk(n: Numeral) {
    && n.whole != "" && AllDigits(n.whole) && (n.whole[0] == '0' ==> |n.whole| == 1)
    && AllDigits(n.fraction)
    && (n.exponent.Exponent? ==> n.exponent.digits != "" && AllDigits(n.exponent.digits))
  }

  function SignText(s: Sign): string {
    match s
    case NoSign => []
    case Plus => ['+']
    case Minus => ['-']
  }

  function ExponentText(e: Exponent): string {
    match e
    case NoExponent => []
    case Exponent(big, sign, digits) => (if big then ['E'] else ['e']) + SignText(sign) + digits
  }

  function NumeralText(n: Numeral): string {
    (if n.minus then ['-'] else []) + n.whole + (if n.fraction == "" then [] else ['.'] + n.fraction)
    + ExponentText(n.exponent)
  }

  /** Section 3: the three names besides strings, numbers, objects and arrays. */
  datatype Name = True | False | Null

  function NameText(n: Name): string {
    match n
    case True => ['t', 'r', 'u', 'e']
    case False => ['f', 'a', 'l', 's', 'e']
    case Null => ['n', 'u', 'l', 'l']
  }

  /** A tree together with the way it is written. */
  datatype Doc =
    | Text(units: seq<Unit>)
    | Number(numeral: Numeral)
    | Word(name: Name)
    | Record(gap: string, members: Members)
    | Listing(gap: string, items: Items)

  /** White space before the key, before and behind the colon, and behind the value. */
  datatype Members =
    | NoMember
    | Member(before: string, key: seq<Unit>, left: string, right: string, value: Doc, after: string, more: Members)

  datatype Items = NoItem | Item(before: string, value: Doc, after: string, more: Items)

  predicate DocOk(d: Doc) {
    match d
    case Text(units) => UnitsOk(units)
    case Number(numeral) => NumeralOk(numeral)
    case Word(_) => true
    case Record(gap, members) => Gap(gap) && MembersOk(members)
    case Listing(gap, items) => Gap(gap) && ItemsOk(items)
  }

  predicate MembersOk(ms: Members) {
    ms.Member? ==>
      && Gap(ms.before) && UnitsOk(ms.key) && Gap(ms.left) && Gap(ms.right) && DocOk(ms.value) && Gap(ms.after)
      && MembersOk(ms.more)
  }

  predicate ItemsOk(vs: Items) {
    vs.Item? ==> Gap(vs.before) && DocOk(vs.value) && Gap(vs.after) && ItemsOk(vs.more)
  }

  function Spell(d: Doc): string {
    match d
    case Text(units) => Quoted(units)
    case Number(numeral) => NumeralText(numeral)
    case Word(name) => NameText(name)
    case Record(gap, members) => ['{'] + (gap + SpellMembers(members))
    case Listing(gap, items) => ['['] + (gap + SpellItems(items))
  }

  /** The members with commas between them, and the closing brace. */
  function SpellMembers(ms: Members): string {
    match ms
    case NoMember => ['}']
    case Member(before, key, left, right, value, after, more) =>
      SpellKey(ms) + (Spell(value) + (after + (MemberSep(more) + SpellMembers(more))))
  }

  function SpellKey(ms: Members): string
    requires ms.Member?
  {
    ms.before + (Quoted(ms.key) + (ms.left + ([':'] + ms.right)))
  }

  function MemberSep(more: Members): string {
    if more.NoMember? then [] else [',']
  }

  function SpellItems(vs: Items): string {
    match vs
    case NoItem => [']']
    case Item(before, value, after, more) =>
      before + (Spell(value) + (after + (ItemSep(more) + SpellItems(more))))
  }

  function ItemSep(more: Items): string {
    if more.NoItem? then [] else [',']
  }

  // ---------------------------------------------------------------- the tokens of a spelling

  function Room(d: Doc): (n: nat)
    ensures n > 0
  {
    match d
    case Record(_, members) => 1 + MembersRoom(members)
    case Listing(_, items) => 1 + ItemsRoom(items)
    case _ => 1
  }

  function MembersRoom(ms: Members): nat {
    if ms.NoMember? then 0 else 1 + Room(ms.value) + MembersRoom(ms.more)
  }

  function ItemsRoom(vs: Items): nat {
    if vs.NoItem? then 0 else Room(vs.value) + ItemsRoom(vs.more)
  }

  function MembersCount(ms: Members): nat {
    if ms.NoMember? then 0 else 1 + MembersCount(ms.more)
  }

  function ItemsCount(vs: Items): nat {
    if vs.NoItem? then 0 else 1 + ItemsCount(vs.more)
  }

  /** The tokens of a tree whose first character is at `pos`, the first token numbered `index`: a
      string without its quotes, a container from bracket to bracket with the number of its
      members or items. */
  function Marks(d: Doc, pos: nat, index: nat, parent: int): (t: seq<Token>)
    ensures |t| == Room(d)
    decreases d, 0
  {
    match d
    case Text(_) => [Token(String, pos + 1, pos + |Spell(d)| - 1, 0, parent)]
    case Record(gap, members) =>
      [Token(Object, pos, pos + |Spell(d)|, MembersCount(members), parent)]
      + MemberMarks(members, pos + 1 + |gap|, index + 1, index)
    case Listing(gap, items) =>
      [Token(Array, pos, pos + |Spell(d)|, ItemsCount(items), parent)]
      + ItemMarks(items, pos + 1 + |gap|, index + 1, index)
    case _ => [Token(Primitive, pos, pos + |Spell(d)|, 0, parent)]
  }

  /** A key is a string with one child, its value. */
  function KeyMark(ms: Members, pos: nat, size: nat, parent: int): Token
    requires ms.Member?
  {
    Token(String, pos + |ms.before| + 1, pos + |ms.before| + |Quoted(ms.key)| - 1, size, parent)
  }

  /** The tokens of the first member. */
  function FirstMember(ms: Members, pos: nat, index: nat, parent: int): (t: seq<Token>)
    requires ms.Member?
    ensures |t| == 1 + Room(ms.value)
    decreases ms, 0
  {
    [KeyMark(ms, pos, 1, parent)] + Marks(ms.value, pos + |SpellKey(ms)|, index + 1, index)
  }

  function MemberWidth(ms: Members): nat
    requires ms.Member?
  {
    |SpellKey(ms)| + |Spell(ms.value)| + |ms.after| + |MemberSep(ms.more)|
  }

  function MemberMarks(ms: Members, pos: nat, index: nat, parent: int): (t: seq<Token>)
    ensures |t| == MembersRoom(ms)
    decreases ms, 1
  {
    if ms.NoMember? then []
    else
      FirstMember(ms, pos, index, parent)
      + MemberMarks(ms.more, pos + MemberWidth(ms), index + 1 + Room(ms.value), parent)
  }

  function ItemWidth(vs: Items): nat
    requires vs.Item?
  {
    |vs.before| + |Spell(vs.value)| + |vs.after| + |ItemSep(vs.more)|
  }

  function ItemMarks(vs: Items, pos: nat, index: nat, parent: int): (t: seq<Token>)
    ensures |t| == ItemsRoom(vs)
    decreases vs, 1
  {
    if vs.NoItem? then []
    else
      Marks(vs.value, pos + |vs.before|, index, parent)
      + ItemMarks(vs.more, pos + ItemWidth(vs), index + Room(vs.value), parent)
  }

  predicate IsPrimitive(d: Doc) {
    d.Number? || d.Word?
  }

  lemma {:induction false} MarksClosed(d: Doc, pos: nat, index: nat, parent: int)
    ensures AllClosed(Marks(d, pos, index, parent))
  {
    match d
    case Record(gap, members) => MemberMarksClosed(members, pos + 1 + |gap|, index + 1, index);
    case Listing(gap, items) => ItemMarksClosed(items, pos + 1 + |gap|, index + 1, index);
    case _ =>
  }

  lemma ClosedJoin(a: seq<Token>, b: seq<Token>)
    requires AllClosed(a) && AllClosed(b)
    ensures AllClosed(a + b)
  {
  }

  lemma {:induction false} MemberMarksClosed(ms: Members, pos: nat, index: nat, parent: int)
    ensures AllClosed(MemberMarks(ms, pos, index, parent))
  {
    if ms.Member? {
      MarksClosed(ms.value, pos + |SpellKey(ms)|, index + 1, index);
      MemberMarksClosed(ms.more, pos + MemberWidth(ms), index + 1 + Room(ms.value), parent);
      ClosedJoin([KeyMark(ms, pos, 1, parent)], Marks(ms.value, pos + |SpellKey(ms)|, index + 1, index));
      ClosedJoin(FirstMember(ms, pos, index, parent),
                 MemberMarks(ms.more, pos + MemberWidth(ms), index + 1 + Room(ms.value), parent));
    }
  }

  lemma {:induction false} ItemMarksClosed(vs: Items, pos: nat, index: nat, parent: int)
    ensures AllClosed(ItemMarks(vs, pos, index, parent))
  {
    if vs.Item? {
      MarksClosed(vs.value, pos + |vs.before|, index, parent);
      ItemMarksClosed(vs.more, pos + ItemWidth(vs), index + Room(vs.value), parent);
    }
  }

  // ---------------------------------------------------------------- scanning leaves

  lemma HexRead(js: string, p: nat, c: char)
    requires Hex(c) && p < |js| && js[p] == c
    ensures forall n: nat :: n > 0 ==> ScanHex(js, p, n) == ScanHex(js, p + 1, n - 1)
  {
  }

  lemma UnitScanned(js: string, p: nat, u: Unit)
    requires UnitOk(u) && TextAt(js, p, UnitText(u)) && p + |UnitText(u)| < |js|
    ensures ScanString(js, p) == ScanString(js, p + |UnitText(u)|)
  {
    var w := UnitText(u);
    TextChar(js, p, w, 0);
    if !u.Itself? {
      TextChar(js, p, w, 1);
    }
    if u.Long? {
      TextChar(js, p, w, 2);
      TextChar(js, p, w, 3);
      TextChar(js, p, w, 4);
      TextChar(js, p, w, 5);
      HexRead(js, p + 2, u.a);
      HexRead(js, p + 3, u.b);
      HexRead(js, p + 4, u.c);
      HexRead(js, p + 5, u.d);
    }
  }

  lemma {:induction false} UnitsScanned(js: string, p: nat, us: seq<Unit>)
    requires UnitsOk(us) && TextAt(js, p, UnitsText(us) + ['"'])
    ensures ScanString(js, p) == Found(p + |UnitsText(us)|)
    decreases |us|
  {
    if us == [] {
      TextChar(js, p, [] + ['"'], 0);
    } else {
      assert UnitsText(us) + ['"'] == UnitText(us[0]) + (UnitsText(us[1..]) + ['"']);
      TextSplit(js, p, UnitText(us[0]), UnitsText(us[1..]) + ['"']);
      UnitScanned(js, p, us[0]);
      UnitsScanned(js, p + |UnitText(us[0])|, us[1..]);
    }
  }

  /** The characters a number is written with. */
  predicate NumberChar(c: char) {
    '0' <= c <= '9' || c == '-' || c == '+' || c == '.' || c == 'e' || c == 'E'
  }

  lemma NumeralChars(n: Numeral)
    requires NumeralOk(n)
    ensures NumeralText(n) != "" && (NumeralText(n)[0] == '-' || '0' <= NumeralText(n)[0] <= '9')
    ensures forall i :: 0 <= i < |NumeralText(n)| ==> NumberChar(NumeralText(n)[i])
  {
    ExponentChars(n.exponent);
    assert forall i :: 0 <= i < |n.whole| ==> NumberChar(n.whole[i]);
    var fraction := if n.fraction == "" then [] else ['.'] + n.fraction;
    assert forall i :: 0 <= i < |fraction| ==> NumberChar(fraction[i]);
  }

  lemma ExponentChars(e: Exponent)
    requires e.Exponent? ==> AllDigits(e.digits)
    ensures forall i :: 0 <= i < |ExponentText(e)| ==> NumberChar(ExponentText(e)[i])
  {
  }

  lemma PrimitiveSpelled(d: Doc)
    requires DocOk(d) && IsPrimitive(d)
    ensures PrimitiveText(Spell(d))
  {
    match d
    case Number(numeral) => NumeralChars(numeral);
    case Word(name) =>
  }

  /** The characters that may stand behind a primitive. */
  predicate Ender(c: char) {
    c == ' ' || c == '\t' || c == '\n' || c == '\r' || c == ',' || c == ']' || c == '}'
  }

  // ---------------------------------------------------------------- runs of steps

  lemma {:induction false} TakeGap(js: string, cap: nat, s: State, w: string) returns (s': State)
    requires Reached(js, cap, s) && TextAt(js, s.pos, w) && Gap(w)
    ensures s' == s.(pos := s.pos + |w|) && Reached(js, cap, s')
    decreases |w|
  {
    s' := s;
    if w != "" {
      TextChar(js, s.pos, w, 0);
      assert w == [w[0]] + w[1..];
      TextSplit(js, s.pos, [w[0]], w[1..]);
      StepBlank(js, cap, s);
      s' := TakeGap(js, cap, s.(pos := s.pos + 1), w[1..]);
    }
  }

  /** White space, and what comes behind it. */
  lemma TakeGapOf(js: string, cap: nat, s: State, w: string, rest: string) returns (s': State)
    requires Reached(js, cap, s) && TextAt(js, s.pos, w + rest) && Gap(w)
    ensures s' == s.(pos := s.pos + |w|) && Reached(js, cap, s') && TextAt(js, s'.pos, rest)
  {
    TextSplit(js, s.pos, w, rest);
    s' := TakeGap(js, cap, s, w);
  }

  lemma TakeColonOf(js: string, cap: nat, s: State, rest: string) returns (s': State)
    requires Reached(js, cap, s) && TextAt(js, s.pos, [':'] + rest)
    ensures s' == State(s.pos + 1, |s.toks| - 1, s.toks) && Reached(js, cap, s') && TextAt(js, s'.pos, rest)
  {
    TextSplit(js, s.pos, [':'], rest);
    TextChar(js, s.pos, [':'], 0);
    StepColon(js, cap, s);
    s' := State(s.pos + 1, |s.toks| - 1, s.toks);
  }

  /** The comma, where there is one, takes the superior token back to the container. */
  lemma TakeCommaOf(js: string, cap: nat, s: State, sep: string, rest: string, c: nat) returns (s': State)
    requires Reached(js, cap, s) && TextAt(js, s.pos, sep + rest) && (sep == [] || sep == [','])
    requires 0 <= s.super < |s.toks|
    requires var t := s.toks[s.super]; (t.kind == String && t.parent == c) || (t.kind == Array && s.super == c)
    ensures s' == State(s.pos + |sep|, if sep == [] then s.super else c, s.toks)
    ensures Reached(js, cap, s') && TextAt(js, s'.pos, rest)
  {
    TextSplit(js, s.pos, sep, rest);
    s' := s;
    if sep != [] {
      TextChar(js, s.pos, sep, 0);
      StepComma(js, cap, s);
      s' := State(s.pos + 1, c, s.toks);
    }
  }

  lemma TakeQuotedOf(js: string, cap: nat, s: State, us: seq<Unit>, rest: string) returns (s': State)
    requires Reached(js, cap, s) && |s.toks| < cap && UnitsOk(us) && TextAt(js, s.pos, Quoted(us) + rest)
    ensures s' == State(s.pos + |Quoted(us)|, s.super,
                        Bump(s.toks, s.super) + [Token(String, s.pos + 1, s.pos + |Quoted(us)| - 1, 0, s.super)])
    ensures Reached(js, cap, s') && TextAt(js, s'.pos, rest)
  {
    TextSplit(js, s.pos, Quoted(us), rest);
    s' := TakeQuoted(js, cap, s, us);
  }

  lemma TakeQuoted(js: string, cap: nat, s: State, us: seq<Unit>) returns (s': State)
    requires Reached(js, cap, s) && |s.toks| < cap && UnitsOk(us) && TextAt(js, s.pos, Quoted(us))
    ensures s' == State(s.pos + |Quoted(us)|, s.super,
                        Bump(s.toks, s.super) + [Token(String, s.pos + 1, s.pos + |Quoted(us)| - 1, 0, s.super)])
    ensures Reached(js, cap, s')
  {
    ReachedShaped(js, cap, s);
    TextSplit(js, s.pos, ['"'], UnitsText(us) + ['"']);
    TextChar(js, s.pos, ['"'], 0);
    UnitsScanned(js, s.pos + 1, us);
    s' := Quote(js, cap, s).s;
    ReachedNext(js, cap, s, s');
  }

  // ---------------------------------------------------------------- values

  /** The state after the tree was read. */
  function Beyond(s: State, d: Doc): State {
    State(s.pos + |Spell(d)|, s.super, Bump(s.toks, s.super) + Marks(d, s.pos, |s.toks|, s.super))
  }

  predicate Readable(js: string, cap: nat, s: State, d: Doc) {
    && DocOk(d) && TextAt(js, s.pos, Spell(d)) && Welcome(s)
    && |s.toks| + Room(d) <= cap
    && (IsPrimitive(d) ==> s.pos + |Spell(d)| < |js| && Ender(js[s.pos + |Spell(d)|]))
  }

  lemma CanBeRead(js: string, cap: nat, s: State, d: Doc, tail: string)
    requires DocOk(d) && Welcome(s) && |s.toks| + Room(d) <= cap
    requires TextAt(js, s.pos, Spell(d) + tail) && tail != "" && Ender(tail[0])
    ensures Readable(js, cap, s, d) && TextAt(js, s.pos + |Spell(d)|, tail)
  {
    TextSplit(js, s.pos, Spell(d), tail);
    TextChar(js, s.pos + |Spell(d)|, tail, 0);
  }

  lemma {:induction false} TakeDoc(js: string, cap: nat, s: State, d: Doc) returns (s': State)
    requires Reached(js, cap, s) && Readable(js, cap, s, d)
    ensures s' == Beyond(s, d) && Reached(js, cap, s')
    decreases d, 1
  {
    s' := Beyond(s, d);
    match d
    case Record(_, _) => TakeRecord(js, cap, s, d);
    case Listing(_, _) => TakeListing(js, cap, s, d);
    case _ => TakeLeafDoc(js, cap, s, d);
  }

  lemma TakeLeafDoc(js: string, cap: nat, s: State, d: Doc)
    requires Reached(js, cap, s) && Readable(js, cap, s, d) && !d.Record? && !d.Listing?
    ensures Reached(js, cap, Beyond(s, d))
  {
    LeafMarks(s, d);
    if d.Text? {
      var s1 := TakeQuoted(js, cap, s, d.units);
    } else {
      TakePrimitive(js, cap, s, d, Spell(d));
    }
  }

  lemma LeafMarks(s: State, d: Doc)
    requires !d.Record? && !d.Listing?
    ensures Room(d) == 1 && (d.Text? ==> Spell(d) == Quoted(d.units))
    ensures Beyond(s, d) == State(s.pos + |Spell(d)|, s.super, Bump(s.toks, s.super) + [
      if d.Text? then Token(String, s.pos + 1, s.pos + |Spell(d)| - 1, 0, s.super)
      else Token(Primitive, s.pos, s.pos + |Spell(d)|, 0, s.super)])
  {
  }

  lemma TakePrimitive(js: string, cap: nat, s: State, d: Doc, text: string)
    requires Reached(js, cap, s) && DocOk(d) && IsPrimitive(d) && text == Spell(d) && |s.toks| < cap
    requires Welcome(s) && TextAt(js, s.pos, text) && s.pos + |text| < |js| && Ender(js[s.pos + |text|])
    ensures Reached(js, cap, State(s.pos + |text|, s.super,
                             Bump(s.toks, s.super) + [Token(Primitive, s.pos, s.pos + |text|, 0, s.super)]))
  {
    PrimitiveSpelled(d);
    StepBare(js, cap, s, text);
  }

  lemma TakeBracket(js: string, cap: nat, s: State, kind: TokenKind, bracket: char, gap: string, rest: string)
    returns (s': State)
    requires Reached(js, cap, s) && Welcome(s) && |s.toks| < cap && Gap(gap)
    requires (kind == Object && bracket == '{') || (kind == Array && bracket == '[')
    requires TextAt(js, s.pos, [bracket] + (gap + rest))
    ensures s' == State(s.pos + 1 + |gap|, |s.toks|, Bump(s.toks, s.super) + [Token(kind, s.pos, -1, 0, s.super)])
    ensures Reached(js, cap, s') && Filling(s', |s.toks|, kind) && TextAt(js, s'.pos, rest)
  {
    TextSplit(js, s.pos, [bracket], gap + rest);
    TextChar(js, s.pos, [bracket], 0);
    TextSplit(js, s.pos + 1, gap, rest);
    StepOpen(js, cap, s, kind);
    s' := State(s.pos + 1, |s.toks|, Bump(s.toks, s.super) + [Token(kind, s.pos, -1, 0, s.super)]);
    s' := TakeGap(js, cap, s', gap);
  }

  lemma {:induction false} TakeRecord(js: string, cap: nat, s: State, d: Doc)
    requires Reached(js, cap, s) && Readable(js, cap, s, d) && d.Record?
    ensures Reached(js, cap, Beyond(s, d))
    decreases d, 0
  {
    var s1 := TakeBracket(js, cap, s, Object, '{', d.gap, SpellMembers(d.members));
    RecordMarks(s, s1, d);
    TakeMembers(js, cap, s1, d.members, |s.toks|, Beyond(s, d));
  }

  lemma {:induction false} TakeListing(js: string, cap: nat, s: State, d: Doc)
    requires Reached(js, cap, s) && Readable(js, cap, s, d) && d.Listing?
    ensures Reached(js, cap, Beyond(s, d))
    decreases d, 0
  {
    var s1 := TakeBracket(js, cap, s, Array, '[', d.gap, SpellItems(d.items));
    ListingMarks(s, s1, d);
    TakeItems(js, cap, s1, d.items, |s.toks|, Beyond(s, d));
  }

  /** The tokens of a container are its own, completed, and those of its children. */
  lemma ContainerMarks(s: State, s1: State, kind: TokenKind, front: nat, width: nat, children: nat, rest: seq<Token>)
    requires s1 == State(s.pos + front, |s.toks|, Bump(s.toks, s.super) + [Token(kind, s.pos, -1, 0, s.super)])
    ensures Filled(s1, |s.toks|, width, children, rest)
         == State(s.pos + front + width, s.super,
                  Bump(s.toks, s.super) + ([Token(kind, s.pos, s.pos + front + width, children, s.super)] + rest))
  {
    var one := [Token(kind, s.pos, s.pos + front + width, children, s.super)];
    assert s1.toks[|s.toks| := one[0]] == Bump(s.toks, s.super) + one;
    Regroup(Bump(s.toks, s.super), one, rest);
  }

  lemma RecordMarks(s: State, s1: State, d: Doc)
    requires d.Record?
    requires s1 == State(s.pos + 1 + |d.gap|, |s.toks|, Bump(s.toks, s.super) + [Token(Object, s.pos, -1, 0, s.super)])
    ensures Beyond(s, d) == Filled(s1, |s.toks|, |SpellMembers(d.members)|, MembersCount(d.members),
                                   MemberMarks(d.members, s1.pos, |s1.toks|, |s.toks|))
  {
    var rest := MemberMarks(d.members, s1.pos, |s1.toks|, |s.toks|);
    ContainerMarks(s, s1, Object, 1 + |d.gap|, |SpellMembers(d.members)|, MembersCount(d.members), rest);
    var width := RecordWidth(d);
    assert Marks(d, s.pos, |s.toks|, s.super)
        == [Token(Object, s.pos, s.pos + width, MembersCount(d.members), s.super)] + rest;
  }

  lemma RecordWidth(d: Doc) returns (width: nat)
    requires d.Record?
    ensures width == |Spell(d)| == 1 + |d.gap| + |SpellMembers(d.members)|
    ensures forall pos: nat, index: nat, parent: int ::
              Marks(d, pos, index, parent)
              == [Token(Object, pos, pos + width, MembersCount(d.members), parent)]
                 + MemberMarks(d.members, pos + 1 + |d.gap|, index + 1, index)
  {
    width := |Spell(d)|;
  }

  lemma ListingMarks(s: State, s1: State, d: Doc)
    requires d.Listing?
    requires s1 == State(s.pos + 1 + |d.gap|, |s.toks|, Bump(s.toks, s.super) + [Token(Array, s.pos, -1, 0, s.super)])
    ensures Beyond(s, d) == Filled(s1, |s.toks|, |SpellItems(d.items)|, ItemsCount(d.items),
                                   ItemMarks(d.items, s1.pos, |s1.toks|, |s.toks|))
  {
    var rest := ItemMarks(d.items, s1.pos, |s1.toks|, |s.toks|);
    ContainerMarks(s, s1, Array, 1 + |d.gap|, |SpellItems(d.items)|, ItemsCount(d.items), rest);
    var width := ListingWidth(d);
    assert Marks(d, s.pos, |s.toks|, s.super)
        == [Token(Array, s.pos, s.pos + width, ItemsCount(d.items), s.super)] + rest;
  }

  lemma ListingWidth(d: Doc) returns (width: nat)
    requires d.Listing?
    ensures width == |Spell(d)| == 1 + |d.gap| + |SpellItems(d.items)|
    ensures forall pos: nat, index: nat, parent: int ::
              Marks(d, pos, index, parent)
              == [Token(Array, pos, pos + width, ItemsCount(d.items), parent)]
                 + ItemMarks(d.items, pos + 1 + |d.gap|, index + 1, index)
  {
    width := |Spell(d)|;
  }

  lemma TakeEnd(js: string, cap: nat, s: State, c: nat, kind: TokenKind, bracket: char)
    requires Reached(js, cap, s) && Filling(s, c, kind) && TextAt(js, s.pos, [bracket])
    requires (kind == Object && bracket == '}') || (kind == Array && bracket == ']')
    ensures Reached(js, cap, Filled(s, c, 1, 0, []))
  {
    TextChar(js, s.pos, [bracket], 0);
    StepClose(js, cap, s, c, kind);
  }

  // ---------------------------------------------------------------- members

  /** The members that are left and the closing brace. */
  lemma {:induction false} TakeMembers(js: string, cap: nat, s: State, ms: Members, c: nat, end: State)
    requires Reached(js, cap, s) && Filling(s, c, Object) && (ms.Member? ==> s.super == c)
    requires MembersOk(ms) && TextAt(js, s.pos, SpellMembers(ms)) && |s.toks| + MembersRoom(ms) <= cap
    requires end == Filled(s, c, |SpellMembers(ms)|, MembersCount(ms), MemberMarks(ms, s.pos, |s.toks|, c))
    ensures Reached(js, cap, end)
    decreases ms, 1
  {
    if ms.NoMember? {
      TakeEnd(js, cap, s, c, Object, '}');
    } else {
      var s' := TakeMember(js, cap, s, ms, c);
      MemberThenRest(s, s', ms, c);
      TakeMembers(js, cap, s', ms.more, c, end);
    }
  }

  /** One member with its comma. */
  lemma {:induction false} TakeMember(js: string, cap: nat, s: State, ms: Members, c: nat) returns (s': State)
    requires Reached(js, cap, s) && Filling(s, c, Object) && s.super == c && ms.Member?
    requires MembersOk(ms) && TextAt(js, s.pos, SpellMembers(ms)) && |s.toks| + MembersRoom(ms) <= cap
    ensures s'.pos == s.pos + MemberWidth(ms) && (ms.more.Member? ==> s'.super == c)
    ensures s'.toks == Bump(s.toks, c) + FirstMember(ms, s.pos, |s.toks|, c)
    ensures Reached(js, cap, s') && Filling(s', c, Object) && TextAt(js, s'.pos, SpellMembers(ms.more))
    decreases ms, 0
  {
    var s1 := TakeKeyOf(js, cap, s, ms, c);
    var s2 := TakeDoc(js, cap, s1, ms.value);
    ValueMarks(s, s1, s2, ms, c);
    s' := TakeMemberSep(js, cap, s2, ms, |s.toks|, c);
  }

  /** The key and the colon; then the value can be read. */
  lemma TakeKeyOf(js: string, cap: nat, s: State, ms: Members, c: nat) returns (s1: State)
    requires Reached(js, cap, s) && c < |s.toks| && s.super == c && ms.Member?
    requires MembersOk(ms) && TextAt(js, s.pos, SpellMembers(ms)) && |s.toks| + MembersRoom(ms) <= cap
    ensures s1 == State(s.pos + |SpellKey(ms)|, |s.toks|, Bump(s.toks, c) + [KeyMark(ms, s.pos, 0, c)])
    ensures Reached(js, cap, s1) && Readable(js, cap, s1, ms.value)
    ensures TextAt(js, s1.pos + |Spell(ms.value)|, ms.after + (MemberSep(ms.more) + SpellMembers(ms.more)))
  {
    var tail := MemberTailOf(ms);
    s1 := TakeKeyText(js, cap, s, ms, Spell(ms.value) + tail);
    MemberEnder(ms, tail);
    CanBeRead(js, cap, s1, ms.value, tail);
  }

  lemma MemberTailOf(ms: Members) returns (tail: string)
    requires ms.Member?
    ensures tail == ms.after + (MemberSep(ms.more) + SpellMembers(ms.more))
    ensures SpellMembers(ms) == SpellKey(ms) + (Spell(ms.value) + tail)
  {
    tail := ms.after + (MemberSep(ms.more) + SpellMembers(ms.more));
  }

  lemma MemberEnder(ms: Members, tail: string)
    requires ms.Member? && Gap(ms.after) && tail == ms.after + (MemberSep(ms.more) + SpellMembers(ms.more))
    ensures tail != "" && Ender(tail[0])
  {
    if ms.after == "" {
      assert tail == MemberSep(ms.more) + SpellMembers(ms.more);
    }
  }

  lemma TakeKeyText(js: string, cap: nat, s: State, ms: Members, rest: string) returns (s1: State)
    requires Reached(js, cap, s) && |s.toks| < cap && ms.Member?
    requires MembersOk(ms) && TextAt(js, s.pos, SpellKey(ms) + rest)
    ensures s1 == State(s.pos + |SpellKey(ms)|, |s.toks|, Bump(s.toks, s.super) + [KeyMark(ms, s.pos, 0, s.super)])
    ensures Reached(js, cap, s1) && TextAt(js, s1.pos, rest)
  {
    var colon := ms.left + ([':'] + ms.right);
    TextSplit(js, s.pos, SpellKey(ms), rest);
    var s2 := TakeGapOf(js, cap, s, ms.before, Quoted(ms.key) + colon);
    var s3 := TakeQuotedOf(js, cap, s2, ms.key, colon);
    var s4 := TakeGapOf(js, cap, s3, ms.left, [':'] + ms.right);
    var s5 := TakeColonOf(js, cap, s4, ms.right);
    s1 := TakeGap(js, cap, s5, ms.right);
    var width := KeyWidth(ms);
  }

  lemma KeyWidth(ms: Members) returns (width: nat)
    requires ms.Member?
    ensures width == |SpellKey(ms)| == |ms.before| + |Quoted(ms.key)| + |ms.left| + 1 + |ms.right|
  {
    width := |SpellKey(ms)|;
  }

  /** The value is the one child of its key. */
  lemma ValueMarks(s: State, s1: State, s2: State, ms: Members, c: nat)
    requires ms.Member? && Filling(s, c, Object) && s.super == c
    requires s1 == State(s.pos + |SpellKey(ms)|, |s.toks|, Bump(s.toks, c) + [KeyMark(ms, s.pos, 0, c)])
    requires s2 == Beyond(s1, ms.value)
    ensures s2.pos == s.pos + |SpellKey(ms)| + |Spell(ms.value)| && s2.super == |s.toks|
    ensures s2.toks == Bump(s.toks, c) + FirstMember(ms, s.pos, |s.toks|, c)
    ensures Filling(s2, c, Object)
  {
    var value := Marks(ms.value, s1.pos, |s1.toks|, s1.super);
    assert Bump(s1.toks, s1.super) == Bump(s.toks, c) + [KeyMark(ms, s.pos, 1, c)];
    Regroup(Bump(s.toks, c), [KeyMark(ms, s.pos, 1, c)], value);
    MarksClosed(ms.value, s1.pos, |s1.toks|, s1.super);
  }

  lemma TakeMemberSep(js: string, cap: nat, s: State, ms: Members, k: nat, c: nat) returns (s': State)
    requires Reached(js, cap, s) && ms.Member? && Gap(ms.after)
    requires s.super == k < |s.toks| && s.toks[k].kind == String && s.toks[k].parent == c
    requires TextAt(js, s.pos, ms.after + (MemberSep(ms.more) + SpellMembers(ms.more)))
    ensures s'.pos == s.pos + |ms.after| + |MemberSep(ms.more)| && s'.toks == s.toks
    ensures ms.more.Member? ==> s'.super == c
    ensures Reached(js, cap, s') && TextAt(js, s'.pos, SpellMembers(ms.more))
  {
    s' := TakeGapOf(js, cap, s, ms.after, MemberSep(ms.more) + SpellMembers(ms.more));
    s' := TakeCommaOf(js, cap, s', MemberSep(ms.more), SpellMembers(ms.more), c);
  }

  lemma MembersUnfold(ms: Members, pos: nat, index: nat, c: int)
    requires ms.Member?
    ensures |SpellMembers(ms)| == MemberWidth(ms) + |SpellMembers(ms.more)|
    ensures MembersCount(ms) == MembersCount(ms.more) + 1
    ensures MemberMarks(ms, pos, index, c) == FirstMember(ms, pos, index, c)
         + MemberMarks(ms.more, pos + MemberWidth(ms), index + |FirstMember(ms, pos, index, c)|, c)
  {
  }

  lemma MemberThenRest(s: State, s': State, ms: Members, c: nat)
    requires ms.Member? && c < |s.toks| && s'.pos == s.pos + MemberWidth(ms)
    requires s'.toks == Bump(s.toks, c) + FirstMember(ms, s.pos, |s.toks|, c)
    ensures Filled(s, c, |SpellMembers(ms)|, MembersCount(ms), MemberMarks(ms, s.pos, |s.toks|, c))
         == Filled(s', c, |SpellMembers(ms.more)|, MembersCount(ms.more),
                   MemberMarks(ms.more, s'.pos, |s'.toks|, c))
  {
    MembersUnfold(ms, s.pos, |s.toks|, c);
    FilledStep(s, s', c, MemberWidth(ms), |SpellMembers(ms.more)|, |SpellMembers(ms)|,
               MembersCount(ms.more), MembersCount(ms), FirstMember(ms, s.pos, |s.toks|, c),
               MemberMarks(ms.more, s'.pos, |s'.toks|, c), MemberMarks(ms, s.pos, |s.toks|, c));
  }

  // ---------------------------------------------------------------- items

  lemma {:induction false} TakeItems(js: string, cap: nat, s: State, vs: Items, c: nat, end: State)
    requires Reached(js, cap, s) && Filling(s, c, Array) && s.super == c
    requires ItemsOk(vs) && TextAt(js, s.pos, SpellItems(vs)) && |s.toks| + ItemsRoom(vs) <= cap
    requires end == Filled(s, c, |SpellItems(vs)|, ItemsCount(vs), ItemMarks(vs, s.pos, |s.toks|, c))
    ensures Reached(js, cap, end)
    decreases vs, 1
  {
    if vs.NoItem? {
      TakeEnd(js, cap, s, c, Array, ']');
    } else {
      var s' := TakeItem(js, cap, s, vs, c);
      ItemThenRest(s, s', vs, c);
      TakeItems(js, cap, s', vs.more, c, end);
    }
  }

  /** One item with its comma. */
  lemma {:induction false} TakeItem(js: string, cap: nat, s: State, vs: Items, c: nat) returns (s': State)
    requires Reached(js, cap, s) && Filling(s, c, Array) && s.super == c && vs.Item?
    requires ItemsOk(vs) && TextAt(js, s.pos, SpellItems(vs)) && |s.toks| + ItemsRoom(vs) <= cap
    ensures s'.pos == s.pos + ItemWidth(vs) && s'.super == c
    ensures s'.toks == Bump(s.toks, c) + Marks(vs.value, s.pos + |vs.before|, |s.toks|, c)
    ensures Reached(js, cap, s') && Filling(s', c, Array) && TextAt(js, s'.pos, SpellItems(vs.more))
    decreases vs, 0
  {
    var s1 := TakeItemGap(js, cap, s, vs, c);
    var s2 := TakeDoc(js, cap, s1, vs.value);
    ItemTaken(s, s1, s2, vs, c);
    s' := TakeItemSep(js, cap, s2, vs, c);
  }

  lemma ItemTaken(s: State, s1: State, s2: State, vs: Items, c: nat)
    requires vs.Item? && Filling(s, c, Array) && s.super == c
    requires s1 == s.(pos := s.pos + |vs.before|) && s2 == Beyond(s1, vs.value)
    ensures s2.pos == s.pos + |vs.before| + |Spell(vs.value)| && s2.super == c
    ensures s2.toks == Bump(s.toks, c) + Marks(vs.value, s.pos + |vs.before|, |s.toks|, c)
    ensures Filling(s2, c, Array)
  {
    MarksClosed(vs.value, s1.pos, |s1.toks|, s1.super);
  }

  lemma TakeItemGap(js: string, cap: nat, s: State, vs: Items, c: nat) returns (s1: State)
    requires Reached(js, cap, s) && Filling(s, c, Array) && s.super == c && vs.Item?
    requires ItemsOk(vs) && TextAt(js, s.pos, SpellItems(vs)) && |s.toks| + ItemsRoom(vs) <= cap
    ensures s1 == s.(pos := s.pos + |vs.before|) && Reached(js, cap, s1) && Readable(js, cap, s1, vs.value)
    ensures TextAt(js, s1.pos + |Spell(vs.value)|, vs.after + (ItemSep(vs.more) + SpellItems(vs.more)))
  {
    var tail := ItemTailOf(vs);
    s1 := TakeGapOf(js, cap, s, vs.before, Spell(vs.value) + tail);
    ItemEnder(vs, tail);
    CanBeRead(js, cap, s1, vs.value, tail);
  }

  lemma ItemTailOf(vs: Items) returns (tail: string)
    requires vs.Item?
    ensures tail == vs.after + (ItemSep(vs.more) + SpellItems(vs.more))
    ensures SpellItems(vs) == vs.before + (Spell(vs.value) + tail)
  {
    tail := vs.after + (ItemSep(vs.more) + SpellItems(vs.more));
  }

  lemma ItemEnder(vs: Items, tail: string)
    requires vs.Item? && Gap(vs.after) && tail == vs.after + (ItemSep(vs.more) + SpellItems(vs.more))
    ensures tail != "" && Ender(tail[0])
  {
    if vs.after == "" {
      assert tail == ItemSep(vs.more) + SpellItems(vs.more);
    }
  }

  lemma TakeItemSep(js: string, cap: nat, s: State, vs: Items, c: nat) returns (s': State)
    requires Reached(js, cap, s) && vs.Item? && Gap(vs.after)
    requires s.super == c < |s.toks| && s.toks[c].kind == Array
    requires TextAt(js, s.pos, vs.after + (ItemSep(vs.more) + SpellItems(vs.more)))
    ensures s' == s.(pos := s.pos + |vs.after| + |ItemSep(vs.more)|)
    ensures Reached(js, cap, s') && TextAt(js, s'.pos, SpellItems(vs.more))
  {
    s' := TakeGapOf(js, cap, s, vs.after, ItemSep(vs.more) + SpellItems(vs.more));
    s' := TakeCommaOf(js, cap, s', ItemSep(vs.more), SpellItems(vs.more), c);
  }

  lemma ItemThenRest(s: State, s': State, vs: Items, c: nat)
    requires vs.Item? && c < |s.toks| && s'.pos == s.pos + ItemWidth(vs)
    requires s'.toks == Bump(s.toks, c) + Marks(vs.value, s.pos + |vs.before|, |s.toks|, c)
    ensures Filled(s, c, |SpellItems(vs)|, ItemsCount(vs), ItemMarks(vs, s.pos, |s.toks|, c))
         == Filled(s', c, |SpellItems(vs.more)|, ItemsCount(vs.more), ItemMarks(vs.more, s'.pos, |s'.toks|, c))
  {
    FilledStep(s, s', c, ItemWidth(vs), |SpellItems(vs.more)|, |SpellItems(vs)|,
               ItemsCount(vs.more), ItemsCount(vs), Marks(vs.value, s.pos + |vs.before|, |s.toks|, c),
               ItemMarks(vs.more, s'.pos, |s'.toks|, c), ItemMarks(vs, s.pos, |s.toks|, c));
  }

  // ---------------------------------------------------------------- whole texts

  /** Every spelling of every tree, with white space around it, tokenizes to exactly the tree's
      tokens as soon as there is room for them, and counting gives their number. Only a number
      or a name that is the whole text's end waits for more. */
  lemma TokenizeSpelled(lead: string, d: Doc, trail: string, cap: nat)
    requires Gap(lead) && DocOk(d) && Gap(trail) && Room(d) <= cap
    ensures var js := lead + (Spell(d) + trail);
      if IsPrimitive(d) && trail == "" then
        Run(js, cap, Initial()).code == ERROR_PART && DryRun(js, 0, 0) == ERROR_PART
      else
        && Run(js, cap, Initial()) == Halt(Room(d), State(|js|, -1, Marks(d, |lead|, 0, -1)))
        && DryRun(js, 0, 0) == Room(d)
  {
    var js := lead + (Spell(d) + trail);
    ReachedInitially(js, cap);
    TextWhole(js);
    var s := TakeGapOf(js, cap, Initial(), lead, Spell(d) + trail);
    if IsPrimitive(d) && trail == "" {
      assert Spell(d) + trail == Spell(d);
      PrimitiveAtEnd(js, cap, s, d);
      TextSplit(js, 0, lead, Spell(d) + trail);
      GapCounted(js, 0, lead, 0);
    } else {
      TakeWhole(js, cap, s, d, trail);
      DryRunAgrees(js, cap, Initial());
    }
  }

  /** The tree and the white space behind it, up to the end of the text. */
  lemma TakeWhole(js: string, cap: nat, s: State, d: Doc, trail: string)
    requires Reached(js, cap, s) && DocOk(d) && Gap(trail) && Room(d) <= cap && s.super == -1 && s.toks == []
    requires TextAt(js, s.pos, Spell(d) + trail) && s.pos + |Spell(d)| + |trail| == |js|
    requires IsPrimitive(d) ==> trail != ""
    ensures Run(js, cap, Initial()) == Halt(Room(d), State(|js|, -1, Marks(d, s.pos, 0, -1)))
  {
    TextSplit(js, s.pos, Spell(d), trail);
    if IsPrimitive(d) {
      TextChar(js, s.pos + |Spell(d)|, trail, 0);
    }
    var s1 := TakeDoc(js, cap, s, d);
    var s2 := TakeGap(js, cap, s1, trail);
    ReachedKeepsInv(js, cap, s2);
    MarksClosed(d, s.pos, 0, -1);
  }

  lemma TextWhole(js: string)
    ensures TextAt(js, 0, js)
  {
    assert js[0..|js|] == js;
  }

  lemma PrimitiveAtEnd(js: string, cap: nat, s: State, d: Doc)
    requires Reached(js, cap, s) && DocOk(d) && IsPrimitive(d) && s.super == -1
    requires TextAt(js, s.pos, Spell(d)) && s.pos + |Spell(d)| == |js|
    ensures Run(js, cap, Initial()).code == ERROR_PART
    ensures forall n: nat :: DryRun(js, s.pos, n) == ERROR_PART
  {
    ReachedShaped(js, cap, s);
    ReachedKeepsInv(js, cap, s);
    PrimitiveSpelled(d);
    UnendedPrimitive(js, s.pos, Spell(d));
    TextChar(js, s.pos, Spell(d), 0);
    UnendedTurn(js, cap, s);
  }

  lemma UnendedTurn(js: string, cap: nat, s: State)
    requires Shaped(s) && s.super == -1 && s.pos < |js| && StartsPrimitive(js[s.pos])
    requires ScanPrimitive(js, s.pos) == Bad(ERROR_PART)
    ensures Run(js, cap, s).code == ERROR_PART
    ensures forall n: nat :: DryRun(js, s.pos, n) == ERROR_PART
  {
  }

  lemma {:induction false} GapCounted(js: string, p: nat, w: string, n: nat)
    requires TextAt(js, p, w) && Gap(w)
    ensures DryRun(js, p, n) == DryRun(js, p + |w|, n)
    decreases |w|
  {
    if w != "" {
      TextChar(js, p, w, 0);
      assert w == [w[0]] + w[1..];
      TextSplit(js, p, [w[0]], w[1..]);
      GapCounted(js, p + 1, w[1..], n);
    }
  }
}
