/** The JSON tokenizer as json.cc compiles it: strict mode, parent links.

    The first half gives the tokenizer's behaviour as functions on values: `Step` is one
    turn of the main loop, `Run` the whole loop on a token array, and `DryRun` the loop
    with no token array. The second half is the tokenizer itself, working in place on a
    parser object and a token array, proved to do what these functions say. */
module Jsmn {

  const ERROR_NOMEM := -1
  const ERROR_INVAL := -2
  const ERROR_PART := -3

  datatype TokenKind = Undefined | Object | Array | String | Primitive | Key

  datatype Token = Token(kind: TokenKind, start: int, end: int, size: int, parent: int)
  {
    /** A container whose closing bracket has not been seen yet. */
    predicate IsOpen() {
      start != -1 && end == -1
    }

    predicate IsLeaf() {
      kind == String || kind == Primitive
    }
  }

  /** A token taken from the pool and not filled yet. Its kind is whatever the pool held. */
  const Blank := Token(Undefined, -1, -1, 0, -1)

  /** The parser's fields together with the tokens allocated so far. */
  datatype State = State(pos: nat, super: int, toks: seq<Token>)

  datatype Outcome = Next(s: State) | Halt(code: int, s: State)

  /** The state jsmn_init leaves. */
  function Initial(): State {
    State(0, -1, [])
  }

  // ---------------------------------------------------------------- scanning

  predicate AtEnd(js: string, p: nat) {
    p >= |js| || js[p] == '\0'
  }

  predicate IsBlank(c: char) {
    c == '\t' || c == '\r' || c == '\n' || c == ' '
  }

  /** The characters that end a primitive in strict mode. */
  predicate EndsPrimitive(c: char) {
    IsBlank(c) || c == ',' || c == ']' || c == '}'
  }

  predicate StartsPrimitive(c: char) {
    c == '-' || '0' <= c <= '9' || c == 't' || c == 'f' || c == 'n'
  }

  predicate IsHexDigit(c: char) {
    '0' <= c <= '9' || 'A' <= c <= 'F' || 'a' <= c <= 'f'
  }

  predicate IsSimpleEscape(c: char) {
    c == '"' || c == '/' || c == '\\' || c == 'b' || c == 'f' || c == 'r' || c == 'n' || c == 't'
  }

  datatype Scan = Found(at: nat) | Bad(code: int)

  /** Where the primitive whose text continues at `p` ends. */
  function ScanPrimitive(js: string, p: nat): (r: Scan)
    ensures r.Found? ==> p <= r.at < |js| && EndsPrimitive(js[r.at])
    ensures r.Found? ==> forall k :: p <= k < r.at ==> js[k] != '\0' && !EndsPrimitive(js[k])
    ensures r.Bad? ==> r.code == ERROR_INVAL || r.code == ERROR_PART
    decreases |js| - p
  {
    if AtEnd(js, p) then Bad(ERROR_PART)
    else if EndsPrimitive(js[p]) then Found(p)
    else if js[p] < ' ' || js[p] >= 127 as char then Bad(ERROR_INVAL)
    else ScanPrimitive(js, p + 1)
  }

  /** The position after at most `n` hexadecimal digits, or -1 at a character that is not one. */
  function ScanHex(js: string, p: nat, n: nat): (r: int)
    ensures r == -1 || (p <= r && (p <= |js| ==> r <= |js|))
    ensures forall k :: p <= k < r ==> k < |js| && js[k] != '\0'
    decreases n
  {
    if n == 0 || AtEnd(js, p) then p
    else if !IsHexDigit(js[p]) then -1
    else ScanHex(js, p + 1, n - 1)
  }

  /** The position after the escape whose letter is at `p`, or -1 if there is no such escape. */
  function ScanEscape(js: string, p: nat): (r: int)
    requires p < |js|
    ensures r == -1 || p < r <= |js|
    ensures forall k :: p <= k < r ==> js[k] != '\0'
  {
    if IsSimpleEscape(js[p]) then p + 1
    else if js[p] == 'u' then ScanHex(js, p + 1, 4)
    else -1
  }

  /** Where the quote is that ends the string whose text continues at `p`. */
  function ScanString(js: string, p: nat): (r: Scan)
    ensures r.Found? ==> p <= r.at < |js| && js[r.at] == '"'
    ensures r.Found? ==> forall k :: p <= k < r.at ==> js[k] != '\0'
    ensures r.Bad? ==> r.code == ERROR_INVAL || r.code == ERROR_PART
    decreases |js| - p
  {
    if AtEnd(js, p) then Bad(ERROR_PART)
    else if js[p] == '"' then Found(p)
    else if js[p] == '\\' && p + 1 < |js| then
      var q := ScanEscape(js, p + 1);
      if q == -1 then Bad(ERROR_INVAL) else ScanString(js, q)
    else ScanString(js, p + 1)
  }

  // ---------------------------------------------------------------- one step

  /** What indexing needs: parents come before their children and `super` names a token. */
  predicate Linked(toks: seq<Token>) {
    forall i :: 0 <= i < |toks| ==> -1 <= toks[i].parent < i
  }

  predicate Shaped(s: State) {
    Linked(s.toks) && -1 <= s.super < |s.toks|
  }

  /** One child more for token `i`, if that is a token. */
  function Bump(toks: seq<Token>, i: int): (r: seq<Token>)
    ensures |r| == |toks|
  {
    if 0 <= i < |toks| then toks[i := toks[i].(size := toks[i].size + 1)] else toks
  }

  /** A string or primitive token is added below the superior token. */
  function PushLeaf(cap: nat, s: State, kind: TokenKind, start: int, end: int, resume: nat): Outcome
    requires Shaped(s)
  {
    if |s.toks| >= cap then Halt(ERROR_NOMEM, s)
    else Next(State(resume, s.super, Bump(s.toks, s.super) + [Token(kind, start, end, 0, s.super)]))
  }

  /** A container cannot stand where an object wants a key. */
  predicate WantsKey(s: State)
    requires Shaped(s)
  {
    s.super != -1 && s.toks[s.super].kind == Object
  }

  /** An opening bracket. When it is refused, a token has been taken for it already. */
  function Open(cap: nat, s: State, kind: TokenKind): Outcome
    requires Shaped(s)
  {
    if |s.toks| >= cap then Halt(ERROR_NOMEM, s)
    else if WantsKey(s) then Halt(ERROR_INVAL, s.(toks := s.toks + [Blank]))
    else Next(State(s.pos + 1, |s.toks|, Bump(s.toks, s.super) + [Token(kind, s.pos, -1, 0, s.super)]))
  }

  /** The walk of a closing bracket: up the parents from `i` to an open token or the root. */
  function Walk(toks: seq<Token>, i: nat): (w: nat)
    requires Linked(toks) && i < |toks|
    ensures w <= i
    ensures toks[w].IsOpen() || toks[w].parent == -1
  {
    if toks[i].IsOpen() || toks[i].parent == -1 then i else Walk(toks, toks[i].parent)
  }

  function Close(s: State, kind: TokenKind): Outcome
    requires Shaped(s)
  {
    if |s.toks| < 1 then Halt(ERROR_INVAL, s)
    else
      var w := Walk(s.toks, |s.toks| - 1);
      var t := s.toks[w];
      if t.IsOpen() then
        if t.kind != kind then Halt(ERROR_INVAL, s)
        else Next(State(s.pos + 1, t.parent, s.toks[w := t.(end := s.pos + 1)]))
      else if t.kind != kind || s.super == -1 then Halt(ERROR_INVAL, s)
      else Next(s.(pos := s.pos + 1))
  }

  function Quote(js: string, cap: nat, s: State): Outcome
    requires Shaped(s)
  {
    match ScanString(js, s.pos + 1)
    case Bad(code) => Halt(code, s)
    case Found(q) => PushLeaf(cap, s, String, s.pos + 1, q, q + 1)
  }

  /** A primitive may be neither a key nor the second value of one key. */
  predicate PrimitiveAllowed(s: State)
    requires Shaped(s)
  {
    s.super == -1 ||
    (s.toks[s.super].kind != Object && !(s.toks[s.super].kind == String && s.toks[s.super].size != 0))
  }

  function Bare(js: string, cap: nat, s: State): Outcome
    requires Shaped(s)
  {
    if !PrimitiveAllowed(s) then Halt(ERROR_INVAL, s)
    else
      match ScanPrimitive(js, s.pos)
      case Bad(code) => Halt(code, s)
      case Found(q) => PushLeaf(cap, s, Primitive, s.pos, q, q)
  }

  function Comma(s: State): State
    requires Shaped(s)
  {
    if s.super != -1 && s.toks[s.super].kind != Array && s.toks[s.super].kind != Object
    then State(s.pos + 1, s.toks[s.super].parent, s.toks)
    else s.(pos := s.pos + 1)
  }

  predicate IsOpening(c: char) {
    c == '{' || c == '['
  }

  /** The next character is an opening bracket that is refused although there is a token for it. */
  predicate Refuses(js: string, cap: nat, s: State)
    requires Shaped(s) && !AtEnd(js, s.pos)
  {
    IsOpening(js[s.pos]) && |s.toks| < cap && WantsKey(s)
  }

  /** One turn of the loop in jsmn_parse, the increment of `pos` included. */
  function Step(js: string, cap: nat, s: State): (o: Outcome)
    requires Shaped(s) && !AtEnd(js, s.pos)
    ensures Shaped(o.s)
    ensures o.Next? ==> s.pos < o.s.pos <= |js|
    ensures o.Halt? ==> o.s == if Refuses(js, cap, s) then s.(toks := s.toks + [Blank]) else s
    ensures Refuses(js, cap, s) ==> o.Halt? && o.code == ERROR_INVAL
  {
    var c := js[s.pos];
    if c == '{' then Open(cap, s, Object)
    else if c == '[' then Open(cap, s, Array)
    else if c == '}' then Close(s, Object)
    else if c == ']' then Close(s, Array)
    else if c == '"' then Quote(js, cap, s)
    else if IsBlank(c) then Next(s.(pos := s.pos + 1))
    else if c == ':' then Next(State(s.pos + 1, |s.toks| - 1, s.toks))
    else if c == ',' then Next(Comma(s))
    else if StartsPrimitive(c) then
      (assert !EndsPrimitive(c); Bare(js, cap, s))
    else Halt(ERROR_INVAL, s)
  }

  predicate AnyOpen(toks: seq<Token>) {
    exists i :: 0 <= i < |toks| && toks[i].IsOpen()
  }

  /** jsmn_parse with a token array of `cap` entries, from state `s`. */
  function Run(js: string, cap: nat, s: State): (o: Outcome)
    requires Shaped(s)
    ensures o.Halt? && Shaped(o.s)
    decreases |js| - s.pos
  {
    if AtEnd(js, s.pos) then Halt(if AnyOpen(s.toks) then ERROR_PART else |s.toks|, s)
    else
      var o := Step(js, cap, s);
      if o.Halt? then o else Run(js, cap, o.s)
  }

  /** jsmn_parse without a token array: it only counts. */
  function DryRun(js: string, pos: nat, count: nat): (r: int)
    decreases |js| - pos
  {
    if AtEnd(js, pos) then count
    else
      var c := js[pos];
      if c == '{' || c == '[' then DryRun(js, pos + 1, count + 1)
      else if c == '}' || c == ']' || IsBlank(c) || c == ':' || c == ',' then DryRun(js, pos + 1, count)
      else if c == '"' then
        match ScanString(js, pos + 1)
        case Bad(code) => code
        case Found(q) => DryRun(js, q + 1, count + 1)
      else if StartsPrimitive(c) then
        (assert !EndsPrimitive(c);
        match ScanPrimitive(js, pos)
        case Bad(code) => code
        case Found(q) => DryRun(js, q, count + 1))
      else ERROR_INVAL
  }
}
