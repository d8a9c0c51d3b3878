/** From tokens to a tree, after json.cc.

    The C++ code keeps a table with one object pointer per token and links the objects to
    each other while it goes. Here a pointer to an object is the number of the token that
    made it, so the table of nodes is the heap, with its aliasing in plain view. */
module JsonConvert {
  import opened Common
  import opened Jsmn
  import opened Json

  datatype Node =
    | NStr(text: string)
    | NInt(value: int)
    | NBool(flag: bool)
    | NObj(keys: seq<string>, values: seq<nat>)
    | NList(members: seq<nat>)

  type Table = seq<Option<Node>>

  /** The state of `convert` between two tokens. */
  datatype Work = Work(text: string, toks: seq<Token>, objs: Table, invalid: bool)

  /** The C string that starts at `p`. */
  function CStr(text: string, p: nat): (s: string)
    decreases |text| - p
  {
    if p >= |text| || text[p] == '\0' then "" else [text[p]] + CStr(text, p + 1)
  }

  predicate WellFormed(w: Work) {
    && |w.objs| == |w.toks| && Linked(w.toks)
    && forall i :: 0 <= i < |w.toks| ==>
         && w.toks[i].start < |w.text| && w.toks[i].end < |w.text|
         && (w.toks[i].kind == Key ==> w.toks[i].parent >= 0 && w.toks[i].start >= 0)
  }

  /** A span that `convert` accepts. */
  predicate SpanOk(t: Token) {
    0 <= t.start <= t.end
  }

  /** A string below an object is a key and makes no object. */
  predicate IsKey(toks: seq<Token>, i: nat)
    requires Linked(toks) && i < |toks|
  {
    toks[i].kind == String && toks[i].parent >= 0 && toks[toks[i].parent].kind == Object
  }

  function Retag(toks: seq<Token>, i: nat): (r: seq<Token>)
    requires Linked(toks) && i < |toks|
    ensures |r| == |toks| && Linked(r)
  {
    if IsKey(toks, i) then toks[i := toks[i].(kind := Key)] else toks
  }

  /** The object token `i` makes, if any. */
  function MakeNode(text: string, toks: seq<Token>, i: nat): Option<Node>
    requires Linked(toks) && i < |toks| && SpanOk(toks[i]) && toks[i].end < |text|
  {
    match toks[i].kind
    case String => if IsKey(toks, i) then None else Some(NStr(CStr(text, toks[i].start)))
    case Primitive =>
      if text[toks[i].start] == 't' then Some(NBool(true))
      else if text[toks[i].start] == 'f' then Some(NBool(false))
      else Some(NInt(StrToL(CStr(text, toks[i].start))))
    case Array => Some(NList([]))
    case Object => Some(NObj([], []))
    case _ => None
  }

  /** Object `i` is linked to the object of its parent token, or dropped if it cannot be. */
  function Attach(w: Work, i: nat): (w': Work)
    requires WellFormed(w) && i < |w.toks|
    ensures w'.toks == w.toks && w'.text == w.text && |w'.objs| == |w.objs|
  {
    var p := w.toks[i].parent;
    if p < 0 then w
    else if w.toks[p].kind == Key then
      var o := w.toks[p].parent;
      if w.objs[i].None? then w.(invalid := true)
      else if w.objs[o].None? || !w.objs[o].value.NObj? then w.(objs := w.objs[i := None], invalid := true)
      else
        var obj := w.objs[o].value;
        var key := CStr(w.text, w.toks[p].start);
        w.(objs := w.objs[o := Some(NObj(obj.keys + [key], obj.values + [i]))])
    else if w.toks[p].kind == Array then
      if w.objs[p].None? || !w.objs[p].value.NList? || w.objs[i].None? then
        w.(objs := w.objs[i := None], invalid := true)
      else
        w.(objs := w.objs[p := Some(NList(w.objs[p].value.members + [i]))])
    else if w.objs[i].Some? then w.(objs := w.objs[i := None], invalid := true)
    else w
  }

  /** One turn of the loop: end the token's text, make its object, link it. */
  function ConvertOne(w: Work, i: nat): (w': Work)
    requires WellFormed(w) && i < |w.toks| && SpanOk(w.toks[i])
    ensures WellFormed(w') && |w'.toks| == |w.toks| && |w'.text| == |w.text|
  {
    var text := w.text[w.toks[i].end := '\0'];
    var node := MakeNode(text, w.toks, i);
    var objs := if node.Some? then w.objs[i := node] else w.objs;
    Attach(Work(text, Retag(w.toks, i), objs, w.invalid), i)
  }

  /** The loop from token `i` on; it stops at a token whose span is not closed. */
  function ConvertFrom(w: Work, i: nat): (w': Work)
    requires WellFormed(w) && i <= |w.toks|
    ensures WellFormed(w') && |w'.objs| == |w.objs| && |w'.text| == |w.text|
    decreases |w.toks| - i
  {
    if i == |w.toks| then w
    else if !SpanOk(w.toks[i]) then w.(invalid := true)
    else ConvertFrom(ConvertOne(w, i), i + 1)
  }

  function NoObjects(n: nat): (t: Table)
    ensures |t| == n && forall i :: 0 <= i < n ==> t[i] == None
  {
    if n == 0 then [] else NoObjects(n - 1) + [None]
  }

  function Start(text: string, toks: seq<Token>): Work {
    Work(text, toks, NoObjects(|toks|), false)
  }

  // ---------------------------------------------------------------- in place

  /** convert: the text gets its NULs, string tokens below objects become keys, and the
      object table is filled. */
  method Convert(text: array<char>, tokens: array<Token>, numTokens: nat, objects: array<Option<Node>>)
    returns (invalid: bool)
    requires numTokens <= tokens.Length && objects.Length == numTokens
    requires forall i :: 0 <= i < numTokens ==> objects[i] == None
    requires WellFormed(Start(text[..], tokens[..numTokens]))
    modifies text, tokens, objects
    ensures
      var w := ConvertFrom(Start(old(text[..]), old(tokens[..numTokens])), 0);
      && text[..] == w.text && tokens[..numTokens] == w.toks
      && objects[..] == w.objs && invalid == w.invalid
  {
    invalid := false;
    var i := 0;
    ghost var start := Start(text[..], tokens[..numTokens]);
    assert objects[..] == start.objs;
    while i < numTokens
      invariant 0 <= i <= numTokens
      invariant var w := Work(text[..], tokens[..numTokens], objects[..], invalid);
        WellFormed(w) && ConvertFrom(start, 0) == ConvertFrom(w, i)
    {
      assert tokens[i] == tokens[..numTokens][i];
      if tokens[i].start < 0 || tokens[i].end < tokens[i].start {
        invalid := true;
        return;
      }
      invalid := ConvertToken(text, tokens, numTokens, objects, i, invalid);
      i := i + 1;
    }
  }

  method ConvertToken(text: array<char>, tokens: array<Token>, numTokens: nat, objects: array<Option<Node>>,
                      i: nat, invalid0: bool) returns (invalid: bool)
    requires i < numTokens <= tokens.Length && objects.Length == numTokens
    requires WellFormed(Work(text[..], tokens[..numTokens], objects[..], invalid0)) && SpanOk(tokens[i])
    modifies text, tokens, objects
    ensures
      var w := ConvertOne(Work(old(text[..]), old(tokens[..numTokens]), old(objects[..]), invalid0), i);
      text[..] == w.text && tokens[..numTokens] == w.toks && objects[..] == w.objs && invalid == w.invalid
  {
    ghost var w := Work(text[..], tokens[..numTokens], objects[..], invalid0);
    assert tokens[i] == w.toks[i];
    text[tokens[i].end] := '\0';
    Build(text, tokens, numTokens, objects, i, w.text[w.toks[i].end := '\0'], w.toks);
    var bad := Link(text, tokens, numTokens, objects, i, invalid0);
    invalid := invalid0 || bad;
  }

  /** The object of token `i`, and its new type if it is a key. */
  method Build(text: array<char>, tokens: array<Token>, numTokens: nat, objects: array<Option<Node>>,
               i: nat, ghost text0: string, ghost toks: seq<Token>)
    requires i < numTokens <= tokens.Length && objects.Length == numTokens
    requires text[..] == text0 && tokens[..numTokens] == toks
    requires Linked(toks) && SpanOk(toks[i]) && toks[i].end < text.Length
    modifies tokens, objects
    ensures var node := MakeNode(text0, toks, i);
      && tokens[..numTokens] == Retag(toks, i)
      && objects[..] == if node.Some? then old(objects[..])[i := node] else old(objects[..])
  {
    var current := tokens[i];
    assert current == toks[i];
    match current.kind
    case String =>
      var below := false;
      if current.parent >= 0 {
        assert tokens[current.parent] == toks[current.parent];
        below := tokens[current.parent].kind == Object;
      }
      if below {
        tokens[i] := current.(kind := Key);
      } else {
        var s := StringAt(text, current.start);
        objects[i] := Some(NStr(s));
      }
    case Primitive =>
      if text[current.start] == 't' {
        objects[i] := Some(NBool(true));
      } else if text[current.start] == 'f' {
        objects[i] := Some(NBool(false));
      } else {
        var s := StringAt(text, current.start);
        objects[i] := Some(NInt(StrToL(s)));
      }
    case Array =>
      objects[i] := Some(NList([]));
    case Object =>
      objects[i] := Some(NObj([], []));
    case _ =>
  }

  /** The characters from `p` to the next NUL. */
  method StringAt(text: array<char>, p: nat) returns (s: string)
    ensures s == CStr(text[..], p)
  {
    s := "";
    var q := p;
    while q < text.Length && text[q] != '\0'
      invariant s + CStr(text[..], q) == CStr(text[..], p)
      decreases text.Length - q
    {
      assert s + CStr(text[..], q) == (s + [text[q]]) + CStr(text[..], q + 1);
      s := s + [text[q]];
      q := q + 1;
    }
  }

  /** Links object `i` below its parent; true if it had to be dropped. */
  method Link(text: array<char>, tokens: array<Token>, numTokens: nat, objects: array<Option<Node>>,
              i: nat, ghost invalid: bool) returns (bad: bool)
    requires i < numTokens <= tokens.Length && objects.Length == numTokens
    requires WellFormed(Work(text[..], tokens[..numTokens], objects[..], invalid))
    modifies objects
    ensures
      var w := Attach(Work(text[..], tokens[..numTokens], old(objects[..]), invalid), i);
      objects[..] == w.objs && w.invalid == (invalid || bad)
  {
    ghost var toks := tokens[..numTokens];
    assert tokens[i] == toks[i];
    var p := tokens[i].parent;
    if p < 0 {
      return false;
    }
    assert tokens[p] == toks[p];
    if tokens[p].kind == Key {
      var o := tokens[p].parent;
      if objects[i] == None {
        return true;
      }
      if objects[o] == None || !objects[o].value.NObj? {
        objects[i] := None;
        return true;
      }
      var key := StringAt(text, tokens[p].start);
      objects[o] := Some(NObj(objects[o].value.keys + [key], objects[o].value.values + [i]));
      return false;
    }
    if tokens[p].kind == Array {
      if objects[p] == None || !objects[p].value.NList? || objects[i] == None {
        objects[i] := None;
        return true;
      }
      objects[p] := Some(NList(objects[p].value.members + [i]));
      return false;
    }
    if objects[i] != None {
      objects[i] := None;
      return true;
    }
    return false;
  }
}
