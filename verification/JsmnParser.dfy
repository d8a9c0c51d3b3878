/** The tokenizer as it runs: a parser object whose fields move, and a token array that is
    filled and amended in place. Each method is proved to do what the functions of module
    Jsmn say; `tokens == null` is the counting run. */
module JsmnParser {
  import opened Jsmn

  /** The parser's state `v` is `s`, but for the kind of a last token that is blank. */
  ghost predicate Shows(v: State, s: State) {
    || v == s
    || var n := |s.toks| - 1;
       && n >= 0 && s.toks[n] == Blank && |v.toks| == |s.toks|
       && v == s.(toks := s.toks[n := Blank.(kind := v.toks[n].kind)])
  }

  class Parser {
    var pos: nat
    var toknext: nat
    var toksuper: int

    constructor ()
      ensures pos == 0 && toknext == 0 && toksuper == -1
    {
      pos, toknext, toksuper := 0, 0, -1;
    }

    ghost function View(tokens: array<Token>): State
      requires toknext <= tokens.Length
      reads this, tokens
    {
      State(pos, toksuper, tokens[..toknext])
    }

    /** The caller's side: an array of `numTokens` entries that holds the tokens so far. */
    ghost predicate Ready(tokens: array<Token>, numTokens: nat)
      reads this, tokens
    {
      toknext <= numTokens <= tokens.Length && Shaped(View(tokens))
    }

    /** The next token of the pool, its type left as it was, or -1. */
    method AllocToken(tokens: array<Token>, numTokens: nat) returns (index: int)
      requires toknext <= numTokens <= tokens.Length
      modifies this`toknext, tokens
      ensures old(toknext) >= numTokens ==>
        index == -1 && toknext == old(toknext) && tokens[..] == old(tokens[..])
      ensures old(toknext) < numTokens ==>
        && index == old(toknext) && toknext == index + 1
        && tokens[..] == old(tokens[..])[index := Token(old(tokens[toknext]).kind, -1, -1, 0, -1)]
    {
      if toknext >= numTokens {
        return -1;
      }
      index := toknext;
      toknext := toknext + 1;
      tokens[index] := Token(tokens[index].kind, -1, -1, 0, -1);
    }

    /** Allocates and fills the token of a string or primitive. */
    method AddLeaf(tokens: array<Token>, numTokens: nat, kind: TokenKind, start: nat, end: nat)
      returns (ok: bool)
      requires toknext <= numTokens <= tokens.Length
      modifies this`toknext, tokens
      ensures ok == (old(toknext) < numTokens)
      ensures !ok ==> toknext == old(toknext) && tokens[..] == old(tokens[..])
      ensures ok ==>
        && toknext == old(toknext) + 1
        && tokens[..toknext] == old(tokens[..toknext]) + [Token(kind, start, end, 0, toksuper)]
    {
      var index := AllocToken(tokens, numTokens);
      if index == -1 {
        return false;
      }
      tokens[index] := Token(kind, start, end, 0, toksuper);
      return true;
    }

    /** jsmn_parse_primitive: on success `pos` is on the last character of the primitive. */
    method ParsePrimitive(js: string, tokens: array?<Token>, numTokens: nat) returns (r: int)
      requires !AtEnd(js, pos) && !EndsPrimitive(js[pos])
      requires tokens != null ==> toknext <= numTokens <= tokens.Length
      modifies this, tokens
      ensures toksuper == old(toksuper)
      ensures var scan := ScanPrimitive(js, old(pos));
        && (scan.Bad? ==> r == scan.code)
        && (scan.Found? && tokens != null && old(toknext) >= numTokens ==> r == ERROR_NOMEM)
        && (scan.Found? && (tokens == null || old(toknext) < numTokens) ==> r == 0 && pos + 1 == scan.at)
      ensures r != 0 ==> pos == old(pos)
      ensures r != 0 || tokens == null ==> toknext == old(toknext)
      ensures r != 0 && tokens != null ==> tokens[..] == old(tokens[..])
      ensures r == 0 && tokens != null ==>
        && toknext == old(toknext) + 1 <= tokens.Length
        && tokens[..toknext] == old(tokens[..toknext]) + [Token(Primitive, old(pos), pos + 1, 0, toksuper)]
    {
      var start := pos;
      while !AtEnd(js, pos) && !EndsPrimitive(js[pos])
        invariant start <= pos <= |js|
        invariant ScanPrimitive(js, start) == ScanPrimitive(js, pos)
        invariant pos == start ==> !AtEnd(js, pos) && !EndsPrimitive(js[pos])
        invariant toknext == old(toknext) && toksuper == old(toksuper)
        invariant tokens != null ==> tokens[..] == old(tokens[..])
        decreases |js| - pos
      {
        if js[pos] < ' ' || js[pos] >= 127 as char {
          pos := start;
          return ERROR_INVAL;
        }
        pos := pos + 1;
      }
      if AtEnd(js, pos) {
        pos := start;
        return ERROR_PART;
      }
      if tokens == null {
        pos := pos - 1;
        return 0;
      }
      var ok := AddLeaf(tokens, numTokens, Primitive, start, pos);
      if !ok {
        pos := start;
        return ERROR_NOMEM;
      }
      pos := pos - 1;
      return 0;
    }

    /** An escape, `pos` on its letter; on success `pos` ends on its last character. */
    method SkipEscape(js: string) returns (ok: bool)
      requires pos < |js|
      modifies this`pos
      ensures ok == (ScanEscape(js, old(pos)) != -1)
      ensures ok ==> pos + 1 == ScanEscape(js, old(pos))
    {
      if js[pos] != 'u' {
        return IsSimpleEscape(js[pos]);
      }
      pos := pos + 1;
      var i := 0;
      while i < 4 && !AtEnd(js, pos)
        invariant 0 <= i <= 4 && pos > old(pos)
        invariant ScanHex(js, old(pos) + 1, 4) == ScanHex(js, pos, 4 - i)
      {
        if !IsHexDigit(js[pos]) {
          return false;
        }
        pos := pos + 1;
        i := i + 1;
      }
      pos := pos - 1;
      return true;
    }

    /** jsmn_parse_string: on success `pos` is on the closing quote. */
    method ParseString(js: string, tokens: array?<Token>, numTokens: nat) returns (r: int)
      requires !AtEnd(js, pos)
      requires tokens != null ==> toknext <= numTokens <= tokens.Length
      modifies this, tokens
      ensures toksuper == old(toksuper)
      ensures var scan := ScanString(js, old(pos) + 1);
        && (scan.Bad? ==> r == scan.code)
        && (scan.Found? && tokens != null && old(toknext) >= numTokens ==> r == ERROR_NOMEM)
        && (scan.Found? && (tokens == null || old(toknext) < numTokens) ==> r == 0 && pos == scan.at)
      ensures r != 0 ==> pos == old(pos)
      ensures r != 0 || tokens == null ==> toknext == old(toknext)
      ensures r != 0 && tokens != null ==> tokens[..] == old(tokens[..])
      ensures r == 0 && tokens != null ==>
        && toknext == old(toknext) + 1 <= tokens.Length
        && tokens[..toknext] == old(tokens[..toknext]) + [Token(String, old(pos) + 1, pos, 0, toksuper)]
    {
      var start := pos;
      pos := pos + 1;
      while !AtEnd(js, pos)
        invariant start < pos <= |js|
        invariant ScanString(js, start + 1) == ScanString(js, pos)
        invariant toknext == old(toknext) && toksuper == old(toksuper)
        invariant tokens != null ==> tokens[..] == old(tokens[..])
        decreases |js| - pos
      {
        var c := js[pos];
        if c == '"' {
          if tokens == null {
            return 0;
          }
          var ok := AddLeaf(tokens, numTokens, String, start + 1, pos);
          if !ok {
            pos := start;
            return ERROR_NOMEM;
          }
          return 0;
        }
        if c == '\\' && pos + 1 < |js| {
          pos := pos + 1;
          var ok := SkipEscape(js);
          if !ok {
            pos := start;
            return ERROR_INVAL;
          }
        }
        pos := pos + 1;
      }
      pos := start;
      return ERROR_PART;
    }

    /** The superior token's child count, after a leaf was added. */
    method CountChild(tokens: array<Token>, ghost before: seq<Token>, ghost leaf: Token)
      requires -1 <= toksuper < |before| && toknext == |before| + 1 <= tokens.Length
      requires tokens[..toknext] == before + [leaf]
      modifies tokens
      ensures tokens[..toknext] == Bump(before, toksuper) + [leaf]
    {
      if toksuper != -1 {
        assert tokens[..toknext][toksuper] == before[toksuper];
        tokens[toksuper] := tokens[toksuper].(size := tokens[toksuper].size + 1);
      }
    }

    /** An opening bracket. A refused one leaves a token blank, its kind as it was. */
    method OpenContainer(tokens: array<Token>, numTokens: nat, kind: TokenKind) returns (r: int)
      requires Ready(tokens, numTokens)
      modifies this, tokens
      ensures r == 0 ==> toknext == old(toknext) + 1
      ensures var o := Open(numTokens, old(View(tokens)), kind);
        && pos == old(pos) && toknext <= numTokens
        && (o.Halt? ==> r == o.code && toksuper == old(toksuper))
        && (o.Halt? && r == ERROR_NOMEM ==> toknext == old(toknext) && tokens[..] == old(tokens[..]))
        && (o.Halt? && r == ERROR_INVAL ==>
              && toknext == old(toknext) + 1
              && tokens[..] == old(tokens[..])[toknext - 1 := Blank.(kind := old(tokens[toknext]).kind)])
        && (o.Next? ==> r == 0 && State(pos + 1, toksuper, tokens[..toknext]) == o.s)
    {
      ghost var before := tokens[..toknext];
      var index := AllocToken(tokens, numTokens);
      if index == -1 {
        return ERROR_NOMEM;
      }
      assert forall k :: 0 <= k < |before| ==> tokens[k] == before[k];
      if toksuper != -1 {
        if tokens[toksuper].kind == Object {
          return ERROR_INVAL;
        }
        tokens[toksuper] := tokens[toksuper].(size := tokens[toksuper].size + 1);
        tokens[index] := tokens[index].(parent := toksuper);
      }
      tokens[index] := tokens[index].(kind := kind, start := pos);
      assert tokens[..toknext] == Bump(before, toksuper) + [Token(kind, pos, -1, 0, toksuper)];
      toksuper := toknext - 1;
      return 0;
    }

    /** A closing bracket: up the parent links to the container it closes. */
    method CloseContainer(tokens: array<Token>, ghost numTokens: nat, kind: TokenKind) returns (r: int)
      requires Ready(tokens, numTokens)
      modifies this, tokens
      ensures var o := Close(old(View(tokens)), kind);
        && pos == old(pos) && toknext == old(toknext)
        && (o.Halt? ==> r == o.code && toksuper == old(toksuper) && tokens[..] == old(tokens[..]))
        && (o.Next? ==> r == 0 && State(pos + 1, toksuper, tokens[..toknext]) == o.s)
    {
      if toknext < 1 {
        return ERROR_INVAL;
      }
      ghost var before := tokens[..toknext];
      var i := toknext - 1;
      while true
        invariant 0 <= i < toknext
        invariant Walk(before, toknext - 1) == Walk(before, i)
        invariant tokens[..toknext] == before && tokens[..] == old(tokens[..])
        invariant pos == old(pos) && toknext == old(toknext) && toksuper == old(toksuper)
        decreases i
      {
        assert tokens[i] == before[i];
        if tokens[i].start != -1 && tokens[i].end == -1 {
          if tokens[i].kind != kind {
            return ERROR_INVAL;
          }
          tokens[i] := tokens[i].(end := pos + 1);
          toksuper := tokens[i].parent;
          assert tokens[..toknext] == before[i := before[i].(end := pos + 1)];
          return 0;
        }
        if tokens[i].parent == -1 {
          if tokens[i].kind != kind || toksuper == -1 {
            return ERROR_INVAL;
          }
          return 0;
        }
        i := tokens[i].parent;
      }
    }

    /** Whether a container is still open. */
    method FindOpen(tokens: array<Token>) returns (found: bool)
      requires toknext <= tokens.Length
      ensures found == AnyOpen(tokens[..toknext])
    {
      var i := toknext - 1;
      while i >= 0
        invariant -1 <= i < toknext
        invariant forall k :: i < k < toknext ==> !tokens[k].IsOpen()
      {
        if tokens[i].start != -1 && tokens[i].end == -1 {
          assert tokens[..toknext][i].IsOpen();
          return true;
        }
        i := i - 1;
      }
      return false;
    }

    /** A quote: a string token, or only its count. */
    method QuoteChar(js: string, tokens: array?<Token>, numTokens: nat) returns (r: int)
      requires !AtEnd(js, pos)
      requires tokens != null ==> Ready(tokens, numTokens)
      modifies this, tokens
      ensures r <= 0 && (r == 0 && tokens != null ==> toknext == old(toknext) + 1)
      ensures tokens == null ==> DryOutcome(ScanString(js, old(pos) + 1), old(pos), old(toknext), r, 1)
      ensures tokens != null ==> LiveOutcome(tokens, numTokens, Quote(js, numTokens, old(View(tokens))), r)
    {
      ghost var before := if tokens != null then tokens[..toknext] else [];
      ghost var start := pos;
      r := ParseString(js, tokens, numTokens);
      if r == 0 && tokens != null {
        CountChild(tokens, before, Token(String, start + 1, pos, 0, toksuper));
      }
    }

    /** The start of a primitive: a primitive token, or only its count. */
    method BareChar(js: string, tokens: array?<Token>, numTokens: nat) returns (r: int)
      requires !AtEnd(js, pos) && StartsPrimitive(js[pos])
      requires tokens != null ==> Ready(tokens, numTokens)
      modifies this, tokens
      ensures r <= 0 && (r == 0 && tokens != null ==> toknext == old(toknext) + 1)
      ensures tokens == null ==> DryOutcome(ScanPrimitive(js, old(pos)), old(pos), old(toknext), r, 0)
      ensures tokens != null ==> LiveOutcome(tokens, numTokens, Bare(js, numTokens, old(View(tokens))), r)
    {
      ghost var before := if tokens != null then tokens[..toknext] else [];
      ghost var start := pos;
      if tokens != null && toksuper != -1 {
        var t := tokens[toksuper];
        assert t == before[toksuper];
        if t.kind == Object || (t.kind == String && t.size != 0) {
          return ERROR_INVAL;
        }
      }
      r := ParsePrimitive(js, tokens, numTokens);
      if r == 0 && tokens != null {
        CountChild(tokens, before, Token(Primitive, start, pos + 1, 0, toksuper));
      }
    }

    /** `pos` still has to be moved past the character it is on. */
    ghost predicate LiveOutcome(tokens: array<Token>, numTokens: nat, o: Outcome, r: int)
      reads this, tokens
    {
      && toknext <= numTokens <= tokens.Length
      && (o.Halt? ==> r == o.code && r < 0 && View(tokens) == o.s)
      && (o.Next? ==> r == 0 && State(pos + 1, toksuper, tokens[..toknext]) == o.s)
    }

    ghost predicate DryOutcome(scan: Scan, pos0: nat, toknext0: nat, r: int, quote: nat)
      reads this
    {
      && toknext == toknext0
      && (scan.Bad? ==> r == scan.code && pos == pos0)
      && (scan.Found? ==> r == 0 && pos + 1 == scan.at + quote)
    }

    /** One turn of the loop in jsmn_parse up to its increment of `pos`, with a token array. */
    method Turn(js: string, tokens: array<Token>, numTokens: nat, count0: nat) returns (r: int, count: nat)
      requires Ready(tokens, numTokens) && !AtEnd(js, pos)
      modifies this, tokens
      ensures r <= 0 && toknext <= numTokens
      ensures r == 0 ==> count - count0 == toknext - old(toknext)
      ensures var o := Step(js, numTokens, old(View(tokens)));
        && (o.Halt? ==> r == o.code && r < 0 && Shows(View(tokens), o.s))
        && (o.Halt? && r != ERROR_INVAL ==> View(tokens) == o.s)
        && (o.Next? ==> r == 0 && State(pos + 1, toksuper, tokens[..toknext]) == o.s)
    {
      var c := js[pos];
      count := count0;
      if c == '{' {
        count := count + 1;
        r := OpenContainer(tokens, numTokens, Object);
      } else if c == '[' {
        count := count + 1;
        r := OpenContainer(tokens, numTokens, Array);
      } else if c == '}' {
        r := CloseContainer(tokens, numTokens, Object);
      } else if c == ']' {
        r := CloseContainer(tokens, numTokens, Array);
      } else if c == '"' {
        r := QuoteChar(js, tokens, numTokens);
        count := count + 1;
      } else if IsBlank(c) {
        r := 0;
      } else if c == ':' {
        toksuper := toknext - 1;
        r := 0;
      } else if c == ',' {
        if toksuper != -1 {
          assert tokens[..toknext][toksuper] == tokens[toksuper];
          if tokens[toksuper].kind != Array && tokens[toksuper].kind != Object {
            toksuper := tokens[toksuper].parent;
          }
        }
        r := 0;
      } else if StartsPrimitive(c) {
        r := BareChar(js, tokens, numTokens);
        count := count + 1;
      } else {
        r := ERROR_INVAL;
      }
    }

    /** jsmn_parse with a token array. */
    method Parse(js: string, tokens: array<Token>, numTokens: nat) returns (r: int)
      requires Ready(tokens, numTokens)
      modifies this, tokens
      ensures toknext <= numTokens
      ensures var o := Run(js, numTokens, old(View(tokens)));
        r == o.code && Shows(View(tokens), o.s) && (r != ERROR_INVAL ==> View(tokens) == o.s)
    {
      var count := toknext;
      ghost var start := View(tokens);
      while !AtEnd(js, pos)
        invariant Ready(tokens, numTokens)
        invariant count == toknext
        invariant Run(js, numTokens, start) == Run(js, numTokens, View(tokens))
        decreases |js| - pos
      {
        ghost var s := View(tokens);
        r, count := Turn(js, tokens, numTokens, count);
        if r < 0 {
          return;
        }
        pos := pos + 1;
        assert View(tokens) == Step(js, numTokens, s).s;
      }
      var open := FindOpen(tokens);
      if open {
        return ERROR_PART;
      }
      return count;
    }

    /** jsmn_parse without a token array: brackets are not matched, only counted. */
    method Count(js: string) returns (r: int)
      requires pos <= |js|
      modifies this
      ensures r == DryRun(js, old(pos), old(toknext))
    {
      var count := toknext;
      while !AtEnd(js, pos)
        invariant pos <= |js| && toknext == old(toknext) && count >= 0
        invariant DryRun(js, old(pos), old(toknext)) == DryRun(js, pos, count)
        decreases |js| - pos
      {
        var c := js[pos];
        if c == '{' || c == '[' {
          count := count + 1;
        } else if c == '"' {
          r := QuoteChar(js, null, 0);
          if r < 0 {
            return;
          }
          count := count + 1;
        } else if c == ':' {
          toksuper := toknext - 1;
        } else if c == '}' || c == ']' || IsBlank(c) || c == ',' {
        } else if StartsPrimitive(c) {
          r := BareChar(js, null, 0);
          if r < 0 {
            return;
          }
          count := count + 1;
        } else {
          return ERROR_INVAL;
        }
        pos := pos + 1;
      }
      return count;
    }
  }
}
