/** The words the tokenizer takes, exactly: which strings and primitives it finds, where they
    end, and which characters it refuses. */
module JsonLexis {
  import opened Jsmn
  import opened JsonTokens
  import opened JsonSpelling

  // ---------------------------------------------------------------- primitives

  /** No end of a primitive and no NUL from `p` up to `q`. */
  predicate GoesOn(js: string, p: nat, q: nat)
    requires q <= |js|
  {
    forall k :: p <= k < q ==> !Ender(js[k]) && js[k] != '\0'
  }

  predicate Printing(js: string, p: nat, q: nat)
    requires q <= |js|
  {
    forall k :: p <= k < q ==> 32 as char <= js[k] <= 126 as char
  }

  predicate TextEnds(js: string, q: nat) {
    q == |js| || (q < |js| && js[q] == '\0')
  }

  /** A primitive is found at its first ender, if only printing characters of ASCII stand before
      it; it waits for more if the text ends first; anything else is refused. */
  lemma {:induction false} PrimitiveExactly(js: string, p: nat)
    requires p <= |js|
    ensures forall q: nat :: ScanPrimitive(js, p) == Found(q) <==>
              p <= q < |js| && Ender(js[q]) && GoesOn(js, p, q) && Printing(js, p, q)
    ensures ScanPrimitive(js, p) == Bad(ERROR_PART) <==>
              exists q: nat :: p <= q <= |js| && TextEnds(js, q) && GoesOn(js, p, q) && Printing(js, p, q)
    decreases |js| - p
  {
    if TextEnds(js, p) {
      assert GoesOn(js, p, p);
    } else if !Ender(js[p]) && 32 as char <= js[p] <= 126 as char {
      PrimitiveExactly(js, p + 1);
      forall q: nat | p < q <= |js|
        ensures GoesOn(js, p, q) && Printing(js, p, q) <==> GoesOn(js, p + 1, q) && Printing(js, p + 1, q)
      {
        OneMore(js, p, q);
      }
    }
  }

  lemma OneMore(js: string, p: nat, q: nat)
    requires p < q <= |js| && !Ender(js[p]) && 32 as char <= js[p] <= 126 as char
    ensures GoesOn(js, p, q) && Printing(js, p, q) <==> GoesOn(js, p + 1, q) && Printing(js, p + 1, q)
  {
  }

  // ---------------------------------------------------------------- strings

  /** The text up to `q` is that of a row of units, and a quote stands there. */
  ghost predicate IsString(js: string, p: nat, q: nat) {
    p <= q < |js| && js[q] == '"' && exists us: seq<Unit> :: UnitsOk(us) && js[p..q] == UnitsText(us)
  }

  ghost predicate IsStray(js: string, p: nat, q: nat) {
    p <= q < |js| && StrayEscape(js, q) && exists us: seq<Unit> :: UnitsOk(us) && js[p..q] == UnitsText(us)
  }

  /** The scan goes over a row of units to a quote or to an escape that there is not, unless the
      text ends first. */
  lemma {:induction false} UnitsUpTo(js: string, p: nat) returns (us: seq<Unit>, q: nat)
    requires p <= |js| && ScanString(js, p) != Bad(ERROR_PART)
    ensures p <= q < |js| && UnitsOk(us) && js[p..q] == UnitsText(us)
    ensures ScanString(js, p) == if js[q] == '"' then Found(q) else Bad(ERROR_INVAL)
    ensures js[q] == '"' || StrayEscape(js, q)
    decreases |js| - p
  {
    us, q := [], p;
    if js[p] != '"' && !StrayEscape(js, p) {
      var u := UnitAt(js, p);
      us, q := UnitsUpTo(js, p + |UnitText(u)|);
      us := OneUnitMore(js, p, u, us, q);
    } else if js[p] != '"' {
      StrayEscapeRefused(js, p);
    }
  }

  lemma OneUnitMore(js: string, p: nat, u: Unit, us: seq<Unit>, q: nat) returns (more: seq<Unit>)
    requires UnitOk(u) && UnitsOk(us) && p + |UnitText(u)| <= q <= |js|
    requires js[p..p + |UnitText(u)|] == UnitText(u) && js[p + |UnitText(u)|..q] == UnitsText(us)
    ensures UnitsOk(more) && js[p..q] == UnitsText(more)
  {
    more := [u] + us;
    assert more[0] == u && more[1..] == us;
    assert js[p..q] == js[p..p + |UnitText(u)|] + js[p + |UnitText(u)|..q];
  }

  predicate ShortLetter(c: char) {
    c == '"' || c == '\\' || c == '/' || c == 'b' || c == 'f' || c == 'n' || c == 'r' || c == 't'
  }

  /** After `n` digits, fewer than four, there is a character that is none. */
  predicate StrayDigit(js: string, p: nat, n: nat) {
    n < 4 && p + n < |js| && js[p + n] != '\0' && !Hex(js[p + n]) && forall k :: p <= k < p + n ==> Hex(js[k])
  }

  ghost predicate FewDigits(js: string, p: nat) {
    exists n: nat :: StrayDigit(js, p, n)
  }

  /** A backslash with something behind it that makes no escape. */
  ghost predicate StrayEscape(js: string, q: nat) {
    && q + 1 < |js| && js[q] == '\\' && !ShortLetter(js[q + 1])
    && (js[q + 1] == 'u' ==> FewDigits(js, q + 2))
  }

  lemma StrayEscapeRefused(js: string, q: nat)
    requires StrayEscape(js, q)
    ensures ScanString(js, q) == Bad(ERROR_INVAL)
  {
    if js[q + 1] == 'u' {
      var n: nat :| StrayDigit(js, q + 2, n);
      StrayDigitRefused(js, q + 2, n, 4);
    }
  }

  lemma {:induction false} StrayDigitRefused(js: string, p: nat, n: nat, m: nat)
    requires n < m <= 4 && StrayDigit(js, p, n)
    ensures ScanHex(js, p, m) == -1
    decreases n
  {
    if n > 0 {
      assert Hex(js[p]);
      assert StrayDigit(js, p + 1, n - 1) by {
        assert js[p + 1 + (n - 1)] == js[p + n];
      }
      StrayDigitRefused(js, p + 1, n - 1, m - 1);
    }
  }

  /** The digits behind \u: four of them, or fewer and then the end of the text. */
  lemma {:induction false} DigitsUpTo(js: string, p: nat, m: nat) returns (n: nat)
    requires m <= 4 && p <= |js|
    ensures n <= m && p + n <= |js| && forall k :: p <= k < p + n ==> Hex(js[k])
    ensures ScanHex(js, p, m) == -1 ==> n < m && p + n < |js| && js[p + n] != '\0' && !Hex(js[p + n])
    ensures ScanHex(js, p, m) != -1 ==> ScanHex(js, p, m) == p + n && (n == m || AtEnd(js, p + n))
    decreases m
  {
    n := 0;
    if m > 0 && !AtEnd(js, p) && Hex(js[p]) {
      n := DigitsUpTo(js, p + 1, m - 1);
      n := n + 1;
    }
  }

  /** The unit the scan goes over. */
  lemma UnitAt(js: string, p: nat) returns (u: Unit)
    requires p < |js| && ScanString(js, p) != Bad(ERROR_PART) && js[p] != '"' && !StrayEscape(js, p)
    ensures UnitOk(u) && p + |UnitText(u)| <= |js| && js[p..p + |UnitText(u)|] == UnitText(u)
    ensures ScanString(js, p) == ScanString(js, p + |UnitText(u)|)
  {
    if js[p] != '\\' || p + 1 == |js| {
      u := Itself(js[p]);
    } else if js[p + 1] != 'u' {
      u := Short(js[p + 1]);
    } else {
      u := LongAt(js, p);
    }
  }

  lemma LongAt(js: string, p: nat) returns (u: Unit)
    requires p + 1 < |js| && ScanString(js, p) != Bad(ERROR_PART)
    requires js[p] == '\\' && js[p + 1] == 'u' && !FewDigits(js, p + 2)
    ensures p + 6 <= |js| && u == Long(js[p + 2], js[p + 3], js[p + 4], js[p + 5]) && UnitOk(u)
    ensures js[p..p + 6] == UnitText(u) && ScanString(js, p) == ScanString(js, p + 6)
  {
    var n := DigitsUpTo(js, p + 2, 4);
    if ScanHex(js, p + 2, 4) == -1 {
      assert StrayDigit(js, p + 2, n);
    }
    LongPassed(js, p, n);
    u := Long(js[p + 2], js[p + 3], js[p + 4], js[p + 5]);
  }

  lemma LongPassed(js: string, p: nat, n: nat)
    requires p + 1 < |js| && js[p] == '\\' && js[p + 1] == 'u' && ScanString(js, p) != Bad(ERROR_PART)
    requires ScanHex(js, p + 2, 4) == p + 2 + n && p + 2 + n <= |js| && (n == 4 || AtEnd(js, p + 2 + n))
    ensures n == 4 && ScanString(js, p) == ScanString(js, p + 6)
  {
    assert ScanEscape(js, p + 1) == p + 2 + n;
    assert ScanString(js, p) == ScanString(js, p + 2 + n);
  }

  lemma {:induction false} UnitsPassed(js: string, p: nat, us: seq<Unit>, q: nat)
    requires p <= q < |js| && UnitsOk(us) && js[p..q] == UnitsText(us)
    ensures ScanString(js, p) == ScanString(js, q)
    decreases |us|
  {
    if us != [] {
      var w := OneUnitLess(js, p, us, q);
      UnitScanned(js, p, us[0]);
      UnitsPassed(js, p + |w|, us[1..], q);
    }
  }

  lemma OneUnitLess(js: string, p: nat, us: seq<Unit>, q: nat) returns (w: string)
    requires us != [] && p <= q < |js| && js[p..q] == UnitsText(us)
    ensures w == UnitText(us[0]) && p + |w| <= q && TextAt(js, p, w) && js[p + |w|..q] == UnitsText(us[1..])
  {
    w := UnitText(us[0]);
    var rest := UnitsText(us[1..]);
    assert js[p..q] == w + rest;
    assert js[p..p + |w|] == js[p..q][..|w|] && js[p + |w|..q] == js[p..q][|w|..];
  }

  /** A string is found at the quote behind a row of units, and only there; it is refused at an
      escape that there is not; in any other case it waits for more. */
  lemma StringExactly(js: string, p: nat)
    requires p <= |js|
    ensures forall q: nat :: ScanString(js, p) == Found(q) <==> IsString(js, p, q)
    ensures ScanString(js, p) == Bad(ERROR_INVAL) <==> exists q: nat :: IsStray(js, p, q)
  {
    if ScanString(js, p) != Bad(ERROR_PART) {
      var us, q := UnitsUpTo(js, p);
      assert js[p..q] == UnitsText(us);
      assert ScanString(js, p) == Bad(ERROR_INVAL) ==> IsStray(js, p, q);
    }
    forall q: nat | IsString(js, p, q)
      ensures ScanString(js, p) == Found(q)
    {
      var us: seq<Unit> :| UnitsOk(us) && js[p..q] == UnitsText(us);
      UnitsPassed(js, p, us, q);
    }
    forall q: nat | IsStray(js, p, q)
      ensures ScanString(js, p) == Bad(ERROR_INVAL)
    {
      var us: seq<Unit> :| UnitsOk(us) && js[p..q] == UnitsText(us);
      UnitsPassed(js, p, us, q);
      StrayEscapeRefused(js, q);
    }
  }

  // ---------------------------------------------------------------- characters

  /** What may stand outside of strings and primitives, or begin one. */
  predicate Known(c: char) {
    || c == ' ' || c == '\t' || c == '\n' || c == '\r'
    || c == '{' || c == '}' || c == '[' || c == ']' || c == ':' || c == ',' || c == '"'
    || c == '-' || '0' <= c <= '9' || c == 't' || c == 'f' || c == 'n'
  }

  /** Any other character is an error, with and without tokens; and these do nothing but move on. */
  lemma OtherCharacters(js: string, cap: nat, s: State)
    requires Shaped(s) && s.pos < |js| && js[s.pos] != '\0'
    ensures !Known(js[s.pos]) ==>
      Step(js, cap, s) == Halt(ERROR_INVAL, s) && forall n: nat :: DryRun(js, s.pos, n) == ERROR_INVAL
    ensures Gap([js[s.pos]]) ==>
      Step(js, cap, s) == Next(s.(pos := s.pos + 1))
      && forall n: nat :: DryRun(js, s.pos, n) == DryRun(js, s.pos + 1, n)
  {
    assert [js[s.pos]][0] == js[s.pos];
  }
}
