/** Runs of the tokenizer compared: with a larger token array, continued after the array
    was too small, and without any token array. */
module JsmnResume {
  import opened Jsmn

  lemma StepIgnoresSpareTokens(js: string, cap1: nat, cap2: nat, s: State)
    requires Shaped(s) && !AtEnd(js, s.pos) && cap1 <= cap2
    requires Step(js, cap1, s) != Halt(ERROR_NOMEM, s)
    ensures Step(js, cap2, s) == Step(js, cap1, s)
  {
  }

  /** A parse stopped for lack of tokens and continued with a larger array does what one
      run with that array does; a parse stopped for any other reason does not depend on
      the array's size at all. */
  lemma {:induction false} ResumeEqualsRestart(js: string, cap1: nat, cap2: nat, s: State)
    requires Shaped(s) && cap1 <= cap2
    ensures var o := Run(js, cap1, s);
      if o.code == ERROR_NOMEM then Run(js, cap2, s) == Run(js, cap2, o.s)
      else Run(js, cap2, s) == o
    decreases |js| - s.pos
  {
    if !AtEnd(js, s.pos) {
      var o := Step(js, cap1, s);
      if o.Next? {
        StepIgnoresSpareTokens(js, cap1, cap2, s);
        ResumeEqualsRestart(js, cap1, cap2, o.s);
      } else if o.code != ERROR_NOMEM {
        StepIgnoresSpareTokens(js, cap1, cap2, s);
      }
    }
  }

  /** What a turn of the loop does to the position and the token count is what the dry run
      does; a turn that stops otherwise than for lack of tokens is not a success. */
  lemma StepMatchesDryRun(js: string, cap: nat, s: State)
    requires Shaped(s) && !AtEnd(js, s.pos)
    ensures var o := Step(js, cap, s);
      if o.Next? then
        && |s.toks| <= |o.s.toks| <= |s.toks| + 1
        && DryRun(js, s.pos, |s.toks|) == DryRun(js, o.s.pos, |o.s.toks|)
      else o.code < 0
  {
  }

  /** Whenever a real parse succeeds with n tokens, counting without an array gives n. */
  lemma {:induction false} DryRunAgrees(js: string, cap: nat, s: State)
    requires Shaped(s) && Run(js, cap, s).code >= 0
    ensures DryRun(js, s.pos, |s.toks|) == Run(js, cap, s).code
    decreases |js| - s.pos
  {
    if !AtEnd(js, s.pos) {
      StepMatchesDryRun(js, cap, s);
      DryRunAgrees(js, cap, Step(js, cap, s).s);
    }
  }

  lemma {:induction false} DryRunGrows(js: string, pos: nat, count: nat)
    ensures DryRun(js, pos, count) < 0 || DryRun(js, pos, count) >= count
    decreases |js| - pos
  {
    if !AtEnd(js, pos) {
      var c := js[pos];
      if c == '{' || c == '[' {
        DryRunGrows(js, pos + 1, count + 1);
      } else if c == '}' || c == ']' || IsBlank(c) || c == ':' || c == ',' {
        DryRunGrows(js, pos + 1, count);
      } else if c == '"' {
        var r := ScanString(js, pos + 1);
        if r.Found? {
          DryRunGrows(js, r.at + 1, count + 1);
        }
      } else if StartsPrimitive(c) {
        var r := ScanPrimitive(js, pos);
        if r.Found? {
          DryRunGrows(js, r.at, count + 1);
        }
      }
    }
  }

  /** The dry run sizes the array: with the tokens it counted a parse never runs out, and
      with fewer no parse succeeds. */
  lemma {:induction false} DryRunSizesTheArray(js: string, cap: nat, s: State)
    requires Shaped(s) && |s.toks| <= cap && DryRun(js, s.pos, |s.toks|) >= 0
    ensures DryRun(js, s.pos, |s.toks|) <= cap ==> Run(js, cap, s).code != ERROR_NOMEM
    ensures DryRun(js, s.pos, |s.toks|) > cap ==> Run(js, cap, s).code < 0
    decreases |js| - s.pos
  {
    if !AtEnd(js, s.pos) {
      var o := Step(js, cap, s);
      if o.Next? {
        StepMatchesDryRun(js, cap, s);
        DryRunSizesTheArray(js, cap, o.s);
      } else if o.code == ERROR_NOMEM {
        FullArrayNeedsMore(js, cap, s);
      }
    }
  }

  lemma FullArrayNeedsMore(js: string, cap: nat, s: State)
    requires Shaped(s) && !AtEnd(js, s.pos) && |s.toks| <= cap
    requires Step(js, cap, s) == Halt(ERROR_NOMEM, s)
    requires DryRun(js, s.pos, |s.toks|) >= 0
    ensures DryRun(js, s.pos, |s.toks|) > cap
  {
    StepMatchesDryRun(js, cap + 1, s);
    var c := js[s.pos];
    if c == '{' || c == '[' {
      DryRunGrows(js, s.pos + 1, cap + 1);
    } else if c == '"' {
      DryRunGrows(js, ScanString(js, s.pos + 1).at + 1, cap + 1);
    } else {
      DryRunGrows(js, ScanPrimitive(js, s.pos).at, cap + 1);
    }
  }

  // ---------------------------------------------------------------- more text

  lemma {:induction false} PrimitiveWithMore(js: string, n: nat, p: nat)
    requires n <= |js|
    ensures var scan := ScanPrimitive(js[..n], p);
      scan != Bad(ERROR_PART) ==> ScanPrimitive(js, p) == scan
    decreases n - p
  {
    if p < n && !AtEnd(js, p) && !EndsPrimitive(js[p]) {
      PrimitiveWithMore(js, n, p + 1);
    }
  }

  lemma {:induction false} HexWithMore(js: string, n: nat, p: nat, k: nat)
    requires p <= n <= |js|
    ensures var r := ScanHex(js[..n], p, k);
      r == ScanHex(js, p, k) || (r >= 0 && AtEnd(js[..n], r))
    decreases k
  {
    if k > 0 && p < n && !AtEnd(js, p) && IsHexDigit(js[p]) {
      HexWithMore(js, n, p + 1, k - 1);
    }
  }

  lemma {:induction false} StringWithMore(js: string, n: nat, p: nat)
    requires p <= n <= |js|
    ensures var scan := ScanString(js[..n], p);
      scan != Bad(ERROR_PART) ==> ScanString(js, p) == scan
    decreases n - p
  {
    if p < n && !AtEnd(js, p) && js[p] != '"' {
      if js[p] == '\\' && p + 1 < n {
        if js[p + 1] == 'u' {
          HexWithMore(js, n, p + 2, 4);
        }
        var q := ScanEscape(js[..n], p + 1);
        if q != -1 {
          StringWithMore(js, n, q);
        }
      } else {
        StringWithMore(js, n, p + 1);
      }
    }
  }

  /** A turn that does not stop for want of text does not look at what comes behind. */
  lemma StepWithMore(js: string, n: nat, cap: nat, s: State)
    requires Shaped(s) && n <= |js| && !AtEnd(js[..n], s.pos)
    ensures var o := Step(js[..n], cap, s);
      o != Halt(ERROR_PART, s) ==> Step(js, cap, s) == o
  {
    if js[s.pos] == '"' {
      StringWithMore(js, n, s.pos + 1);
    } else if StartsPrimitive(js[s.pos]) {
      PrimitiveWithMore(js, n, s.pos);
    }
  }

  /** A parse that came to the end of a part of the text, or stopped inside a token there, and
      is continued on the whole text does what one run on it does; a parse stopped for any
      other reason does not depend on what follows. */
  lemma {:induction false} MoreTextEqualsRestart(js: string, n: nat, cap: nat, s: State)
    requires Shaped(s) && n <= |js|
    ensures var o := Run(js[..n], cap, s);
      if o.code == ERROR_PART || o.code >= 0 then Run(js, cap, s) == Run(js, cap, o.s)
      else Run(js, cap, s) == o
    decreases n - s.pos
  {
    if !AtEnd(js[..n], s.pos) {
      var o := Step(js[..n], cap, s);
      StepWithMore(js, n, cap, s);
      if o.Next? {
        MoreTextEqualsRestart(js, n, cap, o.s);
      }
    }
  }
}
