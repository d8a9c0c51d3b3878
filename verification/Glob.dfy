/** The wildcard matcher of pattern.cc: one loop that goes back to the last star only. */
module Glob {

  /** A C string: its characters up to, and without, the NUL. */
  type CString = s: string | '\0' !in s witness ""

  function ToUpper(c: char): char {
    if 'a' <= c <= 'z' then c - 'a' + 'A' else c
  }

  predicate SameChar(a: char, b: char, caseSensitive: bool) {
    if caseSensitive then a == b else ToUpper(a) == ToUpper(b)
  }

  // ---------------------------------------------------------------- what matching means

  /** The pattern from `i` on matches the fixed string from `j` on: a star stands for any
      run of characters, a question mark for any one, anything else for itself. */
  predicate Matches(p: string, i: nat, f: string, j: nat, cs: bool)
    requires i <= |p| && j <= |f|
    decreases |p| - i
  {
    if i == |p| then j == |f|
    else if p[i] == '*' then
      exists k {:trigger Matches(p, i + 1, f, k, cs)} :: j <= k <= |f| && Matches(p, i + 1, f, k, cs)
    else j < |f| && (p[i] == '?' || SameChar(p[i], f[j], cs)) && Matches(p, i + 1, f, j + 1, cs)
  }

  /** The pattern from `i` on matches some tail of the fixed string at or after `j`. */
  predicate MatchesAfter(p: string, i: nat, f: string, j: nat, cs: bool)
    requires i <= |p| && j <= |f|
  {
    exists k :: j <= k <= |f| && Matches(p, i, f, k, cs)
  }

  /** Characters other than stars take one character each. */
  lemma {:induction false} SkipLiterals(p: string, i: nat, f: string, j: nat, n: nat, cs: bool)
    requires i + n <= |p| && j <= |f| && Matches(p, i, f, j, cs)
    requires forall k :: i <= k < i + n ==> p[k] != '*'
    ensures j + n <= |f| && Matches(p, i + n, f, j + n, cs)
    decreases n
  {
    if n > 0 {
      SkipLiterals(p, i + 1, f, j + 1, n - 1, cs);
    }
  }

  /** Why only the last star counts. Between the last two stars, at `i` and at `i + n`, stand
      `n` characters. If the pattern after the first star can match at any later place at all,
      then what follows the second star can match at or after the present place too. */
  lemma LastStarSuffices(p: string, i: nat, f: string, j: nat, n: nat, cs: bool)
    requires i + n < |p| && j + n <= |f| && p[i + n] == '*'
    requires forall k :: i <= k < i + n ==> p[k] != '*'
    requires Matches(p, i, f, j, cs) == Matches(p, i + n, f, j + n, cs)
    ensures MatchesAfter(p, i, f, j, cs) == MatchesAfter(p, i + n + 1, f, j + n, cs)
  {
    if MatchesAfter(p, i, f, j, cs) {
      var k :| j <= k <= |f| && Matches(p, i, f, k, cs);
      SkipLiterals(p, i, f, k, n, cs);
      var m :| k + n <= m <= |f| && Matches(p, i + n + 1, f, m, cs);
    }
    if MatchesAfter(p, i + n + 1, f, j + n, cs) {
      var m :| j + n <= m <= |f| && Matches(p, i + n + 1, f, m, cs);
      assert Matches(p, i + n, f, j + n, cs);
    }
  }

  /** One place more for the last star, once the present one has failed. */
  lemma NextPlace(p: string, i: nat, f: string, j: nat, cs: bool)
    requires i <= |p| && j <= |f| && !Matches(p, i, f, j, cs)
    ensures j < |f| ==> MatchesAfter(p, i, f, j, cs) == MatchesAfter(p, i, f, j + 1, cs)
    ensures j == |f| ==> !MatchesAfter(p, i, f, j, cs)
  {
    if MatchesAfter(p, i, f, j, cs) {
      var k :| j <= k <= |f| && Matches(p, i, f, k, cs);
      assert k != j;
    }
  }

  lemma StarAtEnd(p: string, i: nat, f: string, cs: bool)
    requires i < |p| && p[i] == '*'
    ensures Matches(p, i, f, |f|, cs) == Matches(p, i + 1, f, |f|, cs)
  {
  }

  lemma RowsGrow(a: nat, b: nat, width: nat)
    requires a <= b
    ensures a * width <= b * width
  {
  }

  // ---------------------------------------------------------------- the loop

  /** The result is exactly `Matches`, and the loop turns at most once for each pair of a
      pattern position and a position in the fixed string, their ends included. */
  method PatternMatch(pattern: CString, fixed: CString, caseSensitive: bool) returns (matched: bool, ghost turns: nat)
    ensures matched == Matches(pattern, 0, fixed, 0, caseSensitive)
    ensures turns <= (|fixed| + 1) * (|pattern| + 1)
  {
    var p, f := 0, 0;
    var starP: int := -1;  // the pattern after the last star; -1 is NULL
    var starF := 0;        // where in the fixed string that was last tried
    ghost var width := |pattern| + 1;
    turns := 0;
    while true
      invariant 0 <= p <= |pattern| && 0 <= starF <= f <= |fixed|
      invariant starP == -1 ==> starF == 0
      invariant starP == -1 ==>
        Matches(pattern, 0, fixed, 0, caseSensitive) == Matches(pattern, p, fixed, f, caseSensitive)
      invariant starP != -1 ==> 0 < starP <= p && p - starP == f - starF
      invariant starP != -1 ==> forall k :: starP <= k < p ==> pattern[k] != '*'
      invariant starP != -1 ==>
        Matches(pattern, starP, fixed, starF, caseSensitive) == Matches(pattern, p, fixed, f, caseSensitive)
      invariant starP != -1 ==>
        Matches(pattern, 0, fixed, 0, caseSensitive) == MatchesAfter(pattern, starP, fixed, starF, caseSensitive)
      invariant turns <= starF * width + p
      decreases |fixed| - starF, |pattern| - p
    {
      TurnsBound(turns, starF, p, |fixed|, |pattern|);
      turns := turns + 1;
      if f == |fixed| {
        // End of the fixed string: what is left of the pattern may only be stars.
        var q := p;
        while q < |pattern| && pattern[q] == '*'
          invariant p <= q <= |pattern|
          invariant Matches(pattern, p, fixed, f, caseSensitive) == Matches(pattern, q, fixed, f, caseSensitive)
        {
          StarAtEnd(pattern, q, fixed, caseSensitive);
          q := q + 1;
        }
        if q == |pattern| {
          return true, turns;
        }
      } else if p < |pattern| && pattern[p] == '*' {
        if p + 1 == |pattern| {
          assert Matches(pattern, p + 1, fixed, |fixed|, caseSensitive);
          return true, turns;
        }
        if starP != -1 {
          LastStarSuffices(pattern, starP, fixed, starF, p - starP, caseSensitive);
        }
        RowsGrow(starF, f, width);
        p := p + 1;
        starP, starF := p, f;
        continue;
      } else if p < |pattern| && (pattern[p] == '?' || SameChar(pattern[p], fixed[f], caseSensitive)) {
        f := f + 1;
        p := p + 1;
        continue;
      }
      // No match from here: the last star takes one more character of the fixed string.
      if starP != -1 {
        NextPlace(pattern, starP, fixed, starF, caseSensitive);
      }
      if starP == -1 || starF == |fixed| {
        return false, turns;
      }
      assert (starF + 1) * width == starF * width + width;
      starF := starF + 1;
      p := starP;
      f := starF;
    }
  }

  lemma TurnsBound(turns: nat, row: nat, column: nat, rows: nat, columns: nat)
    requires row <= rows && column <= columns && turns <= row * (columns + 1) + column
    ensures turns + 1 <= (rows + 1) * (columns + 1)
  {
    RowsGrow(row, rows, columns + 1);
    assert (rows + 1) * (columns + 1) == rows * (columns + 1) + (columns + 1);
  }

  // ---------------------------------------------------------------- consequences

  /** The case the recursion that this loop replaced got wrong: a star does not let a fixed
      string end before the rest of the pattern was met. */
  lemma StarDoesNotEndThePattern(p: string, i: nat, f: string, cs: bool)
    requires i <= |p| && Matches(p, i, f, |f|, cs)
    ensures forall k :: i <= k < |p| ==> p[k] == '*'
    decreases |p| - i
  {
  }
}
