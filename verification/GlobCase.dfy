/** What the wildcard matcher takes for the same character. */
module GlobCase {
  import opened Glob

  /** The large and the small form of one of the 26 letters, by their codes. */
  predicate Cases(large: char, small: char) {
    65 <= large as int <= 90 && small as int == large as int + 32
  }

  /** A caller who does not ask for the case gets the two cases of each letter for the same, and
      nothing else; one who does gets a character for the same only as itself. */
  predicate Same(a: char, b: char, caseSensitive: bool) {
    a == b || (!caseSensitive && (Cases(a, b) || Cases(b, a)))
  }

  lemma CaseFoldsLetters(a: char, b: char, caseSensitive: bool)
    ensures SameChar(a, b, caseSensitive) <==> Same(a, b, caseSensitive)
  {
  }

  predicate Alike(a: string, b: string, caseSensitive: bool) {
    |a| == |b| && forall k :: 0 <= k < |a| ==> Same(a[k], b[k], caseSensitive)
  }

  /** A pattern without stars and question marks matches the strings that are the same
      character by character. */
  lemma LiteralMatches(p: string, f: string, caseSensitive: bool)
    requires '*' !in p && '?' !in p
    ensures Matches(p, 0, f, 0, caseSensitive) <==> Alike(p, f, caseSensitive)
  {
    LiteralFrom(p, 0, f, 0, caseSensitive);
    assert p[0..] == p && f[0..] == f;
  }

  lemma {:induction false} LiteralFrom(p: string, i: nat, f: string, j: nat, cs: bool)
    requires i <= |p| && j <= |f| && '*' !in p && '?' !in p
    ensures Matches(p, i, f, j, cs) <==> Alike(p[i..], f[j..], cs)
    decreases |p| - i
  {
    if i < |p| && j < |f| {
      LiteralFrom(p, i + 1, f, j + 1, cs);
      CaseFoldsLetters(p[i], f[j], cs);
      AlikeHead(p[i], p[i + 1..], f[j], f[j + 1..], cs);
      assert p[i..] == [p[i]] + p[i + 1..] && f[j..] == [f[j]] + f[j + 1..];
    }
  }

  lemma AlikeHead(a: char, p: string, b: char, f: string, cs: bool)
    ensures Alike([a] + p, [b] + f, cs) <==> Same(a, b, cs) && Alike(p, f, cs)
  {
    if Alike([a] + p, [b] + f, cs) {
      assert ([a] + p)[0] == a && ([b] + f)[0] == b;
      forall k | 0 <= k < |p|
        ensures Same(p[k], f[k], cs)
      {
        assert Same(([a] + p)[k + 1], ([b] + f)[k + 1], cs);
      }
    }
  }

  // ---------------------------------------------------------------- patterns as cuts

  /** What one character of a pattern takes from `from` up to `to`: a star any run of characters, a
      question mark any one, everything else the same one. */
  predicate Takes(c: char, f: string, from: nat, to: nat, caseSensitive: bool) {
    && from <= to <= |f|
    && (c == '*' || (to == from + 1 && (c == '?' || Same(c, f[from], caseSensitive))))
  }

  /** The string from `j` on is cut into one piece for each character of the pattern from `i` on. */
  predicate CutInto(p: string, i: nat, f: string, j: nat, caseSensitive: bool, cuts: seq<nat>) {
    && i <= |p| && j <= |f| && |cuts| == |p| - i + 1 && cuts[0] == j && cuts[|p| - i] == |f|
    && forall k :: i <= k < |p| ==> Takes(p[k], f, cuts[k - i], cuts[k - i + 1], caseSensitive)
  }

  lemma {:induction false} MatchIsCut(p: string, i: nat, f: string, j: nat, cs: bool) returns (cuts: seq<nat>)
    requires i <= |p| && j <= |f| && Matches(p, i, f, j, cs)
    ensures CutInto(p, i, f, j, cs, cuts)
    decreases |p| - i
  {
    if i == |p| {
      cuts := [j];
    } else {
      var to := j + 1;
      if p[i] == '*' {
        to :| j <= to <= |f| && Matches(p, i + 1, f, to, cs);
      } else {
        CaseFoldsLetters(p[i], f[j], cs);
      }
      var rest := MatchIsCut(p, i + 1, f, to, cs);
      cuts := [j] + rest;
      FirstCut(p, i, f, j, cs, rest);
    }
  }

  lemma FirstCut(p: string, i: nat, f: string, j: nat, cs: bool, rest: seq<nat>)
    requires i < |p| && j <= |f| && rest != [] && Takes(p[i], f, j, rest[0], cs)
    ensures CutInto(p, i + 1, f, rest[0], cs, rest) ==> CutInto(p, i, f, j, cs, [j] + rest)
  {
    if CutInto(p, i + 1, f, rest[0], cs, rest) {
      var cuts := [j] + rest;
      forall k | i <= k < |p|
        ensures Takes(p[k], f, cuts[k - i], cuts[k - i + 1], cs)
      {
        if k > i {
          assert cuts[k - i] == rest[k - i - 1] && cuts[k - i + 1] == rest[k - i];
          assert Takes(p[k], f, rest[k - (i + 1)], rest[k - (i + 1) + 1], cs);
        }
      }
    }
  }

  lemma {:induction false} CutMatches(p: string, i: nat, f: string, j: nat, cs: bool, cuts: seq<nat>)
    requires CutInto(p, i, f, j, cs, cuts)
    ensures Matches(p, i, f, j, cs)
    decreases |p| - i
  {
    if i < |p| {
      assert Takes(p[i], f, cuts[i - i], cuts[i - i + 1], cs);
      var rest := cuts[1..];
      forall k | i + 1 <= k < |p|
        ensures Takes(p[k], f, rest[k - (i + 1)], rest[k - (i + 1) + 1], cs)
      {
        assert Takes(p[k], f, cuts[k - i], cuts[k - i + 1], cs);
        assert rest[k - (i + 1)] == cuts[k - i] && rest[k - (i + 1) + 1] == cuts[k - i + 1];
      }
      CutMatches(p, i + 1, f, cuts[1], cs, rest);
      if p[i] != '*' {
        CaseFoldsLetters(p[i], f[j], cs);
      }
    }
  }

  /** A pattern matches exactly the strings that can be cut into what its characters take. */
  lemma MatchExactly(p: string, f: string, caseSensitive: bool)
    ensures Matches(p, 0, f, 0, caseSensitive) <==> exists cuts: seq<nat> :: CutInto(p, 0, f, 0, caseSensitive, cuts)
  {
    if Matches(p, 0, f, 0, caseSensitive) {
      var cuts := MatchIsCut(p, 0, f, 0, caseSensitive);
    }
    if cuts: seq<nat> :| CutInto(p, 0, f, 0, caseSensitive, cuts) {
      CutMatches(p, 0, f, 0, caseSensitive, cuts);
    }
  }
}
