/** mstring::replace as it works on buffers: count, allocate exactly, copy piece by piece. */
module MString {
  import opened Replacing

  /** From `at` on, the buffer holds these characters and then a NUL, the first one. */
  predicate HoldsString(s: seq<char>, at: nat, text: seq<char>) {
    at + |text| < |s| && s[at..at + |text|] == text && s[at + |text|] == '\0'
    && NoNul(text)
  }

  lemma RestOfString(s: seq<char>, at: nat, text: seq<char>, from: nat)
    requires HoldsString(s, at, text) && from <= |text|
    ensures HoldsString(s, at + from, text[from..])
  {
    assert s[at + from..at + |text|] == s[at..at + |text|][from..];
  }

  lemma CharOfString(s: seq<char>, at: nat, text: seq<char>, i: nat)
    requires HoldsString(s, at, text) && i <= |text|
    ensures s[at + i] == if i < |text| then text[i] else '\0'
    ensures s[at + i] == '\0' <==> i == |text|
  {
    if i < |text| {
      assert s[at..at + |text|][i] == s[at + i];
    }
  }

  method StrLen(a: array<char>, at: nat, ghost text: seq<char>) returns (n: nat)
    requires HoldsString(a[..], at, text)
    ensures n == |text|
  {
    n := 0;
    CharOfString(a[..], at, text, n);
    while a[at + n] != '\0'
      invariant n <= |text| && (a[at + n] == '\0' <==> n == |text|)
      decreases |text| - n
    {
      n := n + 1;
      CharOfString(a[..], at, text, n);
    }
  }

  /** Whether the string at `at` begins with `rep`; never looks behind its NUL. */
  method StartsWith(a: array<char>, at: nat, ghost text: seq<char>, b: array<char>, ghost rep: seq<char>)
    returns (yes: bool)
    requires HoldsString(a[..], at, text) && HoldsString(b[..], 0, rep)
    ensures yes == OccursAt(text, 0, rep)
  {
    var k := 0;
    CharOfString(b[..], 0, rep, k);
    while b[k] != '\0'
      invariant k <= |rep| && k <= |text| && text[..k] == rep[..k]
      invariant b[k] == '\0' <==> k == |rep|
      decreases |rep| - k
    {
      CharOfString(a[..], at, text, k);
      CharOfString(b[..], 0, rep, k);
      if a[at + k] != b[k] {
        Differs(text, rep, k);
        return false;
      }
      assert text[..k + 1] == text[..k] + [text[k]] && rep[..k + 1] == rep[..k] + [rep[k]];
      k := k + 1;
      CharOfString(b[..], 0, rep, k);
    }
    assert rep[..k] == rep;
    yes := true;
  }

  lemma Differs(text: seq<char>, rep: seq<char>, k: nat)
    requires k < |rep| && (k < |text| ==> text[k] != rep[k])
    ensures !OccursAt(text, 0, rep)
  {
    if |rep| <= |text| {
      assert text[0..|rep|][k] == text[k];
    }
  }

  /** strstr: the first occurrence at or behind `at`, as a distance from it; -1 for none. */
  method StrStr(a: array<char>, at: nat, ghost text: seq<char>, b: array<char>, ghost rep: seq<char>)
    returns (found: int)
    requires HoldsString(a[..], at, text) && HoldsString(b[..], 0, rep)
    ensures found == Find(text, 0, rep)
  {
    var i := 0;
    while true
      invariant 0 <= i <= |text| && Find(text, i, rep) == Find(text, 0, rep)
      decreases |text| - i
    {
      RestOfString(a[..], at, text, i);
      var here := StartsWith(a, at + i, text[i..], b, rep);
      OccursMoves(text, i, 0, rep);
      if here {
        return i;
      }
      CharOfString(a[..], at, text, i);
      if a[at + i] == '\0' {
        return -1;
      }
      i := i + 1;
    }
  }

  /** Copies `n` characters that are all there. */
  method StrNCpy(dst: array<char>, to: nat, src: array<char>, from: nat, n: nat)
    requires dst != src && to + n <= dst.Length && from + n <= src.Length
    modifies dst
    ensures dst[to..to + n] == src[from..from + n]
    ensures forall q :: 0 <= q < dst.Length && !(to <= q < to + n) ==> dst[q] == old(dst[q])
  {
    var i := 0;
    while i < n
      invariant 0 <= i <= n
      invariant dst[to..to + i] == src[from..from + i]
      invariant forall q :: 0 <= q < dst.Length && !(to <= q < to + i) ==> dst[q] == old(dst[q])
    {
      ghost var done := dst[to..to + i];
      dst[to + i] := src[from + i];
      assert dst[to..to + i] == done;
      assert dst[to..to + i + 1] == done + [src[from + i]];
      assert src[from..from + i + 1] == src[from..from + i] + [src[from + i]];
      i := i + 1;
    }
  }

  /** Copies a string with its NUL. */
  method StrCpy(dst: array<char>, to: nat, src: array<char>, from: nat, ghost text: seq<char>)
    requires dst != src && HoldsString(src[..], from, text) && to + |text| < dst.Length
    modifies dst
    ensures HoldsString(dst[..], to, text)
    ensures forall q :: 0 <= q < dst.Length && !(to <= q <= to + |text|) ==> dst[q] == old(dst[q])
  {
    var n := StrLen(src, from, text);
    StrNCpy(dst, to, src, from, n);
    dst[to + n] := '\0';
    assert dst[..][to..to + n] == dst[to..to + n] == src[from..from + n] == text;
  }

  /** A number stored in 16 bits with a sign. */
  function Short(n: int): (r: int)
    ensures 0 <= n ==> r <= n && (r == n <==> n <= 0x7FFF)
  {
    (n + 0x8000) % 0x1_0000 - 0x8000
  }

  class MString {
    var cp: array?<char>
    var alloc: int
    ghost var text: seq<char>

    constructor ()
      ensures Valid() && cp == null
    {
      cp, alloc, text := null, 0, [];
    }

    ghost predicate Valid()
      reads this, cp
    {
      if cp == null then text == [] else HoldsString(cp[..], 0, text) && alloc <= cp.Length
    }

    /** Replaces every occurrence of `rep`; the new buffer has just the size of the result and its
        NUL, and every write is inside it. Nothing happens without a text, without one of the
        strings, or when there is nothing to look for. */
    method Replace(rep: array?<char>, with: array?<char>, ghost r: seq<char>, ghost w: seq<char>)
      requires Valid()
      requires rep != null ==> HoldsString(rep[..], 0, r)
      requires with != null ==> HoldsString(with[..], 0, w)
      modifies this
      ensures Valid()
      ensures old(cp) == null || rep == null || with == null || r == [] ==>
        cp == old(cp) && text == old(text) && alloc == old(alloc)
      ensures !(old(cp) == null || rep == null || with == null || r == []) ==>
        text == Replaced(old(text), r, w) && fresh(cp) && cp.Length == |text| + 1 && alloc == Short(|text| + 1)
    {
      if cp == null || rep == null || with == null {
        return;
      }
      var lenRep := StrLen(rep, 0, r);
      if lenRep == 0 {
        return;
      }
      var lenWith := StrLen(with, 0, w);
      var count, newSize := SizeOfReplaced(rep, r, w, lenRep, lenWith);
      var result := new char[newSize];
      CopyReplaced(result, rep, with, r, w, lenRep, lenWith, count);
      text := Replaced(text, r, w);
      cp := result;
      alloc := Short(newSize);
    }

    /** The number of replacements and the size of the new buffer. */
    method SizeOfReplaced(rep: array<char>, ghost r: seq<char>, ghost w: seq<char>, lenRep: nat, lenWith: nat)
      returns (count: nat, newSize: nat)
      requires Valid() && cp != null && HoldsString(rep[..], 0, r) && r != [] && lenRep == |r| && lenWith == |w|
      ensures count == |Parts(text, r)| - 1 && newSize == |Replaced(text, r, w)| + 1
    {
      count := CountOf(rep, r, lenRep);
      var length := StrLen(cp, 0, text);
      LengthOfReplaced(text, r, w);
      newSize := length + (lenWith - lenRep) * count + 1;
    }

    /** How many occurrences there are. */
    method CountOf(rep: array<char>, ghost r: seq<char>, lenRep: nat) returns (count: nat)
      requires Valid() && cp != null && HoldsString(rep[..], 0, r) && r != [] && lenRep == |r|
      ensures count == |Parts(text, r)| - 1
    {
      count := 0;
      var ins := 0;
      ghost var left, pieces := text, |Parts(text, r)|;
      while true
        invariant 0 <= ins <= |text| && left == text[ins..]
        invariant pieces == |Parts(left, r)| && count + pieces == |Parts(text, r)|
        decreases |text| - ins
      {
        RestOfString(cp[..], 0, text, ins);
        var tmp := StrStr(cp, ins, left, rep, r);
        if tmp == -1 {
          return;
        }
        ghost var image;
        left, pieces, image := FirstStep(left, r, r, tmp);
        ins := ins + tmp + lenRep;
        count := count + 1;
      }
    }

    method CopyReplaced(result: array<char>, rep: array<char>, with: array<char>, ghost r: seq<char>,
                        ghost w: seq<char>,
                        lenRep: nat, lenWith: nat, replacements: nat)
      requires Valid() && cp != null && HoldsString(rep[..], 0, r) && HoldsString(with[..], 0, w)
      requires r != [] && lenRep == |r| && lenWith == |w| && replacements == |Parts(text, r)| - 1
      requires result != cp && result != rep && result != with
      requires result.Length == |Replaced(text, r, w)| + 1
      modifies result
      ensures HoldsString(result[..], 0, Replaced(text, r, w))
    {
      var count := replacements;
      var tmp, orig := 0, 0;
      ghost var done: seq<char> := [];
      ghost var goal := Replaced(text, r, w);
      assert text[0..] == text && done + goal == goal;
      while count > 0
        invariant 0 <= orig <= |text| && 0 <= tmp < result.Length && count + 1 == |Parts(text[orig..], r)|
        invariant result[..tmp] == done && NoNul(done) && Copied(done, text[orig..], r, w) == goal
        decreases count
      {
        tmp, orig, done := CopyNext(result, tmp, orig, rep, with, r, w, lenRep, lenWith, done, count, goal);
        count := count - 1;
      }
      ghost var left := text[orig..];
      LastPiece(left, r, w);
      RestOfString(cp[..], 0, text, orig);
      PutLast(result, tmp, orig, left, done);
    }

    /** What is copied already, and the result of the rest. */
    static ghost function Copied(done: seq<char>, left: seq<char>, r: seq<char>, w: seq<char>): seq<char>
      requires r != []
    {
      done + Replaced(left, r, w)
    }

    /** Copies up to the next occurrence, and its replacement. */
    method CopyNext(result: array<char>, tmp0: nat, orig0: nat, rep: array<char>, with: array<char>,
                    ghost r: seq<char>, ghost w: seq<char>, lenRep: nat, lenWith: nat,
                    ghost done: seq<char>, ghost count: nat, ghost goal: seq<char>)
      returns (tmp: nat, orig: nat, ghost done': seq<char>)
      requires Valid() && cp != null && HoldsString(rep[..], 0, r) && HoldsString(with[..], 0, w)
      requires r != [] && lenRep == |r| && lenWith == |w|
      requires result != cp && result != rep && result != with && result.Length == |goal| + 1
      requires orig0 <= |text| && tmp0 < result.Length && 1 <= count && count + 1 == |Parts(text[orig0..], r)|
      requires result[..tmp0] == done && NoNul(done) && Copied(done, text[orig0..], r, w) == goal
      modifies result
      ensures orig <= |text| && tmp < result.Length && count == |Parts(text[orig..], r)|
      ensures result[..tmp] == done' && NoNul(done') && Copied(done', text[orig..], r, w) == goal
    {
      ghost var left := text[orig0..];
      RestOfString(cp[..], 0, text, orig0);
      var front := StrStr(cp, orig0, left, rep, r);
      ghost var piece;
      orig := orig0 + front + lenRep;
      piece, done' := PieceMoves(done, text, orig0, r, w, front, orig, count, goal);
      PieceInBuffer(cp[..], text, orig0, orig0 + front);
      NoNulGathers(done, text, orig0, orig0 + front, w);
      tmp := PutPiece(result, tmp0, orig0, front, with, lenWith, w, done, piece);
    }

    /** The next piece and its replacement move to what is copied. */
    static lemma PieceMoves(done: seq<char>, text: seq<char>, orig: nat, r: seq<char>, w: seq<char>,
                            front: int, next: nat, count: nat, goal: seq<char>)
      returns (piece: seq<char>, done': seq<char>)
      requires r != [] && orig <= |text| && 1 <= count && count + 1 == |Parts(text[orig..], r)|
      requires front == Find(text[orig..], 0, r) && front >= 0 && next == orig + front + |r|
      requires Copied(done, text[orig..], r, w) == goal
      ensures next <= |text| && piece == text[orig..orig + front]
      ensures done' == done + piece + w && |done'| <= |goal|
      ensures count == |Parts(text[next..], r)| && Copied(done', text[next..], r, w) == goal
    {
      var left := text[orig..];
      var left', pieces, image' := FirstStep(left, r, w, front);
      piece := left[..front];
      done' := done + piece + w;
      Gather(done, piece, w, image');
      assert left' == text[next..];
    }

    static lemma PieceInBuffer(s: seq<char>, text: seq<char>, from: nat, to: nat)
      requires HoldsString(s, 0, text) && from <= to <= |text|
      ensures to <= |s| && s[from..to] == text[from..to]
    {
      forall k | from <= k < to
        ensures s[k] == text[k]
      {
        CharOfString(s, 0, text, k);
      }
    }

    static lemma NoNulGathers(done: seq<char>, text: seq<char>, from: nat, to: nat, w: seq<char>)
      requires NoNul(done) && NoNul(text) && NoNul(w) && from <= to <= |text|
      ensures NoNul(done + text[from..to] + w)
    {
    }

    /** Copies the text behind the last occurrence. */
    method PutLast(result: array<char>, tmp: nat, orig: nat, ghost left: seq<char>, ghost done: seq<char>)
      requires cp != null && result != cp && HoldsString(cp[..], orig, left)
      requires tmp + |left| < result.Length && result[..tmp] == done && NoNul(done)
      modifies result
      ensures HoldsString(result[..], 0, done + left)
    {
      StrCpy(result, tmp, cp, orig, left);
      assert result[..tmp] == done;
      assert result[..][0..tmp + |left|] == result[..tmp] + result[..][tmp..tmp + |left|];
    }

    /** Copies the text up to an occurrence, and the string that takes its place. */
    method PutPiece(result: array<char>, tmp: nat, orig: nat, front: nat, with: array<char>,
                    lenWith: nat, ghost w: seq<char>, ghost done: seq<char>, ghost piece: seq<char>)
      returns (tmp': nat)
      requires cp != null && result != cp && result != with && HoldsString(with[..], 0, w)
      requires orig + front <= cp.Length && piece == cp[orig..orig + front]
      requires tmp + front + |w| < result.Length && result[..tmp] == done && lenWith == |w|
      modifies result
      ensures tmp' == tmp + front + |w| && result[..tmp'] == done + piece + w
    {
      StrNCpy(result, tmp, cp, orig, front);
      assert result[..tmp] == done;
      assert result[..tmp + front] == result[..tmp] + result[tmp..tmp + front];
      ghost var both := result[..tmp + front];
      StrCpy(result, tmp + front, with, 0, w);
      assert result[..tmp + front] == both;
      tmp' := tmp + front + lenWith;
      assert result[..tmp'] == result[..tmp + front] + result[..][tmp + front..tmp'];
    }

    static lemma LastPiece(t: seq<char>, r: seq<char>, w: seq<char>)
      requires r != [] && |Parts(t, r)| == 1
      ensures Replaced(t, r, w) == t
    {
    }

    static lemma Gather(a: seq<char>, b: seq<char>, c: seq<char>, d: seq<char>)
      ensures (a + b + c) + d == a + (b + c + d)
    {
    }
  }

  predicate NoNul(s: seq<char>) {
    forall i :: 0 <= i < |s| ==> s[i] != '\0'
  }
}
