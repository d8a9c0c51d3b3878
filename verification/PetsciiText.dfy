/** petscii_to_text and text_to_petscii: names as the menu shows and accepts them. */
module PetsciiText {
  import opened Common
  import opened Hex
  import opened Petscii

  /** The character the lower/upper case set shows for a PETSCII byte, or NUL. */
  function TextChar(p: char): char
  {
    if 0x41 as char <= p <= 0x5A as char then (p as int + 0x20) as char
    else if 0xC1 as char <= p <= 0xDA as char then (p as int - 0x80) as char
    else if 0x20 as char <= p <= 0x5F as char && p != 0x5C as char then p
    else '\0'
  }

  /** The same, with the duplicate upper case letters shown too unless the text has to be
      lossless. */
  function ShownChar(p: char, lossless: bool): char
  {
    if !lossless && 0x61 as char <= p <= 0x7A as char then (p as int - 0x20) as char else TextChar(p)
  }

  /** The byte the codec gives back for `p`. */
  function Normal(p: char, lossless: bool): char
  {
    if !lossless && 0x61 as char <= p <= 0x7A as char then (p as int + 0x60) as char else p
  }

  /** What the codec gives back for `n` bytes from byte `k` on. */
  function Given(pet: string, k: nat, n: nat, lossless: bool): (r: string)
    requires k + n <= |pet|
    ensures |r| == n
    decreases n
  {
    if n == 0 then "" else [Normal(pet[k], lossless)] + Given(pet, k + 1, n - 1, lossless)
  }

  lemma {:induction false} GivenAt(pet: string, k: nat, n: nat, lossless: bool, q: nat)
    requires k + n <= |pet| && q < n
    ensures Given(pet, k, n, lossless)[q] == Normal(pet[k + q], lossless)
    decreases n
  {
    if q > 0 {
      GivenAt(pet, k + 1, n - 1, lossless, q - 1);
    }
  }

  // ---------------------------------------------------------------- encoding

  /** What is written for byte `p`, in or out of an escape. */
  function Piece(p: char, escape: bool, lossless: bool): string
    requires IsByte(p)
  {
    var c := ShownChar(p, lossless);
    if c != '\0' then (if escape then "}" else "") + [c]
    else (if escape then "" else "{") + HexPair(p)
  }

  /** How many bytes, from byte `k` on, get into a text that has `i` characters already:
      three characters, a closing brace and the NUL have to fit before each. */
  function Taken(pet: Name, k: nat, escape: bool, i: nat, len: int, lossless: bool): (n: nat)
    requires k <= |pet|
    ensures k + n <= |pet|
    decreases |pet| - k
  {
    if k == |pet| || i + 5 > len then 0
    else
      1 + Taken(pet, k + 1, ShownChar(pet[k], lossless) == '\0',
                i + |Piece(pet[k], escape, lossless)|, len, lossless)
  }

  /** The rest of the text, from byte `k` on. */
  function Rest(pet: Name, k: nat, escape: bool, i: nat, len: int, lossless: bool): string
    requires k <= |pet|
    decreases |pet| - k
  {
    if k == |pet| || i + 5 > len then (if escape then "}" else "")
    else
      var piece := Piece(pet[k], escape, lossless);
      piece + Rest(pet, k + 1, ShownChar(pet[k], lossless) == '\0', i + |piece|, len, lossless)
  }

  function Text(pet: Name, len: int, lossless: bool): string {
    Rest(pet, 0, false, 0, len, lossless)
  }

  predicate AllAscii(s: string) {
    forall q :: 0 <= q < |s| ==> '\0' < s[q] < 128 as char
  }

  lemma PieceAscii(p: char, escape: bool, lossless: bool)
    requires '\0' < p && IsByte(p)
    ensures AllAscii(Piece(p, escape, lossless)) && |Piece(p, escape, lossless)| <= 3
  {
    HexDigitValue(p as int / 16);
    HexDigitValue(p as int % 16);
  }

  lemma {:induction false} RestAscii(pet: Name, k: nat, escape: bool, i: nat, len: int, lossless: bool)
    requires k <= |pet|
    ensures AllAscii(Rest(pet, k, escape, i, len, lossless))
    decreases |pet| - k
  {
    if k < |pet| && i + 5 <= len {
      PieceAscii(pet[k], escape, lossless);
      RestAscii(pet, k + 1, ShownChar(pet[k], lossless) == '\0',
                i + |Piece(pet[k], escape, lossless)|, len, lossless);
    }
  }

  /** Writes one byte, in or out of an escape. */
  method WritePiece(p: char, text: array<char>, i0: nat, escape0: bool, lossless: bool, ghost done: string,
                    ghost w: string)
    returns (i: nat, escape: bool)
    requires '\0' < p && IsByte(p) && i0 + 3 <= text.Length
    requires text[..i0] == done && w == Piece(p, escape0, lossless)
    modifies text
    ensures escape == (ShownChar(p, lossless) == '\0')
    ensures i == i0 + |w| <= i0 + 3 && (escape ==> |w| >= 2) && text[..i] == done + w
    ensures forall q :: i0 + 3 <= q < text.Length ==> text[q] == old(text[q])
  {
    i, escape := i0, escape0;
    var c := TextChar(p);
    if !lossless && 0x61 as char <= p <= 0x7A as char {
      c := (p as int - 0x20) as char;
    }
    if c != '\0' {
      if escape {
        text[i] := '}';
        i := i + 1;
        escape := false;
      }
      text[i] := c;
      i := i + 1;
    } else {
      if !escape {
        text[i] := '{';
        i := i + 1;
        escape := true;
      }
      text[i] := HexDigit(p as int / 16);
      text[i + 1] := HexDigit(p as int % 16);
      i := i + 2;
    }
  }

  method PetsciiToText(pet: Name, text: array<char>, len: int, lossless: bool) returns (complete: bool)
    requires len <= text.Length
    modifies text
    ensures len <= 0 ==> !complete && text[..] == old(text[..])
    ensures len > 0 ==>
      && Holds(text[..], Text(pet, len, lossless)) && |Text(pet, len, lossless)| < len
      && text[len..] == old(text[len..])
      && complete == (Taken(pet, 0, false, 0, len, lossless) == |pet|)
  {
    if len <= 0 {
      return false;
    }
    var i, k, escape;
    ghost var tail := text[len..];
    assert text[..0] + Text(pet, len, lossless) == Text(pet, len, lossless);
    i, k, escape := WriteBytes(pet, text, len, lossless, tail, WholeFrom(pet, 0, false, text[..0], len, lossless));
    NothingMore(pet, k, escape, i, len, lossless);
    ghost var before := text[..i];
    if escape {
      text[i] := '}';
      i := i + 1;
    }
    text[i] := '\0';
    assert text[..i] == before + if escape then "}" else "";
    return k == |pet|;
  }

  /** The text that is written and what follows it from byte `k` on; and how many bytes get in. */
  ghost function WholeFrom(pet: Name, k: nat, escape: bool, done: string, len: int, lossless: bool): (string, nat)
    requires k <= |pet|
  {
    (done + Rest(pet, k, escape, |done|, len, lossless), k + Taken(pet, k, escape, |done|, len, lossless))
  }

  /** Writes the bytes that fit; `tail` is what stands behind them. */
  method WriteBytes(pet: Name, text: array<char>, len: int, lossless: bool, ghost tail: string,
                    ghost whole: (string, nat))
    returns (i: nat, k: nat, escape: bool)
    requires 0 < len <= text.Length && text[len..] == tail
    requires WholeFrom(pet, 0, false, text[..0], len, lossless) == whole
    modifies text
    ensures k <= |pet| && i + (if escape then 2 else 1) <= len && (k == |pet| || i + 5 > len)
    ensures WholeFrom(pet, k, escape, text[..i], len, lossless) == whole
    ensures text[len..] == tail
  {
    i, k, escape := 0, 0, false;
    while k < |pet| && i + 5 <= len
      invariant 0 <= k <= |pet| && i + (if escape then 2 else 1) <= len
      invariant WholeFrom(pet, k, escape, text[..i], len, lossless) == whole
      invariant text[len..] == tail
    {
      i, escape := WriteNext(pet, k, text, i, escape, len, lossless, tail, whole);
      k := k + 1;
    }
  }

  /** Writes one byte. */
  method WriteNext(pet: Name, k: nat, text: array<char>, i0: nat, escape0: bool, len: int, lossless: bool,
                   ghost tail: string, ghost whole: (string, nat)) returns (i: nat, escape: bool)
    requires k < |pet| && i0 + 5 <= len <= text.Length && text[len..] == tail
    requires WholeFrom(pet, k, escape0, text[..i0], len, lossless) == whole
    modifies text
    ensures i + (if escape then 2 else 1) <= len
    ensures WholeFrom(pet, k + 1, escape, text[..i], len, lossless) == whole
    ensures text[len..] == tail
  {
    ghost var w, escape' := OneByteMoves(pet, k, escape0, text[..i0], len, lossless);
    i, escape := WritePiece(pet[k], text, i0, escape0, lossless, text[..i0], w);
  }

  lemma NothingMore(pet: Name, k: nat, escape: bool, i: nat, len: int, lossless: bool)
    requires k <= |pet| && (k == |pet| || i + 5 > len)
    ensures Rest(pet, k, escape, i, len, lossless) == (if escape then "}" else "")
    ensures Taken(pet, k, escape, i, len, lossless) == 0
  {
  }

  /** One byte moves from the rest of the text into the part that is written. */
  lemma OneByte(pet: Name, k: nat, escape: bool, i: nat, len: int, lossless: bool)
    returns (w: string, escape': bool, i': nat, rest': string, left': nat)
    requires k < |pet| && i + 5 <= len
    ensures w == Piece(pet[k], escape, lossless) && escape' == (ShownChar(pet[k], lossless) == '\0') && i' == i + |w|
    ensures rest' == Rest(pet, k + 1, escape', i', len, lossless) && Rest(pet, k, escape, i, len, lossless) == w + rest'
    ensures left' == Taken(pet, k + 1, escape', i', len, lossless)
    ensures Taken(pet, k, escape, i, len, lossless) == 1 + left'
  {
    w := Piece(pet[k], escape, lossless);
    escape', i' := ShownChar(pet[k], lossless) == '\0', i + |w|;
    rest', left' := Rest(pet, k + 1, escape', i', len, lossless), Taken(pet, k + 1, escape', i', len, lossless);
  }

  /** The same, with the part that is written. */
  lemma OneByteMoves(pet: Name, k: nat, escape: bool, done: string, len: int, lossless: bool)
    returns (w: string, escape': bool)
    requires k < |pet| && |done| + 5 <= len
    ensures w == Piece(pet[k], escape, lossless) && escape' == (ShownChar(pet[k], lossless) == '\0')
    ensures WholeFrom(pet, k + 1, escape', done + w, len, lossless) == WholeFrom(pet, k, escape, done, len, lossless)
  {
    var i', rest', left';
    w, escape', i', rest', left' := OneByte(pet, k, escape, |done|, len, lossless);
    Regroup(done, w, rest');
  }

  // ---------------------------------------------------------------- decoding

  datatype Decoded = Fail | Done(bytes: string)

  /** The byte of one character outside an escape, or NUL if it is none. */
  function PlainByte(c: char): (p: char)
    requires IsByte(c)
    ensures IsByte(p)
  {
    if 'a' <= c <= 'z' then (c as int - 0x20) as char
    else if 'A' <= c <= 'Z' then (c as int + 0x80) as char
    else if TextChar(c) == c then c
    else '\0'
  }

  /** text_to_petscii from character `j` on; `pairs` says that an escape is open and at least
      one pair of it was read. */
  function Decode(text: Name, j: nat, pairs: bool, out: string, len: int): Decoded
    requires j <= |text|
    decreases |text| - j
  {
    if pairs && j < |text| && text[j] == '}' then Decode(text, j + 1, false, out, len)
    else if !pairs && j == |text| then Done(out)
    else if !pairs && text[j] != '{' then
      var p := PlainByte(text[j]);
      if p == '\0' || |out| >= len - 1 then Fail else Decode(text, j + 1, false, out + [p], len)
    else
      var q := if pairs then j else j + 1;
      if q + 1 >= |text| || HexValue(text[q]) < 0 || HexValue(text[q + 1]) < 0 then Fail
      else
        var p := (HexValue(text[q]) * 16 + HexValue(text[q + 1])) as char;
        if p == '\0' || |out| >= len - 1 then Fail else Decode(text, q + 2, true, out + [p], len)
  }

  method TextToPetscii(text: Name, pet: array<char>, len: int) returns (n: int)
    requires len <= pet.Length
    modifies pet
    ensures n == -1 <==> len <= 0 || Decode(text, 0, false, "", len).Fail?
    ensures n != -1 ==>
      0 <= n < len && Holds(pet[..], Decode(text, 0, false, "", len).bytes)
      && n == |Decode(text, 0, false, "", len).bytes|
  {
    if len <= 0 {
      return -1;
    }
    var i, j := 0, 0;
    while j < |text|
      invariant 0 <= j <= |text| && 0 <= i < len
      invariant Decode(text, 0, false, "", len) == Decode(text, j, false, pet[..i], len)
    {
      if text[j] == '{' {
        j := j + 1;
        var first := true;
        while first || j >= |text| || text[j] != '}'
          invariant 0 <= j <= |text| && 0 <= i < len
          invariant first ==> j > 0 && text[j - 1] == '{'
          invariant first ==> Decode(text, 0, false, "", len) == Decode(text, j - 1, false, pet[..i], len)
          invariant !first ==> Decode(text, 0, false, "", len) == Decode(text, j, true, pet[..i], len)
          decreases |text| - j
        {
          if j >= |text| || HexValue(text[j]) < 0 || j + 1 >= |text| || HexValue(text[j + 1]) < 0 {
            return -1;
          }
          var p := (HexValue(text[j]) * 16 + HexValue(text[j + 1])) as char;
          if p == '\0' || i >= len - 1 {
            return -1;
          }
          ghost var before := pet[..i];
          pet[i] := p;
          i := i + 1;
          assert pet[..i] == before + [p];
          j := j + 2;
          first := false;
        }
        j := j + 1;
      } else {
        var c := text[j];
        var p := PlainByte(c);
        j := j + 1;
        if p == '\0' || i >= len - 1 {
          return -1;
        }
        ghost var before := pet[..i];
        pet[i] := p;
        i := i + 1;
        assert pet[..i] == before + [p];
      }
    }
    pet[i] := '\0';
    assert Decode(text, j, false, pet[..i], len) == Done(pet[..i]);
    return i;
  }

  // ---------------------------------------------------------------- round trip

  lemma ShownReads(p: char, lossless: bool)
    requires '\0' < p && IsByte(p) && ShownChar(p, lossless) != '\0'
    ensures var c := ShownChar(p, lossless);
      && '\0' < c < 128 as char && c != '{' && c != '}'
      && PlainByte(c) == Normal(p, lossless) && Normal(p, lossless) != '\0'
  {
  }

  /** What is written for one byte is read as that byte. */
  lemma PieceReads(text: Name, j: nat, p: char, escape: bool, lossless: bool, out: string, len: int)
    requires '\0' < p && IsByte(p) && |out| < len - 1
    requires var w := Piece(p, escape, lossless);
      j + |w| <= |text| && forall q :: 0 <= q < |w| ==> text[j + q] == w[q]
    ensures var j' := j + |Piece(p, escape, lossless)|;
      Decode(text, j, escape, out, len)
      == Decode(text, j', ShownChar(p, lossless) == '\0', out + [Normal(p, lossless)], len)
  {
    var w := Piece(p, escape, lossless);
    assert text[j + 0] == w[0];
    assert |w| > 1 ==> text[j + 1] == w[1];
    assert |w| > 2 ==> text[j + 2] == w[2];
    if ShownChar(p, lossless) != '\0' {
      ShownReads(p, lossless);
    } else {
      EscapeReads(text, j, p, escape, out, len);
    }
  }

  lemma EscapeReads(text: Name, j: nat, p: char, escape: bool, out: string, len: int)
    requires '\0' < p && IsByte(p) && |out| < len - 1
    requires var q := if escape then j else j + 1;
      q + 2 <= |text| && text[q] == HexPair(p)[0] && text[q + 1] == HexPair(p)[1] && (!escape ==> text[j] == '{')
    ensures Decode(text, j, escape, out, len)
         == Decode(text, if escape then j + 2 else j + 3, true, out + [p], len)
  {
    HexPairReads(p);
    HexDigitValue(p as int / 16);
  }

  /** The end of the text closes an open escape. */
  lemma EndReads(text: Name, j: nat, escape: bool, out: string, room: int)
    requires j <= |text| && text[j..] == if escape then "}" else ""
    ensures Decode(text, j, escape, out, room) == Done(out)
  {
    if escape {
      assert text[j..][0] == text[j];
      assert Decode(text, j, escape, out, room) == Decode(text, j + 1, false, out, room);
    }
  }

  lemma NextPiece(p: char, escape: bool, lossless: bool, w: string, rest: string,
                  text: Name, j: nat, out: string, room: int)
    requires '\0' < p && IsByte(p) && w == Piece(p, escape, lossless)
    requires j <= |text| && |out| < room - 1 && text[j..] == w + rest
    ensures j + |w| <= |text| && text[j + |w|..] == rest
    ensures Decode(text, j, escape, out, room)
         == Decode(text, j + |w|, ShownChar(p, lossless) == '\0', out + [Normal(p, lossless)], room)
  {
    SuffixSplit(text, j, w, rest);
    PieceReads(text, j, p, escape, lossless, out, room);
  }

  /** One byte more on both sides. */
  lemma NextReads(pet: Name, k: nat, escape: bool, i: nat, len: int, lossless: bool, rest: string, left: nat,
                  text: Name, j: nat, out: string, room: int)
    returns (j': nat, escape': bool, i': nat, rest': string, left': nat, out': string)
    requires k < |pet| && i + 5 <= len && j <= |text| && |out| < room - 1
    requires rest == Rest(pet, k, escape, i, len, lossless) && left == Taken(pet, k, escape, i, len, lossless)
    requires text[j..] == rest
    ensures j' <= |text| && |out'| == |out| + 1 && left == 1 + left' && k + left <= |pet|
    ensures rest' == Rest(pet, k + 1, escape', i', len, lossless)
    ensures left' == Taken(pet, k + 1, escape', i', len, lossless)
    ensures text[j'..] == rest' && Decode(text, j, escape, out, room) == Decode(text, j', escape', out', room)
    ensures out' + Given(pet, k + 1, left', lossless) == out + Given(pet, k, left, lossless)
  {
    var w;
    w, escape', i', rest', left' := OneByte(pet, k, escape, i, len, lossless);
    NextPiece(pet[k], escape, lossless, w, rest', text, j, out, room);
    j', out' := j + |w|, out + [Normal(pet[k], lossless)];
    GivenMoves(pet, k, left', lossless, out);
  }

  lemma GivenMoves(pet: Name, k: nat, left: nat, lossless: bool, out: string)
    requires k + 1 + left <= |pet|
    ensures (out + [Normal(pet[k], lossless)]) + Given(pet, k + 1, left, lossless)
         == out + Given(pet, k, 1 + left, lossless)
  {
    Regroup(out, [Normal(pet[k], lossless)], Given(pet, k + 1, left, lossless));
  }

  lemma NothingGiven(pet: Name, k: nat, lossless: bool, out: string)
    requires k <= |pet|
    ensures out + Given(pet, k, 0, lossless) == out
  {
    assert out + "" == out;
  }

  lemma StopReads(pet: Name, k: nat, escape: bool, i: nat, len: int, lossless: bool, left: nat,
                  text: Name, j: nat, out: string, room: int)
    requires k <= |pet| && j <= |text| && (k == |pet| || i + 5 > len)
    requires left == Taken(pet, k, escape, i, len, lossless) && text[j..] == Rest(pet, k, escape, i, len, lossless)
    requires |out| + left < room
    ensures left == 0 && Decode(text, j, escape, out, room) == Done(out + Given(pet, k, left, lossless))
  {
    NothingMore(pet, k, escape, i, len, lossless);
    EndReads(text, j, escape, out, room);
    NothingGiven(pet, k, lossless, out);
  }

  lemma {:induction false} RestReads(pet: Name, k: nat, escape: bool, i: nat, len: int, lossless: bool, rest: string,
                                     left: nat,
                                     text: Name, j: nat, out: string, room: int)
    requires k <= |pet| && j <= |text|
    requires rest == Rest(pet, k, escape, i, len, lossless) && left == Taken(pet, k, escape, i, len, lossless)
    requires text[j..] == rest && |out| + left < room
    ensures k + left <= |pet| && Decode(text, j, escape, out, room) == Done(out + Given(pet, k, left, lossless))
    decreases |pet| - k
  {
    if k == |pet| || i + 5 > len {
      StopReads(pet, k, escape, i, len, lossless, left, text, j, out, room);
    } else {
      var j', escape', i', rest', left', out'
        := NextReads(pet, k, escape, i, len, lossless, rest, left, text, j, out, room);
      RestReads(pet, k + 1, escape', i', len, lossless, rest', left', text, j', out', room);
    }
  }

  lemma TextIsName(pet: Name, len: int, lossless: bool)
    ensures forall q :: 0 <= q < |Text(pet, len, lossless)| ==> '\0' < Text(pet, len, lossless)[q] < 256 as char
  {
    RestAscii(pet, 0, false, 0, len, lossless);
    var t := Text(pet, len, lossless);
    forall q | 0 <= q < |t|
      ensures '\0' < t[q] < 256 as char
    {
      assert '\0' < t[q] < 128 as char;
    }
  }

  /** Whatever the room, the text decodes to what the codec gives back for the bytes that
      got in, a prefix of the name. (It is the whole name exactly when petscii_to_text said so.) */
  lemma TextRoundTrip(pet: Name, len: int, lossless: bool, room: int)
    requires len > 0 && room > Taken(pet, 0, false, 0, len, lossless)
    ensures var t := Text(pet, len, lossless);
      && (forall q :: 0 <= q < |t| ==> '\0' < t[q] < 256 as char)
      && Decode(t, 0, false, "", room) == Done(Given(pet, 0, Taken(pet, 0, false, 0, len, lossless), lossless))
  {
    TextIsName(pet, len, lossless);
    RestReads(pet, 0, false, 0, len, lossless, Text(pet, len, lossless), Taken(pet, 0, false, 0, len, lossless),
              Text(pet, len, lossless), 0, "", room);
    assert "" + Given(pet, 0, Taken(pet, 0, false, 0, len, lossless), lossless)
      == Given(pet, 0, Taken(pet, 0, false, 0, len, lossless), lossless);
  }

  /** Lossless: exactly the bytes that got in. */
  lemma LosslessRoundTrip(pet: Name, len: int, room: int)
    requires len > 0 && room > Taken(pet, 0, false, 0, len, true)
    ensures var t := Text(pet, len, true);
      && (forall q :: 0 <= q < |t| ==> '\0' < t[q] < 256 as char)
      && Decode(t, 0, false, "", room) == Done(pet[..Taken(pet, 0, false, 0, len, true)])
  {
    var n := Taken(pet, 0, false, 0, len, true);
    TextRoundTrip(pet, len, true, room);
    GivenLossless(pet, n);
  }

  lemma GivenLossless(pet: string, n: nat)
    requires n <= |pet|
    ensures Given(pet, 0, n, true) == pet[..n]
  {
    forall q | 0 <= q < n
      ensures Given(pet, 0, n, true)[q] == pet[q]
    {
      GivenAt(pet, 0, n, true, q);
    }
  }

  /** Two different names never show as the same complete lossless text. */
  lemma LosslessTextsDiffer(a: Name, b: Name, len: int)
    requires len > 0
    requires Taken(a, 0, false, 0, len, true) == |a| && Taken(b, 0, false, 0, len, true) == |b|
    requires Text(a, len, true) == Text(b, len, true)
    ensures a == b
  {
    var room := |a| + |b| + 1;
    LosslessRoundTrip(a, len, room);
    LosslessRoundTrip(b, len, room);
    assert a[..|a|] == a && b[..|b|] == b;
  }
}
