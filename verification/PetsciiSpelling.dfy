/** What a name shows as and what a text is read as, byte by byte: the table of the characters,
    the grammar of the texts, and the letters of FAT names. */
module PetsciiSpelling {
  import opened Common
  import opened Hex
  import opened Petscii
  import opened PetsciiText
  import Fat = PetsciiFat

  // ---------------------------------------------------------------- characters

  /** Byte `p` shows as `c`: two blocks of letters, a third one only where the text need not be
      lossless, and the signs between space and @, brackets, arrow and underscore as they are. */
  predicate Shows(p: char, lossless: bool, c: char) {
    || (0x41 <= p as int <= 0x5A && c as int == 'a' as int + (p as int - 0x41))
    || (0xC1 <= p as int <= 0xDA && c as int == 'A' as int + (p as int - 0xC1))
    || (!lossless && 0x61 <= p as int <= 0x7A && c as int == 'A' as int + (p as int - 0x61))
    || (c == p && (0x20 <= p as int <= 0x40 || p == '[' || p == ']' || p == '^' || p == '_'))
  }

  /** Bytes that show as nothing and are spelled in hexadecimal. */
  predicate Hidden(p: char, lossless: bool) {
    || p as int < 0x20 || p as int == 0x5C || p as int == 0x60
    || (lossless && 0x61 <= p as int <= 0x7A)
    || 0x7B <= p as int <= 0xC0 || p as int >= 0xDB
  }

  lemma ShownExactly(p: char, lossless: bool, c: char)
    requires IsByte(p) && c != '\0'
    ensures ShownChar(p, lossless) == c <==> Shows(p, lossless, c)
    ensures ShownChar(p, lossless) == '\0' <==> Hidden(p, lossless)
  {
  }

  // ---------------------------------------------------------------- from bytes to text

  /** The text from `i` on has the bytes from `k` on, in or out of braces: hidden ones in
      hexadecimal inside of them, the others as what they show. */
  predicate SpelledAt(text: string, i: nat, s: Name, k: nat, inside: bool, lossless: bool)
    requires k <= |s|
    decreases |s| - k
  {
    if k == |s| then
      if inside then |text| == i + 1 && text[i] == '}' else |text| == i
    else if Hidden(s[k], lossless) then
      var i' := if inside then i else i + 1;
      && i' + 2 <= |text| && (inside || text[i] == '{') && text[i'..i' + 2] == HexPair(s[k])
      && SpelledAt(text, i' + 2, s, k + 1, true, lossless)
    else
      var i' := if inside then i + 1 else i;
      && i' < |text| && (!inside || text[i] == '}') && Shows(s[k], lossless, text[i'])
      && SpelledAt(text, i' + 1, s, k + 1, false, lossless)
  }

  predicate HiddenBefore(s: Name, k: nat, lossless: bool)
    requires k <= |s|
  {
    k > 0 && Hidden(s[k - 1], lossless)
  }

  /** How many characters the bytes before `k` take. */
  function Taking(s: Name, k: nat, lossless: bool): nat
    requires k <= |s|
  {
    if k == 0 then 0
    else
      Taking(s, k - 1, lossless)
      + (if Hidden(s[k - 1], lossless) then (if HiddenBefore(s, k - 1, lossless) then 2 else 3)
         else (if HiddenBefore(s, k - 1, lossless) then 2 else 1))
  }

  /** A byte gets in while five characters are left. */
  predicate RoomFor(s: Name, k: nat, len: int, lossless: bool)
    requires k <= |s|
  {
    Taking(s, k, lossless) + 5 <= len
  }

  lemma PieceIs(p: char, escape: bool, lossless: bool, w: string)
    requires IsByte(p) && w == Piece(p, escape, lossless)
    ensures Hidden(p, lossless) <==> ShownChar(p, lossless) == '\0'
    ensures Hidden(p, lossless) ==> w == (if escape then "" else "{") + HexPair(p)
    ensures !Hidden(p, lossless) ==>
      |w| == (if escape then 2 else 1) && (escape ==> w[0] == '}') && Shows(p, lossless, w[|w| - 1])
  {
    var c := ShownChar(p, lossless);
    ShownExactly(p, lossless, if c == '\0' then 'x' else c);
  }

  lemma PieceAt(text: string, i: nat, w: string, rest: string, s: Name, k: nat, inside: bool, lossless: bool)
    requires k < |s| && w == Piece(s[k], inside, lossless) && i <= |text| && text[i..] == w + rest
    requires SpelledAt(text, i + |w|, s, k + 1, Hidden(s[k], lossless), lossless)
    ensures SpelledAt(text, i, s, k, inside, lossless)
  {
    PieceIs(s[k], inside, lossless, w);
    SuffixSplit(text, i, w, rest);
    if Hidden(s[k], lossless) {
      var i' := if inside then i else i + 1;
      assert text[i'..i' + 2] == HexPair(s[k]);
    }
  }

  lemma {:induction false} RestSpells(pet: Name, k: nat, i: nat, len: int, lossless: bool, t: nat, s: Name,
                                      inside: bool, text: string)
    requires k <= |pet| && i == Taking(pet, k, lossless) && inside == HiddenBefore(pet, k, lossless)
    requires t == k + Taken(pet, k, inside, i, len, lossless) && s == pet[..t]
    requires i <= |text| && text[i..] == Rest(pet, k, inside, i, len, lossless)
    ensures SpelledAt(text, i, s, k, inside, lossless)
    decreases |pet| - k
  {
    if k < |pet| && i + 5 <= len {
      var w, rest := NextSpells(pet, k, i, len, lossless, t, s, inside, text);
      RestSpells(pet, k + 1, i + |w|, len, lossless, t, s, Hidden(pet[k], lossless), text);
      PieceAt(text, i, w, rest, s, k, inside, lossless);
    } else {
      NothingMore(pet, k, inside, i, len, lossless);
      EndSpelled(text, i, s, inside, lossless);
    }
  }

  lemma EndSpelled(text: string, i: nat, s: Name, inside: bool, lossless: bool)
    requires i <= |text| && text[i..] == if inside then "}" else ""
    ensures SpelledAt(text, i, s, |s|, inside, lossless)
  {
    assert inside ==> text[i] == text[i..][0];
  }

  /** Which bytes get in: all up to the first that finds no room. */
  lemma {:induction false} RoomIsTaken(pet: Name, k: nat, i: nat, len: int, lossless: bool, inside: bool)
    requires k <= |pet| && i == Taking(pet, k, lossless) && inside == HiddenBefore(pet, k, lossless)
    ensures var t := k + Taken(pet, k, inside, i, len, lossless);
      && (forall q :: k <= q < t ==> RoomFor(pet, q, len, lossless))
      && (t == |pet| || !RoomFor(pet, t, len, lossless))
    decreases |pet| - k
  {
    if k < |pet| && i + 5 <= len {
      var i' := PieceTakes(pet, k, inside, lossless, i);
      RoomIsTaken(pet, k + 1, i', len, lossless, Hidden(pet[k], lossless));
    }
  }

  lemma PieceTakes(pet: Name, k: nat, inside: bool, lossless: bool, i: nat) returns (i': nat)
    requires k < |pet| && i == Taking(pet, k, lossless) && inside == HiddenBefore(pet, k, lossless)
    ensures i' == i + |Piece(pet[k], inside, lossless)| == Taking(pet, k + 1, lossless)
    ensures Hidden(pet[k], lossless) <==> ShownChar(pet[k], lossless) == '\0'
    ensures Hidden(pet[k], lossless) == HiddenBefore(pet, k + 1, lossless)
  {
    var w := Piece(pet[k], inside, lossless);
    PieceIs(pet[k], inside, lossless, w);
    i' := i + |w|;
  }

  lemma NextSpells(pet: Name, k: nat, i: nat, len: int, lossless: bool, t: nat, s: Name, inside: bool, text: string)
    returns (w: string, rest: string)
    requires k < |pet| && i + 5 <= len && i == Taking(pet, k, lossless) && inside == HiddenBefore(pet, k, lossless)
    requires t == k + Taken(pet, k, inside, i, len, lossless) && s == pet[..t]
    requires i <= |text| && text[i..] == Rest(pet, k, inside, i, len, lossless)
    ensures k < t && s[k] == pet[k] && w == Piece(pet[k], inside, lossless) && text[i..] == w + rest
    ensures i + |w| == Taking(pet, k + 1, lossless) && i + |w| <= |text|
    ensures text[i + |w|..] == rest == Rest(pet, k + 1, Hidden(pet[k], lossless), i + |w|, len, lossless)
    ensures t == k + 1 + Taken(pet, k + 1, Hidden(pet[k], lossless), i + |w|, len, lossless)
  {
    var inside', i', left;
    w, inside', i', rest, left := OneByte(pet, k, inside, i, len, lossless);
    PieceIs(pet[k], inside, lossless, w);
    SuffixSplit(text, i, w, rest);
  }

  /** The text of a name spells the bytes up to the first that finds no room. */
  lemma TextExactly(pet: Name, len: int, lossless: bool) returns (t: nat)
    ensures t == Taken(pet, 0, false, 0, len, lossless) && t <= |pet|
    ensures SpelledAt(Text(pet, len, lossless), 0, pet[..t], 0, false, lossless)
    ensures forall q :: 0 <= q < t ==> RoomFor(pet, q, len, lossless)
    ensures t == |pet| || !RoomFor(pet, t, len, lossless)
  {
    t := Taken(pet, 0, false, 0, len, lossless);
    var text := Text(pet, len, lossless);
    assert text[0..] == text;
    RestSpells(pet, 0, 0, len, lossless, t, pet[..t], false, text);
    RoomIsTaken(pet, 0, 0, len, lossless, false);
  }

  // ---------------------------------------------------------------- from text to bytes

  /** Two digits and the byte they spell. */
  datatype Pair = Pair(high: char, low: char, byte: char)

  /** A character and the byte that shows as it, or pairs of digits between braces. */
  datatype Part = One(c: char, byte: char) | Braces(pairs: seq<Pair>)

  predicate IsDigit(c: char, v: nat) {
    if v < 10 then c as int == '0' as int + v
    else v < 16 && (c as int == 'A' as int + v - 10 || c as int == 'a' as int + v - 10)
  }

  predicate PairOk(pair: Pair) {
    && '\0' < pair.byte && IsByte(pair.byte)
    && IsDigit(pair.high, pair.byte as int / 16) && IsDigit(pair.low, pair.byte as int % 16)
  }

  predicate PartOk(part: Part) {
    match part
    case One(c, byte) => IsByte(byte) && Shows(byte, true, c)
    case Braces(pairs) => pairs != [] && PairsOk(pairs)
  }

  predicate PairsOk(pairs: seq<Pair>) {
    forall i :: 0 <= i < |pairs| ==> PairOk(pairs[i])
  }

  /** Parts one behind the other. */
  datatype Row = End | Next(part: Part, more: Row)

  predicate RowOk(row: Row) {
    row.Next? ==> PartOk(row.part) && RowOk(row.more)
  }

  predicate PairAt(text: string, j: nat, pair: Pair) {
    j + 1 < |text| && text[j] == pair.high && text[j + 1] == pair.low
  }

  /** A part stands at `j`. */
  predicate PartAt(text: string, j: nat, part: Part) {
    match part
    case One(c, _) => j < |text| && text[j] == c
    case Braces(pairs) =>
      && j + 2 * |pairs| + 1 < |text| && text[j] == '{' && text[j + 2 * |pairs| + 1] == '}'
      && forall k :: 0 <= k < |pairs| ==> PairAt(text, j + 1 + 2 * k, pairs[k])
  }

  function Width(part: Part): nat {
    match part
    case One(_, _) => 1
    case Braces(pairs) => 2 * |pairs| + 2
  }

  /** The parts stand one behind the other from `j` to the end of the text. */
  predicate RowAt(text: string, j: nat, row: Row)
    decreases row
  {
    if row.End? then j == |text| else PartAt(text, j, row.part) && RowAt(text, j + Width(row.part), row.more)
  }

  function PairBytes(pairs: seq<Pair>, k: nat): (s: string)
    requires k <= |pairs|
    ensures |s| == |pairs| - k
    decreases |pairs| - k
  {
    if k == |pairs| then "" else [pairs[k].byte] + PairBytes(pairs, k + 1)
  }

  function PartBytes(part: Part): string {
    match part
    case One(_, byte) => [byte]
    case Braces(pairs) => PairBytes(pairs, 0)
  }

  /** The bytes behind those that are there already. */
  function Onto(row: Row, out: string): (r: string)
    ensures |r| >= |out|
    decreases row
  {
    if row.End? then out else Onto(row.more, out + PartBytes(row.part))
  }

  /** The text is a row of parts that stand for the bytes. */
  ghost predicate Says(text: string, bytes: string) {
    exists row: Row :: RowOk(row) && RowAt(text, 0, row) && bytes == Onto(row, "")
  }

  lemma DigitExactly(c: char, v: nat)
    requires v < 16
    ensures IsDigit(c, v) <==> HexValue(c) == v
  {
  }

  lemma PairReads(a: char, b: char, p: char)
    requires IsByte(p)
    ensures PairOk(Pair(a, b, p))
       <==> HexValue(a) >= 0 && HexValue(b) >= 0 && p as int == HexValue(a) * 16 + HexValue(b) && p != '\0'
  {
    DigitExactly(a, p as int / 16);
    DigitExactly(b, p as int % 16);
  }

  lemma CharReads(c: char, p: char)
    requires IsByte(c) && IsByte(p) && c != '\0'
    ensures Shows(p, true, c) <==> PlainByte(c) == p && p != '\0'
  {
  }

  /** A pair of digits is read as its byte, and nothing else is read inside of braces. */
  lemma PairStep(text: Name, j: nat, out: string, len: int) returns (pair: Pair)
    requires j <= |text| && Decode(text, j, true, out, len).Done? && !(j < |text| && text[j] == '}')
    ensures PairOk(pair) && PairAt(text, j, pair) && |out| + 1 < len
    ensures Decode(text, j, true, out, len) == Decode(text, j + 2, true, out + [pair.byte], len)
  {
    var p := (HexValue(text[j]) * 16 + HexValue(text[j + 1])) as char;
    pair := Pair(text[j], text[j + 1], p);
    PairReads(text[j], text[j + 1], p);
  }

  /** An opening brace changes nothing but that a pair must follow. */
  lemma BraceOpens(text: Name, j: nat, out: string, len: int)
    requires j + 1 < |text| && text[j] == '{' && text[j + 1] != '}'
    ensures Decode(text, j, false, out, len) == Decode(text, j + 1, true, out, len)
  {
  }

  lemma BraceNeedsPair(text: Name, j: nat, out: string, len: int)
    requires j < |text| && text[j] == '{' && Decode(text, j, false, out, len).Done?
    ensures j + 1 < |text| && text[j + 1] != '}'
  {
    assert HexValue('}') < 0;
  }

  /** Inside of braces: pairs up to the closing one, behind those that are done. */
  lemma {:induction false} DecodedPairs(text: Name, j: nat, out: string, len: int, done: seq<Pair>)
    returns (pairs: seq<Pair>)
    requires j <= |text| && Decode(text, j, true, out, len).Done? && PairsOk(done) && 2 * |done| <= j
    requires forall k :: 0 <= k < |done| ==> PairAt(text, j - 2 * |done| + 2 * k, done[k])
    ensures PairsOk(pairs) && |done| <= |pairs| && pairs[..|done|] == done
    ensures var j0, j' := j - 2 * |done|, j - 2 * |done| + 2 * |pairs|;
      && j' < |text| && text[j'] == '}'
      && (forall k :: 0 <= k < |pairs| ==> PairAt(text, j0 + 2 * k, pairs[k]))
      && Decode(text, j, true, out, len) == Decode(text, j' + 1, false, out + PairBytes(pairs, |done|), len)
    ensures |out| < len ==> |out| + |pairs| - |done| < len
    decreases |text| - j
  {
    if j < |text| && text[j] == '}' {
      pairs := done;
      assert out + "" == out;
    } else {
      var pair := PairStep(text, j, out, len);
      pairs := DecodedPairs(text, j + 2, out + [pair.byte], len, done + [pair]);
      Behind(done, pair, pairs);
      Regroup(out, [pair.byte], PairBytes(pairs, |done| + 1));
    }
  }

  /** The part a text goes on with. */
  lemma DecodedPart(text: Name, j: nat, out: string, len: int) returns (part: Part)
    requires j < |text| && Decode(text, j, false, out, len).Done? && |out| < len
    ensures PartOk(part) && PartAt(text, j, part) && j + Width(part) <= |text|
    ensures Decode(text, j, false, out, len) == Decode(text, j + Width(part), false, out + PartBytes(part), len)
    ensures |out| + |PartBytes(part)| < len
  {
    if text[j] != '{' {
      part := One(text[j], PlainByte(text[j]));
      CharReads(text[j], PlainByte(text[j]));
    } else {
      BraceNeedsPair(text, j, out, len);
      BraceOpens(text, j, out, len);
      var pairs := DecodedPairs(text, j + 1, out, len, []);
      NotEmpty(text, j + 1, pairs);
      part := Braces(pairs);
    }
  }

  lemma NotEmpty(text: Name, j: nat, pairs: seq<Pair>)
    requires j + 2 * |pairs| < |text| && text[j + 2 * |pairs|] == '}' && text[j] != '}'
    ensures pairs != []
  {
  }

  lemma Behind<T>(done: seq<T>, next: T, all: seq<T>)
    requires |done| < |all| && all[..|done| + 1] == done + [next]
    ensures all[|done|] == next && all[..|done|] == done
  {
    assert all[..|done|] == all[..|done| + 1][..|done|];
    assert all[|done|] == all[..|done| + 1][|done|];
  }

  lemma DecodedNext(text: Name, j: nat, out: string, len: int) returns (part: Part, j': nat, out': string)
    requires j < |text| && Decode(text, j, false, out, len).Done? && |out| < len
    ensures PartOk(part) && PartAt(text, j, part) && j < j' == j + Width(part) <= |text|
    ensures out' == out + PartBytes(part) && |out'| < len
    ensures Decode(text, j, false, out, len) == Decode(text, j', false, out', len)
  {
    part := DecodedPart(text, j, out, len);
    j', out' := j + Width(part), out + PartBytes(part);
  }

  lemma {:induction false} DecodedRow(text: Name, j: nat, out: string, len: int) returns (row: Row)
    requires j <= |text| && Decode(text, j, false, out, len).Done? && |out| < len
    ensures RowOk(row) && RowAt(text, j, row)
    ensures Decode(text, j, false, out, len) == Done(Onto(row, out)) && |Onto(row, out)| < len
    decreases |text| - j
  {
    if j == |text| {
      row := End;
    } else {
      var part, j', out' := DecodedNext(text, j, out, len);
      row := DecodedRow(text, j', out', len);
      row := Next(part, row);
    }
  }

  lemma {:induction false} PairsDecode(text: Name, j: nat, pairs: seq<Pair>, k: nat, out: string, len: int)
    requires PairsOk(pairs) && k <= |pairs| && |out| + |pairs| - k < len
    requires j + 2 * |pairs| < |text| && text[j + 2 * |pairs|] == '}'
    requires forall i :: 0 <= i < |pairs| ==> PairAt(text, j + 2 * i, pairs[i])
    ensures Decode(text, j + 2 * k, true, out, len)
         == Decode(text, j + 2 * |pairs| + 1, false, out + PairBytes(pairs, k), len)
    decreases |pairs| - k
  {
    if k == |pairs| {
      assert out + "" == out;
    } else {
      assert PairAt(text, j + 2 * k, pairs[k]);
      PairDecodes(text, j + 2 * k, pairs[k], out, len);
      PairsDecode(text, j, pairs, k + 1, out + [pairs[k].byte], len);
      Regroup(out, [pairs[k].byte], PairBytes(pairs, k + 1));
    }
  }

  lemma PairDecodes(text: Name, j: nat, pair: Pair, out: string, len: int)
    requires PairOk(pair) && PairAt(text, j, pair) && |out| < len - 1
    ensures text[j] != '}' && Decode(text, j, true, out, len) == Decode(text, j + 2, true, out + [pair.byte], len)
  {
    PairReads(pair.high, pair.low, pair.byte);
    assert HexValue('}') < 0;
  }

  lemma PartDecodes(text: Name, j: nat, part: Part, out: string, len: int)
    requires PartOk(part) && PartAt(text, j, part) && |out| + |PartBytes(part)| < len
    ensures j + Width(part) <= |text|
    ensures Decode(text, j, false, out, len) == Decode(text, j + Width(part), false, out + PartBytes(part), len)
  {
    match part
    case One(c, byte) => CharReads(c, byte);
    case Braces(pairs) => BracesDecode(text, j, pairs, out, len);
  }

  lemma BracesDecode(text: Name, j: nat, pairs: seq<Pair>, out: string, len: int)
    requires PartOk(Braces(pairs)) && PartAt(text, j, Braces(pairs)) && |out| + |pairs| < len
    ensures Decode(text, j, false, out, len)
         == Decode(text, j + 2 * |pairs| + 2, false, out + PairBytes(pairs, 0), len)
  {
    assert PairAt(text, j + 1 + 2 * 0, pairs[0]);
    PairDecodes(text, j + 1, pairs[0], out, len);
    BraceOpens(text, j, out, len);
    PairsDecode(text, j + 1, pairs, 0, out, len);
  }

  lemma {:induction false} RowDecodes(text: Name, j: nat, row: Row, out: string, len: int)
    requires j <= |text| && RowOk(row) && RowAt(text, j, row) && |Onto(row, out)| < len
    ensures Decode(text, j, false, out, len) == Done(Onto(row, out))
    decreases row
  {
    if row.Next? {
      PartDecodes(text, j, row.part, out, len);
      RowDecodes(text, j + Width(row.part), row.more, out + PartBytes(row.part), len);
    }
  }

  /** A text is read as bytes just when it is a row of parts that stand for them and there is
      room for them and a NUL. */
  lemma DecodesExactly(text: Name, len: int, bytes: string)
    requires len > 0
    ensures Decode(text, 0, false, "", len) == Done(bytes) <==> Says(text, bytes) && |bytes| < len
  {
    if Decode(text, 0, false, "", len).Done? {
      var row := DecodedRow(text, 0, "", len);
    }
    if Says(text, bytes) && |bytes| < len {
      var row: Row :| RowOk(row) && RowAt(text, 0, row) && bytes == Onto(row, "");
      RowDecodes(text, 0, row, "", len);
    }
  }

  // ---------------------------------------------------------------- FAT names without braces

  /** The name in capitals. */
  predicate Capitals(fat: string, pet: string) {
    |fat| == |pet| && forall k :: 0 <= k < |fat| ==> CapitalOf(fat[k], pet[k])
  }

  predicate CapitalOf(c: char, p: char) {
    if 'a' <= c <= 'z' then p as int == 'A' as int + (c as int - 'a' as int) else p == c
  }

  lemma UpperIs(c: char)
    ensures CapitalOf(c, Fat.Upper(c))
  {
  }

  lemma {:induction false} PlainFatReads(fat: string, k: nat, max: nat, len: int, out: string) returns (pet: string)
    requires k <= max <= |fat| && |out| + (max - k) <= len
    requires forall q :: 0 <= q < max ==> fat[q] != '{' && fat[q] != '}'
    ensures Fat.Decode(fat, k, false, out, max, len) == out + pet && Capitals(fat[k..max], pet)
    decreases max - k
  {
    pet := "";
    if k == max {
      assert out + "" == out;
    } else {
      var c := [Fat.Upper(fat[k])];
      UpperIs(fat[k]);
      pet := PlainFatReads(fat, k + 1, max, len, out + c);
      Regroup(out, c, pet);
      assert fat[k..max] == [fat[k]] + fat[k + 1..max];
      pet := c + pet;
    }
  }

  /** A dot in front of at most three other characters at the end of the name. */
  predicate ExtensionAt(fat: string, dot: nat) {
    dot < |fat| && |fat| - 4 <= dot && fat[dot] == '.' && forall q :: dot < q < |fat| ==> fat[q] != '.'
  }

  lemma {:induction false} CutIs(fat: string, dot: nat, j: nat)
    requires ExtensionAt(fat, dot) && dot <= j < |fat|
    ensures Fat.CutAt(fat, j) == dot
    decreases j
  {
    if j > dot {
      CutIs(fat, dot, j - 1);
    }
  }

  lemma {:induction false} NoCut(fat: string, j: int)
    requires -1 <= j < |fat| && forall q :: 0 <= q <= j && |fat| - 4 <= q ==> fat[q] != '.'
    ensures Fat.CutAt(fat, j) == |fat|
    decreases j + 1
  {
    if j >= 0 && j >= |fat| - 4 {
      NoCut(fat, j - 1);
    }
  }

  /** A FAT name without braces is read in capitals, without its extension if that is asked for. */
  lemma PlainFatName(fat: string, cutExt: bool, len: int)
    requires forall q :: 0 <= q < |fat| ==> fat[q] != '{' && fat[q] != '}'
    requires |fat| <= len
    ensures forall dot: nat :: cutExt && ExtensionAt(fat, dot) ==>
              Capitals(fat[..dot], Fat.PetName(fat, cutExt, len))
    ensures !cutExt || (forall dot: nat :: !ExtensionAt(fat, dot)) ==> Capitals(fat, Fat.PetName(fat, cutExt, len))
  {
    assert fat[0..|fat|] == fat;
    forall dot: nat | cutExt && ExtensionAt(fat, dot)
      ensures Capitals(fat[..dot], Fat.PetName(fat, cutExt, len))
    {
      CutIs(fat, dot, |fat| - 1);
      var pet := PlainFatReads(fat, 0, dot, len, "");
      assert fat[0..dot] == fat[..dot] && "" + pet == pet;
    }
    if !cutExt || forall dot: nat :: !ExtensionAt(fat, dot) {
      if cutExt {
        NoDotAtEnd(fat);
        NoCut(fat, |fat| - 1);
      }
      var pet := PlainFatReads(fat, 0, |fat|, len, "");
      assert "" + pet == pet;
    }
  }

  lemma NoDotAtEnd(fat: string)
    requires forall dot: nat :: !ExtensionAt(fat, dot)
    ensures forall q :: 0 <= q < |fat| && |fat| - 4 <= q ==> fat[q] != '.'
  {
    if q: nat :| q < |fat| && |fat| - 4 <= q && fat[q] == '.' {
      var last := LastDot(fat, q);
      assert ExtensionAt(fat, last);
    }
  }

  lemma {:induction false} LastDot(fat: string, q: nat) returns (last: nat)
    requires q < |fat| && fat[q] == '.'
    ensures q <= last < |fat| && fat[last] == '.' && forall k :: last < k < |fat| ==> fat[k] != '.'
    decreases |fat| - q
  {
    last := q;
    if k :| q < k < |fat| && fat[k] == '.' {
      last := LastDot(fat, k);
    }
  }
}
