/** What a FAT name says, read off the CBM name: which bytes stand for themselves, which are
    spelled in hexadecimal between braces, and where braces are added. */
module FatSpelling {
  import opened Common
  import opened Hex
  import opened Petscii
  import opened PetsciiFat
  import opened PetsciiFatRoundTrip

  // ---------------------------------------------------------------- bytes

  /** Bytes a FAT name cannot have as they are: those below 20 hex and from 60 hex up, eight
      characters FAT keeps for itself, and a dot in front. */
  predicate Listed(p: char, first: bool) {
    p as int < 0x20 || p as int >= 0x60
    || p == '"' || p == '*' || p == '/' || p == ':' || p == '<' || p == '>' || p == '?' || p == '\\'
    || (p == '.' && first)
  }

  /** A byte in hexadecimal is two capital digits, the high one first. */
  lemma HexPairIs(p: char)
    requires IsByte(p)
    ensures HexPair(p) == ["0123456789ABCDEF"[p as int / 16], "0123456789ABCDEF"[p as int % 16]]
  {
    DigitIs(p as int / 16);
    DigitIs(p as int % 16);
  }

  lemma DigitIs(d: nat)
    requires d < 16
    ensures "0123456789ABCDEF"[d] == HexDigit(d)
  {
  }

  /** The end of the run of listed bytes from `k` on. */
  function RunEnd(s: Name, k: nat): (e: nat)
    requires k <= |s|
    ensures k <= e <= |s| && forall q :: k <= q < e ==> Listed(s[q], q == 0)
    ensures e < |s| ==> !Listed(s[e], e == 0)
    decreases |s| - k
  {
    if k < |s| && Listed(s[k], k == 0) then RunEnd(s, k + 1) else k
  }

  function SpelledRun(s: Name, k: nat, e: nat): string
    requires k <= e <= |s|
    decreases e - k
  {
    if k == e then "" else HexPair(s[k]) + SpelledRun(s, k + 1, e)
  }

  /** The bytes from `k` on: each run of listed ones in hexadecimal between braces, all others
      as they are. */
  function Spelling(s: Name, k: nat): string
    requires k <= |s|
    decreases |s| - k
  {
    if k == |s| then ""
    else if Listed(s[k], k == 0) then "{" + SpelledRun(s, k, RunEnd(s, k)) + "}" + Spelling(s, RunEnd(s, k))
    else [s[k]] + Spelling(s, k + 1)
  }

  // ---------------------------------------------------------------- how much gets in

  /** Whether byte `k - 1` is spelled. */
  predicate SpelledBefore(s: Name, k: nat)
    requires k <= |s|
  {
    k > 0 && Listed(s[k - 1], k == 1)
  }

  /** How many characters the bytes before `k` take: two or one each, a brace where a run
      begins and one where a run has ended. */
  function Taking(s: Name, k: nat): nat
    requires k <= |s|
  {
    if k == 0 then 0
    else
      Taking(s, k - 1)
      + (if Listed(s[k - 1], k == 1) then (if SpelledBefore(s, k - 1) then 2 else 3)
         else (if SpelledBefore(s, k - 1) then 2 else 1))
  }

  /** There is room for byte `k`: five characters are left for a listed one, else three. */
  predicate RoomFor(s: Name, k: nat, start: nat, maxlen: int)
    requires k < |s|
  {
    start + Taking(s, k) + (if Listed(s[k], k == 0) then 5 else 3) <= maxlen
  }

  /** The first byte from `k` on, below `n`, that finds no room. */
  function FirstOut(s: Name, n: nat, k: nat, start: nat, maxlen: int): (t: nat)
    requires k <= n <= |s|
    ensures k <= t <= n
    decreases n - k
  {
    if k == n || !RoomFor(s, k, start, maxlen) then k else FirstOut(s, n, k + 1, start, maxlen)
  }

  // ---------------------------------------------------------------- names that need braces

  const DEVICES: seq<string> := [
    "NUL", "CON", "AUX", "PRN", "COM1", "COM2", "COM3", "COM4", "COM5", "COM6", "COM7", "COM8", "COM9",
    "LPT1", "LPT2", "LPT3", "LPT4", "LPT5", "LPT6", "LPT7", "LPT8", "LPT9"]

  /** A device of DOS, alone or with a dot behind it. */
  predicate NamesDevice(s: string) {
    exists i :: 0 <= i < |DEVICES| && (s == DEVICES[i] || DEVICES[i] + "." <= s)
  }

  /** The letter, in either case. */
  predicate IsLetter(c: char, capital: char) {
    c == capital || c as int == capital as int + 32
  }

  predicate EndsIn(s: string, a: char, b: char, c: char) {
    |s| >= 4 && s[|s| - 4] == '.'
    && IsLetter(s[|s| - 3], a) && IsLetter(s[|s| - 2], b) && IsLetter(s[|s| - 1], c)
  }

  /** It ends like the name of a CBM file with its type. */
  predicate LooksTyped(s: string) {
    EndsIn(s, 'P', 'R', 'G') || EndsIn(s, 'S', 'E', 'Q') || EndsIn(s, 'U', 'S', 'R') || EndsIn(s, 'R', 'E', 'L')
  }

  lemma TypedIs(s: string)
    ensures LooksTyped(s) <==> EndsInType(s)
  {
    if |s| >= 4 {
      var e := s[|s| - 4..];
      TypeIs(e, ".prg", 'P', 'R', 'G');
      TypeIs(e, ".seq", 'S', 'E', 'Q');
      TypeIs(e, ".usr", 'U', 'S', 'R');
      TypeIs(e, ".rel", 'R', 'E', 'L');
      assert e[0] == s[|s| - 4] && e[1] == s[|s| - 3] && e[2] == s[|s| - 2] && e[3] == s[|s| - 1];
    }
  }

  lemma TypeIs(e: string, t: string, a: char, b: char, c: char)
    requires |e| == 4 && 'A' <= a <= 'Z' && 'A' <= b <= 'Z' && 'A' <= c <= 'Z'
    requires t == ['.', a - 'A' + 'a', b - 'A' + 'a', c - 'A' + 'a']
    ensures SameIgnoringCase(e, t) <==> e[0] == '.' && IsLetter(e[1], a) && IsLetter(e[2], b) && IsLetter(e[3], c)
  {
    LowerLetter(e[1], a);
    LowerLetter(e[2], b);
    LowerLetter(e[3], c);
    if SameIgnoringCase(e, t) {
      assert Lower(e[0]) == Lower(t[0]) && Lower(e[1]) == Lower(t[1]);
      assert Lower(e[2]) == Lower(t[2]) && Lower(e[3]) == Lower(t[3]);
    }
  }

  lemma LowerLetter(c: char, capital: char)
    requires 'A' <= capital <= 'Z'
    ensures Lower(c) == Lower(capital - 'A' + 'a') <==> IsLetter(c, capital)
  {
  }

  lemma NamesIs(s: string, d: string)
    ensures Names(s, d) <==> s == d || d + "." <= s
  {
    if |s| > |d| {
      assert s[..|d| + 1] == s[..|d|] + [s[|d|]];
    } else {
      assert |s| == |d| ==> s[..|d|] == s;
    }
  }

  /** The place of a device in the other table. */
  function Place(i: nat): nat {
    if i == 0 then 3 else if i == 1 then 0 else if i == 2 then 2 else if i == 3 then 1 else i
  }

  function PlaceBack(i: nat): nat {
    if i == 3 then 0 else if i == 0 then 1 else if i == 2 then 2 else if i == 1 then 3 else i
  }

  lemma TablesAgree(i: nat)
    requires i < 22
    ensures |DEVICES| == |RESERVED| == 22
    ensures RESERVED[Place(i)] == DEVICES[i] && DEVICES[PlaceBack(i)] == RESERVED[i]
  {
  }

  lemma DevicesAre(s: string)
    ensures NamesDevice(s) <==> IsDevice(s, RESERVED)
  {
    TablesAgree(0);
    if NamesDevice(s) {
      var i :| 0 <= i < |DEVICES| && (s == DEVICES[i] || DEVICES[i] + "." <= s);
      TablesAgree(i);
      NamesIs(s, DEVICES[i]);
      assert Names(s, RESERVED[Place(i)]);
    }
    if IsDevice(s, RESERVED) {
      var k :| 0 <= k < |RESERVED| && Names(s, RESERVED[k]);
      TablesAgree(k);
      NamesIs(s, RESERVED[k]);
      assert s == DEVICES[PlaceBack(k)] || DEVICES[PlaceBack(k)] + "." <= s;
    }
  }

  // ---------------------------------------------------------------- the encoder spells

  /** The bytes from `k` on, in or out of a run. */
  function From(s: Name, k: nat, inside: bool): string
    requires k <= |s|
    decreases |s| - k
  {
    if k == |s| then (if inside then "}" else "")
    else if Listed(s[k], k == 0) then (if inside then "" else "{") + HexPair(s[k]) + From(s, k + 1, true)
    else (if inside then "}" else "") + [s[k]] + From(s, k + 1, false)
  }

  lemma {:induction false} FromIsSpelling(s: Name, k: nat)
    requires k <= |s|
    ensures From(s, k, false) == Spelling(s, k)
    ensures From(s, k, true) == SpelledRun(s, k, RunEnd(s, k)) + "}" + Spelling(s, RunEnd(s, k))
    decreases |s| - k
  {
    if k < |s| {
      FromIsSpelling(s, k + 1);
      if Listed(s[k], k == 0) {
        RunJoins(HexPair(s[k]), SpelledRun(s, k + 1, RunEnd(s, k + 1)), Spelling(s, RunEnd(s, k + 1)));
      }
    }
  }

  lemma RunJoins(a: string, b: string, c: string)
    ensures "{" + a + (b + "}" + c) == "{" + (a + b) + "}" + c
    ensures "" + a + (b + "}" + c) == (a + b) + "}" + c
  {
  }

  /** What one byte adds. */
  function Part(s: Name, k: nat): string
    requires k < |s|
  {
    if Listed(s[k], k == 0) then (if SpelledBefore(s, k) then "" else "{") + HexPair(s[k])
    else (if SpelledBefore(s, k) then "}" else "") + [s[k]]
  }

  lemma PartOfFrom(s: Name, k: nat)
    requires k < |s|
    ensures From(s, k, SpelledBefore(s, k)) == Part(s, k) + From(s, k + 1, SpelledBefore(s, k + 1))
    ensures Taking(s, k + 1) == Taking(s, k) + |Part(s, k)|
  {
  }

  /** The marks of a name are its listed bytes. */
  predicate MarksOf(pet: Name, marks: seq<bool>) {
    |marks| == |pet| && forall k :: 0 <= k < |pet| ==> marks[k] == Listed(pet[k], k == 0)
  }

  lemma MarksAre(pet: Name)
    ensures MarksOf(pet, Marks(pet))
  {
    forall k | 0 <= k < |pet|
      ensures Marks(pet)[k] == Listed(pet[k], k == 0)
    {
      ListedIsMarked(pet, k);
    }
  }

  lemma PartIsPiece(pet: Name, k: nat, mark: bool, escape: bool)
    requires k < |pet| && mark == Listed(pet[k], k == 0) && escape == SpelledBefore(pet, k)
    ensures mark == SpelledBefore(pet, k + 1) && Part(pet, k) == Piece(pet[k], mark, escape)
    ensures |Part(pet, k)| == Width(mark, escape)
  {
  }

  lemma RoomIsFit(pet: Name, k: nat, start: nat, maxlen: int, mark: bool, i: nat)
    requires k < |pet| && mark == Listed(pet[k], k == 0) && i == start + Taking(pet, k)
    ensures RoomFor(pet, k, start, maxlen) == Fits(mark, i, maxlen)
  {
  }

  lemma PartOfBody(pet: Name, marks: seq<bool>, n: nat, k: nat, start: nat, maxlen: int, escape: bool, i: nat)
    returns (w: string, i': nat, mark: bool, rest: string, left: nat)
    requires k < n <= |pet| && RoomFor(pet, k, start, maxlen) && MarksOf(pet, marks)
    requires escape == SpelledBefore(pet, k) && i == start + Taking(pet, k)
    ensures w == Part(pet, k) && i' == start + Taking(pet, k + 1) && mark == SpelledBefore(pet, k + 1)
    ensures rest == Body(pet, marks, n, k + 1, mark, i', maxlen) && left == Taken(marks, n, k + 1, mark, i', maxlen)
    ensures Body(pet, marks, n, k, escape, i, maxlen) == w + rest
    ensures Taken(marks, n, k, escape, i, maxlen) == 1 + left
  {
    mark := marks[k];
    RoomIsFit(pet, k, start, maxlen, mark, i);
    PartIsPiece(pet, k, mark, escape);
    PartOfFrom(pet, k);
    w, i' := Part(pet, k), start + Taking(pet, k + 1);
    rest, left := OnePiece(pet, marks, n, k, escape, i, maxlen, w, i');
  }

  lemma OnePiece(pet: Name, marks: seq<bool>, n: nat, k: nat, escape: bool, i: nat, maxlen: int, w: string, i': nat)
    returns (rest: string, left: nat)
    requires k < n <= |pet| && n <= |marks| && Fits(marks[k], i, maxlen)
    requires w == Piece(pet[k], marks[k], escape) && i' == i + |w| == i + Width(marks[k], escape)
    ensures rest == Body(pet, marks, n, k + 1, marks[k], i', maxlen)
    ensures left == Taken(marks, n, k + 1, marks[k], i', maxlen)
    ensures Body(pet, marks, n, k, escape, i, maxlen) == w + rest
    ensures Taken(marks, n, k, escape, i, maxlen) == 1 + left
  {
    rest, left := Body(pet, marks, n, k + 1, marks[k], i', maxlen), Taken(marks, n, k + 1, marks[k], i', maxlen);
  }

  lemma NoRoomNoBody(pet: Name, marks: seq<bool>, n: nat, k: nat, start: nat, maxlen: int, escape: bool, i: nat)
    requires k <= n <= |pet| && MarksOf(pet, marks) && i == start + Taking(pet, k)
    requires k == n || !RoomFor(pet, k, start, maxlen)
    ensures Body(pet, marks, n, k, escape, i, maxlen) == (if escape then "}" else "")
    ensures Taken(marks, n, k, escape, i, maxlen) == 0
  {
    if k < n {
      RoomIsFit(pet, k, start, maxlen, marks[k], i);
    }
  }

  lemma SamePart(pet: Name, t: nat, s: Name, k: nat)
    requires k < t <= |pet| && s == pet[..t]
    ensures Part(s, k) == Part(pet, k) && SpelledBefore(s, k) == SpelledBefore(pet, k)
    ensures SpelledBefore(s, k + 1) == SpelledBefore(pet, k + 1)
  {
    assert s[k] == pet[k] && (k > 0 ==> s[k - 1] == pet[k - 1]);
  }

  lemma FromGoesOn(pet: Name, t: nat, s: Name, k: nat, escape: bool, mark: bool, w: string)
    requires k < t <= |pet| && s == pet[..t] && w == Part(pet, k)
    requires escape == SpelledBefore(pet, k) && mark == SpelledBefore(pet, k + 1)
    ensures From(s, k, escape) == w + From(s, k + 1, mark)
  {
    SamePart(pet, t, s, k);
    PartOfFrom(s, k);
  }

  lemma {:induction false} RoomBefore(s: Name, n: nat, k: nat, start: nat, maxlen: int, q: nat)
    requires k <= n <= |s| && k <= q < FirstOut(s, n, k, start, maxlen)
    ensures RoomFor(s, q, start, maxlen)
    decreases n - k
  {
    if q > k {
      RoomBefore(s, n, k + 1, start, maxlen, q);
    }
  }

  lemma {:induction false} NoRoomAtEnd(s: Name, n: nat, k: nat, start: nat, maxlen: int)
    requires k <= n <= |s|
    ensures var t := FirstOut(s, n, k, start, maxlen);
      t == n || !RoomFor(s, t, start, maxlen)
    decreases n - k
  {
    if k < n && RoomFor(s, k, start, maxlen) {
      NoRoomAtEnd(s, n, k + 1, start, maxlen);
    }
  }

  /** What the encoder writes is the spelling of the bytes up to the first that finds no room. */
  lemma {:induction false} BodySpells(pet: Name, marks: seq<bool>, n: nat, k: nat, start: nat, maxlen: int, t: nat,
                                      s: Name, escape: bool, i: nat) returns (body: string, taken: nat)
    requires k <= n <= |pet| && MarksOf(pet, marks) && t == FirstOut(pet, n, k, start, maxlen) && s == pet[..t]
    requires escape == SpelledBefore(pet, k) && i == start + Taking(pet, k)
    ensures body == Body(pet, marks, n, k, escape, i, maxlen) && taken == Taken(marks, n, k, escape, i, maxlen)
    ensures body == From(s, k, escape) && taken == t - k
    decreases n - k
  {
    body, taken := Body(pet, marks, n, k, escape, i, maxlen), Taken(marks, n, k, escape, i, maxlen);
    if k < n && RoomFor(pet, k, start, maxlen) {
      var w, i', mark, rest, left := PartOfBody(pet, marks, n, k, start, maxlen, escape, i);
      var rest', left' := BodySpells(pet, marks, n, k + 1, start, maxlen, t, s, mark, i');
      FromGoesOn(pet, t, s, k, escape, mark, w);
    } else {
      NoRoomNoBody(pet, marks, n, k, start, maxlen, escape, i);
    }
  }

  lemma PartAndRest(s: Name, j: nat, text: string) returns (part: string, rest: string)
    requires j < |s| && text == From(s, j, SpelledBefore(s, j))
    ensures part == Part(s, j) && rest == From(s, j + 1, SpelledBefore(s, j + 1)) && text == part + rest
    ensures Taking(s, j + 1) == Taking(s, j) + |part|
  {
    PartOfFrom(s, j);
    part, rest := Part(s, j), From(s, j + 1, SpelledBefore(s, j + 1));
  }

  /** At `at`, the text has what byte `k` stands as. */
  predicate StandsAt(text: string, at: nat, s: Name, k: nat)
    requires k < |s|
  {
    if Listed(s[k], k == 0) then at + 2 <= |text| && text[at..at + 2] == HexPair(s[k])
    else at < |text| && text[at] == s[k]
  }

  lemma StandsBehind(part: string, rest: string, at: nat, s: Name, k: nat)
    requires k < |s| && StandsAt(rest, at, s, k)
    ensures StandsAt(part + rest, |part| + at, s, k)
  {
    if Listed(s[k], k == 0) {
      assert (part + rest)[|part| + at..|part| + at + 2] == rest[at..at + 2];
    }
  }

  lemma StandsInPart(s: Name, k: nat, rest: string) returns (at: nat)
    requires k < |s|
    ensures StandsAt(Part(s, k) + rest, at, s, k) && at + (if Listed(s[k], k == 0) then 2 else 1) == |Part(s, k)|
  {
    at := |Part(s, k)| - if Listed(s[k], k == 0) then 2 else 1;
  }

  /** Byte `k` stands for itself in the spelling if and only if it is not listed; a listed one
      stands there in hexadecimal. */
  lemma {:induction false} ByteStands(s: Name, j: nat, k: nat, text: string) returns (at: nat)
    requires j <= k < |s| && text == From(s, j, SpelledBefore(s, j))
    ensures StandsAt(text, at, s, k)
    ensures Taking(s, j) + at + (if Listed(s[k], k == 0) then 2 else 1) == Taking(s, k + 1)
    decreases k - j
  {
    var part, rest := PartAndRest(s, j, text);
    if j == k {
      at := StandsInPart(s, k, rest);
    } else {
      at := ByteStands(s, j + 1, k, rest);
      StandsBehind(part, rest, at, s, k);
      at := |part| + at;
    }
  }

  /** No byte before the first one out lacks room, and that one does. */
  lemma FirstOutExactly(s: Name, n: nat, start: nat, maxlen: int, q: nat)
    requires n <= |s| && q <= n
    ensures q == FirstOut(s, n, 0, start, maxlen)
       <==> (forall k :: 0 <= k < q ==> RoomFor(s, k, start, maxlen)) && (q == n || !RoomFor(s, q, start, maxlen))
  {
    var t := FirstOut(s, n, 0, start, maxlen);
    forall k | 0 <= k < t
      ensures RoomFor(s, k, start, maxlen)
    {
      RoomBefore(s, n, 0, start, maxlen, k);
    }
    NoRoomAtEnd(s, n, 0, start, maxlen);
  }

  lemma ListedIsMarked(pet: Name, k: nat)
    requires k < |pet|
    ensures Marks(pet)[k] == Listed(pet[k], k == 0)
  {
    assert Marks(pet)[k] == Escaped(pet[k], k == 0);
  }

  // ---------------------------------------------------------------- the law

  /** A FAT name is its spelling: braces in front of a name that is a device, the bytes that
      find room, and braces behind what looks like a file with its type, if they fit. */
  lemma FatNameExactly(pet: Name, maxlen: int)
    ensures var lead := if NamesDevice(pet) then "{}" else "";
      var t := FirstOut(pet, TrimLength(pet), 0, |lead|, maxlen);
      var name := lead + Spelling(pet[..t], 0);
      && TakenAll(pet, RESERVED, maxlen) == t
      && FatName(pet, RESERVED, maxlen) == name + (if LooksTyped(name) && |name| + 3 <= maxlen then "{}" else "")
  {
    DevicesAre(pet);
    var lead := Lead(pet, RESERVED);
    var n := TrimLength(pet);
    var t := FirstOut(pet, n, 0, |lead|, maxlen);
    MarksAre(pet);
    var body, taken := BodySpells(pet, Marks(pet), n, 0, |lead|, maxlen, t, pet[..t], false, |lead|);
    FromIsSpelling(pet[..t], 0);
    TypedIs(lead + Spelling(pet[..t], 0));
  }

  /** What is dropped from a name's end: shifted spaces, up to a byte that is none. */
  lemma TrimExactly(pet: Name)
    ensures var n := TrimLength(pet);
      && n <= |pet| && (forall q :: n <= q < |pet| ==> pet[q] as int == 160)
      && (n > 0 ==> pet[n - 1] as int != 160)
  {
    TrimLengthIs(pet);
  }

  // ---------------------------------------------------------------- names that stay

  lemma {:induction false} PlainSpelling(s: Name, k: nat)
    requires k <= |s| && forall q :: k <= q < |s| ==> !Listed(s[q], q == 0)
    ensures Spelling(s, k) == s[k..]
    decreases |s| - k
  {
    if k < |s| {
      PlainSpelling(s, k + 1);
      assert s[k..] == [s[k]] + s[k + 1..];
    }
  }

  lemma {:induction false} AllFind(s: Name, n: nat, k: nat, maxlen: int)
    requires k <= n <= |s| && forall q :: 0 <= q < n ==> !Listed(s[q], q == 0)
    requires n + 2 <= maxlen
    ensures Taking(s, k) == k && FirstOut(s, n, k, 0, maxlen) == n
    decreases n - k
  {
    NoneSpelled(s, n, k);
    if k < n {
      AllFind(s, n, k + 1, maxlen);
    }
  }

  lemma {:induction false} NoneSpelled(s: Name, n: nat, k: nat)
    requires k <= n <= |s| && forall q :: 0 <= q < n ==> !Listed(s[q], q == 0)
    ensures Taking(s, k) == k
  {
    if k > 0 {
      NoneSpelled(s, n, k - 1);
    }
  }

  /** A name of other bytes that is no device and finds room comes out as it is, with braces
      behind it if and only if it looks typed and they fit. */
  lemma PlainNameStays(pet: Name, maxlen: int)
    requires !NamesDevice(pet) && |Trim(pet)| + 2 <= maxlen
    requires forall q :: 0 <= q < |Trim(pet)| ==> !Listed(pet[q], q == 0)
    ensures FatName(pet, RESERVED, maxlen)
         == Trim(pet) + if LooksTyped(Trim(pet)) && |Trim(pet)| + 3 <= maxlen then "{}" else ""
  {
    var n := TrimLength(pet);
    FatNameExactly(pet, maxlen);
    AllFind(pet, n, 0, maxlen);
    assert pet[..n] == Trim(pet);
    PlainSpelling(Trim(pet), 0);
    assert Trim(pet)[0..] == Trim(pet) && "" + Trim(pet) == Trim(pet);
  }

  /** Two letters and a space between them. */
  lemma SpaceStays()
    ensures FatName("A B", RESERVED, 32) == "A B"
  {
    var pet: Name := "A B";
    NoDevice(pet);
    assert TrimLength(pet) == 3 && Trim(pet) == pet;
    PlainNameStays(pet, 32);
    assert pet + "" == pet;
  }

  lemma NoDevice(s: string)
    requires |s| > 1 && s[1] == ' '
    ensures !NamesDevice(s)
  {
    forall i | 0 <= i < |DEVICES|
      ensures s != DEVICES[i] && !(DEVICES[i] + "." <= s)
    {
      assert |DEVICES[i]| >= 3 && DEVICES[i][1] != ' ';
      SecondChar(DEVICES[i] + ".", s);
    }
  }

  lemma SecondChar(a: string, s: string)
    requires |a| > 1 && |s| > 1
    ensures a <= s ==> s[1] == a[1]
  {
  }
}
