/** petscii_to_fat and fat_to_petscii: CBM file names as names a FAT volume can hold. */
module PetsciiFat {
  import opened Common
  import opened Hex
  import opened Petscii

  /** The reserved names of DOS. What follows takes the table as a parameter. */
  const RESERVED: seq<string> := [
    "CON", "PRN", "AUX", "NUL",
    "COM1", "COM2", "COM3", "COM4", "COM5", "COM6", "COM7", "COM8", "COM9",
    "LPT1", "LPT2", "LPT3", "LPT4", "LPT5", "LPT6", "LPT7", "LPT8", "LPT9"]

  const SHIFTED_SPACE: char := 160 as char

  // ---------------------------------------------------------------- device names

  /** `s` is `device`, alone or followed by a dot and anything. */
  predicate Names(s: string, device: string) {
    |device| <= |s| && s[..|device|] == device && (|s| == |device| || s[|device|] == '.')
  }

  /** `s` names a device of DOS, bare or dotted. */
  predicate IsDevice(s: string, devices: seq<string>) {
    exists i :: 0 <= i < |devices| && Names(s, devices[i])
  }

  predicate IsBareDevice(s: string, devices: seq<string>) {
    exists i :: 0 <= i < |devices| && s == devices[i]
  }

  /** What the device names have in common. */
  predicate DeviceShape(device: string) {
    0 < |device| <= 4 && forall q :: 0 <= q < |device| ==> '1' <= device[q] <= '9' || 'A' <= device[q] <= 'Z'
  }

  /** A table of device names, none of them the start of another. */
  predicate DeviceTable(devices: seq<string>) {
    && (forall i :: 0 <= i < |devices| ==> DeviceShape(devices[i]))
    && (forall i, k :: 0 <= i < |devices| && 0 <= k < |devices| && |devices[i]| < |devices[k]|
          ==> devices[k][..|devices[i]|] != devices[i])
  }

  lemma ReservedIsTable()
    ensures DeviceTable(RESERVED)
  {
    forall i, k | 0 <= i < |RESERVED| && 0 <= k < |RESERVED| && |RESERVED[i]| < |RESERVED[k]|
      ensures RESERVED[k][..|RESERVED[i]|] != RESERVED[i]
    {
      assert RESERVED[i][2] != RESERVED[k][2];
      assert RESERVED[k][..|RESERVED[i]|][2] == RESERVED[k][2];
    }
  }

  /** The comparison of one name with one device, up to the first difference. */
  method MatchesDevice(pet: Name, device: string) returns (same: bool)
    requires forall q :: 0 <= q < |device| ==> device[q] != '\0'
    ensures same == Names(pet, device)
  {
    var a := 0;
    same := true;
    while same
      invariant 0 <= a <= |device| && a <= |pet| && pet[..a] == device[..a]
      invariant !same ==> !Names(pet, device)
      decreases if same then |device| - a + 1 else 0
    {
      var aa := if a < |pet| then pet[a] else '\0';
      var bb := if a < |device| then device[a] else '\0';
      if bb == '\0' && aa == '.' {
        aa := '\0';
      }
      if aa != bb {
        same := false;
      }
      if aa == '\0' || bb == '\0' {
        break;
      }
      if same {
        a := a + 1;
      }
    }
  }

  method MatchesAny(pet: Name, devices: seq<string>) returns (same: bool)
    requires DeviceTable(devices)
    ensures same == IsDevice(pet, devices)
  {
    var i := 0;
    same := false;
    while i < |devices|
      invariant 0 <= i <= |devices|
      invariant forall k :: 0 <= k < i ==> !Names(pet, devices[k])
    {
      same := MatchesDevice(pet, devices[i]);
      if same {
        return;
      }
      i := i + 1;
    }
  }

  // ---------------------------------------------------------------- encoding

  /** The length of the name without its trailing run of shifted spaces. */
  function TrimLength(s: string): (n: nat)
    ensures n <= |s|
  {
    if s != "" && s[|s| - 1] == SHIFTED_SPACE then TrimLength(s[..|s| - 1]) else |s|
  }

  function Trim(s: string): string {
    s[..TrimLength(s)]
  }

  lemma {:induction false} TrimLengthIs(s: string)
    ensures var n := TrimLength(s);
      && (forall q :: n <= q < |s| ==> s[q] == SHIFTED_SPACE)
      && (n > 0 ==> s[n - 1] != SHIFTED_SPACE)
  {
    if s != "" && s[|s| - 1] == SHIFTED_SPACE {
      TrimLengthIs(s[..|s| - 1]);
    }
  }

  /** The bytes a FAT name has to spell out in hexadecimal. */
  predicate Escaped(p: char, first: bool) {
    p < ' ' || p >= 96 as char || p == ':' || p == '/' || p == '\\' || p == '*' || p == '"'
    || p == '<' || p == '>' || p == '?' || (first && p == '.')
  }

  /** The room the encoder asks for before a byte. */
  predicate Fits(mark: bool, i: nat, maxlen: int) {
    if mark then i + 4 < maxlen else i + 2 < maxlen
  }

  /** Which bytes of a name have to be spelled out. */
  function Marks(pet: Name): (m: seq<bool>)
    ensures |m| == |pet| && forall k :: 0 <= k < |pet| ==> m[k] == Escaped(pet[k], k == 0)
  {
    seq(|pet|, k requires 0 <= k < |pet| => Escaped(pet[k], k == 0))
  }

  function Piece(p: char, mark: bool, escape: bool): string
    requires IsByte(p)
  {
    if mark then (if escape then "" else "{") + HexPair(p)
    else (if escape then "}" else "") + [p]
  }

  /** The encoded bytes from `k` on, `n` in all, into a name of `i` characters so far. */
  function Body(pet: Name, marks: seq<bool>, n: nat, k: nat, escape: bool, i: nat, maxlen: int): string
    requires k <= n <= |pet| && n <= |marks|
    decreases n - k
  {
    if k == n || !Fits(marks[k], i, maxlen) then (if escape then "}" else "")
    else
      var w := Piece(pet[k], marks[k], escape);
      w + Body(pet, marks, n, k + 1, marks[k], i + |w|, maxlen)
  }

  function Width(mark: bool, escape: bool): nat {
    if mark then (if escape then 2 else 3) else if escape then 2 else 1
  }

  /** How many bytes get in. */
  function Taken(marks: seq<bool>, n: nat, k: nat, escape: bool, i: nat, maxlen: int): (t: nat)
    requires k <= n <= |marks|
    ensures k + t <= n
    decreases n - k
  {
    if k == n || !Fits(marks[k], i, maxlen) then 0
    else 1 + Taken(marks, n, k + 1, marks[k], i + Width(marks[k], escape), maxlen)
  }

  function Lead(pet: Name, devices: seq<string>): string {
    if IsDevice(pet, devices) then "{}" else ""
  }

  /** How many bytes of the name the FAT name holds. */
  function TakenAll(pet: Name, devices: seq<string>, maxlen: int): (t: nat)
    ensures t <= TrimLength(pet)
  {
    Taken(Marks(pet), TrimLength(pet), 0, false, |Lead(pet, devices)|, maxlen)
  }

  function Unmarked(pet: Name, devices: seq<string>, maxlen: int): string {
    Lead(pet, devices) + Body(pet, Marks(pet), TrimLength(pet), 0, false, |Lead(pet, devices)|, maxlen)
  }

  function Lower(c: char): char {
    if 'A' <= c <= 'Z' then c - 'A' + 'a' else c
  }

  predicate SameIgnoringCase(a: string, b: string) {
    |a| == |b| && forall i :: 0 <= i < |a| ==> Lower(a[i]) == Lower(b[i])
  }

  /** The end of a name that would pass for a CBM file type. */
  predicate EndsInType(s: string) {
    |s| > 3 &&
    var e := s[|s| - 4..];
    SameIgnoringCase(e, ".prg") || SameIgnoringCase(e, ".seq")
    || SameIgnoringCase(e, ".usr") || SameIgnoringCase(e, ".rel")
  }

  function Mark(s: string, maxlen: int): string {
    if EndsInType(s) && |s| + 3 <= maxlen then "{}" else ""
  }

  /** The name petscii_to_fat writes. */
  function FatName(pet: Name, devices: seq<string>, maxlen: int): string {
    Unmarked(pet, devices, maxlen) + Mark(Unmarked(pet, devices, maxlen), maxlen)
  }

  lemma {:induction false} BodyFits(pet: Name, marks: seq<bool>, n: nat, k: nat, escape: bool, i: nat, maxlen: int)
    requires k <= n <= |pet| && n <= |marks| && i + (if escape then 1 else 0) < maxlen
    ensures i + |Body(pet, marks, n, k, escape, i, maxlen)| < maxlen
    decreases n - k
  {
    if k < n && Fits(marks[k], i, maxlen) {
      BodyFits(pet, marks, n, k + 1, marks[k], i + |Piece(pet[k], marks[k], escape)|, maxlen);
    }
  }

  /** Name and NUL stay inside the buffer. */
  lemma FatNameFits(pet: Name, devices: seq<string>, maxlen: int)
    requires maxlen >= 3
    ensures |FatName(pet, devices, maxlen)| < maxlen
  {
    BodyFits(pet, Marks(pet), TrimLength(pet), 0, false, |Lead(pet, devices)|, maxlen);
  }

  /** Writes one byte, in or out of an escape. */
  method WritePiece(p: char, mark: bool, fat: array<char>, i0: nat, escape0: bool)
    returns (i: nat, escape: bool)
    requires IsByte(p) && i0 + |Piece(p, mark, escape0)| <= fat.Length
    modifies fat
    ensures escape == mark
    ensures i == i0 + |Piece(p, mark, escape0)|
    ensures fat[..i] == old(fat[..i0]) + Piece(p, mark, escape0)
  {
    i, escape := i0, escape0;
    if mark {
      if !escape {
        fat[i] := '{';
        i := i + 1;
        escape := true;
      }
      fat[i] := HexDigit(p as int / 16);
      fat[i + 1] := HexDigit(p as int % 16);
      i := i + 2;
    } else {
      if escape {
        fat[i] := '}';
        i := i + 1;
        escape := false;
      }
      fat[i] := p;
      i := i + 1;
    }
  }

  lemma WrittenSoFar(pet: Name, marks: seq<bool>, n: nat, k: nat, escape: bool, i: nat, maxlen: int, before: string)
    requires k < n <= |pet| && n <= |marks| && Fits(marks[k], i, maxlen)
    ensures var w := Piece(pet[k], marks[k], escape);
      before + Body(pet, marks, n, k, escape, i, maxlen)
      == (before + w) + Body(pet, marks, n, k + 1, marks[k], i + |w|, maxlen)
  {
    var w := Piece(pet[k], marks[k], escape);
    Regroup(before, w, Body(pet, marks, n, k + 1, marks[k], i + |w|, maxlen));
  }

  /** Whether only shifted spaces follow, the byte at `k` included. */
  method OnlyPadding(pet: Name, k: nat) returns (r: bool)
    requires k < |pet|
    ensures r == (k >= TrimLength(pet))
  {
    TrimLengthIs(pet);
    var q := k;
    while q < |pet| && pet[q] == SHIFTED_SPACE
      invariant k <= q <= |pet|
      invariant forall m :: k <= m < q ==> pet[m] == SHIFTED_SPACE
    {
      q := q + 1;
    }
    r := q == |pet|;
  }

  method PetsciiToFat(pet: Name, fat: array<char>, maxlen: int)
    requires 3 <= fat.Length && maxlen <= fat.Length
    modifies fat
    ensures Holds(fat[..], FatName(pet, RESERVED, maxlen))
  {
    var i := 0;
    ReservedIsTable();
    var reserved := MatchesAny(pet, RESERVED);
    if reserved {
      fat[0] := '{';
      fat[1] := '}';
      i := 2;
    }
    i := WriteBody(pet, fat, i, maxlen);
    MarkType(fat, i, maxlen, Unmarked(pet, RESERVED, maxlen));
  }

  /** Braces behind a name that would pass for a CBM file type. */
  method MarkType(fat: array<char>, i: nat, maxlen: int, ghost name: string)
    requires i < fat.Length && fat[..i] == name && fat[i] == '\0' && maxlen <= fat.Length
    modifies fat
    ensures Holds(fat[..], name + Mark(name, maxlen))
  {
    assert name + "" == name;
    if i > 3 && i + 3 <= maxlen {
      var e := fat[i - 4..i];
      assert e == name[|name| - 4..];
      if SameIgnoringCase(e, ".prg") || SameIgnoringCase(e, ".seq")
         || SameIgnoringCase(e, ".usr") || SameIgnoringCase(e, ".rel") {
        fat[i] := '{';
        fat[i + 1] := '}';
        fat[i + 2] := '\0';
        assert fat[..i + 2] == name + "{}";
      }
    }
  }

  /** The loop over the name's bytes, and the NUL. */
  method WriteBody(pet: Name, fat: array<char>, i0: nat, maxlen: int) returns (i: nat)
    requires i0 <= 2 < fat.Length && maxlen <= fat.Length
    modifies fat
    ensures i < fat.Length && fat[i] == '\0'
    ensures fat[..i] == old(fat[..i0]) + Body(pet, Marks(pet), TrimLength(pet), 0, false, i0, maxlen)
  {
    ghost var goal := fat[..i0] + Body(pet, Marks(pet), TrimLength(pet), 0, false, i0, maxlen);
    var escape;
    i, escape := WriteBytes(pet, fat, i0, maxlen, goal);
    ghost var before := fat[..i];
    if escape {
      fat[i] := '}';
      i := i + 1;
    }
    fat[i] := '\0';
    assert fat[..i] == before + if escape then "}" else "";
  }

  /** The loop; `goal` is what it will have written when the last escape is closed. */
  method WriteBytes(pet: Name, fat: array<char>, i0: nat, maxlen: int, ghost goal: string)
    returns (i: nat, escape: bool)
    requires i0 <= 2 < fat.Length && maxlen <= fat.Length
    requires fat[..i0] + Body(pet, Marks(pet), TrimLength(pet), 0, false, i0, maxlen) == goal
    modifies fat
    ensures i + (if escape then 1 else 0) < fat.Length && fat[..i] + (if escape then "}" else "") == goal
  {
    i, escape := i0, false;
    var k := 0;
    while k < |pet|
      invariant 0 <= k <= TrimLength(pet) && i + (if escape then 1 else 0) < fat.Length
      invariant fat[..i] + Body(pet, Marks(pet), TrimLength(pet), k, escape, i, maxlen) == goal
      decreases |pet| - k
    {
      var stop;
      stop, i, escape := NextByte(pet, k, fat, i, escape, maxlen, goal);
      if stop {
        return;
      }
      k := k + 1;
    }
  }

  /** One turn of the loop: it stops at padding and where there is no room. */
  method NextByte(pet: Name, k: nat, fat: array<char>, i0: nat, escape0: bool, maxlen: int, ghost goal: string)
    returns (stop: bool, i: nat, escape: bool)
    requires k < |pet| && k <= TrimLength(pet) && maxlen <= fat.Length && i0 + (if escape0 then 1 else 0) < fat.Length
    requires fat[..i0] + Body(pet, Marks(pet), TrimLength(pet), k, escape0, i0, maxlen) == goal
    modifies fat
    ensures i + (if escape then 1 else 0) < fat.Length
    ensures stop ==> fat[..i] + (if escape then "}" else "") == goal
    ensures !stop ==> k < TrimLength(pet)
    ensures !stop ==> fat[..i] + Body(pet, Marks(pet), TrimLength(pet), k + 1, escape, i, maxlen) == goal
  {
    if pet[k] == SHIFTED_SPACE {
      var padding := OnlyPadding(pet, k);
      if padding {
        return true, i0, escape0;
      }
    }
    InsideTrim(pet, k);
    stop, i, escape := WriteByte(pet, k, fat, i0, escape0, maxlen, goal);
  }

  /** One byte of the name, if there is room for it; `goal` is what the loop will have written. */
  method WriteByte(pet: Name, k: nat, fat: array<char>, i0: nat, escape0: bool, maxlen: int, ghost goal: string)
    returns (stop: bool, i: nat, escape: bool)
    requires k < TrimLength(pet) && maxlen <= fat.Length && i0 + (if escape0 then 1 else 0) < fat.Length
    requires fat[..i0] + Body(pet, Marks(pet), TrimLength(pet), k, escape0, i0, maxlen) == goal
    modifies fat
    ensures i + (if escape then 1 else 0) < fat.Length
    ensures stop ==> fat[..i] + (if escape then "}" else "") == goal
    ensures !stop ==> fat[..i] + Body(pet, Marks(pet), TrimLength(pet), k + 1, escape, i, maxlen) == goal
  {
    stop, i, escape := false, i0, escape0;
    var mark := Escaped(pet[k], k == 0);
    if mark {
      if i + 4 >= maxlen {
        return true, i0, escape0;
      }
    } else if i + 2 >= maxlen {
      return true, i0, escape0;
    }
    WrittenSoFar(pet, Marks(pet), TrimLength(pet), k, escape, i, maxlen, fat[..i]);
    i, escape := WritePiece(pet[k], mark, fat, i, escape);
  }

  lemma InsideTrim(pet: Name, k: nat)
    requires k < |pet| && k <= TrimLength(pet)
    ensures k < TrimLength(pet) || pet[k] == SHIFTED_SPACE
  {
    TrimLengthIs(pet);
  }

  // ---------------------------------------------------------------- decoding

  function Upper(c: char): char {
    if 'a' <= c <= 'z' then c - 'a' + 'A' else c
  }

  /** fat_to_petscii from character `k` on, up to `max` characters of the name and `len`
      bytes of room. */
  function Decode(fat: string, k: nat, escape: bool, out: string, max: nat, len: int): string
    decreases |fat| - k, escape
  {
    if k >= |fat| || k >= max || |out| >= len then out
    else
      var k1 := if fat[k] == '{' then k + 1 else k;
      if escape || fat[k] == '{' then
        if k1 + 1 >= |fat| then out
        else if HexValue(fat[k1]) < 0 || HexValue(fat[k1 + 1]) < 0 then Decode(fat, k1, false, out, max, len)
        else
          var p := (HexValue(fat[k1]) * 16 + HexValue(fat[k1 + 1])) as char;
          Decode(fat, k1 + 2, true, out + [p], max, len)
      else if fat[k] == '}' then Decode(fat, k + 1, false, out, max, len)
      else Decode(fat, k + 1, false, out + [Upper(fat[k])], max, len)
  }

  /** Where a dot among the last four characters cuts the extension off. */
  function CutAt(fat: string, j: int): nat
    requires -1 <= j < |fat|
    decreases j + 1
  {
    if j < 0 || j < |fat| - 4 then |fat|
    else if fat[j] == '.' then j
    else CutAt(fat, j - 1)
  }

  function PetName(fat: string, cutExt: bool, len: int): string {
    Decode(fat, 0, false, "", if cutExt then CutAt(fat, |fat| - 1) else |fat|, len)
  }

  /** The dot among the last four characters, or the end of the name. */
  method FindExtension(fat: string) returns (max: nat)
    requires |fat| >= 4 || '.' in fat
    ensures max == CutAt(fat, |fat| - 1)
  {
    max := |fat|;
    var j := |fat| - 1;
    while j >= |fat| - 4
      invariant -1 <= j < |fat| && max == |fat|
      invariant CutAt(fat, |fat| - 1) == CutAt(fat, j)
      invariant |fat| < 4 ==> exists q :: 0 <= q <= j && fat[q] == '.'
      decreases j + 1
    {
      if fat[j] == '.' {
        return j;
      }
      j := j - 1;
    }
  }

  /** With `cutExt` the scan for the dot must not run off the front of the name. */
  method FatToPetscii(fat: string, cutExt: bool, pet: array<char>, len: nat, term: bool)
    requires cutExt ==> |fat| >= 4 || '.' in fat
    requires len <= pet.Length && (term ==> len < pet.Length)
    modifies pet
    ensures var s := PetName(fat, cutExt, len);
      |s| <= len && pet[..|s|] == s && (term ==> pet[|s|] == '\0')
  {
    var max := |fat|;
    if cutExt {
      max := FindExtension(fat);
    }
    var i, k := 0, 0;
    var escape := false;
    while k < |fat| && k < max && i < len
      invariant 0 <= i <= len && 0 <= k
      invariant Decode(fat, 0, false, "", max, len) == Decode(fat, k, escape, pet[..i], max, len)
      decreases |fat| - k, escape
    {
      var f := fat[k];
      ghost var before := pet[..i];
      if f == '{' {
        escape := true;
        k := k + 1;
      }
      if escape {
        if k >= |fat| || k + 1 >= |fat| {
          break;
        }
        var h, l := HexValue(fat[k]), HexValue(fat[k + 1]);
        if h < 0 || l < 0 {
          escape := false;
        } else {
          pet[i] := (h * 16 + l) as char;
          i := i + 1;
          k := k + 2;
          assert pet[..i] == before + [(h * 16 + l) as char];
        }
      } else if f == '}' {
        k := k + 1;
      } else {
        pet[i] := Upper(f);
        i := i + 1;
        k := k + 1;
        assert pet[..i] == before + [Upper(f)];
      }
    }
    assert pet[..i] == PetName(fat, cutExt, len);
    if term {
      pet[i] := '\0';
    }
    assert pet[..i] == PetName(fat, cutExt, len);
  }
}
