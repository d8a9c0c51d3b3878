/** What the FAT name codec is for: every CBM name comes back from its FAT name, different
    names have different FAT names, and a FAT name is one a FAT volume can hold. */
module PetsciiFatRoundTrip {
  import opened Common
  import opened Petscii
  import opened PetsciiFat

  // ---------------------------------------------------------------- decoding what was encoded

  lemma EscapeReads(fat: string, j: nat, p: char, escape: bool, out: string, max: nat, len: int)
    requires IsByte(p) && |out| < len && max <= |fat|
    requires var q := if escape then j else j + 1;
      q + 2 <= max && fat[q] == HexPair(p)[0] && fat[q + 1] == HexPair(p)[1] && (!escape ==> fat[j] == '{')
    ensures Decode(fat, j, escape, out, max, len)
         == Decode(fat, if escape then j + 2 else j + 3, true, out + [p], max, len)
  {
    HexPairReads(p);
    HexDigitValue(p as int / 16);
  }

  lemma PlainReads(fat: string, j: nat, p: char, escape: bool, out: string, max: nat, len: int)
    requires ' ' <= p < 96 as char && |out| < len && max <= |fat|
    requires var q := if escape then j + 1 else j;
      q + 1 <= max && fat[q] == p && (escape ==> fat[j] == '}')
    ensures Decode(fat, j, escape, out, max, len)
         == Decode(fat, if escape then j + 2 else j + 1, false, out + [p], max, len)
  {
    if escape {
      assert Decode(fat, j, true, out, max, len) == Decode(fat, j, false, out, max, len)
          == Decode(fat, j + 1, false, out, max, len);
    }
  }

  /** What was written for one byte is read as that byte. */
  lemma PieceReads(fat: string, j: nat, p: char, mark: bool, escape: bool, out: string, max: nat, len: int)
    requires IsByte(p) && |out| < len && max <= |fat| && (!mark ==> ' ' <= p < 96 as char)
    requires var w := Piece(p, mark, escape);
      j + |w| <= max && forall q :: 0 <= q < |w| ==> fat[j + q] == w[q]
    ensures Decode(fat, j, escape, out, max, len)
         == Decode(fat, j + |Piece(p, mark, escape)|, mark, out + [p], max, len)
  {
    var w := Piece(p, mark, escape);
    assert fat[j + 0] == w[0];
    assert |w| > 1 ==> fat[j + 1] == w[1];
    assert |w| > 2 ==> fat[j + 2] == w[2];
    if mark {
      EscapeReads(fat, j, p, escape, out, max, len);
    } else {
      PlainReads(fat, j, p, escape, out, max, len);
    }
  }

  /** The braces behind a name give no byte. */
  lemma MarkReads(fat: string, j: nat, out: string, max: nat, len: int)
    requires max <= |fat| && j + 2 == max && fat[j] == '{' && fat[j + 1] == '}'
    ensures Decode(fat, j, false, out, max, len) == out
  {
    if |out| < len && max < |fat| {
      assert Decode(fat, j, false, out, max, len) == Decode(fat, j + 1, false, out, max, len)
          == Decode(fat, j + 2, false, out, max, len);
    }
  }

  /** The end of a name closes an open escape and may be marked. */
  lemma EndReads(fat: string, j: nat, escape: bool, mark: string, out: string, max: nat, len: int)
    requires j <= max <= |fat| && (mark == "" || mark == "{}")
    requires fat[j..max] == (if escape then "}" else "") + mark
    ensures Decode(fat, j, escape, out, max, len) == out
  {
    var w := fat[j..max];
    assert forall q :: 0 <= q < |w| ==> fat[j + q] == w[q];
    if escape {
      assert fat[j] == w[0];
      if mark == "{}" {
        assert fat[j + 1] == w[1] && fat[j + 2] == w[2];
        MarkReads(fat, j + 1, out, max, len);
      }
      if |out| < len && j + 1 < |fat| {
        assert Decode(fat, j, true, out, max, len) == Decode(fat, j, false, out, max, len)
            == Decode(fat, j + 1, false, out, max, len);
      }
    } else if mark == "{}" {
      assert fat[j] == w[0] && fat[j + 1] == w[1];
      MarkReads(fat, j, out, max, len);
    }
  }

  /** A byte that is not spelled out is a printable character that decodes to itself. */
  predicate PlainUnmarked(pet: Name, marks: seq<bool>) {
    |marks| == |pet| && forall k :: 0 <= k < |pet| && !marks[k] ==> ' ' <= pet[k] < 96 as char
  }

  lemma SliceSplit(fat: string, j: nat, max: nat, a: string, b: string)
    requires j <= max <= |fat| && fat[j..max] == a + b
    ensures j + |a| <= max && fat[j + |a|..max] == b
    ensures forall q :: 0 <= q < |a| ==> fat[j + q] == a[q]
  {
    var w := fat[j..max];
    assert w[|a|..] == b && w[|a|..] == fat[j + |a|..max];
    forall q | 0 <= q < |a|
      ensures fat[j + q] == a[q]
    {
      assert w[q] == fat[j + q];
    }
  }

  /** One byte of the body, and the rest of it. */
  lemma OneByte(pet: Name, marks: seq<bool>, n: nat, k: nat, escape: bool, i: nat, maxlen: int)
    returns (w: string, i': nat, rest: string, left: nat)
    requires k < n <= |pet| && n <= |marks| && Fits(marks[k], i, maxlen)
    ensures w == Piece(pet[k], marks[k], escape) && i' == i + |w|
    ensures rest == Body(pet, marks, n, k + 1, marks[k], i', maxlen)
    ensures Body(pet, marks, n, k, escape, i, maxlen) == w + rest
    ensures left == Taken(marks, n, k + 1, marks[k], i', maxlen) && Taken(marks, n, k, escape, i, maxlen) == 1 + left
  {
    w := Piece(pet[k], marks[k], escape);
    i' := i + |w|;
    assert i' == i + Width(marks[k], escape);
    rest, left := Body(pet, marks, n, k + 1, marks[k], i', maxlen), Taken(marks, n, k + 1, marks[k], i', maxlen);
  }

  lemma NextPiece(p: char, marked: bool, escape: bool, w: string, rest: string, mark: string,
                  fat: string, j: nat, out: string, max: nat, len: int)
    requires '\0' < p && IsByte(p) && (!marked ==> ' ' <= p < 96 as char) && w == Piece(p, marked, escape)
    requires j <= max <= |fat| && |out| < len && fat[j..max] == w + rest + mark
    ensures j + |w| <= max && fat[j + |w|..max] == rest + mark
    ensures Decode(fat, j, escape, out, max, len) == Decode(fat, j + |w|, marked, out + [p], max, len)
  {
    Regroup(w, rest, mark);
    SliceSplit(fat, j, max, w, rest + mark);
    PieceReads(fat, j, p, marked, escape, out, max, len);
  }

  /** One byte more on both sides. */
  lemma NextReads(pet: Name, marks: seq<bool>, n: nat, k: nat, escape: bool, i: nat, maxlen: int, body: string,
                  left: nat,
                  mark: string, fat: string, j: nat, out: string, max: nat, len: int)
    returns (j': nat, i': nat, body': string, left': nat, out': string)
    requires k < n <= |pet| && n <= |marks| && Fits(marks[k], i, maxlen) && |out| < len
    requires PlainUnmarked(pet, marks)
    requires body == Body(pet, marks, n, k, escape, i, maxlen) && left == Taken(marks, n, k, escape, i, maxlen)
    requires j <= max <= |fat| && fat[j..max] == body + mark
    ensures j' <= max && |out'| == |out| + 1 && left == 1 + left' && k + left <= n
    ensures body' == Body(pet, marks, n, k + 1, marks[k], i', maxlen)
    ensures left' == Taken(marks, n, k + 1, marks[k], i', maxlen)
    ensures fat[j'..max] == body' + mark
    ensures Decode(fat, j, escape, out, max, len) == Decode(fat, j', marks[k], out', max, len)
    ensures out' + pet[k + 1..k + 1 + left'] == out + pet[k..k + left]
  {
    var w;
    w, i', body', left' := OneByte(pet, marks, n, k, escape, i, maxlen);
    NextPiece(pet[k], marks[k], escape, w, body', mark, fat, j, out, max, len);
    j', out' := j + |w|, out + [pet[k]];
    OneMoreGiven(pet, k, left', out, out');
  }

  lemma OneMoreGiven(pet: string, k: nat, left: nat, out: string, out': string)
    requires k + 1 + left <= |pet| && out' == out + [pet[k]]
    ensures out' + pet[k + 1..k + 1 + left] == out + pet[k..k + (1 + left)]
  {
    assert pet[k..k + (1 + left)] == [pet[k]] + pet[k + 1..k + 1 + left];
    Regroup(out, [pet[k]], pet[k + 1..k + 1 + left]);
  }

  lemma NothingMore(pet: Name, marks: seq<bool>, n: nat, k: nat, escape: bool, i: nat, maxlen: int, out: string)
    requires k <= n <= |pet| && n <= |marks| && (k == n || !Fits(marks[k], i, maxlen))
    ensures Body(pet, marks, n, k, escape, i, maxlen) == (if escape then "}" else "")
    ensures Taken(marks, n, k, escape, i, maxlen) == 0 && out + pet[k..k] == out
  {
  }

  lemma {:induction false} BodyReads(pet: Name, marks: seq<bool>, n: nat, k: nat, escape: bool, i: nat, maxlen: int,
                                     body: string, left: nat, mark: string,
                                     fat: string, j: nat, out: string, max: nat, len: int)
    requires k <= n <= |pet| && n <= |marks| && (mark == "" || mark == "{}") && PlainUnmarked(pet, marks)
    requires body == Body(pet, marks, n, k, escape, i, maxlen) && left == Taken(marks, n, k, escape, i, maxlen)
    requires j <= max <= |fat| && fat[j..max] == body + mark && |out| + left <= len
    ensures k + left <= n && Decode(fat, j, escape, out, max, len) == out + pet[k..k + left]
    decreases n - k
  {
    if k == n || !Fits(marks[k], i, maxlen) {
      NothingMore(pet, marks, n, k, escape, i, maxlen, out);
      EndReads(fat, j, escape, mark, out, max, len);
    } else {
      var j', i', body', left', out' :=
        NextReads(pet, marks, n, k, escape, i, maxlen, body, left, mark, fat, j, out, max, len);
      BodyReads(pet, marks, n, k + 1, marks[k], i', maxlen, body', left', mark, fat, j', out', max, len);
    }
  }

  /** The braces in front of a reserved name give no byte. */
  lemma LeadReads(fat: string, lead: string, max: nat, len: int)
    requires lead == "" || lead == "{}"
    requires |lead| <= max <= |fat| && fat[..|lead|] == lead
    ensures Decode(fat, 0, false, "", max, len) == Decode(fat, |lead|, false, "", max, len)
  {
    if lead == "{}" {
      assert fat[0] == lead[0] && fat[1] == lead[1];
      if 0 < len && 2 < |fat| {
        assert Decode(fat, 0, false, "", max, len) == Decode(fat, 1, false, "", max, len)
            == Decode(fat, 2, false, "", max, len);
      }
    }
  }

  lemma MarksPlain(pet: Name)
    ensures PlainUnmarked(pet, Marks(pet))
  {
  }

  /** Up to position `max` the string is a FAT name: it decodes to the bytes that got in. */
  lemma NameReads(pet: Name, devices: seq<string>, maxlen: int, fat: string, max: nat, len: int)
    requires max <= |fat| && fat[..max] == FatName(pet, devices, maxlen) && TakenAll(pet, devices, maxlen) <= len
    ensures Decode(fat, 0, false, "", max, len) == pet[..TakenAll(pet, devices, maxlen)]
  {
    var n, marks := TrimLength(pet), Marks(pet);
    MarksPlain(pet);
    var lead := Lead(pet, devices);
    var body := Body(pet, marks, n, 0, false, |lead|, maxlen);
    var mark := Mark(Unmarked(pet, devices, maxlen), maxlen);
    Regroup(lead, body, mark);
    assert fat[0..max] == lead + (body + mark);
    SliceSplit(fat, 0, max, lead, body + mark);
    assert fat[..|lead|] == lead;
    LeadReads(fat, lead, max, len);
    BodyReads(pet, marks, n, 0, false, |lead|, maxlen, Body(pet, marks, n, 0, false, |lead|, maxlen),
              Taken(marks, n, 0, false, |lead|, maxlen), mark, fat, |lead|, "", max, len);
    assert "" + pet[0..TakenAll(pet, devices, maxlen)] == pet[..TakenAll(pet, devices, maxlen)];
  }

  /** Bare, and with any extension of three characters appended, a FAT name decodes to the
      bytes of the CBM name that got in. */
  lemma FatRoundTrip(pet: Name, devices: seq<string>, maxlen: int, ext: string, len: int)
    requires TakenAll(pet, devices, maxlen) <= len && |ext| == 3 && '.' !in ext
    ensures PetName(FatName(pet, devices, maxlen), false, len) == pet[..TakenAll(pet, devices, maxlen)]
    ensures PetName(FatName(pet, devices, maxlen) + "." + ext, true, len) == pet[..TakenAll(pet, devices, maxlen)]
  {
    var fat := FatName(pet, devices, maxlen);
    assert fat[..|fat|] == fat;
    NameReads(pet, devices, maxlen, fat, |fat|, len);
    var long := fat + "." + ext;
    assert long[..|fat|] == fat;
    CutFindsDot(fat, ext);
    NameReads(pet, devices, maxlen, long, |fat|, len);
  }

  lemma CutFindsDot(fat: string, ext: string)
    requires |ext| == 3 && '.' !in ext
    ensures CutAt(fat + "." + ext, |fat| + 3) == |fat|
  {
    var long := fat + "." + ext;
    assert long[|fat|] == '.';
    assert long[|fat| + 3] == ext[2] && long[|fat| + 2] == ext[1] && long[|fat| + 1] == ext[0];
    assert CutAt(long, |fat| + 3) == CutAt(long, |fat| + 2);
    assert CutAt(long, |fat| + 1) == CutAt(long, |fat|);
  }

  // ---------------------------------------------------------------- room

  /** Three characters a byte, and the braces, are room enough. */
  lemma {:induction false} RoomForAll(marks: seq<bool>, n: nat, k: nat, escape: bool, i: nat, maxlen: int)
    requires k <= n <= |marks| && i + 3 * (n - k) + 2 <= maxlen
    ensures k + Taken(marks, n, k, escape, i, maxlen) == n
    decreases n - k
  {
    if k < n {
      RoomForAll(marks, n, k + 1, marks[k], i + Width(marks[k], escape), maxlen);
    }
  }

  lemma EnoughRoom(pet: Name, devices: seq<string>, maxlen: int)
    requires 3 * TrimLength(pet) + 4 <= maxlen
    ensures TakenAll(pet, devices, maxlen) == TrimLength(pet) && pet[..TakenAll(pet, devices, maxlen)] == Trim(pet)
  {
    RoomForAll(Marks(pet), TrimLength(pet), 0, false, |Lead(pet, devices)|, maxlen);
  }

  // ---------------------------------------------------------------- what the names are like

  /** A character a FAT name may have: none of " * / : < > ? \ |, no control code, no DEL; and
      no lower case letter, so names that differ, differ in more than case. */
  predicate Legal(c: char) {
    ' ' <= c < 127 as char && !('a' <= c <= 'z')
    && c != '"' && c != '*' && c != '/' && c != ':' && c != '<' && c != '>' && c != '?' && c != '\\' && c != '|'
  }

  predicate AllLegal(s: string) {
    forall i :: 0 <= i < |s| ==> Legal(s[i])
  }

  /** A byte that is not spelled out is legal as it is, and no dot if it is the first. */
  predicate LegalUnmarked(pet: Name, marks: seq<bool>) {
    |marks| == |pet| && forall k :: 0 <= k < |pet| && !marks[k] ==> Legal(pet[k]) && (k == 0 ==> pet[k] != '.')
  }

  lemma MarksLegal(pet: Name)
    ensures LegalUnmarked(pet, Marks(pet))
  {
  }

  lemma PieceLegal(p: char, mark: bool, escape: bool)
    requires IsByte(p) && (!mark ==> Legal(p))
    ensures AllLegal(Piece(p, mark, escape)) && (mark || escape || p != '.' ==> Piece(p, mark, escape)[0] != '.')
  {
    HexDigitValue(p as int / 16);
    HexDigitValue(p as int % 16);
  }

  lemma {:induction false} BodyLegal(pet: Name, marks: seq<bool>, n: nat, k: nat, escape: bool, i: nat, maxlen: int)
    requires k <= n <= |pet| && LegalUnmarked(pet, marks)
    ensures var b := Body(pet, marks, n, k, escape, i, maxlen);
      AllLegal(b) && (k == 0 && !escape && b != "" ==> b[0] != '.')
    decreases n - k
  {
    if k < n && Fits(marks[k], i, maxlen) {
      var w, i', rest, left := OneByte(pet, marks, n, k, escape, i, maxlen);
      PieceLegal(pet[k], marks[k], escape);
      BodyLegal(pet, marks, n, k + 1, marks[k], i', maxlen);
      BothLegal(w, rest);
    }
  }

  lemma BothLegal(a: string, b: string)
    requires AllLegal(a) && AllLegal(b)
    ensures AllLegal(a + b)
  {
  }

  /** Whatever the name and the room: only characters FAT allows, and no leading dot. */
  lemma FatNameLegal(pet: Name, devices: seq<string>, maxlen: int)
    ensures var fat := FatName(pet, devices, maxlen);
      AllLegal(fat) && (fat != "" ==> fat[0] != '.')
  {
    var lead := Lead(pet, devices);
    var body := Body(pet, Marks(pet), TrimLength(pet), 0, false, |lead|, maxlen);
    MarksLegal(pet);
    BodyLegal(pet, Marks(pet), TrimLength(pet), 0, false, |lead|, maxlen);
    JoinLegal(lead, body, Mark(lead + body, maxlen));
  }

  lemma JoinLegal(lead: string, body: string, mark: string)
    requires (lead == "" || lead == "{}") && (mark == "" || mark == "{}")
    requires AllLegal(body) && (body != "" ==> body[0] != '.')
    ensures AllLegal(lead + body + mark) && (lead + body + mark != "" ==> (lead + body + mark)[0] != '.')
  {
  }

  lemma LegalCaseMatters(a: string, b: string)
    requires AllLegal(a) && AllLegal(b) && SameIgnoringCase(a, b)
    ensures a == b
  {
    forall i | 0 <= i < |a|
      ensures a[i] == b[i]
    {
      assert Legal(a[i]) && Legal(b[i]);
    }
  }

  /** Names that differ in more than trailing padding have FAT names that differ in more than
      case. */
  lemma FatNamesDiffer(a: Name, b: Name, devices: seq<string>, maxlen: int)
    requires 3 * TrimLength(a) + 4 <= maxlen && 3 * TrimLength(b) + 4 <= maxlen
    requires SameIgnoringCase(FatName(a, devices, maxlen), FatName(b, devices, maxlen))
    ensures Trim(a) == Trim(b)
  {
    FatNameLegal(a, devices, maxlen);
    FatNameLegal(b, devices, maxlen);
    LegalCaseMatters(FatName(a, devices, maxlen), FatName(b, devices, maxlen));
    SameFatNames(a, b, devices, maxlen);
  }

  lemma SameFatNames(a: Name, b: Name, devices: seq<string>, maxlen: int)
    requires 3 * TrimLength(a) + 4 <= maxlen && 3 * TrimLength(b) + 4 <= maxlen
    requires FatName(a, devices, maxlen) == FatName(b, devices, maxlen)
    ensures Trim(a) == Trim(b)
  {
    EnoughRoom(a, devices, maxlen);
    EnoughRoom(b, devices, maxlen);
    FatRoundTrip(a, devices, maxlen, "XYZ", |a| + |b|);
    FatRoundTrip(b, devices, maxlen, "XYZ", |a| + |b|);
  }

  // ---------------------------------------------------------------- device names

  /** As far as the encoded name has no brace it is the name itself, byte by byte. */
  lemma {:induction false} BodyStartsPlain(pet: Name, marks: seq<bool>, n: nat, k: nat, i: nat, maxlen: int,
                                           b: string, left: nat, t: nat)
    requires k <= n <= |pet| && n <= |marks|
    requires b == Body(pet, marks, n, k, false, i, maxlen) && left == Taken(marks, n, k, false, i, maxlen)
    requires t <= |b| && forall q :: 0 <= q < t ==> b[q] != '{'
    ensures t <= left && k + left <= n && b[..t] == pet[k..k + t]
    ensures t == |b| <==> t == left
    decreases t
  {
    if k < n && Fits(marks[k], i, maxlen) {
      var w, i', rest, left' := OneByte(pet, marks, n, k, false, i, maxlen);
      FirstOfPiece(pet[k], marks[k], w);
      assert b[0] == w[0];
      if t > 0 {
        TailPlain(b, w, rest, t);
        BodyStartsPlain(pet, marks, n, k + 1, i', maxlen, rest, left', t - 1);
        PlainTogether(pet, k, b, rest, t);
      }
    }
  }

  /** Outside an escape a byte's piece is itself, or begins with a brace. */
  lemma FirstOfPiece(p: char, marked: bool, w: string)
    requires IsByte(p) && w == Piece(p, marked, false)
    ensures if marked then |w| > 1 && w[0] == '{' else w == [p]
  {
  }

  lemma TailPlain(b: string, w: string, rest: string, t: nat)
    requires b == w + rest && |w| == 1 && 0 < t <= |b| && forall q :: 0 <= q < t ==> b[q] != '{'
    ensures t - 1 <= |rest| && forall q :: 0 <= q < t - 1 ==> rest[q] != '{'
  {
    assert forall q :: 0 <= q < t - 1 ==> rest[q] == b[q + 1];
  }

  lemma PlainTogether(pet: string, k: nat, b: string, rest: string, t: nat)
    requires 0 < t && k + t <= |pet| && b == [pet[k]] + rest && t - 1 <= |rest| && rest[..t - 1] == pet[k + 1..k + t]
    ensures b[..t] == pet[k..k + t]
  {
    assert b[..t] == [pet[k]] + rest[..t - 1];
  }

  lemma {:induction false} PlainBody(pet: Name, marks: seq<bool>, n: nat, k: nat, i: nat, maxlen: int)
    requires k <= n <= |pet| && n <= |marks|
    requires forall q :: k <= q < k + Taken(marks, n, k, false, i, maxlen) ==> !marks[q]
    ensures Body(pet, marks, n, k, false, i, maxlen) == pet[k..k + Taken(marks, n, k, false, i, maxlen)]
    decreases n - k
  {
    if k < n && Fits(marks[k], i, maxlen) {
      assert !marks[k];
      PlainBody(pet, marks, n, k + 1, i + 1, maxlen);
    }
  }

  /** An encoded name without braces in front is a device name only if it was cut down to it. */
  lemma BodyIsDevice(pet: Name, marks: seq<bool>, n: nat, maxlen: int, mark: string, device: string)
    requires n <= |pet| && n <= |marks| && DeviceShape(device) && (mark == "" || mark == "{}")
    requires !Names(pet, device) && Names(Body(pet, marks, n, 0, false, 0, maxlen) + mark, device)
    ensures var t := Taken(marks, n, 0, false, 0, maxlen);
      t < |pet| && pet[..t] == device
  {
    var body := Body(pet, marks, n, 0, false, 0, maxlen);
    var d := |device|;
    BodyStartsWithDevice(body, mark, device);
    BodyStartsPlain(pet, marks, n, 0, 0, maxlen, body, Taken(marks, n, 0, false, 0, maxlen), d);
    assert pet[0..d] == pet[..d];
    if |body| > d {
      BodyPlainAt(pet, marks, n, maxlen, d);
    }
  }

  lemma BodyPlainAt(pet: Name, marks: seq<bool>, n: nat, maxlen: int, t: nat)
    requires n <= |pet| && n <= |marks|
    requires var b := Body(pet, marks, n, 0, false, 0, maxlen);
      t < |b| && forall q :: 0 <= q <= t ==> b[q] != '{'
    ensures t < |pet| && pet[t] == Body(pet, marks, n, 0, false, 0, maxlen)[t]
  {
    var b := Body(pet, marks, n, 0, false, 0, maxlen);
    BodyStartsPlain(pet, marks, n, 0, 0, maxlen, b, Taken(marks, n, 0, false, 0, maxlen), t + 1);
    assert b[..t + 1][t] == pet[0..t + 1][t];
  }

  /** The device name does not reach into the braces of the mark. */
  lemma BodyStartsWithDevice(body: string, mark: string, device: string)
    requires DeviceShape(device) && (mark == "" || mark == "{}") && Names(body + mark, device)
    ensures var d := |device|;
      && d <= |body| && body[..d] == device
      && (forall q :: 0 <= q < d ==> body[q] != '{')
      && (|body| > d ==> body[d] == '.')
  {
    var fat, d := body + mark, |device|;
    forall q | 0 <= q < d
      ensures fat[q] == device[q]
    {
      assert fat[..d][q] == device[q];
    }
    if mark != "" {
      assert fat[|body|] == mark[0];
    }
    assert fat[..d] == body[..d];
  }

  lemma DeviceOnlyIfCut(pet: Name, devices: seq<string>, maxlen: int)
    requires DeviceTable(devices)
    requires IsDevice(FatName(pet, devices, maxlen), devices)
    ensures TakenAll(pet, devices, maxlen) < |pet| && IsBareDevice(pet[..TakenAll(pet, devices, maxlen)], devices)
  {
    var i :| 0 <= i < |devices| && Names(FatName(pet, devices, maxlen), devices[i]);
    var device := devices[i];
    var fat := FatName(pet, devices, maxlen);
    assert fat[0] == fat[..|device|][0] == device[0];
    assert !IsDevice(pet, devices);
    assert Lead(pet, devices) == "";
    assert Unmarked(pet, devices, maxlen) == Body(pet, Marks(pet), TrimLength(pet), 0, false, 0, maxlen);
    BodyIsDevice(pet, Marks(pet), TrimLength(pet), maxlen, Mark(Unmarked(pet, devices, maxlen), maxlen), device);
  }

  /** Letters and digits are never spelled out. */
  predicate AlphanumericUnmarked(pet: Name, marks: seq<bool>) {
    |marks| == |pet|
    && forall k :: 0 <= k < |pet| && ('1' <= pet[k] <= '9' || 'A' <= pet[k] <= 'Z') ==> !marks[k]
  }

  lemma MarksAlphanumeric(pet: Name)
    ensures AlphanumericUnmarked(pet, Marks(pet))
  {
  }

  lemma CutIsDevice(pet: Name, marks: seq<bool>, n: nat, maxlen: int, device: string)
    requires n <= |pet| && AlphanumericUnmarked(pet, marks) && DeviceShape(device)
    requires pet[..Taken(marks, n, 0, false, 0, maxlen)] == device
    ensures Body(pet, marks, n, 0, false, 0, maxlen) == device
  {
    var t := Taken(marks, n, 0, false, 0, maxlen);
    forall q | 0 <= q < t
      ensures !marks[q]
    {
      assert pet[..t][q] == device[q];
    }
    PlainBody(pet, marks, n, 0, 0, maxlen);
    assert pet[0..t] == pet[..t];
  }

  lemma DeviceNotMarked(device: string, maxlen: int)
    requires DeviceShape(device)
    ensures Mark(device, maxlen) == ""
  {
    if |device| > 3 {
      assert device[|device| - 4..][0] == device[0];
    }
  }

  lemma DeviceIfCut(pet: Name, devices: seq<string>, maxlen: int)
    requires DeviceTable(devices)
    requires !IsDevice(pet, devices) && IsBareDevice(pet[..TakenAll(pet, devices, maxlen)], devices)
    ensures IsDevice(FatName(pet, devices, maxlen), devices)
  {
    var i :| 0 <= i < |devices| && pet[..TakenAll(pet, devices, maxlen)] == devices[i];
    MarksAlphanumeric(pet);
    CutIsDevice(pet, Marks(pet), TrimLength(pet), maxlen, devices[i]);
    DeviceNotMarked(devices[i], maxlen);
    assert FatName(pet, devices, maxlen) == devices[i];
    assert Names(FatName(pet, devices, maxlen), devices[i]);
  }

  lemma CutDeviceIsNone(pet: Name, devices: seq<string>, t: nat)
    requires DeviceTable(devices)
    requires t < |pet| && IsBareDevice(pet[..t], devices) && IsDevice(pet, devices)
    ensures pet[t] == '.'
  {
    var i :| 0 <= i < |devices| && pet[..t] == devices[i];
    var k :| 0 <= k < |devices| && Names(pet, devices[k]);
    var x, y := devices[i], devices[k];
    forall q | 0 <= q < t
      ensures pet[q] == x[q]
    {
      assert pet[..t][q] == pet[q];
    }
    forall q | 0 <= q < |y|
      ensures pet[q] == y[q]
    {
      assert pet[..|y|][q] == pet[q];
    }
    assert t <= |y| ==> y[..t] == x;
  }

  /** When the encoded name is a reserved device name after all: exactly when the name itself
      is not recognised as one, but the bytes of it that get in, all but some padding or what
      there is no room for, are a bare device name. */
  lemma DeviceNamesExactly(pet: Name, devices: seq<string>, maxlen: int)
    requires DeviceTable(devices)
    ensures IsDevice(FatName(pet, devices, maxlen), devices) <==>
      !IsDevice(pet, devices) && IsBareDevice(pet[..TakenAll(pet, devices, maxlen)], devices)
  {
    if IsDevice(FatName(pet, devices, maxlen), devices) {
      DeviceOnlyIfCut(pet, devices, maxlen);
      BracedIsNoDevice(pet, devices, maxlen);
    }
    if !IsDevice(pet, devices) && IsBareDevice(pet[..TakenAll(pet, devices, maxlen)], devices) {
      DeviceIfCut(pet, devices, maxlen);
    }
  }

  lemma BracedIsNoDevice(pet: Name, devices: seq<string>, maxlen: int)
    requires DeviceTable(devices)
    requires IsDevice(FatName(pet, devices, maxlen), devices)
    ensures !IsDevice(pet, devices)
  {
    var i :| 0 <= i < |devices| && Names(FatName(pet, devices, maxlen), devices[i]);
    var fat := FatName(pet, devices, maxlen);
    assert fat[0] == fat[..|devices[i]|][0] == devices[i][0];
  }

  /** With room enough: a name in padding that is a device name without it. */
  lemma PaddedDeviceNames(pet: Name, devices: seq<string>, maxlen: int)
    requires DeviceTable(devices)
    requires 3 * TrimLength(pet) + 4 <= maxlen
    ensures IsDevice(FatName(pet, devices, maxlen), devices) <==> Trim(pet) != pet && IsBareDevice(Trim(pet), devices)
  {
    EnoughRoom(pet, devices, maxlen);
    DeviceNamesExactly(pet, devices, maxlen);
    if Trim(pet) == pet && IsBareDevice(pet, devices) {
      var i :| 0 <= i < |devices| && pet == devices[i];
      assert Names(pet, devices[i]);
    }
    if Trim(pet) != pet && IsBareDevice(Trim(pet), devices) && IsDevice(pet, devices) {
      TrimLengthIs(pet);
      CutDeviceIsNone(pet, devices, TrimLength(pet));
    }
  }

  /** CON and one shifted space: the padding hides the device from the check and is dropped
      from the name. */
  lemma PaddedDeviceExample(pet: Name)
    requires |pet| == 4 && pet[..3] == "CON" && pet[3] == SHIFTED_SPACE
    ensures IsDevice(FatName(pet, RESERVED, 64), RESERVED)
  {
    ReservedIsTable();
    assert pet[..3][2] == 'N';
    assert TrimLength(pet[..3]) == 3;
    assert Trim(pet) == RESERVED[0];
    PaddedDeviceNames(pet, RESERVED, 64);
  }
}
