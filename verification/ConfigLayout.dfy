/** What the bytes of a configuration block say, number by number, and what is made of bytes that
    come back: the format of the records, without the code that packs and unpacks them. */
module ConfigLayout {
  import opened Common
  import opened ByteType
  import opened Config
  import opened PageBytes
  import opened ConfigObjects

  // ---------------------------------------------------------------- numbers

  /** The number that bytes spell, the highest first, without a sign. */
  function Unsigned(s: seq<Byte>): nat {
    if s == [] then 0 else 256 * Unsigned(s[..|s| - 1]) + s[|s| - 1]
  }

  /** The same number in 32 bits with a sign. */
  predicate Means(s: seq<Byte>, v: int) {
    -2147483648 <= v <= 2147483647 && (Unsigned(s) - v) % 4294967296 == 0
  }

  lemma MeansOne(s: seq<Byte>, v: int, w: int)
    requires Means(s, v) && Means(s, w)
    ensures v == w
  {
  }

  // ---------------------------------------------------------------- records

  /** The bytes of a record: id, type, number of bytes, and the value: four bytes for a number (1),
      one for a choice (2), the characters for the three kinds of text (3, 7, 8). Nothing else
      has one. */
  predicate IsRecord(it: Item, s: seq<Byte>) {
    if it.def.kind == 1 then
      |s| == 7 && s[0] == it.def.id && s[1] == 1 && s[2] == 4 && Means(s[3..], it.value)
    else if it.def.kind == 2 then
      |s| == 4 && s[0] == it.def.id && s[1] == 2 && s[2] == 1 && (it.value - s[3]) % 256 == 0
    else if it.def.kind == 3 || it.def.kind == 7 || it.def.kind == 8 then
      |s| == 3 + |it.text| && s[0] == it.def.id && s[1] == it.def.kind && s[2] == |it.text| && s[3..] == it.text
    else s == []
  }

  lemma UnsignedFour(a: Byte, b: Byte, c: Byte, d: Byte)
    ensures Unsigned([a, b, c, d]) == ((a as int * 256 + b as int) * 256 + c as int) * 256 + d as int
  {
    assert [a, b, c, d][..3] == [a, b, c] && [a, b, c][..2] == [a, b] && [a, b][..1] == [a] && [a][..0] == [];
    assert Unsigned([]) == 0 && Unsigned([a]) == a as int;
    assert Unsigned([a, b]) == a as int * 256 + b as int;
    assert Unsigned([a, b, c]) == (a as int * 256 + b as int) * 256 + c as int;
  }

  /** Each item's record has that form. */
  lemma RecordsAreLaidOut(it: Item)
    requires IsInt(it.value) && |it.text| < 256
    ensures IsRecord(it, Record(it))
  {
    var s := Record(it);
    var v := it.value;
    if it.def.kind == TYPE_VALUE {
      assert s[3..] == [IntByte(v, 3), IntByte(v, 2), IntByte(v, 1), IntByte(v, 0)];
      UnsignedFour(IntByte(v, 3), IntByte(v, 2), IntByte(v, 1), IntByte(v, 0));
      BytesOfInt(v);
    }
  }

  lemma {:induction false} SameBytes(s: seq<Byte>, t: seq<Byte>)
    requires |s| == |t| && Unsigned(s) == Unsigned(t)
    ensures s == t
  {
    if s != [] {
      var n := |s| - 1;
      assert s[n] == t[n] && Unsigned(s[..n]) == Unsigned(t[..n]);
      SameBytes(s[..n], t[..n]);
      assert s == s[..n] + [s[n]] && t == t[..n] + [t[n]];
    }
  }

  lemma {:induction false} UnsignedBelow(s: seq<Byte>)
    requires |s| <= 4
    ensures Unsigned(s) < if |s| == 4 then 4294967296 else if |s| == 3 then 16777216
                          else if |s| == 2 then 65536 else if |s| == 1 then 256 else 1
  {
    if s != [] {
      UnsignedBelow(s[..|s| - 1]);
    }
  }

  /** Only one row of bytes is the record of an item. */
  lemma RecordIsOne(it: Item, s: seq<Byte>, t: seq<Byte>)
    requires IsRecord(it, s) && IsRecord(it, t)
    ensures s == t
  {
    if it.def.kind == 1 {
      UnsignedBelow(s[3..]);
      UnsignedBelow(t[3..]);
      SameBytes(s[3..], t[3..]);
      assert s == s[..3] + s[3..] && t == t[..3] + t[3..];
    } else if |s| >= 3 && it.def.kind != 2 {
      assert s == s[..3] + s[3..] && t == t[..3] + t[3..];
    }
  }

  // ---------------------------------------------------------------- bytes that come back

  lemma Multiple(j: int)
    ensures (j * 0x1_0000_0000) % 0x1_0000_0000 == 0
  {
  }

  lemma IsMultiple(x: int) returns (j: int)
    ensures x % 0x1_0000_0000 == 0 ==> x == j * 0x1_0000_0000
  {
    j := x / 0x1_0000_0000;
  }

  lemma WrapMultiple(w: int) returns (m: int)
    ensures Wrap(w) == w - m * 0x1_0000_0000
  {
    m := (w + 0x8000_0000) / 0x1_0000_0000;
  }

  lemma WrapMeans(n: nat, acc: int, b: Byte)
    requires IsInt(acc) && (n - acc) % 0x1_0000_0000 == 0
    ensures IsInt(Wrap(acc * 0x100 + b)) && (n * 256 + b - Wrap(acc * 0x100 + b)) % 0x1_0000_0000 == 0
  {
    var k := IsMultiple(n - acc);
    var m := WrapMultiple(acc * 0x100 + b);
    Multiple(256 * k + m);
    assert n * 256 + b - Wrap(acc * 0x100 + b) == (256 * k + m) * 0x1_0000_0000;
  }

  /** Gathering from the left, the bytes `front` having been gathered. */
  lemma {:induction false} GatherMeans(front: seq<Byte>, rest: seq<Byte>, acc: int)
    requires Means(front, acc)
    ensures Means(front + rest, Gather(rest, acc))
    decreases |rest|
  {
    if rest == [] {
      assert front + rest == front;
    } else {
      var b: int := rest[0];
      var front' := front + [rest[0]];
      assert front'[..|front'| - 1] == front;
      WrapMeans(Unsigned(front), acc, rest[0]);
      GatherMeans(front', rest[1..], Wrap(acc * 0x100 + b));
      assert front' + rest[1..] == front + rest;
    }
  }

  /** A number that comes back is taken if it is in the item's range; the default is, if not. */
  lemma NumberComesBack(it: Item, kind: Byte, payload: seq<Byte>, v: int)
    requires (it.def.kind == 1 || it.def.kind == 2) && kind == it.def.kind && Means(payload, v)
    ensures UnpackItem(it, kind, payload)
         == it.(value := if it.def.min <= v <= it.def.max then v else it.def.def)
  {
    assert Unsigned([]) == 0;
    GatherMeans([], payload, 0);
    assert [] + payload == payload;
    MeansOne(payload, v, Gather(payload, 0));
  }

  lemma {:induction false} CTextIs(s: seq<Byte>)
    ensures CText(s) <= s && (|CText(s)| == |s| || s[|CText(s)|] == 0)
    ensures forall k :: 0 <= k < |CText(s)| ==> s[k] != 0
  {
    if s != [] && s[0] != 0 {
      CTextIs(s[1..]);
      assert forall k :: 0 < k < |CText(s)| ==> s[k] == s[1..][k - 1];
    }
  }

  /** The text `t` is what the bytes are up to a NUL, at most `max` of them. */
  predicate IsText(s: seq<Byte>, max: int, t: seq<Byte>) {
    && |t| <= |s| && t == s[..|t|] && (forall k :: 0 <= k < |t| ==> t[k] != 0)
    && |t| <= (if max < 0 then 0 else max)
    && (|t| == |s| || |t| >= max || s[|t|] == 0)
  }

  /** A text that comes back is taken up to a NUL, as far as the item has room for it. */
  lemma TextComesBack(it: Item, kind: Byte, payload: seq<Byte>)
    requires (it.def.kind == 3 || it.def.kind == 7 || it.def.kind == 8) && kind == it.def.kind
    ensures var r := UnpackItem(it, kind, payload);
      r == it.(text := r.text) && IsText(payload, it.def.max, r.text)
  {
    var field := if |payload| > it.def.max then it.def.max else |payload|;
    if field > 0 {
      CTextIs(payload[..field]);
    }
  }

  /** A record of another kind, and an item that is not stored, change nothing. */
  lemma OthersStay(it: Item, kind: Byte, payload: seq<Byte>)
    requires kind != it.def.kind || kind == 4 || kind == 5 || kind == 6 || kind == 0 || kind > 8
    ensures UnpackItem(it, kind, payload) == it
  {
  }

  /** A value out of range becomes the nearest one in it; every other item stays. */
  lemma ClampedIsNearest(it: Item)
    ensures var r := Clamped(it);
      && r == it.(value := r.value)
      && (it.def.kind != 1 && it.def.kind != 2 ==> r == it)
      && (it.def.min <= it.value <= it.def.max ==> r == it)
      && ((it.def.kind == 1 || it.def.kind == 2) && it.def.min <= it.def.max ==>
            it.def.min <= r.value <= it.def.max
            && forall w :: it.def.min <= w <= it.def.max ==> Distance(it.value, r.value) <= Distance(it.value, w))
  {
  }

  function Distance(a: int, b: int): nat {
    if a <= b then b - a else a - b
  }

  // ---------------------------------------------------------------- which records find room

  /** A number wants 7 bytes, a choice 4; a text wants one more than its record has. */
  function Wants(it: Item): nat {
    if it.def.kind == 1 then 7 else if it.def.kind == 2 then 4
    else if it.def.kind == 3 || it.def.kind == 7 || it.def.kind == 8 then |it.text| + 4 else 0
  }

  /** A row of blocks of bytes, one for each item. */
  function Sum(parts: seq<seq<Byte>>): seq<Byte> {
    if parts == [] then [] else Sum(parts[..|parts| - 1]) + parts[|parts| - 1]
  }

  /** Item after item: its record if the room that is left is what it wants, and nothing if not. */
  ghost predicate Placed(items: seq<Item>, parts: seq<seq<Byte>>, room: int) {
    && |parts| == |items|
    && forall k :: 0 <= k < |items| ==>
         if |Sum(parts[..k])| + Wants(items[k]) <= room then IsRecord(items[k], parts[k]) else parts[k] == []
  }

  lemma WantsIs(it: Item)
    ensures Wants(it) == Needs(it)
  {
  }

  lemma {:induction false} PackedParts(items: seq<Item>, chunks: seq<Chunk>, done: seq<seq<Byte>>, sum: seq<Byte>,
                                       room: int, whole: seq<Byte>) returns (parts: seq<seq<Byte>>)
    requires TextsShort(items) && (forall i :: 0 <= i < |items| ==> IsInt(items[i].value)) && chunks == Chunks(items)
    requires |done| <= |items| && Placed(items[..|done|], done, room) && sum == Sum(done)
    requires whole == sum + Packed(chunks[|done|..], room - |sum|)
    ensures Placed(items, parts, room) && Sum(parts) == whole
    decreases |items| - |done|
  {
    var n := |done|;
    if n == |items| {
      parts := done;
      assert items[..n] == items && sum + [] == sum;
    } else {
      var mine, more := PartOf(items, chunks, done, sum, room);
      parts := PackedParts(items, chunks, more, sum + mine, room, whole);
    }
  }

  /** What the next item adds. */
  lemma PartOf(items: seq<Item>, chunks: seq<Chunk>, done: seq<seq<Byte>>, sum: seq<Byte>, room: int)
    returns (mine: seq<Byte>, more: seq<seq<Byte>>)
    requires |done| < |items| && TextsShort(items) && IsInt(items[|done|].value) && chunks == Chunks(items)
    requires Placed(items[..|done|], done, room) && sum == Sum(done)
    ensures |more| == |done| + 1 && Placed(items[..|done| + 1], more, room) && Sum(more) == sum + mine
    ensures (sum + mine) + Packed(chunks[|done| + 1..], room - |sum + mine|)
         == sum + Packed(chunks[|done|..], room - |sum|)
  {
    mine := NextBytes(chunks, |done|, sum, room);
    more := done + [mine];
    ChunkAt(items, |done|);
    OneMorePlaced(items, done, mine, room);
    SumOneMore(done, mine);
  }

  lemma NextBytes(chunks: seq<Chunk>, n: nat, sum: seq<Byte>, room: int) returns (mine: seq<Byte>)
    requires n < |chunks|
    ensures mine == if chunks[n].needs > room - |sum| then [] else chunks[n].bytes
    ensures (sum + mine) + Packed(chunks[n + 1..], room - |sum + mine|) == sum + Packed(chunks[n..], room - |sum|)
  {
    var left := room - |sum|;
    mine := NextChunk(chunks, n, left, sum);
    assert room - |sum + mine| == left - |mine|;
  }

  lemma SumOneMore(done: seq<seq<Byte>>, mine: seq<Byte>)
    ensures Sum(done + [mine]) == Sum(done) + mine
  {
    assert (done + [mine])[..|done|] == done;
  }

  lemma OneMorePlaced(items: seq<Item>, done: seq<seq<Byte>>, mine: seq<Byte>, room: int)
    requires |done| < |items| && IsInt(items[|done|].value) && |items[|done|].text| < 256
    requires Placed(items[..|done|], done, room)
    requires mine == if Needs(items[|done|]) > room - |Sum(done)| then [] else Record(items[|done|])
    ensures Placed(items[..|done| + 1], done + [mine], room)
  {
    var n, more := |done|, done + [mine];
    WantsIs(items[n]);
    RecordsAreLaidOut(items[n]);
    forall k | 0 <= k < n + 1
      ensures if |Sum(more[..k])| + Wants(items[k]) <= room then IsRecord(items[k], more[k]) else more[k] == []
    {
      assert more[..k] == done[..k];
      if k < n {
        assert items[..n][k] == items[k];
      } else {
        assert done[..k] == done;
      }
    }
  }

  /** A block is its items' records one behind the other; a record that does not find the room it
      wants is left out, and those behind it are tried all the same. */
  lemma PackedExactly(items: seq<Item>, room: int) returns (parts: seq<seq<Byte>>)
    requires TextsShort(items) && forall i :: 0 <= i < |items| ==> IsInt(items[i].value)
    ensures Placed(items, parts, room) && Packed(Chunks(items), room) == Sum(parts)
  {
    var chunks := Chunks(items);
    assert chunks[0..] == chunks && [] + Packed(chunks, room) == Packed(chunks, room);
    parts := PackedParts(items, chunks, [], [], room, Packed(chunks, room));
  }
}
