/** Items, stores and pages of configuration as the objects that pack and unpack the block. */
module ConfigObjects {
  import opened Common
  import opened ByteType
  import opened Config
  import opened PageBytes

  // ---------------------------------------------------------------- what gets packed

  /** What an item has to pack, and the room it wants to see before it does. */
  datatype Chunk = Chunk(needs: nat, bytes: seq<Byte>)

  function Needs(it: Item): nat {
    if it.def.kind == TYPE_VALUE then 7
    else if it.def.kind == TYPE_ENUM then 4
    else if IsText(it.def) then |it.text| + 4
    else 0
  }

  function ChunkOf(it: Item): Chunk
    requires |it.text| < 0x100
  {
    Chunk(Needs(it), Record(it))
  }

  function Chunks(items: seq<Item>): (r: seq<Chunk>)
    requires TextsShort(items)
    ensures |r| == |items|
  {
    if items == [] then [] else [ChunkOf(items[0])] + Chunks(items[1..])
  }

  lemma {:induction false} ChunkAt(items: seq<Item>, i: nat)
    requires TextsShort(items) && i < |items|
    ensures Chunks(items)[i] == ChunkOf(items[i])
  {
    if i > 0 {
      ChunkAt(items[1..], i - 1);
    }
  }

  /** The bytes that end up in a block with `remain` bytes left: chunks that find no room are
      dropped, and the ones behind them tried all the same. */
  function Packed(chunks: seq<Chunk>, remain: int): seq<Byte> {
    if chunks == [] then []
    else if chunks[0].needs > remain then Packed(chunks[1..], remain)
    else chunks[0].bytes + Packed(chunks[1..], remain - |chunks[0].bytes|)
  }

  /** Packing one list of chunks and then another. */
  lemma {:induction false} PackedOneByOne(a: seq<Chunk>, b: seq<Chunk>, remain: int)
    ensures Packed(a + b, remain) == Packed(a, remain) + Packed(b, remain - |Packed(a, remain)|)
    decreases |a|
  {
    if a == [] {
      assert a + b == b;
    } else {
      assert (a + b)[0] == a[0] && (a + b)[1..] == a[1..] + b;
      if a[0].needs > remain {
        PackedOneByOne(a[1..], b, remain);
      } else {
        var remain' := remain - |a[0].bytes|;
        PackedOneByOne(a[1..], b, remain');
        Regroup(a[0].bytes, Packed(a[1..], remain'), Packed(b, remain' - |Packed(a[1..], remain')|));
      }
    }
  }

  lemma NeedsLittleMore(it: Item)
    requires |it.text| < 0x100
    ensures |ChunkOf(it).bytes| <= ChunkOf(it).needs <= |ChunkOf(it).bytes| + 1
  {
  }

  lemma PackedHead(chunk: Chunk, rest: seq<Chunk>, remain: int)
    ensures Packed([chunk] + rest, remain)
         == if chunk.needs > remain then Packed(rest, remain)
            else chunk.bytes + Packed(rest, remain - |chunk.bytes|)
  {
    assert ([chunk] + rest)[1..] == rest;
  }

  /** What the next chunk packs, and what is left then. */
  lemma NextChunk(chunks: seq<Chunk>, n: nat, remain: int, done: seq<Byte>) returns (mine: seq<Byte>)
    requires n < |chunks|
    ensures mine == if chunks[n].needs > remain then [] else chunks[n].bytes
    ensures (done + mine) + Packed(chunks[n + 1..], remain - |mine|) == done + Packed(chunks[n..], remain)
  {
    mine := if chunks[n].needs > remain then [] else chunks[n].bytes;
    assert chunks[n..] == [chunks[n]] + chunks[n + 1..];
    PackedHead(chunks[n], chunks[n + 1..], remain);
    Regroup(done, mine, Packed(chunks[n + 1..], remain - |mine|));
  }

  function Joined(chunks: seq<Chunk>): seq<Byte> {
    if chunks == [] then [] else chunks[0].bytes + Joined(chunks[1..])
  }

  /** With a byte to spare nothing is dropped. */
  lemma {:induction false} NothingDropped(chunks: seq<Chunk>, remain: int)
    requires |Joined(chunks)| < remain
    requires forall i :: 0 <= i < |chunks| ==> chunks[i].needs <= |chunks[i].bytes| + 1
    ensures Packed(chunks, remain) == Joined(chunks)
  {
    if chunks != [] {
      NothingDropped(chunks[1..], remain - |chunks[0].bytes|);
    }
  }

  lemma {:induction false} JoinedIsRecords(items: seq<Item>, k: nat)
    requires TextsShort(items) && k <= |items|
    ensures Joined(Chunks(items[k..])) == Records(items, k)
    decreases |items| - k
  {
    if k < |items| {
      assert items[k..][1..] == items[k + 1..];
      JoinedIsRecords(items, k + 1);
      assert Chunks(items[k..])[1..] == Chunks(items[k + 1..]);
    }
  }

  /** A block with a byte to spare takes all records. */
  lemma AllPacked(items: seq<Item>, remain: int)
    requires TextsShort(items) && |Records(items, 0)| < remain
    ensures Packed(Chunks(items), remain) == Records(items, 0)
  {
    JoinedIsRecords(items, 0);
    assert items[0..] == items;
    forall i | 0 <= i < |items|
      ensures Chunks(items)[i].needs <= |Chunks(items)[i].bytes| + 1
    {
      ChunkAt(items, i);
      NeedsLittleMore(items[i]);
    }
    NothingDropped(Chunks(items), remain);
  }

  // ---------------------------------------------------------------- items

  class ConfigItem {
    const def: Definition
    var value: int
    var text: seq<Byte>  // the C string in the item's buffer

    constructor (def: Definition, value: int, text: seq<Byte>)
      ensures View() == Item(def, value, text)
    {
      this.def := def;
      this.value := value;
      this.text := text;
    }

    function View(): Item
      reads this
    {
      Item(def, value, text)
    }

    /** Packs behind `done`, the bytes from `start` on. */
    method PackBehind(buffer: array<Byte>, start: nat, at: nat, len: nat,
                      ghost chunk: Chunk, ghost done: seq<Byte>, ghost mine: seq<Byte>)
      returns (size: nat)
      requires |text| < 0x100 && chunk == ChunkOf(View())
      requires start <= at <= at + len <= buffer.Length && buffer[start..at] == done
      requires mine == if chunk.needs > len then [] else chunk.bytes
      modifies buffer
      ensures size == |mine| <= len && buffer[start..at + size] == done + mine
      ensures forall q :: 0 <= q < buffer.Length && !(at <= q < at + len) ==> buffer[q] == old(buffer[q])
    {
      size := Pack(buffer, at, len, chunk);
      assert buffer[start..at] == done;
      assert buffer[start..at + size] == buffer[start..at] + buffer[at..at + size];
    }

    /** Writes id and type wherever there is room for them. */
    method PutHead(buffer: array<Byte>, at: nat, len: nat)
      requires at + len <= buffer.Length
      modifies buffer
      ensures len >= 2 ==> buffer[at] == def.id && buffer[at + 1] == def.kind
      ensures forall q :: 0 <= q < buffer.Length && !(at <= q < at + len) ==> buffer[q] == old(buffer[q])
    {
      if len > 0 {
        buffer[at] := def.id;
      }
      if len > 1 {
        buffer[at + 1] := def.kind;
      }
    }

    /** Writes the record if it fits, and only its first bytes if not. */
    method Pack(buffer: array<Byte>, at: nat, len: nat, ghost chunk: Chunk) returns (size: nat)
      requires |text| < 0x100 && chunk == ChunkOf(View()) && at + len <= buffer.Length
      modifies buffer
      ensures size <= len && buffer[at..at + size] == if chunk.needs > len then [] else chunk.bytes
      ensures forall q :: 0 <= q < buffer.Length && !(at <= q < at + len) ==> buffer[q] == old(buffer[q])
    {
      PutHead(buffer, at, len);
      if len < 2 {
        return 0;
      }
      var field := PutField(buffer, at + 2, len - 2);
      if field == 0 {
        return 0;
      }
      size := 2 + field;
      assert buffer[at..at + size][2..] == buffer[at + 2..at + size];
      IsRecord(buffer[at..at + size]);
    }

    /** Length byte and bytes of the item, if they fit. */
    method PutField(buffer: array<Byte>, b: nat, room: nat) returns (size: nat)
      requires |text| < 0x100 && b + room <= buffer.Length
      modifies buffer
      ensures (size == 0) == (!IsStored(def) || Needs(View()) > room + 2)
      ensures size <= room && IsField(buffer[b..b + size])
      ensures forall q :: 0 <= q < buffer.Length && !(b <= q < b + room) ==> buffer[q] == old(buffer[q])
    {
      size := 0;
      if def.kind == TYPE_VALUE {
        if room >= 5 {
          PutInt(buffer, b);
          size := 5;
        }
      } else if def.kind == TYPE_ENUM {
        if room >= 2 {
          buffer[b] := 1;
          buffer[b + 1] := IntByte(value, 0);
          size := 2;
        }
      } else if IsText(def) {
        if 2 + |text| <= room {
          PutString(buffer, b);
          size := 1 + |text|;
        }
      }
    }

    ghost predicate IsField(s: seq<Byte>)
      reads this
    {
      s == []
      || (def.kind == TYPE_VALUE
          && s == [4, IntByte(value, 3), IntByte(value, 2), IntByte(value, 1), IntByte(value, 0)])
      || (def.kind == TYPE_ENUM && s == [1, IntByte(value, 0)])
      || (IsText(def) && s[0] == |text| && s[1..] == text)
    }

    method PutInt(buffer: array<Byte>, b: nat)
      requires b + 5 <= buffer.Length
      modifies buffer
      ensures buffer[b..b + 5] == [4, IntByte(value, 3), IntByte(value, 2), IntByte(value, 1), IntByte(value, 0)]
      ensures forall q :: 0 <= q < buffer.Length && !(b <= q < b + 5) ==> buffer[q] == old(buffer[q])
    {
      buffer[b] := 4;
      buffer[b + 1] := IntByte(value, 3);
      buffer[b + 2] := IntByte(value, 2);
      buffer[b + 3] := IntByte(value, 1);
      buffer[b + 4] := IntByte(value, 0);
    }

    method PutString(buffer: array<Byte>, b: nat)
      requires |text| < 0x100 && b + 2 + |text| <= buffer.Length
      modifies buffer
      ensures buffer[b] == |text| && buffer[b + 1..b + 1 + |text|] == text
      ensures forall q :: 0 <= q < buffer.Length && !(b <= q < b + 2 + |text|) ==> buffer[q] == old(buffer[q])
    {
      buffer[b] := |text|;
      CopyString(buffer, b + 1);
    }

    lemma IsRecord(s: seq<Byte>)
      requires |text| < 0x100 && |s| >= 3 && s[0] == def.id && s[1] == def.kind && IsField(s[2..])
      ensures s == Record(View())
    {
      assert s == [s[0], s[1]] + s[2..];
      assert s == [s[0], s[1], s[2]] + s[2..][1..];
    }

    /** strcpy of the item's string. */
    method CopyString(buffer: array<Byte>, at: nat)
      requires at + |text| < buffer.Length
      modifies buffer
      ensures buffer[at..at + |text|] == text && buffer[at + |text|] == 0
      ensures forall q :: 0 <= q < buffer.Length && !(at <= q <= at + |text|) ==> buffer[q] == old(buffer[q])
    {
      var i := 0;
      while i < |text|
        invariant i <= |text|
        invariant forall q :: 0 <= q < i ==> buffer[at + q] == text[q]
        invariant forall q :: 0 <= q < buffer.Length && !(at <= q < at + i) ==> buffer[q] == old(buffer[q])
      {
        buffer[at + i] := text[i];
        i := i + 1;
      }
      buffer[at + i] := 0;
    }

    /** Takes the type, length and bytes that start at `at`. */
    method Unpack(mem: array<Byte>, at: nat)
      requires at + 1 < mem.Length && at + 2 + mem[at + 1] as int <= mem.Length
      modifies this
      ensures View() == UnpackItem(old(View()), mem[at], mem[at + 2..at + 2 + mem[at + 1] as int])
    {
      if mem[at] != def.kind {
        return;
      }
      ghost var field0: int := mem[at + 1];
      ghost var payload := mem[at + 2..at + 2 + field0];
      var field: int := mem[at + 1];
      if IsNumber(def) {
        value := Gathered(mem, at + 2, field);
        if value < def.min {
          value := def.def;
        }
        if value > def.max {
          value := def.def;
        }
      } else if IsText(def) {
        if field > def.max {
          field := def.max;
        }
        if field > 0 {
          assert mem[at + 2..at + 2 + field] == payload[..field];
        }
        text := if field <= 0 then [] else CText(mem[at + 2..at + 2 + field]);
      }
    }

    static method Gathered(mem: array<Byte>, at: nat, count: nat) returns (v: int)
      requires at + count <= mem.Length
      ensures v == Gather(mem[at..at + count], 0)
    {
      v := 0;
      var j := 0;
      while j < count
        invariant j <= count
        invariant Gather(mem[at + j..at + count], v) == Gather(mem[at..at + count], 0)
      {
        assert mem[at + j..at + count][1..] == mem[at + j + 1..at + count];
        v := Wrap(v * 0x100 + mem[at + j]);
        j := j + 1;
      }
      assert mem[at + count..at + count] == [];
    }
  }

  /** The values of a list of items. */
  function Views(items: seq<ConfigItem>): (r: seq<Item>)
    reads items
    ensures |r| == |items|
  {
    if items == [] then [] else [items[0].View()] + Views(items[1..])
  }

  lemma {:induction false} ViewAt(items: seq<ConfigItem>, i: nat)
    requires i < |items|
    ensures Views(items)[i] == items[i].View()
  {
    if i > 0 {
      ViewAt(items[1..], i - 1);
    }
  }

  // ---------------------------------------------------------------- stores

  /** The record at `index` of a page, and where the reading goes on. */
  lemma NextRecord(page: seq<Byte>, index: nat, items: seq<Item>)
    requires WellFormed(page, index) && index < |page| && page[index] != FREE
    ensures index + 2 < |page|
    ensures var len := page[index + 2] as int;
      (len > |page| - index - 3 ==> UnpackFrom(page, index, items) == items)
      && (len <= |page| - index - 3 ==>
            WellFormed(page, index + len + 3)
            && UnpackFrom(page, index, items)
            == UnpackFrom(page, index + len + 3,
                          ApplyRecord(items, page[index], page[index + 1], page[index + 3..index + 3 + len])))
  {
  }

  lemma {:induction false} ViewsAre(items: seq<ConfigItem>, views: seq<Item>)
    requires |views| == |items| && forall j :: 0 <= j < |items| ==> items[j].View() == views[j]
    ensures Views(items) == views
  {
    forall j | 0 <= j < |items|
      ensures Views(items)[j] == views[j]
    {
      ViewAt(items, j);
    }
  }

  /** What check_bounds leaves of a value. */
  function Clamped(it: Item): (r: Item)
    ensures r.def == it.def && r.text == it.text
  {
    if !IsNumber(it.def) then it
    else if it.value < it.def.min then it.(value := it.def.min)
    else if it.value > it.def.max then it.(value := it.def.max)
    else it
  }

  class ConfigStore {
    const items: seq<ConfigItem>
    var staleEffect: bool
    var staleFlash: bool

    constructor (items: seq<ConfigItem>)
      ensures this.items == items && staleEffect && !staleFlash
    {
      this.items := items;
      staleEffect, staleFlash := true, false;
    }

    /** The items are distinct objects. */
    ghost predicate Valid() {
      forall i, j :: 0 <= i < j < |items| ==> items[i] != items[j]
    }

    /** Packs the items one behind the other, and a free byte behind them. */
    method Pack(b: array<Byte>, at: nat, remain: nat) returns (total: nat)
      requires TextsShort(Views(items)) && at + remain <= b.Length
      requires |Packed(Chunks(Views(items)), remain)| < remain
      modifies b
      ensures total == |Packed(Chunks(Views(items)), remain)|
      ensures b[at..at + total] == Packed(Chunks(Views(items)), remain) && b[at + total] == FREE
      ensures forall q :: 0 <= q < b.Length && !(at <= q < at + remain) ==> b[q] == old(b[q])
    {
      ghost var chunks := Chunks(Views(items));
      forall j | 0 <= j < |items|
        ensures |items[j].text| < 0x100 && chunks[j] == ChunkOf(items[j].View())
      {
        ViewAt(items, j);
        ChunkAt(Views(items), j);
      }
      total := PackItems(b, at, remain, chunks);
      ghost var done := b[at..at + total];
      b[at + total] := FREE;
      assert b[at..at + total] == done;
    }

    method PackItems(b: array<Byte>, at: nat, remain: nat, ghost chunks: seq<Chunk>) returns (total: nat)
      requires |chunks| == |items|
      requires forall j :: 0 <= j < |items| ==> |items[j].text| < 0x100 && chunks[j] == ChunkOf(items[j].View())
      requires at + remain <= b.Length && |Packed(chunks, remain)| < remain
      modifies b
      ensures total < remain && b[at..at + total] == Packed(chunks, remain)
      ensures forall q :: 0 <= q < b.Length && !(at <= q < at + remain) ==> b[q] == old(b[q])
    {
      ghost var done: seq<Byte> := [];
      total := 0;
      var n := 0;
      assert chunks[0..] == chunks;
      while n < |items|
        invariant n <= |items| && total < remain && b[at..at + total] == done
        invariant done + Packed(chunks[n..], remain - total) == Packed(chunks, remain)
        invariant forall q :: 0 <= q < b.Length && !(at <= q < at + remain) ==> b[q] == old(b[q])
      {
        assert items[n].View() == old(items[n].View());
        total, done := PackNext(n, b, at, total, remain, chunks, done);
        n := n + 1;
      }
      assert chunks[n..] == [];
    }

    /** Packs item `n` behind the `done` bytes of the items before it. */
    method PackNext(n: nat, b: array<Byte>, at: nat, total: nat, remain: nat,
                    ghost chunks: seq<Chunk>, ghost done: seq<Byte>)
      returns (total': nat, ghost done': seq<Byte>)
      requires n < |items| == |chunks| && |items[n].text| < 0x100 && chunks[n] == ChunkOf(items[n].View())
      requires total <= remain && at + remain <= b.Length && b[at..at + total] == done
      modifies b
      ensures total <= total' <= remain && b[at..at + total'] == done'
      ensures done' + Packed(chunks[n + 1..], remain - total') == done + Packed(chunks[n..], remain - total)
      ensures forall q :: 0 <= q < b.Length && !(at <= q < at + remain) ==> b[q] == old(b[q])
    {
      ghost var mine := NextChunk(chunks, n, remain - total, done);
      var len := items[n].PackBehind(b, at, at + total, remain - total, chunks[n], done, mine);
      total', done' := total + len, done + mine;
    }

    /** Reads the whole page; records with other ids are skipped. */
    method Unpack(mem: array<Byte>)
      requires Valid() && WellFormed(mem[..], HEADER)
      modifies items
      ensures Views(items) == UnpackFrom(mem[..], HEADER, old(Views(items)))
    {
      ghost var page := mem[..];
      ghost var result := UnpackFrom(page, HEADER, Views(items));
      var index := HEADER;
      while index < mem.Length && mem[index] != FREE
        invariant WellFormed(page, index) && page == mem[..]
        invariant UnpackFrom(page, index, Views(items)) == result
        decreases mem.Length - index
      {
        NextRecord(page, index, Views(items));
        var len: int := mem[index + 2];
        if len > mem.Length - index - 3 {
          break;
        }
        TakeRecordAt(mem, index, page);
        index := index + len + 3;
      }
    }

    /** Hands one record to every item with its id. */
    method TakeRecordAt(mem: array<Byte>, index: nat, ghost page: seq<Byte>)
      requires Valid() && page == mem[..] && index + 2 < |page| && index + 3 + page[index + 2] as int <= |page|
      modifies items
      ensures Views(items) == ApplyRecord(old(Views(items)), page[index], page[index + 1],
                                          page[index + 3..index + 3 + page[index + 2] as int])
    {
      var n := 0;
      ghost var was := Views(items);
      ghost var bytes := page[index + 3..index + 3 + page[index + 2] as int];
      ghost var took := ApplyRecord(was, page[index], page[index + 1], bytes);
      forall j | 0 <= j < |items|
        ensures was[j] == items[j].View()
      {
        ViewAt(items, j);
      }
      while n < |items|
        invariant n <= |items| && page == mem[..]
        invariant forall j :: 0 <= j < n ==> items[j].View() == took[j]
        invariant forall j :: n <= j < |items| ==> items[j].View() == was[j]
      {
        Offer(items[n], mem, index, page, was, n);
        n := n + 1;
      }
      ViewsAre(items, took);
    }

    /** An item takes the record if it has its id. */
    static method Offer(item: ConfigItem, mem: array<Byte>, index: nat, ghost page: seq<Byte>, ghost was: seq<Item>,
                        ghost n: nat)
      requires page == mem[..] && index + 2 < |page| && index + 3 + page[index + 2] as int <= |page|
      requires n < |was| && was[n] == item.View()
      modifies item
      ensures item.View() == ApplyRecord(was, page[index], page[index + 1],
                                         page[index + 3..index + 3 + page[index + 2] as int])[n]
    {
      ghost var payload := page[index + 3..index + 3 + page[index + 2] as int];
      ApplyRecordAt(was, page[index], page[index + 1], payload, n);
      if mem[index] == item.def.id {
        assert mem[index + 3..index + 3 + mem[index + 2] as int] == payload;
        item.Unpack(mem, index + 1);
      }
    }

    /** Values out of range are set to the nearest bound, and then store and flash are stale. */
    method CheckBounds()
      requires Valid()
      modifies this, items
      ensures forall i :: 0 <= i < |items| ==> items[i].View() == Clamped(old(items[i].View()))
      ensures staleEffect == (old(staleEffect) || exists i :: 0 <= i < |items| && !InRange(old(items[i].View())))
      ensures staleFlash == (old(staleFlash) || exists i :: 0 <= i < |items| && !InRange(old(items[i].View())))
    {
      var n := 0;
      while n < |items|
        invariant n <= |items|
        invariant forall j :: 0 <= j < n ==> items[j].View() == Clamped(old(items[j].View()))
        invariant forall j :: n <= j < |items| ==> items[j].View() == old(items[j].View())
        invariant staleEffect == (old(staleEffect) || exists i :: 0 <= i < n && !InRange(old(items[i].View())))
        invariant staleFlash == (old(staleFlash) || exists i :: 0 <= i < n && !InRange(old(items[i].View())))
      {
        var i := items[n];
        assert InRange(i.View()) == InRange(old(items[n].View()));
        if IsNumber(i.def) {
          if i.value < i.def.min {
            i.value := i.def.min;
            staleEffect, staleFlash := true, true;
          } else if i.value > i.def.max {
            i.value := i.def.max;
            staleEffect, staleFlash := true, true;
          }
        }
        n := n + 1;
      }
    }

    /** What follows a page having been fetched: numbers are set within bounds, and the flash is
        stale exactly when one had to be changed for that. */
    method Read(mem: array<Byte>)
      requires Valid() && WellFormed(mem[..], HEADER)
      modifies this, items
      ensures var unpacked := UnpackFrom(mem[..], HEADER, old(Views(items)));
        (forall i :: 0 <= i < |items| ==> items[i].View() == Clamped(unpacked[i]))
        && staleEffect && staleFlash == exists i :: 0 <= i < |items| && !InRange(unpacked[i])
    {
      Unpack(mem);
      ghost var unpacked := Views(items);
      forall i | 0 <= i < |items|
        ensures items[i].View() == unpacked[i]
      {
        ViewAt(items, i);
      }
      staleEffect := true;
      staleFlash := false;
      CheckBounds();
    }
  }

  predicate InRange(it: Item) {
    IsNumber(it.def) ==> it.def.min <= it.value <= it.def.max
  }

  // ---------------------------------------------------------------- pages

  function AllItems(stores: seq<ConfigStore>): seq<ConfigItem>
  {
    if stores == [] then [] else stores[0].items + AllItems(stores[1..])
  }

  lemma {:induction false} ViewsOfBoth(a: seq<ConfigItem>, b: seq<ConfigItem>)
    ensures Views(a + b) == Views(a) + Views(b)
  {
    if a == [] {
      assert a + b == b;
    } else {
      assert (a + b)[1..] == a[1..] + b;
      ViewsOfBoth(a[1..], b);
    }
  }

  lemma {:induction false} ChunksOfBoth(a: seq<Item>, b: seq<Item>)
    requires TextsShort(a + b)
    ensures TextsShort(a) && TextsShort(b)
    ensures Chunks(a + b) == Chunks(a) + Chunks(b)
  {
    ShortHalves(a, b);
    if a == [] {
      assert a + b == b;
    } else {
      assert (a + b)[0] == a[0] && (a + b)[1..] == a[1..] + b;
      ChunksOfBoth(a[1..], b);
      SameHead(ChunkOf(a[0]), Chunks(a[1..]), Chunks(b));
    }
  }

  lemma SameHead<T>(x: T, a: seq<T>, b: seq<T>)
    ensures [x] + (a + b) == ([x] + a) + b
  {
  }

  lemma ShortHalves(a: seq<Item>, b: seq<Item>)
    requires TextsShort(a + b)
    ensures TextsShort(a) && TextsShort(b)
  {
    forall i | 0 <= i < |a|
      ensures |a[i].text| < 0x100
    {
      assert (a + b)[i] == a[i];
    }
    forall i | 0 <= i < |b|
      ensures |b[i].text| < 0x100
    {
      assert (a + b)[|a| + i] == b[i];
    }
  }

  /** The chunks of each store. */
  ghost function Layouts(stores: seq<ConfigStore>): (r: seq<seq<Chunk>>)
    requires TextsShort(Views(AllItems(stores)))
    reads *
    ensures |r| == |stores|
    decreases |stores|
  {
    if stores == [] then []
    else
      ViewsOfBoth(stores[0].items, AllItems(stores[1..]));
      ShortHalves(Views(stores[0].items), Views(AllItems(stores[1..])));
      [Chunks(Views(stores[0].items))] + Layouts(stores[1..])
  }

  lemma {:induction false} LayoutAt(stores: seq<ConfigStore>, i: nat)
    requires i < |stores| && TextsShort(Views(AllItems(stores)))
    ensures TextsShort(Views(stores[i].items)) && Layouts(stores)[i] == Chunks(Views(stores[i].items))
    decreases |stores|
  {
    ViewsOfBoth(stores[0].items, AllItems(stores[1..]));
    ShortHalves(Views(stores[0].items), Views(AllItems(stores[1..])));
    if i > 0 {
      LayoutAt(stores[1..], i - 1);
    }
  }

  function Flat(layouts: seq<seq<Chunk>>): seq<Chunk> {
    if layouts == [] then [] else layouts[0] + Flat(layouts[1..])
  }

  lemma FlatStep(layouts: seq<seq<Chunk>>, n: nat)
    requires n < |layouts|
    ensures Flat(layouts[n..]) == layouts[n] + Flat(layouts[n + 1..])
  {
    assert layouts[n..][1..] == layouts[n + 1..];
  }

  lemma {:induction false} FlatLayouts(stores: seq<ConfigStore>)
    requires TextsShort(Views(AllItems(stores)))
    ensures Chunks(Views(AllItems(stores))) == Flat(Layouts(stores))
    decreases |stores|
  {
    if stores != [] {
      var mine, rest := Views(stores[0].items), Views(AllItems(stores[1..]));
      ViewsOfBoth(stores[0].items, AllItems(stores[1..]));
      ChunksOfBoth(mine, rest);
      FlatLayouts(stores[1..]);
      FlatStep([Chunks(mine)] + Layouts(stores[1..]), 0);
      assert ([Chunks(mine)] + Layouts(stores[1..]))[1..] == Layouts(stores[1..]);
    }
  }

  lemma AllLayouts(stores: seq<ConfigStore>) returns (layouts: seq<seq<Chunk>>)
    requires TextsShort(Views(AllItems(stores)))
    ensures |layouts| == |stores| && Chunks(Views(AllItems(stores))) == Flat(layouts)
    ensures forall j :: 0 <= j < |stores| ==>
      TextsShort(Views(stores[j].items)) && layouts[j] == Chunks(Views(stores[j].items))
  {
    layouts := Layouts(stores);
    FlatLayouts(stores);
    forall j | 0 <= j < |stores|
      ensures TextsShort(Views(stores[j].items)) && layouts[j] == Chunks(Views(stores[j].items))
    {
      LayoutAt(stores, j);
    }
  }

  /** What is packed, and what the stores from `n` on will pack. */
  ghost function WithStores(layouts: seq<seq<Chunk>>, n: nat, done: seq<Byte>, remain: int): seq<Byte>
    requires n <= |layouts|
  {
    done + Packed(Flat(layouts[n..]), remain)
  }

  lemma SliceGrows(s: seq<Byte>, a: nat, b: nat, c: nat)
    requires a <= b <= c <= |s|
    ensures s[a..c] == s[a..b] + s[b..c]
  {
  }

  /** What the next store packs, and what is left then. */
  lemma NextStore(layouts: seq<seq<Chunk>>, n: nat, remain: int, done: seq<Byte>, all: seq<Byte>)
    returns (mine: seq<Byte>)
    requires n < |layouts| && WithStores(layouts, n, done, remain) == all
    ensures mine == Packed(layouts[n], remain) && |done| + |mine| <= |all|
    ensures WithStores(layouts, n + 1, done + mine, remain - |mine|) == all
  {
    var rest := Flat(layouts[n + 1..]);
    FlatStep(layouts, n);
    PackedOneByOne(layouts[n], rest, remain);
    mine := Packed(layouts[n], remain);
    Regroup(done, mine, Packed(rest, remain - |mine|));
  }

  class ConfigPage {
    const id: nat
    const mem: array<Byte>
    const stores: seq<ConfigStore>

    constructor (id: nat, mem: array<Byte>, stores: seq<ConfigStore>)
      ensures this.id == id && this.mem == mem && this.stores == stores
    {
      this.id := id;
      this.mem := mem;
      this.stores := stores;
    }

    /** A block of free bytes behind the page's id. */
    method PutHeader()
      requires HEADER < mem.Length && id < 0x1_0000_0000
      modifies mem
      ensures forall k :: 0 <= k < HEADER ==> mem[k] == IntByte(id, k)
      ensures forall k :: HEADER <= k < mem.Length ==> mem[k] == FREE
    {
      forall k | 0 <= k < mem.Length {
        mem[k] := FREE;
      }
      mem[0], mem[1], mem[2], mem[3] := IntByte(id, 0), IntByte(id, 1), IntByte(id, 2), IntByte(id, 3);
    }

    /** The first `n` stores are packed as `done`, up to byte `b`. */
    ghost predicate Progress(layouts: seq<seq<Chunk>>, n: nat, b: nat, done: seq<Byte>, all: seq<Byte>)
      reads mem
    {
      HEADER <= b < mem.Length && mem[HEADER..b] == done && mem[b] == FREE
      && n <= |layouts| && WithStores(layouts, n, done, mem.Length - b) == all
    }

    /** Packs store `n` behind the `done` bytes of the stores before it. */
    method PackNext(n: nat, b: nat, ghost layouts: seq<seq<Chunk>>, ghost done: seq<Byte>, ghost all: seq<Byte>)
      returns (b': nat, ghost done': seq<Byte>)
      requires n < |layouts| == |stores|
      requires TextsShort(Views(stores[n].items)) && layouts[n] == Chunks(Views(stores[n].items))
      requires Progress(layouts, n, b, done, all) && |all| < mem.Length - HEADER
      modifies mem
      ensures Progress(layouts, n + 1, b', done', all)
      ensures forall q :: 0 <= q < HEADER ==> mem[q] == old(mem[q])
    {
      ghost var mine := NextStore(layouts, n, mem.Length - b, done, all);
      var size := stores[n].Pack(mem, b, mem.Length - b);
      assert mem[HEADER..b] == done;
      b' := b + size;
      SliceGrows(mem[..], HEADER, b, b');
      done' := done + mine;
    }

    /** Lays the page out: its id, the lowest byte first, and the records of all stores. */
    method Pack() returns (size: nat)
      requires HEADER < mem.Length && id < 0x1_0000_0000
      requires TextsShort(Views(AllItems(stores)))
      requires |Packed(Chunks(Views(AllItems(stores))), mem.Length - HEADER)| < mem.Length - HEADER
      modifies mem
      ensures HoldsAt(mem[..], HEADER, Packed(Chunks(Views(AllItems(stores))), mem.Length - HEADER))
      ensures forall k :: 0 <= k < HEADER ==> mem[k] == IntByte(id, k)
      ensures size == HEADER + |Packed(Chunks(Views(AllItems(stores))), mem.Length - HEADER)|
    {
      ghost var all := Packed(Chunks(Views(AllItems(stores))), mem.Length - HEADER);
      PutHeader();
      assert Views(AllItems(stores)) == old(Views(AllItems(stores)));
      ghost var layouts := AllLayouts(stores);
      size := PackStores(layouts, all);
      assert Views(AllItems(stores)) == old(Views(AllItems(stores)));
    }

    method PackStores(ghost layouts: seq<seq<Chunk>>, ghost all: seq<Byte>) returns (b: nat)
      requires HEADER < mem.Length && mem[HEADER] == FREE && |layouts| == |stores|
      requires forall j :: 0 <= j < |stores| ==>
        TextsShort(Views(stores[j].items)) && layouts[j] == Chunks(Views(stores[j].items))
      requires all == Packed(Flat(layouts), mem.Length - HEADER) && |all| < mem.Length - HEADER
      modifies mem
      ensures b == HEADER + |all| && b < mem.Length && mem[HEADER..b] == all && mem[b] == FREE
      ensures forall k :: 0 <= k < HEADER ==> mem[k] == old(mem[k])
    {
      var n := 0;
      b := HEADER;
      ghost var done: seq<Byte> := [];
      assert layouts[0..] == layouts;
      while n < |stores|
        invariant n <= |stores| && Progress(layouts, n, b, done, all)
        invariant forall k :: 0 <= k < HEADER ==> mem[k] == old(mem[k])
      {
        assert Views(stores[n].items) == old(Views(stores[n].items));
        b, done := PackNext(n, b, layouts, done, all);
        n := n + 1;
      }
      assert layouts[n..] == [] && done == all;
    }
  }

  // ---------------------------------------------------------------- the law of the page

  /** An item restored from a storable one is in range. */
  lemma RestoredInRange(packed: Item, it: Item)
    requires Storable(packed) && packed.def == it.def
    ensures InRange(Restored(packed, it))
  {
  }

  /** A page that was packed from all its stores, the block having room to spare, and then read
      into the store whose items are those from `from` on: every stored item holds again what
      it held when the page was packed, whatever it held just before, and nothing is out of
      range. */
  lemma StoreRoundTrip(mem: seq<Byte>, all: seq<Item>, from: nat, now: seq<Item>)
    requires HEADER < |mem| && AllStorable(all) && TextsShort(all) && DistinctIds(all)
    requires |Records(all, 0)| < |mem| - HEADER && HoldsAt(mem, HEADER, Packed(Chunks(all), |mem| - HEADER))
    requires from + |now| <= |all| && forall i :: 0 <= i < |now| ==> now[i].def == all[from + i].def
    ensures WellFormed(mem, HEADER)
    ensures forall i :: 0 <= i < |now| ==> UnpackFrom(mem, HEADER, now)[i] == Restored(all[from + i], now[i])
    ensures forall i :: 0 <= i < |now| ==> InRange(UnpackFrom(mem, HEADER, now)[i])
  {
    AllPacked(all, |mem| - HEADER);
    PageRoundTrip(mem, all, now, from);
    forall i | 0 <= i < |now|
      ensures InRange(Restored(all[from + i], now[i]))
    {
      RestoredInRange(all[from + i], now[i]);
    }
  }
}
