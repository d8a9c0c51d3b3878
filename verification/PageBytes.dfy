/** Configuration pages: the bytes of several stores packed one behind the other, and read
    back by id. */
module PageBytes {
  import opened ByteType
  import opened Config

  // ---------------------------------------------------------------- pages, on values

  predicate TextsShort(items: seq<Item>) {
    forall i :: 0 <= i < |items| ==> |items[i].text| < 0x100
  }

  /** The records of the items from `k` on. */
  function Records(items: seq<Item>, k: nat): seq<Byte>
    requires TextsShort(items) && k <= |items|
    decreases |items| - k
  {
    if k == |items| then [] else Record(items[k]) + Records(items, k + 1)
  }

  /** A record's effect on an item: one with its id takes it. */
  function Take(it: Item, id: Byte, kind: Byte, payload: seq<Byte>): Item {
    if it.def.id == id then UnpackItem(it, kind, payload) else it
  }

  /** A record's effect on the items of a store. */
  function ApplyRecord(items: seq<Item>, id: Byte, kind: Byte, payload: seq<Byte>): (r: seq<Item>)
    ensures |r| == |items|
  {
    if items == [] then [] else [Take(items[0], id, kind, payload)] + ApplyRecord(items[1..], id, kind, payload)
  }

  lemma {:induction false} ApplyRecordAt(items: seq<Item>, id: Byte, kind: Byte, payload: seq<Byte>, i: nat)
    requires i < |items|
    ensures ApplyRecord(items, id, kind, payload)[i] == Take(items[i], id, kind, payload)
  {
    if i > 0 {
      ApplyRecordAt(items[1..], id, kind, payload, i - 1);
    }
  }

  /** ConfigStore::unpack from byte `index` on. */
  function UnpackFrom(mem: seq<Byte>, index: nat, items: seq<Item>): (r: seq<Item>)
    ensures |r| == |items|
    decreases |mem| - index
  {
    if index + 2 >= |mem| || mem[index] == FREE then items
    else
      var len: int := mem[index + 2];
      if len > |mem| - index - 3 then items
      else UnpackFrom(mem, index + len + 3,
                      ApplyRecord(items, mem[index], mem[index + 1], mem[index + 3..index + 3 + len]))
  }

  /** Reading never needs a length byte from behind the page. */
  predicate WellFormed(mem: seq<Byte>, index: nat)
    decreases |mem| - index
  {
    index >= |mem| || mem[index] == FREE
    || (index + 2 < |mem|
        && (mem[index + 2] as int > |mem| - index - 3 || WellFormed(mem, index + mem[index + 2] as int + 3)))
  }

  /** From `at` on, the page has these bytes and then a free one. */
  predicate HoldsAt(mem: seq<Byte>, at: nat, bytes: seq<Byte>) {
    at + |bytes| < |mem| && mem[at..at + |bytes|] == bytes && mem[at + |bytes|] == FREE
  }

  // ---------------------------------------------------------------- round trip

  /** The same for one item on its own. */
  function UnpackOne(mem: seq<Byte>, index: nat, it: Item): Item
    decreases |mem| - index
  {
    if index + 2 >= |mem| || mem[index] == FREE then it
    else
      var len: int := mem[index + 2];
      if len > |mem| - index - 3 then it
      else UnpackOne(mem, index + len + 3, Take(it, mem[index], mem[index + 1], mem[index + 3..index + 3 + len]))
  }

  /** Items do not touch each other. */
  lemma {:induction false} EachOnItsOwn(mem: seq<Byte>, index: nat, items: seq<Item>, i: nat)
    requires i < |items|
    ensures UnpackFrom(mem, index, items)[i] == UnpackOne(mem, index, items[i])
    decreases |mem| - index
  {
    if !(index + 2 >= |mem| || mem[index] == FREE) {
      var len: int := mem[index + 2];
      if len <= |mem| - index - 3 {
        var items' := ApplyRecord(items, mem[index], mem[index + 1], mem[index + 3..index + 3 + len]);
        ApplyRecordAt(items, mem[index], mem[index + 1], mem[index + 3..index + 3 + len], i);
        EachOnItsOwn(mem, index + len + 3, items', i);
      }
    }
  }

  /** What an item's record does to an item. */
  function TakeRecord(it: Item, packed: Item): Item
    requires |packed.text| < 0x100
  {
    var record := Record(packed);
    if |record| >= 3 then Take(it, packed.def.id, record[1], record[3..]) else it
  }

  /** What all records from `k` on do to one item. */
  function ApplyAll(it: Item, packed: seq<Item>, k: nat): Item
    requires TextsShort(packed) && k <= |packed|
    decreases |packed| - k
  {
    if k == |packed| then it else ApplyAll(TakeRecord(it, packed[k]), packed, k + 1)
  }

  predicate AllStorable(items: seq<Item>) {
    forall i :: 0 <= i < |items| ==> Storable(items[i]) && |items[i].text| < 0x100 && items[i].def.id != FREE
  }

  /** No two items that are stored share an id. */
  predicate DistinctIds(items: seq<Item>) {
    forall i, j :: 0 <= i < j < |items| && IsStored(items[i].def) && IsStored(items[j].def) ==>
      items[i].def.id != items[j].def.id
  }

  lemma RecordShape(it: Item)
    requires Storable(it) && |it.text| < 0x100
    ensures var record := Record(it);
      if IsStored(it.def)
      then |record| >= 3 && record[0] == it.def.id && record[1] == it.def.kind && record[2] == |record| - 3
      else record == []
  {
  }

  lemma HoldsSplit(mem: seq<Byte>, at: nat, a: seq<Byte>, b: seq<Byte>)
    requires HoldsAt(mem, at, a + b)
    ensures HoldsAt(mem, at + |a|, b)
    ensures forall q :: 0 <= q < |a| ==> mem[at + q] == a[q]
  {
    var w := mem[at..at + |a + b|];
    assert w[|a|..] == b && mem[at + |a|..at + |a| + |b|] == w[|a|..];
    forall q | 0 <= q < |a|
      ensures mem[at + q] == a[q]
    {
      assert w[q] == mem[at + q];
    }
  }

  /** One record read from the page. */
  lemma UnpackRecord(mem: seq<Byte>, at: nat, record: seq<Byte>, more: seq<Byte>, it: Item)
    requires HoldsAt(mem, at, record + more)
    requires |record| >= 3 && record[0] != FREE && record[2] == |record| - 3
    ensures UnpackOne(mem, at, it) == UnpackOne(mem, at + |record|, Take(it, record[0], record[1], record[3..]))
    ensures WellFormed(mem, at) == WellFormed(mem, at + |record|)
  {
    HoldsSplit(mem, at, record, more);
    assert mem[at + 0] == record[0] && mem[at + 1] == record[1] && mem[at + 2] == record[2];
    assert mem[at + 3..at + 3 + record[2] as int] == record[3..];
  }

  /** One item's record read from the page: where reading goes on, and what it makes of `it`. */
  lemma UnpackStep(mem: seq<Byte>, at: nat, packed: Item, more: seq<Byte>, it: Item) returns (at': nat, it': Item)
    requires Storable(packed) && |packed.text| < 0x100 && packed.def.id != FREE
    requires HoldsAt(mem, at, Record(packed) + more)
    ensures HoldsAt(mem, at', more)
    ensures it' == TakeRecord(it, packed)
    ensures UnpackOne(mem, at, it) == UnpackOne(mem, at', it')
    ensures WellFormed(mem, at) == WellFormed(mem, at')
  {
    var record := Record(packed);
    RecordShape(packed);
    HoldsSplit(mem, at, record, more);
    at', it' := at + |record|, it;
    if IsStored(packed.def) {
      UnpackRecord(mem, at, record, more, it);
      it' := Take(it, record[0], record[1], record[3..]);
    }
  }

  /** Reading a page that holds the records of `packed`: an item sees all of them, and the
      page is well formed. */
  lemma {:induction false} UnpackRecords(mem: seq<Byte>, at: nat, packed: seq<Item>, k: nat, it: Item)
    requires AllStorable(packed) && TextsShort(packed) && k <= |packed| && HoldsAt(mem, at, Records(packed, k))
    ensures WellFormed(mem, at)
    ensures UnpackOne(mem, at, it) == ApplyAll(it, packed, k)
    decreases |packed| - k
  {
    if k < |packed| {
      var at', it' := UnpackStep(mem, at, packed[k], Records(packed, k + 1), it);
      UnpackRecords(mem, at', packed, k + 1, it');
    }
  }

  /** Once its own record is past, or if it is not stored, an item sees nothing more. */
  lemma {:induction false} NothingMore(it: Item, packed: seq<Item>, k: nat)
    requires AllStorable(packed) && TextsShort(packed) && k <= |packed|
    requires forall j :: k <= j < |packed| && IsStored(packed[j].def) && packed[j].def.id == it.def.id ==>
      packed[j].def.kind != it.def.kind
    ensures ApplyAll(it, packed, k) == it
    decreases |packed| - k
  {
    if k < |packed| {
      RecordShape(packed[k]);
      NothingMore(it, packed, k + 1);
    }
  }

  lemma {:induction false} OwnRecord(it: Item, packed: seq<Item>, k: nat, m: nat)
    requires AllStorable(packed) && TextsShort(packed) && DistinctIds(packed)
    requires k <= m < |packed| && packed[m].def == it.def && IsStored(it.def)
    ensures ApplyAll(it, packed, k) == Restored(packed[m], it)
    decreases m - k
  {
    RecordShape(packed[k]);
    if k == m {
      RecordRestores(packed[m], it);
      NothingMore(Restored(packed[m], it), packed, k + 1);
    } else {
      assert IsStored(packed[k].def) ==> packed[k].def.id != packed[m].def.id;
      OwnRecord(it, packed, k + 1, m);
    }
  }

  /** One item read from a page with all records. */
  lemma ItemRoundTrip(mem: seq<Byte>, packed: seq<Item>, m: nat, it: Item)
    requires AllStorable(packed) && TextsShort(packed) && DistinctIds(packed)
    requires HoldsAt(mem, HEADER, Records(packed, 0))
    requires m < |packed| && it.def == packed[m].def
    ensures UnpackOne(mem, HEADER, it) == Restored(packed[m], it)
  {
    UnpackRecords(mem, HEADER, packed, 0, it);
    if IsStored(it.def) {
      OwnRecord(it, packed, 0, m);
    } else {
      NothingMore(it, packed, 0);
    }
  }

  lemma PageWellFormed(mem: seq<Byte>, packed: seq<Item>)
    requires AllStorable(packed) && TextsShort(packed) && HoldsAt(mem, HEADER, Records(packed, 0))
    ensures WellFormed(mem, HEADER)
  {
    if packed != [] {
      UnpackRecords(mem, HEADER, packed, 0, packed[0]);
    }
  }

  /** The law of the page: after packing all stores, reading any of them gives each stored
      item the number or text it had, whatever it held before; items that are not stored, and
      all the rest of each item, stay as they were. `from` is where the store's items are
      among all items of the page. */
  lemma PageRoundTrip(mem: seq<Byte>, packed: seq<Item>, items: seq<Item>, from: nat)
    requires AllStorable(packed) && TextsShort(packed) && DistinctIds(packed)
    requires HoldsAt(mem, HEADER, Records(packed, 0))
    requires from + |items| <= |packed|
    requires forall i :: 0 <= i < |items| ==> items[i].def == packed[from + i].def
    ensures WellFormed(mem, HEADER)
    ensures forall i :: 0 <= i < |items| ==>
      UnpackFrom(mem, HEADER, items)[i] == Restored(packed[from + i], items[i])
  {
    PageWellFormed(mem, packed);
    forall i | 0 <= i < |items|
      ensures UnpackFrom(mem, HEADER, items)[i] == Restored(packed[from + i], items[i])
    {
      EachOnItsOwn(mem, HEADER, items, i);
      ItemRoundTrip(mem, packed, from + i, items[i]);
    }
  }

  /** Items whose ids are on no record of the page come out as they went in. */
  lemma StrangersUnchanged(mem: seq<Byte>, packed: seq<Item>, items: seq<Item>)
    requires AllStorable(packed) && TextsShort(packed) && HoldsAt(mem, HEADER, Records(packed, 0))
    requires forall i, j :: 0 <= i < |items| && 0 <= j < |packed| && IsStored(packed[j].def) ==>
      items[i].def.id != packed[j].def.id
    ensures UnpackFrom(mem, HEADER, items) == items
  {
    forall i | 0 <= i < |items|
      ensures UnpackFrom(mem, HEADER, items)[i] == items[i]
    {
      EachOnItsOwn(mem, HEADER, items, i);
      UnpackRecords(mem, HEADER, packed, 0, items[i]);
      NothingMore(items[i], packed, 0);
    }
  }
}
