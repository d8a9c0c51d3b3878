/** Configuration items and the records of a configuration page, after config.cc, on values.

    A page is four bytes of page id, one record after the other (id, type, length, bytes) and
    a byte FF. Several stores share one page. */
module Config {
  import opened ByteType

  const TYPE_VALUE: Byte := 1
  const TYPE_ENUM: Byte := 2
  const TYPE_STRING: Byte := 3
  const TYPE_FUNC: Byte := 4
  const TYPE_SEP: Byte := 5
  const TYPE_INFO: Byte := 6
  const TYPE_STRFUNC: Byte := 7
  const TYPE_STRPASS: Byte := 8
  const FREE: Byte := 0xFF
  const HEADER := 4

  datatype Definition = Definition(id: Byte, kind: Byte, min: int, max: int, def: int)

  /** What an item holds: a 32-bit number and a C string, of which its type uses one. */
  datatype Item = Item(def: Definition, value: int, text: seq<Byte>)

  predicate IsNumber(d: Definition) {
    d.kind == TYPE_VALUE || d.kind == TYPE_ENUM
  }

  predicate IsText(d: Definition) {
    d.kind == TYPE_STRING || d.kind == TYPE_STRFUNC || d.kind == TYPE_STRPASS
  }

  predicate IsStored(d: Definition) {
    IsNumber(d) || IsText(d)
  }

  /** A C int. */
  predicate IsInt(v: int) {
    -0x8000_0000 <= v < 0x8000_0000
  }

  predicate IsCText(s: seq<Byte>) {
    forall i :: 0 <= i < |s| ==> s[i] != 0
  }

  // ---------------------------------------------------------------- numbers as bytes

  /** Byte `k` of a C int, the lowest being 0. */
  function IntByte(v: int, k: nat): Byte
    requires k < 4
  {
    if k == 0 then v % 0x100
    else if k == 1 then v / 0x100 % 0x100
    else if k == 2 then v / 0x1_0000 % 0x100
    else v / 0x100_0000 % 0x100
  }

  /** Bytes shifted into an int from the right, in 32 bits. */
  function Gather(s: seq<Byte>, acc: int): int {
    if s == [] then acc else Gather(s[1..], Wrap(acc * 0x100 + s[0]))
  }

  /** The int with the low 32 bits of `v`. */
  function Wrap(v: int): (r: int)
    ensures IsInt(r)
  {
    (v + 0x8000_0000) % 0x1_0000_0000 - 0x8000_0000
  }

  // ---------------------------------------------------------------- records

  /** The record of an item; an item that is not stored has none. */
  function Record(it: Item): seq<Byte>
    requires |it.text| < 0x100
  {
    if it.def.kind == TYPE_VALUE then
      [it.def.id, it.def.kind, 4,
       IntByte(it.value, 3), IntByte(it.value, 2), IntByte(it.value, 1), IntByte(it.value, 0)]
    else if it.def.kind == TYPE_ENUM then [it.def.id, it.def.kind, 1, IntByte(it.value, 0)]
    else if IsText(it.def) then [it.def.id, it.def.kind, |it.text|] + it.text
    else []
  }

  function CText(s: seq<Byte>): (r: seq<Byte>)
    ensures IsCText(r)
  {
    if s == [] || s[0] == 0 then [] else [s[0]] + CText(s[1..])
  }

  /** ConfigItem::unpack on a record's type and bytes. */
  function UnpackItem(it: Item, kind: Byte, payload: seq<Byte>): (r: Item)
    ensures r.def == it.def
  {
    if kind != it.def.kind then it
    else if IsNumber(it.def) then
      var v := Gather(payload, 0);
      var v1 := if v < it.def.min then it.def.def else v;
      it.(value := if v1 > it.def.max then it.def.def else v1)
    else if IsText(it.def) then
      var field := if |payload| > it.def.max then it.def.max else |payload|;
      it.(text := if field <= 0 then [] else CText(payload[..field]))
    else it
  }

  /** A value that survives: in the item's range, and in what its record can hold. */
  predicate Storable(it: Item) {
    if it.def.kind == TYPE_VALUE then IsInt(it.value) && it.def.min <= it.value <= it.def.max
    else if it.def.kind == TYPE_ENUM then 0 <= it.value < 0x100 && it.def.min <= it.value <= it.def.max
    else IsText(it.def) ==> IsCText(it.text) && |it.text| < 0x100 && |it.text| <= it.def.max
  }

  /** What an item's record gives back: the packed number or string, all else as it was. */
  function Restored(packed: Item, it: Item): Item {
    if IsNumber(it.def) then it.(value := packed.value)
    else if IsText(it.def) then it.(text := packed.text)
    else it
  }

  lemma WrapIs(v: int)
    ensures IsInt(v) ==> Wrap(v) == v
    ensures 0x8000_0000 <= v < 0x1_0000_0000 ==> Wrap(v) == v - 0x1_0000_0000
  {
  }

  lemma GatherOne(b: Byte, acc: int)
    ensures Gather([b], acc) == Wrap(acc * 0x100 + b)
  {
    assert [b][1..] == [];
  }

  /** Four bytes, the highest first, are gathered as a two's complement number. */
  lemma GatherFour(a: Byte, b: Byte, c: Byte, d: Byte)
    ensures Gather([a, b, c, d], 0)
         == Wrap(((a as int * 0x100 + b as int) * 0x100 + c as int) * 0x100 + d as int)
  {
    var n1: int := a as int;
    var n2: int := n1 * 0x100 + b as int;
    var n3: int := n2 * 0x100 + c as int;
    WrapIs(n1);
    WrapIs(n2);
    WrapIs(n3);
    assert [a, b, c, d][1..] == [b, c, d] && [b, c, d][1..] == [c, d] && [c, d][1..] == [d];
    GatherOne(d, n3);
    assert Gather([c, d], n2) == Gather([d], n3);
    assert Gather([b, c, d], n1) == Gather([c, d], n2);
  }

  lemma GatherInt(v: int)
    requires IsInt(v)
    ensures Gather([IntByte(v, 3), IntByte(v, 2), IntByte(v, 1), IntByte(v, 0)], 0) == v
  {
    GatherFour(IntByte(v, 3), IntByte(v, 2), IntByte(v, 1), IntByte(v, 0));
    BytesOfInt(v);
    WrapIs(if v < 0 then v + 0x1_0000_0000 else v);
  }

  lemma BytesOfInt(v: int)
    requires IsInt(v)
    ensures var u := ((IntByte(v, 3) * 0x100 + IntByte(v, 2)) * 0x100 + IntByte(v, 1)) * 0x100 + IntByte(v, 0);
      u == if v < 0 then v + 0x1_0000_0000 else v
  {
    assert v / 0x100 / 0x100 == v / 0x1_0000;
    assert v / 0x1_0000 / 0x100 == v / 0x100_0000;
  }

  lemma {:induction false} CTextOfText(s: seq<Byte>)
    requires IsCText(s)
    ensures CText(s) == s
  {
    if s != [] {
      CTextOfText(s[1..]);
    }
  }

  /** An item's own record restores it, whatever it held. */
  lemma RecordRestores(packed: Item, it: Item)
    requires Storable(packed) && IsStored(packed.def) && it.def == packed.def && |packed.text| < 0x100
    ensures var record := Record(packed);
      |record| >= 3 && record[2] == |record| - 3
      && UnpackItem(it, record[1], record[3..]) == Restored(packed, it)
  {
    var record := Record(packed);
    if packed.def.kind == TYPE_VALUE {
      var v := packed.value;
      assert record[3..] == [IntByte(v, 3), IntByte(v, 2), IntByte(v, 1), IntByte(v, 0)];
      GatherInt(packed.value);
    } else if packed.def.kind == TYPE_ENUM {
      assert record[3..] == [IntByte(packed.value, 0)];
      GatherOne(IntByte(packed.value, 0), 0);
      WrapIs(packed.value);
    } else {
      assert record[3..] == packed.text;
      assert packed.text[..|packed.text|] == packed.text;
      CTextOfText(packed.text);
    }
  }
}
