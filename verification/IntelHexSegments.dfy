/** Records of other kinds than the writer's: where the reader puts what follows a segment
    record of 16-bit machines, and what else it takes or refuses. */
module IntelHexSegments {
  import opened Common
  import opened ByteType
  import opened IntelHex
  import opened IntelHexReader
  import opened IntelHexRoundTrip

  /** A record of type 2: the segment, the high byte first. */
  function SegmentRecord(segment: nat): seq<Byte>
    requires segment < 0x1_0000
  {
    [2, 0, 0, 2, segment / 256, segment % 256]
  }

  /** Where the format puts the byte at `low` of a segment. */
  function SegmentAddress(segment: nat, low: nat): nat {
    segment * 16 + low
  }

  /** Where the reader puts it. */
  function ReaderAddress(segment: nat, low: nat): nat {
    segment / 0x1000 * 0x1_0000 + low
  }

  /** A file of a segment record, a data record at `low` and the end. */
  function SegmentFile(segment: nat, low: nat, data: seq<Byte>): string
    requires segment < 0x1_0000 && low < 0x1_0000 && |data| <= 32
  {
    Line(SegmentRecord(segment)) + (Line(DataFields(low, data)) + (Line(END_FIELDS) + ""))
  }

  lemma SegmentTaken(segment: nat, r: Reader, offset: nat, size: nat)
    requires segment < 0x1_0000 && |r.mem| == size + SLACK
    ensures var fields := SegmentRecord(segment);
      Counted(fields) && Apply(fields + [Checksum(fields)], r, offset, size) == Go(r.(addr := segment * 16))
  {
    var fields := SegmentRecord(segment);
    var record := fields + [Checksum(fields)];
    assert record[0] == 2 && record[3] == 2 && record[4] == segment / 256 && record[5] == segment % 256;
  }

  lemma DataTaken(segment: nat, low: nat, data: seq<Byte>, r: Reader, offset: nat, size: nat)
    requires segment < 0x1_0000 && low < 0x1_0000 && 0 < |data| <= 32 && |r.mem| == size + SLACK
    requires r.addr == segment * 16 && r.high == 0
    requires offset <= ReaderAddress(segment, low) && ReaderAddress(segment, low) - offset + |data| <= size
    ensures var fields := DataFields(low, data); var at := ReaderAddress(segment, low) - offset;
      Counted(fields) && var e := Apply(fields + [Checksum(fields)], r, offset, size);
      e.Go? && e.r.high == at + |data| - 1 && e.r.mem == Store(r.mem, at, data)
  {
    var fields := DataFields(low, data);
    var record := fields + [Checksum(fields)];
    var at := ReaderAddress(segment, low);
    assert record[0] == |data| && record[3] == 0 && record[1] == low / 256 && record[2] == low % 256;
    assert segment * 16 / 0x1_0000 == segment / 0x1000;
    assert record[4..4 + |data|] == data;
    DataRecord(record, |data|, at, r, offset, size);
  }

  /** A data record behind a segment record lands where the high half of sixteen times the
      segment and its own address say. */
  lemma SegmentFileReads(segment: nat, low: nat, data: seq<Byte>, mem: seq<Byte>, offset: nat, size: nat)
    requires segment < 0x1_0000 && low < 0x1_0000 && 0 < |data| <= 32 && |mem| == size + SLACK
    requires offset <= ReaderAddress(segment, low) && ReaderAddress(segment, low) - offset + |data| <= size
    ensures var at := ReaderAddress(segment, low) - offset;
      Read(SegmentFile(segment, low, data), Reader(0, 0, mem), offset, size)
      == Finished(at + |data| - 1, Store(mem, at, data))
  {
    var first, second, rest := SegmentRecord(segment), DataFields(low, data), Line(END_FIELDS) + "";
    var r := Reader(0, 0, mem);
    assert "" + (Line(first) + (Line(second) + rest)) == SegmentFile(segment, low, data);
    SegmentTaken(segment, r, offset, size);
    LineReads("", first, Line(second) + rest, r, offset, size);
    DataAndEnd(segment, low, data, r.(addr := segment * 16), offset, size);
  }

  /** What follows the segment record. */
  lemma DataAndEnd(segment: nat, low: nat, data: seq<Byte>, r: Reader, offset: nat, size: nat)
    requires segment < 0x1_0000 && low < 0x1_0000 && 0 < |data| <= 32 && |r.mem| == size + SLACK
    requires r.addr == segment * 16 && r.high == 0
    requires offset <= ReaderAddress(segment, low) && ReaderAddress(segment, low) - offset + |data| <= size
    ensures var at := ReaderAddress(segment, low) - offset;
      Read("\n" + (Line(DataFields(low, data)) + (Line(END_FIELDS) + "")), r, offset, size)
      == Finished(at + |data| - 1, Store(r.mem, at, data))
  {
    var fields := DataFields(low, data);
    DataTaken(segment, low, data, r, offset, size);
    LineReads("\n", fields, Line(END_FIELDS) + "", r, offset, size);
    var e := Apply(fields + [Checksum(fields)], r, offset, size);
    LineReads("\n", END_FIELDS, "", e.r, offset, size);
    assert (END_FIELDS + [Checksum(END_FIELDS)])[3] == 1;
  }

  /** That is where the format puts it if and only if the segment is a multiple of 1000 hex. */
  lemma SegmentsExactly(segment: nat, low: nat)
    ensures ReaderAddress(segment, low) == SegmentAddress(segment, low) <==> segment % 0x1000 == 0
  {
    assert segment == segment / 0x1000 * 0x1000 + segment % 0x1000;
  }

  /** Segment 1 and address 0: the byte lands at 0 and not at 16. */
  lemma SegmentExample(mem: seq<Byte>)
    requires |mem| == 64 + SLACK
    ensures SegmentAddress(1, 0) == 16
    ensures Read(SegmentFile(1, 0, [7]), Reader(0, 0, mem), 0, 64) == Finished(0, mem[0 := 7])
  {
    assert ReaderAddress(1, 0) == 0;
    SegmentFileReads(1, 0, [7], mem, 0, 64);
    StoreOne(mem, 7);
  }

  lemma StoreOne(mem: seq<Byte>, b: Byte)
    requires |mem| > 0
    ensures Store(mem, 0, [b]) == mem[0 := b]
  {
  }

  // ---------------------------------------------------------------- the other kinds

  /** Start addresses are skipped, segment records of a wrong length and records of an unknown
      kind end the reading, and data outside the buffer does too. */
  lemma OtherRecords(record: seq<Byte>, r: Reader, offset: nat, size: nat)
    requires |record| >= 5 && |record| == record[0] as int + 5 <= RECORD_BUFFER && |r.mem| == size + SLACK
    ensures record[3] == 3 || record[3] == 5 ==> Apply(record, r, offset, size) == Go(r)
    ensures record[3] > 5 ==> Apply(record, r, offset, size) == Stop(Failed(r.mem))
    ensures (record[3] == 2 || record[3] == 4) && record[0] != 2 ==>
      Apply(record, r, offset, size) == Stop(Failed(r.mem))
    ensures record[3] == 1 ==> Apply(record, r, offset, size) == Stop(Finished(r.high, r.mem))
    ensures record[3] == 0 ==>
      var at := r.addr - r.addr % 0x1_0000 + record[1] as int * 256 + record[2] as int;
      Apply(record, r, offset, size) == Stop(Failed(r.mem)) <==> at < offset || at >= offset + size
  {
    assert r.addr - r.addr % 0x1_0000 == r.addr / 0x1_0000 * 0x1_0000;
  }

  // ---------------------------------------------------------------- a file, letter by letter

  /** A record put together from its head, its data and its checksum. */
  lemma LineIs(a: Byte, b: Byte, c: Byte, d: Byte, data: seq<Byte>, text: string, ch: Byte) returns (line: string)
    requires HexBytes(data) == text && ch == Negate(Low8(a + b + c + d + Sum(data)))
    ensures line == Line([a, b, c, d] + data)
    ensures line == ":" + (HexByte(a) + HexByte(b) + HexByte(c) + HexByte(d) + text + HexByte(ch)) + "\n"
  {
    FourBytes(a, b, c, d);
    SumAppend([a, b, c, d], data);
    LineOfParts([a, b, c, d], data, ch);
    line := Line([a, b, c, d] + data);
  }

  lemma SegmentLine() returns (line: string)
    ensures line == Line([2, 0, 0, 4] + [0, 0]) && line == ":020000040000FA\n"
  {
    TwoBytes(0, 0);
    line := LineIs(2, 0, 0, 4, [0, 0], HexByte(0) + HexByte(0), 0xFA);
    assert HexByte(2) == "02" && HexByte(0) == "00" && HexByte(4) == "04" && HexByte(0xFA) == "FA";
  }

  lemma ThreeBytes(a: Byte, b: Byte, c: Byte)
    ensures HexBytes([a, b, c]) == HexByte(a) + HexByte(b) + HexByte(c) && Sum([a, b, c]) == a + b + c
  {
    TwoBytes(a, b);
    OneByte(c);
    assert [a, b, c] == [a, b] + [c];
    HexAppend([a, b], [c]);
    SumAppend([a, b], [c]);
  }

  lemma ExampleLine() returns (line: string)
    ensures line == Line([3, 0, 0x30, 0] + [0x02, 0x33, 0x7A]) && line == ":0300300002337A1E\n"
  {
    ThreeBytes(0x02, 0x33, 0x7A);
    line := LineIs(3, 0, 0x30, 0, [0x02, 0x33, 0x7A], HexByte(0x02) + HexByte(0x33) + HexByte(0x7A), 0x1E);
    assert HexByte(3) == "03" && HexByte(0) == "00" && HexByte(0x30) == "30" && HexByte(0x02) == "02";
    assert HexByte(0x33) == "33" && HexByte(0x7A) == "7A" && HexByte(0x1E) == "1E";
  }

  lemma ExampleRecords(data: seq<Byte>)
    requires data == [0x02, 0x33, 0x7A]
    ensures Records(data, 0, 0x30, true) == [[2, 0, 0, 4] + [0, 0], [3, 0, 0x30, 0] + data]
  {
    assert Chunk(data, 0, 0x30) == 3 && data[0..3] == data;
    assert SegmentFields(0x30) == [2, 0, 0, 4] + [0, 0];
    assert ChunkRecords(data, 0x30, true) == [[2, 0, 0, 4] + [0, 0], [3, 0, 0x30, 0] + data];
    assert Records(data, 3, 0x33, false) == [];
  }

  lemma ThreeLines(a: seq<Byte>, b: seq<Byte>, c: seq<Byte>)
    ensures FileText([a, b] + [c]) == Line(a) + (Line(b) + Line(c))
  {
    FileOfOne(c);
    FileAppend([b], [c]);
    FileOfOne(b);
    assert ([a, b] + [c])[1..] == [b] + [c];
  }

  /** Three bytes at 30 hex: the segment record, the data record and the end. */
  lemma WrittenExample()
    ensures Written([0x02, 0x33, 0x7A], 0x30) == ":020000040000FA\n" + (":0300300002337A1E\n" + ":00000001FF\n")
  {
    var data := [0x02, 0x33, 0x7A];
    ExampleRecords(data);
    ThreeLines([2, 0, 0, 4] + [0, 0], [3, 0, 0x30, 0] + data, END_FIELDS);
    var first := SegmentLine();
    var second := ExampleLine();
    EndLine();
  }

  /** A digit is worth what it is in hexadecimal, in capitals; any other character counts as 0, and
      so does a byte that the file is too short for. */
  lemma DigitsExactly(c: char, t: string)
    ensures '0' <= c <= '9' ==> Digit(c) == c as int - '0' as int
    ensures 'A' <= c <= 'F' ==> Digit(c) == 10 + (c as int - 'A' as int)
    ensures !('0' <= c <= '9') && !('A' <= c <= 'F') ==> Digit(c) == 0
    ensures |t| < 2 ==> ByteOf(t) == 0 && Skip2(t) == ""
  {
  }
}
