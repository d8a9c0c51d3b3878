/** bin2hex and hex2bin: an Intel HEX writer and a reader that were written apart. */
module IntelHex {
  import opened Common
  import opened ByteType
  import opened Hex

  const WORD := 0x1_0000_0000
  const SEGMENT := 0x1_0000
  const LINE_LENGTH := 32
  const MAX_LENGTH := 0x4000_0000  // the writer's default limit

  // ---------------------------------------------------------------- records

  function Sum(s: seq<Byte>): nat {
    if s == [] then 0 else s[0] + Sum(s[1..])
  }

  /** The low eight bits. */
  function Low8(n: nat): Byte {
    if n < 256 then n else Low8(n - 256)
  }

  /** ~a + 1 in eight bits. */
  function Negate(a: Byte): Byte {
    if a == 0 then 0 else 256 - a
  }

  lemma {:induction false} Low8Is(n: nat)
    ensures Low8(n) == n % 256
  {
    if n >= 256 {
      Low8Is(n - 256);
      assert n == n / 256 * 256 + n % 256;
    }
  }

  /** Truncating before an addition does not matter. */
  lemma {:induction false} Low8Adds(a: nat, b: nat)
    ensures Low8(Low8(a) + b) == Low8(a + b)
  {
    if a >= 256 {
      Low8Adds(a - 256, b);
    }
  }

  /** The byte that makes a record sum to 0 modulo 256. */
  function Checksum(s: seq<Byte>): Byte {
    Negate(Low8(Sum(s)))
  }

  function HexByte(b: Byte): (s: string)
    ensures |s| == 2
  {
    [HexDigit(b / 16), HexDigit(b % 16)]
  }

  function HexBytes(s: seq<Byte>): string {
    if s == [] then "" else HexByte(s[0]) + HexBytes(s[1..])
  }

  /** One line: the record's bytes and their checksum. */
  function Line(fields: seq<Byte>): string {
    ":" + HexBytes(fields + [Checksum(fields)]) + "\n"
  }

  function SegmentFields(offset: nat): seq<Byte>
    requires offset < WORD
  {
    [2, 0, 0, 4, offset / 0x1_0000 / 256, offset / 0x1_0000 % 256]
  }

  function DataFields(offset: nat, data: seq<Byte>): seq<Byte>
    requires offset < WORD && |data| <= LINE_LENGTH
  {
    [|data|, offset % 0x1_0000 / 256, offset % 256, 0] + data
  }

  const END_FIELDS: seq<Byte> := [0, 0, 0, 1]

  lemma {:induction false} SumAppend(a: seq<Byte>, b: seq<Byte>)
    ensures Sum(a + b) == Sum(a) + Sum(b)
  {
    if a == [] {
      assert a + b == b;
    } else {
      assert (a + b)[1..] == a[1..] + b;
      SumAppend(a[1..], b);
    }
  }

  /** Every record sums to 0 modulo 256, its checksum included. */
  lemma RecordSumsToZero(fields: seq<Byte>)
    ensures Sum(fields + [Checksum(fields)]) % 256 == 0
  {
    var c := Checksum(fields);
    SumAppend(fields, [c]);
    assert Sum([c]) == c + Sum([c][1..]);
    NegateCompletes(Sum(fields));
  }

  lemma NegateCompletes(sum: nat)
    ensures (sum + Negate(Low8(sum))) % 256 == 0
  {
    Low8Is(sum);
    assert sum == sum / 256 * 256 + sum % 256;
  }

  // ---------------------------------------------------------------- writing

  /** How many bytes one line at `offset` has room for: it stays inside the segment. */
  function LineRoom(offset: nat): (n: nat)
    ensures 0 < n <= LINE_LENGTH
  {
    var left := SEGMENT - offset % 0x1_0000;
    if left > LINE_LENGTH then LINE_LENGTH else left
  }

  /** How many of the bytes from `p` on go on one line at `offset`. */
  function Chunk(data: seq<Byte>, p: nat, offset: nat): (n: nat)
    requires p < |data|
    ensures 0 < n <= LINE_LENGTH && p + n <= |data|
  {
    if LineRoom(offset) < |data| - p then LineRoom(offset) else |data| - p
  }

  /** The records of the bytes from `p` on, the first at `offset`; `first` before any record. */
  function Records(data: seq<Byte>, p: nat, offset: nat, first: bool): seq<seq<Byte>>
    requires p <= |data| && offset + (|data| - p) <= WORD
    decreases |data| - p
  {
    if p == |data| then []
    else
      var n := Chunk(data, p, offset);
      ChunkRecords(data[p..p + n], offset, first) + Records(data, p + n, offset + n, false)
  }

  /** The records of one line's bytes: a segment record if one is due, and the data. */
  function ChunkRecords(part: seq<Byte>, offset: nat, first: bool): seq<seq<Byte>>
    requires offset < WORD && |part| <= LINE_LENGTH
  {
    if first || offset % 0x1_0000 == 0 then [SegmentFields(offset), DataFields(offset, part)]
    else [DataFields(offset, part)]
  }

  function FileText(records: seq<seq<Byte>>): string {
    if records == [] then "" else Line(records[0]) + FileText(records[1..])
  }

  /** The whole file. */
  function Written(data: seq<Byte>, offset: nat): string
    requires offset + |data| <= WORD
  {
    FileText(Records(data, 0, offset, true) + [END_FIELDS])
  }

  lemma {:induction false} FileAppend(a: seq<seq<Byte>>, b: seq<seq<Byte>>)
    ensures FileText(a + b) == FileText(a) + FileText(b)
  {
    if a == [] {
      assert a + b == b;
    } else {
      assert (a + b)[1..] == a[1..] + b;
      FileAppend(a[1..], b);
      Regroup(Line(a[0]), FileText(a[1..]), FileText(b));
    }
  }

  lemma FileOfOne(record: seq<Byte>)
    ensures FileText([record]) == Line(record)
  {
    assert [record][1..] == [];
  }

  class Output {
    var text: string

    constructor ()
      ensures text == ""
    {
      text := "";
    }

    method Put(s: string)
      modifies this
      ensures text == old(text) + s
    {
      text := text + s;
    }

    method PutHex(b: Byte)
      modifies this
      ensures text == old(text) + HexByte(b)
    {
      Put([HexDigit(b / 16), HexDigit(b % 16)]);
    }

    /** :02000004, the segment and a checksum counted down from FA. */
    method PutSegment(offset: nat)
      requires offset < WORD
      modifies this
      ensures text == old(text) + Line(SegmentFields(offset))
    {
      var segment := offset / 0x1_0000;
      SegmentBytes(offset);
      PutSegmentBytes(segment / 256 % 256, segment % 256);
    }

    method PutSegmentBytes(b2: Byte, b1: Byte)
      modifies this
      ensures text == old(text) + Line([2, 0, 0, 4] + [b2, b1])
    {
      var ch := (0xFA - b1 - b2) % 256;
      ghost var before, head, tail := text, [2, 0, 0, 4], [b2, b1];
      Put(":");
      PutFour(2, 0, 0, 4);
      PutTwo(b2, b1);
      PutEnd(ch);
      SegmentChecksum(b2, b1);
      LineParts(before, head, tail, ch);
    }

    method PutTwo(a: Byte, b: Byte)
      modifies this
      ensures text == old(text) + HexBytes([a, b])
    {
      PutHex(a);
      PutHex(b);
      TwoBytes(a, b);
    }

    method PutEndRecord()
      modifies this
      ensures text == old(text) + Line(END_FIELDS)
    {
      Put(":00000001FF\n");
      EndLine();
    }

    /** Four bytes of a format string or its arguments. */
    method PutFour(a: Byte, b: Byte, c: Byte, d: Byte)
      modifies this
      ensures text == old(text) + HexBytes([a, b, c, d])
    {
      PutHex(a);
      PutHex(b);
      PutHex(c);
      PutHex(d);
      FourBytes(a, b, c, d);
    }

    method PutEnd(ch: Byte)
      modifies this
      ensures text == old(text) + (HexByte(ch) + "\n")
    {
      PutHex(ch);
      Put("\n");
    }

    /** One data record, its checksum kept up while the bytes are printed. */
    method PutData(offset: nat, data: seq<Byte>)
      requires offset < WORD && |data| <= LINE_LENGTH
      modifies this
      ensures text == old(text) + Line(DataFields(offset, data))
    {
      var low := offset % 0x1_0000;
      LowBytes(offset);
      PutDataBytes(low / 256 % 256, low % 256, data);
      assert DataFields(offset, data) == [|data|, low / 256 % 256, low % 256, 0] + data;
    }

    method PutDataBytes(b2: Byte, b1: Byte, data: seq<Byte>)
      requires |data| <= LINE_LENGTH
      modifies this
      ensures text == old(text) + Line([|data|, b2, b1, 0] + data)
    {
      ghost var before, head := text, [|data|, b2, b1, 0];
      var ch0 := Low8(Low8(|data| + b1) + b2);
      Put(":");
      PutFour(|data|, b2, b1, 0);
      var sum := PutSummed(data, ch0);
      ghost var line := DataLine(before, |data|, b2, b1, data, ch0, sum);
      PutEnd(Negate(sum));
    }

    /** The data bytes, added up on the way. */
    method PutSummed(data: seq<Byte>, ch0: Byte) returns (ch: Byte)
      modifies this
      ensures text == old(text) + HexBytes(data) && ch == Low8(ch0 + Sum(data))
    {
      ch := ch0;
      ghost var start := text;
      var i := 0;
      while i < |data|
        invariant 0 <= i <= |data|
        invariant text == start + HexBytes(data[..i])
        invariant ch == Low8(ch0 + Sum(data[..i]))
      {
        NextByte(data, i);
        Regroup(start, HexBytes(data[..i]), HexByte(data[i]));
        Low8Adds(ch0 + Sum(data[..i]), data[i]);
        PutHex(data[i]);
        ch := Low8(ch + data[i]);
        i := i + 1;
      }
      assert data[..i] == data;
    }
  }

  /** The data line put together from its parts. */
  lemma DataLine(before: string, length: Byte, b2: Byte, b1: Byte, data: seq<Byte>, ch0: Byte, sum: Byte)
    returns (line: string)
    requires ch0 == Low8(Low8(length + b1) + b2) && sum == Low8(ch0 + Sum(data))
    ensures line == Line([length, b2, b1, 0] + data)
    ensures before + ":" + HexBytes([length, b2, b1, 0]) + HexBytes(data) + (HexByte(Negate(sum)) + "\n")
         == before + line
  {
    line := Line([length, b2, b1, 0] + data);
    DataChecksum(length, b2, b1, data, ch0, sum);
    LineParts(before, [length, b2, b1, 0], data, Negate(sum));
  }

  lemma DataChecksum(length: Byte, b2: Byte, b1: Byte, data: seq<Byte>, ch0: Byte, sum: Byte)
    requires ch0 == Low8(Low8(length + b1) + b2) && sum == Low8(ch0 + Sum(data))
    ensures Negate(sum) == Checksum([length, b2, b1, 0] + data)
  {
    var total := DataSum(length, b2, b1, data);
    Low8Adds(length + b1, b2);
    Low8Adds(length + b1 + b2, Sum(data));
  }

  lemma DataSum(length: Byte, b2: Byte, b1: Byte, data: seq<Byte>) returns (total: nat)
    ensures total == Sum([length, b2, b1, 0] + data) && total == length + b2 + b1 + Sum(data)
  {
    FourBytes(length, b2, b1, 0);
    SumAppend([length, b2, b1, 0], data);
    total := Sum([length, b2, b1, 0] + data);
  }

  /** A line put together from its parts. */
  lemma LineParts(before: string, head: seq<Byte>, tail: seq<Byte>, ch: Byte)
    requires ch == Checksum(head + tail)
    ensures before + ":" + HexBytes(head) + HexBytes(tail) + (HexByte(ch) + "\n") == before + Line(head + tail)
  {
    LineOfParts(head, tail, ch);
    FivePieces(before, ":", HexBytes(head), HexBytes(tail), HexByte(ch), "\n");
  }

  lemma LineOfParts(head: seq<Byte>, tail: seq<Byte>, ch: Byte)
    requires ch == Checksum(head + tail)
    ensures Line(head + tail) == ":" + (HexBytes(head) + HexBytes(tail) + HexByte(ch)) + "\n"
  {
    var text := HexOfParts(head, tail, ch);
    LineWith(head + tail, text);
  }

  lemma HexOfParts(head: seq<Byte>, tail: seq<Byte>, ch: Byte) returns (text: string)
    ensures text == HexBytes(head) + HexBytes(tail) + HexByte(ch) && HexBytes(head + tail + [ch]) == text
  {
    HexAppend(head, tail);
    LastByte(head + tail, ch);
    text := HexBytes(head + tail + [ch]);
  }

  lemma LineWith(fields: seq<Byte>, text: string)
    requires HexBytes(fields + [Checksum(fields)]) == text
    ensures Line(fields) == ":" + text + "\n"
  {
  }

  lemma FivePieces(before: string, a: string, b: string, c: string, d: string, e: string)
    ensures before + a + b + c + (d + e) == before + (a + (b + c + d) + e)
  {
    Regroup(before, a, b);
    Regroup(before, a + b, c);
    Regroup(before, a + b + c, d + e);
    Regroup(a, b, c);
    Regroup(a, b + c, d);
    Regroup(a + b + c, d, e);
  }

  lemma LowBytes(offset: nat)
    ensures var low := offset % 0x1_0000;
      low % 256 == offset % 256 && low / 256 % 256 == low / 256 < 256
  {
    LowByte(offset / 0x1_0000, offset % 0x1_0000);
  }

  lemma LowByte(high: nat, low: nat)
    ensures (high * 0x1_0000 + low) % 256 == low % 256
  {
  }

  lemma OneByte(b: Byte)
    ensures HexBytes([b]) == HexByte(b) && Sum([b]) == b
  {
    assert [b][1..] == [];
  }

  lemma TwoBytes(a: Byte, b: Byte)
    ensures HexBytes([a, b]) == HexByte(a) + HexByte(b) && Sum([a, b]) == a + b
  {
    OneByte(b);
    assert [a, b][1..] == [b];
  }

  lemma FourBytes(a: Byte, b: Byte, c: Byte, d: Byte)
    ensures HexBytes([a, b, c, d]) == HexByte(a) + HexByte(b) + HexByte(c) + HexByte(d)
    ensures Sum([a, b, c, d]) == a + b + c + d
  {
    TwoBytes(a, b);
    TwoBytes(c, d);
    assert [a, b, c, d] == [a, b] + [c, d];
    HexAppend([a, b], [c, d]);
    SumAppend([a, b], [c, d]);
  }

  lemma {:induction false} HexAppend(a: seq<Byte>, b: seq<Byte>)
    ensures HexBytes(a + b) == HexBytes(a) + HexBytes(b)
  {
    if a == [] {
      assert a + b == b;
    } else {
      assert (a + b)[1..] == a[1..] + b;
      HexAppend(a[1..], b);
    }
  }

  lemma NextByte(fields: seq<Byte>, k: nat)
    requires k < |fields|
    ensures HexBytes(fields[..k + 1]) == HexBytes(fields[..k]) + HexByte(fields[k])
    ensures Sum(fields[..k + 1]) == Sum(fields[..k]) + fields[k]
  {
    assert fields[..k + 1] == fields[..k] + [fields[k]];
    HexAppend(fields[..k], [fields[k]]);
    SumAppend(fields[..k], [fields[k]]);
    OneByte(fields[k]);
  }

  lemma LastByte(fields: seq<Byte>, c: Byte)
    ensures HexBytes(fields + [c]) == HexBytes(fields) + HexByte(c)
  {
    HexAppend(fields, [c]);
    OneByte(c);
  }

  lemma SegmentBytes(offset: nat)
    requires offset < WORD
    ensures var segment := offset / 0x1_0000;
      SegmentFields(offset) == [2, 0, 0, 4] + [segment / 256 % 256, segment % 256]
  {
  }

  lemma SegmentChecksum(b2: Byte, b1: Byte)
    ensures (0xFA - b1 - b2) % 256 == Checksum([2, 0, 0, 4] + [b2, b1])
  {
    FourBytes(2, 0, 0, 4);
    TwoBytes(b2, b1);
    SumAppend([2, 0, 0, 4], [b2, b1]);
    DownFromFA(b1, b2, Sum([2, 0, 0, 4] + [b2, b1]));
  }

  lemma DownFromFA(b1: Byte, b2: Byte, total: nat)
    requires total == 6 + (b2 + b1)
    ensures (0xFA - b1 - b2) % 256 == Negate(Low8(total))
  {
    Low8Is(total);
  }

  lemma EndLine()
    ensures Line(END_FIELDS) == ":00000001FF\n"
  {
    FourBytes(0, 0, 0, 1);
    LastByte(END_FIELDS, 0xFF);
    assert HexByte(0) + HexByte(0) + HexByte(0) + HexByte(1) + HexByte(0xFF) == "00000001FF";
  }

  /** The main loop of bin2hex without options other than the offset: the offset is a 32-bit
      word, end of file shows only once a read has come short, and the segment record waits
      for the first byte of its segment. */
  method WriteHexFile(data: seq<Byte>, offset: nat, out: Output)
    requires |data| <= MAX_LENGTH && offset + |data| <= WORD && offset < WORD
    modifies out
    ensures out.text == old(out.text) + Written(data, offset)
  {
    var hexOffset := offset;
    var length := MAX_LENGTH;
    var segment := -1;
    var segFlag := false;
    var p, eof := 0, false;
    ghost var before := out.text;
    ghost var done: seq<seq<Byte>> := [];
    ghost var all := WithLeft(done, data, 0, offset);
    while length > 0 && !eof
      invariant 0 <= p <= |data| && length == MAX_LENGTH - p
      invariant 0 <= hexOffset < WORD && (p < |data| ==> hexOffset == offset + p)
      invariant !eof ==> !segFlag && (segment == -1 <==> p == 0)
      invariant WithLeft(done, data, p, offset) == all
      invariant out.text == before + FileText(done)
      invariant eof ==> p == |data|
      decreases |data| - p, !eof
    {
      var bytesInSegment, bytesToRead := SizeOfRead(hexOffset);
      if bytesInSegment == SEGMENT || segment == -1 {
        segment := hexOffset / 0x1_0000;
        segFlag := true;
      }
      var bytesRead := bytesToRead;
      if |data| - p < bytesToRead {
        bytesRead := |data| - p;
        eof := true;
      }
      if bytesRead > 0 {
        done := PutNext(data, p, hexOffset, bytesRead, segFlag, out, offset, before, done, all);
        segFlag := false;
      }
      p := p + bytesRead;
      hexOffset := AddOffset(hexOffset, bytesRead);
      length := length - bytesRead;
    }
    NothingLeft(done, data, offset);
    out.PutEndRecord();
    LastRecord(before, done);
  }

  /** The records written, and those of the bytes from `p` on. */
  ghost function WithLeft(done: seq<seq<Byte>>, data: seq<Byte>, p: nat, offset: nat): seq<seq<Byte>>
    requires p <= |data| && offset + |data| <= WORD
  {
    done + Records(data, p, offset + p, p == 0)
  }

  lemma NothingLeft(done: seq<seq<Byte>>, data: seq<Byte>, offset: nat)
    requires offset + |data| <= WORD
    ensures WithLeft(done, data, |data|, offset) == done
    ensures WithLeft([], data, 0, offset) == Records(data, 0, offset, true)
  {
  }

  lemma LastRecord(before: string, done: seq<seq<Byte>>)
    ensures before + FileText(done) + Line(END_FIELDS) == before + FileText(done + [END_FIELDS])
  {
    FileOfOne(END_FIELDS);
    TextMoves(before, done, [END_FIELDS]);
  }

  /** The records of one read follow those already written. */
  method PutNext(data: seq<Byte>, p: nat, hexOffset: nat, n: nat, segFlag: bool, out: Output,
                 ghost offset: nat, ghost before: string, ghost done: seq<seq<Byte>>, ghost all: seq<seq<Byte>>)
    returns (ghost done': seq<seq<Byte>>)
    requires p < |data| && hexOffset == offset + p && offset + |data| <= WORD && n == Chunk(data, p, hexOffset)
    requires segFlag == (p == 0 || hexOffset % 0x1_0000 == 0)
    requires out.text == before + FileText(done) && WithLeft(done, data, p, offset) == all
    modifies out
    ensures out.text == before + FileText(done')
    ensures WithLeft(done', data, p + n, offset) == all
  {
    ghost var records := PutChunk(data[p..p + n], hexOffset, segFlag, out, p == 0);
    done' := ChunkMoves(done, records, data, p, n, offset);
    TextMoves(before, done, records);
  }

  lemma ChunkMoves(done: seq<seq<Byte>>, records: seq<seq<Byte>>, data: seq<Byte>, p: nat, n: nat, offset: nat)
    returns (done': seq<seq<Byte>>)
    requires p < |data| && offset + |data| <= WORD && n == Chunk(data, p, offset + p)
    requires records == ChunkRecords(data[p..p + n], offset + p, p == 0)
    ensures done' == done + records && WithLeft(done', data, p + n, offset) == WithLeft(done, data, p, offset)
  {
    done' := done + records;
    assert offset + p + n == offset + (p + n);
    Regroup(done, records, Records(data, p + n, offset + (p + n), false));
  }

  lemma TextMoves(before: string, done: seq<seq<Byte>>, records: seq<seq<Byte>>)
    ensures before + FileText(done) + FileText(records) == before + FileText(done + records)
  {
    FileAppend(done, records);
    Regroup(before, FileText(done), FileText(records));
  }

  /** The records of one read. */
  method PutChunk(part: seq<Byte>, hexOffset: nat, segFlag: bool, out: Output, ghost first: bool)
    returns (ghost records: seq<seq<Byte>>)
    requires hexOffset < WORD && |part| <= LINE_LENGTH
    requires segFlag == (first || hexOffset % 0x1_0000 == 0)
    modifies out
    ensures records == ChunkRecords(part, hexOffset, first)
    ensures out.text == old(out.text) + FileText(records)
  {
    ghost var before := out.text;
    ghost var record := DataFields(hexOffset, part);
    FileOfOne(record);
    records := [record];
    if segFlag {
      out.PutSegment(hexOffset);
      ghost var segment := SegmentFields(hexOffset);
      FileOfOne(segment);
      FileAppend([segment], [record]);
      records := [segment] + [record];
      Regroup(before, Line(segment), Line(record));
    }
    out.PutData(hexOffset, part);
  }

  /** A 32-bit addition. */
  function AddOffset(a: nat, b: nat): (r: nat)
    requires a < WORD && b < WORD
    ensures r < WORD && (a + b < WORD ==> r == a + b)
  {
    if a + b < WORD then a + b else a + b - WORD
  }

  method SizeOfRead(hexOffset: nat) returns (bytesInSegment: nat, bytesToRead: nat)
    ensures bytesInSegment == SEGMENT <==> hexOffset % 0x1_0000 == 0
    ensures bytesToRead == LineRoom(hexOffset)
  {
    bytesInSegment := SEGMENT - hexOffset % 0x1_0000;
    bytesToRead := if bytesInSegment > LINE_LENGTH then LINE_LENGTH else bytesInSegment;
  }
}
