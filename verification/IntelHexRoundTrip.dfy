/** bin2hex and hex2bin agree: the reader recovers what the writer was given. */
module IntelHexRoundTrip {
  import opened Common
  import opened ByteType
  import opened Hex
  import opened IntelHex
  import opened IntelHexReader

  lemma HexByteReads(b: Byte, rest: string)
    ensures ByteOf(HexByte(b) + rest) == b && Skip2(HexByte(b) + rest) == rest
  {
    var t := HexByte(b) + rest;
    assert t[0] == HexDigit(b / 16) && t[1] == HexDigit(b % 16);
  }

  lemma {:induction false} HexReads(s: seq<Byte>, rest: string)
    ensures Bytes(HexBytes(s) + rest, |s|) == s && SkipBytes(HexBytes(s) + rest, |s|) == rest
  {
    if s == [] {
      assert HexBytes(s) + rest == rest;
    } else {
      Regroup(HexByte(s[0]), HexBytes(s[1..]), rest);
      HexByteReads(s[0], HexBytes(s[1..]) + rest);
      HexReads(s[1..], rest);
    }
  }

  /** A record whose first byte counts the data bytes, as all the writer's records are. */
  predicate Counted(fields: seq<Byte>) {
    |fields| >= 4 && |fields| == fields[0] as int + 4 && |fields| < RECORD_BUFFER
  }

  lemma SkipsNewline(t: string)
    requires t != "" && t[0] == '\n'
    ensures NextRecord(t) == NextRecord(t[1..])
  {
  }

  /** A line's record as it stands in the file, and the rest of the file behind it. */
  lemma LineFound(newline: string, fields: seq<Byte>, rest: string) returns (record: seq<Byte>, u: string)
    requires newline == "" || newline == "\n"
    requires Counted(fields)
    ensures record == fields + [Checksum(fields)] && |record| == fields[0] as int + 5
    ensures NextRecord(newline + (Line(fields) + rest)) == Some(u) && ByteOf(u) == fields[0]
    ensures Bytes(u, |record|) == record && SkipBytes(u, |record|) == "\n" + rest
  {
    record := fields + [Checksum(fields)];
    u := HexBytes(record) + ("\n" + rest);
    assert Line(fields) + rest == ":" + u by {
      Regroup(":" + HexBytes(record), "\n", rest);
      Regroup(":", HexBytes(record), "\n" + rest);
    }
    NextIs(newline, u);
    HexReads(record, "\n" + rest);
    assert Bytes(u, |record|)[0] == ByteOf(u);
  }

  /** What the reader makes of a line: its record, applied, and then the rest of the file. */
  lemma LineReads(newline: string, fields: seq<Byte>, rest: string, r: Reader, offset: nat, size: nat)
    requires newline == "" || newline == "\n"
    requires Counted(fields) && |r.mem| == size + SLACK
    ensures |fields + [Checksum(fields)]| == fields[0] as int + 5 <= RECORD_BUFFER
    ensures var e := Apply(fields + [Checksum(fields)], r, offset, size);
      Read(newline + (Line(fields) + rest), r, offset, size)
      == if e.Stop? then e.result else Read("\n" + rest, e.r, offset, size)
  {
    var record, u := LineFound(newline, fields, rest);
  }

  lemma NextIs(newline: string, u: string)
    requires newline == "" || newline == "\n"
    ensures NextRecord(newline + (":" + u)) == Some(u)
  {
    var line := ":" + u;
    assert line[1..] == u;
    if newline == "\n" {
      assert (newline + line)[1..] == line;
      SkipsNewline(newline + line);
    } else {
      assert newline + line == line;
    }
  }

  // ---------------------------------------------------------------- the writer's records

  /** The state of the reader after the first `p` bytes. */
  predicate ReadSoFar(r: Reader, data: seq<Byte>, p: nat, mem: seq<Byte>) {
    && p <= |data| <= |mem|
    && r.mem == data[..p] + mem[p..]
    && r.high == (if p == 0 then 0 else p - 1)
    && r.addr < WORD
  }

  lemma SegmentApplies(at: nat, r: Reader, offset: nat, size: nat)
    requires at < WORD && |r.mem| == size + SLACK && r.addr < WORD
    ensures var fields := SegmentFields(at);
      Counted(fields) && Apply(fields + [Checksum(fields)], r, offset, size)
      == Go(r.(addr := at / 0x1_0000 * SEGMENT + r.addr % 0x1_0000))
  {
    var fields := SegmentFields(at);
    var record := fields + [Checksum(fields)];
    assert record[0] == 2 && record[3] == 4 && record[4] == at / 0x1_0000 / 256 && record[5] == at / 0x1_0000 % 256;
    assert Word(record[4], record[5]) == at / 0x1_0000;
  }

  /** A data record in range, as the reader takes it. */
  lemma DataRecord(record: seq<Byte>, n: nat, at: nat, r: Reader, offset: nat, size: nat)
    requires 0 < n && |record| == n + 5 <= RECORD_BUFFER && |r.mem| == size + SLACK
    requires record[0] == n && record[3] == 0 && DataAddress(r.addr, record[1], record[2]) == at
    requires offset <= at && at - offset < size
    ensures Apply(record, r, offset, size)
         == Go(Reader((at + n) % 0x1_0000_0000, if at - offset + n - 1 > r.high then at - offset + n - 1 else r.high,
                      Store(r.mem, at - offset, record[4..4 + n])))
  {
  }

  lemma DataApplies(data: seq<Byte>, p: nat, n: nat, p': nat, mem: seq<Byte>, r: Reader, offset: nat, size: nat)
    returns (record: seq<Byte>, r': Reader)
    requires ReadSoFar(r, data, p, mem) && |mem| == size + SLACK && |data| <= size
    requires 0 < n <= LINE_LENGTH && p + n == p' <= |data| && offset + |data| <= WORD
    requires r.addr / 0x1_0000 == (offset + p) / 0x1_0000
    ensures record == DataFields(offset + p, data[p..p + n]) && Counted(record)
    ensures Apply(record + [Checksum(record)], r, offset, size) == Go(r')
    ensures ReadSoFar(r', data, p', mem) && r'.addr == (offset + p') % 0x1_0000_0000
  {
    var at := offset + p;
    record := DataFields(at, data[p..p + n]);
    var whole := record + [Checksum(record)];
    assert whole[0] == n && whole[3] == 0 && whole[1] == at % 0x1_0000 / 256 && whole[2] == at % 256;
    AddressIs(r.addr, at);
    assert whole[4..4 + n] == data[p..p + n];
    StoreIs(data, p, n, mem);
    DataRecord(whole, n, at, r, offset, size);
    assert at + n == offset + p';
    r' := Reader((offset + p') % 0x1_0000_0000, p' - 1, data[..p'] + mem[p'..]);
  }

  lemma AddressIs(addr: nat, at: nat)
    requires addr / 0x1_0000 == at / 0x1_0000
    ensures DataAddress(addr, at % 0x1_0000 / 256, at % 256) == at
  {
    assert at % 256 == at % 0x1_0000 % 256;
  }

  lemma StoreIs(data: seq<Byte>, p: nat, n: nat, mem: seq<Byte>)
    requires p + n <= |data| <= |mem|
    ensures Store(data[..p] + mem[p..], p, data[p..p + n]) == data[..p + n] + mem[p + n..]
  {
  }

  /** The rest of the file as the reader stands before it. */
  function Ahead(newline: string, records: seq<seq<Byte>>): string {
    newline + FileText(records)
  }

  lemma RecordReads(newline: string, record: seq<Byte>, more: seq<seq<Byte>>, r: Reader, offset: nat, size: nat)
    requires newline == "" || newline == "\n"
    requires Counted(record) && |r.mem| == size + SLACK
    ensures |record + [Checksum(record)]| == record[0] as int + 5 <= RECORD_BUFFER
    ensures var e := Apply(record + [Checksum(record)], r, offset, size);
      Read(Ahead(newline, [record] + more), r, offset, size)
      == if e.Stop? then e.result else Read(Ahead("\n", more), e.r, offset, size)
  {
    assert ([record] + more)[1..] == more;
    LineReads(newline, record, FileText(more), r, offset, size);
  }

  lemma EndReads(newline: string, r: Reader, offset: nat, size: nat)
    requires newline == "" || newline == "\n"
    requires |r.mem| == size + SLACK
    ensures Read(Ahead(newline, [END_FIELDS]), r, offset, size) == Finished(r.high, r.mem)
  {
    assert [END_FIELDS] + [] == [END_FIELDS];
    RecordReads(newline, END_FIELDS, [], r, offset, size);
    assert (END_FIELDS + [Checksum(END_FIELDS)])[3] == 1;
  }

  /** One chunk: a segment record if one is due, and the data record. */
  lemma ChunkReads(newline: string, data: seq<Byte>, p: nat, n: nat, p': nat, first: bool, more: seq<seq<Byte>>,
                   all: seq<seq<Byte>>, mem: seq<Byte>, r: Reader, offset: nat, size: nat) returns (r': Reader)
    requires newline == "" || newline == "\n"
    requires ReadSoFar(r, data, p, mem) && |mem| == size + SLACK && |data| <= size
    requires 0 < n <= LINE_LENGTH && p + n == p' <= |data| && offset + |data| <= WORD
    requires first || (offset + p) % 0x1_0000 == 0 || r.addr / 0x1_0000 == (offset + p) / 0x1_0000
    requires all == ChunkRecords(data[p..p + n], offset + p, first) + more
    ensures ReadSoFar(r', data, p', mem) && r'.addr == (offset + p') % 0x1_0000_0000
    ensures Read(Ahead(newline, all), r, offset, size) == Read(Ahead("\n", more), r', offset, size)
  {
    var at, part := offset + p, data[p..p + n];
    var fields := DataFields(at, part);
    var r1, newline1 := r, newline;
    if first || at % 0x1_0000 == 0 {
      SegmentApplies(at, r, offset, size);
      r1, newline1 := r.(addr := at / 0x1_0000 * SEGMENT + r.addr % 0x1_0000), "\n";
      HighWord(at, r.addr);
      assert all == [SegmentFields(at)] + ([fields] + more);
      RecordReads(newline, SegmentFields(at), [fields] + more, r, offset, size);
    }
    var record;
    record, r' := DataApplies(data, p, n, p', mem, r1, offset, size);
    RecordReads(newline1, record, more, r1, offset, size);
  }

  lemma HighWord(at: nat, addr: nat)
    requires at < WORD
    ensures var a := at / 0x1_0000 * SEGMENT + addr % 0x1_0000;
      a / 0x1_0000 == at / 0x1_0000 && a < WORD
  {
  }

  lemma NextChunkReads(newline: string, data: seq<Byte>, p: nat, first: bool, all: seq<seq<Byte>>,
                       mem: seq<Byte>, r: Reader, offset: nat, size: nat)
    returns (p': nat, r': Reader, more: seq<seq<Byte>>)
    requires newline == "" || newline == "\n"
    requires ReadSoFar(r, data, p, mem) && |mem| == size + SLACK && p < |data| <= size
    requires offset + |data| <= WORD
    requires first || r.addr == (offset + p) % 0x1_0000_0000
    requires all == Records(data, p, offset + p, first) + [END_FIELDS]
    ensures p < p' && ReadSoFar(r', data, p', mem) && r'.addr == (offset + p') % 0x1_0000_0000
    ensures more == Records(data, p', offset + p', false) + [END_FIELDS]
    ensures Read(Ahead(newline, all), r, offset, size) == Read(Ahead("\n", more), r', offset, size)
  {
    var n, chunk;
    n, p', chunk, more := NextChunk(data, p, offset, first);
    AddressSoFar(r.addr, offset + p);
    r' := ChunkReads(newline, data, p, n, p', first, more, all, mem, r, offset, size);
  }

  lemma AddressSoFar(addr: nat, at: nat)
    requires at < WORD
    ensures addr == at % 0x1_0000_0000 ==> addr / 0x1_0000 == at / 0x1_0000
  {
  }

  lemma NextChunk(data: seq<Byte>, p: nat, offset: nat, first: bool)
    returns (n: nat, p': nat, chunk: seq<seq<Byte>>, more: seq<seq<Byte>>)
    requires p < |data| && offset + |data| <= WORD
    ensures 0 < n <= LINE_LENGTH && p + n == p' <= |data|
    ensures chunk == ChunkRecords(data[p..p + n], offset + p, first)
    ensures more == Records(data, p', offset + p', false) + [END_FIELDS]
    ensures Records(data, p, offset + p, first) + [END_FIELDS] == chunk + more
  {
    n := Chunk(data, p, offset + p);
    p' := p + n;
    assert offset + p' == offset + p + n;
    chunk := ChunkRecords(data[p..p + n], offset + p, first);
    more := Records(data, p', offset + p', false) + [END_FIELDS];
    Regroup(chunk, Records(data, p', offset + p', false), [END_FIELDS]);
  }

  lemma {:induction false} RecordsRead(newline: string, data: seq<Byte>, p: nat, first: bool, all: seq<seq<Byte>>,
                                       mem: seq<Byte>, r: Reader, offset: nat, size: nat)
    requires newline == "" || newline == "\n"
    requires ReadSoFar(r, data, p, mem) && |mem| == size + SLACK && |data| <= size
    requires offset + |data| <= WORD
    requires first || r.addr == (offset + p) % 0x1_0000_0000
    requires all == Records(data, p, offset + p, first) + [END_FIELDS]
    ensures Read(Ahead(newline, all), r, offset, size) == Finished(LastOf(data), data + mem[|data|..])
    decreases |data| - p
  {
    if p == |data| {
      NothingLeft(newline, data, first, all, mem, r, offset, size);
    } else {
      var p', r', more := NextChunkReads(newline, data, p, first, all, mem, r, offset, size);
      RecordsRead("\n", data, p', false, more, mem, r', offset, size);
    }
  }

  function LastOf(data: seq<Byte>): nat {
    if |data| == 0 then 0 else |data| - 1
  }

  lemma NothingLeft(newline: string, data: seq<Byte>, first: bool, all: seq<seq<Byte>>,
                    mem: seq<Byte>, r: Reader, offset: nat, size: nat)
    requires newline == "" || newline == "\n"
    requires ReadSoFar(r, data, |data|, mem) && |mem| == size + SLACK
    requires offset + |data| <= WORD && all == Records(data, |data|, offset + |data|, first) + [END_FIELDS]
    ensures Read(Ahead(newline, all), r, offset, size) == Finished(LastOf(data), data + mem[|data|..])
  {
    assert all == [END_FIELDS];
    EndReads(newline, r, offset, size);
    assert data[..|data|] == data;
  }

  // ---------------------------------------------------------------- file to file

  /** The bytes hex2bin writes out: none if the highest offset is 0, which it takes for a
      failure. */
  function BinFile(result: Result): Option<seq<Byte>> {
    match result
    case Finished(high, mem) => if high != 0 && high < |mem| then Some(mem[..high + 1]) else None
    case _ => None
  }

  /** The reader recovers exactly the data and leaves the rest of its buffer as it was. */
  lemma FileReads(data: seq<Byte>, offset: nat, size: nat, mem: seq<Byte>)
    requires |data| <= size && |mem| == size + SLACK && offset + |data| <= WORD
    ensures Read(Written(data, offset), Reader(0, 0, mem), offset, size)
         == Finished(LastOf(data), data + mem[|data|..])
  {
    var all := Records(data, 0, offset, true) + [END_FIELDS];
    assert data[..0] + mem[0..] == mem;
    RecordsRead("", data, 0, true, all, mem, Reader(0, 0, mem), offset, size);
    assert Ahead("", all) == FileText(all);
  }

  /** For data that fits the reader's size, at any offset inside the 32-bit space, across
      segment boundaries too, the file hex2bin writes is the file bin2hex was given; only
      files of no byte or one are taken for failures. */
  lemma HexRoundTrip(data: seq<Byte>, offset: nat, size: nat, mem: seq<Byte>)
    requires |data| <= size && |mem| == size + SLACK && offset + |data| <= WORD
    ensures BinFile(Read(Written(data, offset), Reader(0, 0, mem), offset, size))
         == if |data| >= 2 then Some(data) else None
  {
    FileReads(data, offset, size, mem);
    assert |data| >= 2 ==> (data + mem[|data|..])[..|data|] == data;
  }

  // ---------------------------------------------------------------- checksums in the file

  /** The records of a file: what stands behind its colons, each as long as its first byte
      says, checksums included. */
  function RecordsIn(t: string): seq<seq<Byte>>
    decreases |t|
  {
    var next := NextRecord(t);
    if next.None? then []
    else
      var n: nat := ByteOf(next.value) as int + 5;
      [Bytes(next.value, n)] + RecordsIn(SkipBytes(next.value, n))
  }

  predicate AllCounted(records: seq<seq<Byte>>) {
    forall i :: 0 <= i < |records| ==> Counted(records[i])
  }

  /** The file's records are those given, with their checksums, whatever stands in between. */
  predicate Holds(found: seq<seq<Byte>>, records: seq<seq<Byte>>) {
    |found| == |records|
    && forall i :: 0 <= i < |records| ==> found[i] == records[i] + [Checksum(records[i])]
  }

  lemma {:induction false} FileHolds(newline: string, records: seq<seq<Byte>>)
    requires (newline == "" || newline == "\n") && AllCounted(records)
    ensures Holds(RecordsIn(Ahead(newline, records)), records)
    decreases |records|
  {
    if records == [] {
      assert Ahead(newline, records) == newline;
      assert newline != "" ==> newline[1..] == "";
    } else {
      var record, u := LineFound(newline, records[0], FileText(records[1..]));
      FileHolds("\n", records[1..]);
      HoldsFirst(record, RecordsIn(Ahead("\n", records[1..])), records);
    }
  }

  lemma HoldsFirst(record: seq<Byte>, found: seq<seq<Byte>>, records: seq<seq<Byte>>)
    requires records != [] && record == records[0] + [Checksum(records[0])] && Holds(found, records[1..])
    ensures Holds([record] + found, records)
  {
    forall i | 0 < i < |records|
      ensures ([record] + found)[i] == records[i] + [Checksum(records[i])]
    {
      assert records[i] == records[1..][i - 1];
    }
  }

  lemma {:induction false} RecordsCounted(data: seq<Byte>, p: nat, offset: nat, first: bool)
    requires p <= |data| && offset + (|data| - p) <= WORD
    ensures AllCounted(Records(data, p, offset, first))
    decreases |data| - p
  {
    if p < |data| {
      var n := Chunk(data, p, offset);
      RecordsCounted(data, p + n, offset + n, false);
    }
  }

  /** The records that stand in a written file are the writer's, and each of them sums to 0
      modulo 256. */
  lemma FileSumsToZero(data: seq<Byte>, offset: nat)
    requires offset + |data| <= WORD
    ensures var found := RecordsIn(Written(data, offset));
      && Holds(found, Records(data, 0, offset, true) + [END_FIELDS])
      && forall i :: 0 <= i < |found| ==> Sum(found[i]) % 256 == 0
  {
    var all := Records(data, 0, offset, true) + [END_FIELDS];
    RecordsCounted(data, 0, offset, true);
    FileHolds("", all);
    assert Ahead("", all) == Written(data, offset);
    forall i | 0 <= i < |all|
      ensures Sum(all[i] + [Checksum(all[i])]) % 256 == 0
    {
      RecordSumsToZero(all[i]);
    }
  }
}
