/** hex2bin: the reader of Intel HEX files, without its record mode. */
module IntelHexReader {
  import opened Common
  import opened ByteType
  import opened IntelHex

  const RECORD_BUFFER := 64
  const SLACK := 64  // the buffer is that much larger than `size`

  // ---------------------------------------------------------------- the file

  /** The value of a digit as the reader sees it: other characters, lower case included,
      count as 0. */
  function Digit(c: char): (d: nat)
    ensures d < 16
  {
    if '0' <= c <= '9' then c as int - '0' as int
    else if 'A' <= c <= 'F' then c as int - 55
    else 0
  }

  /** Two characters as a byte, and what follows; 0 at the end of the file. */
  function ByteOf(t: string): Byte {
    if |t| < 2 then 0 else Digit(t[0]) * 16 + Digit(t[1])
  }

  function Skip2(t: string): string {
    if |t| < 2 then "" else t[2..]
  }

  function Bytes(t: string, n: nat): (s: seq<Byte>)
    ensures |s| == n
    decreases n
  {
    if n == 0 then [] else [ByteOf(t)] + Bytes(Skip2(t), n - 1)
  }

  function SkipBytes(t: string, n: nat): (r: string)
    ensures |r| <= |t|
    decreases n
  {
    if n == 0 then t else SkipBytes(Skip2(t), n - 1)
  }

  /** What follows the next colon. */
  function NextRecord(t: string): (r: Option<string>)
    ensures r.Some? ==> |r.value| < |t|
  {
    if t == "" then None else if t[0] == ':' then Some(t[1..]) else NextRecord(t[1..])
  }

  // ---------------------------------------------------------------- records

  datatype Reader = Reader(addr: nat, high: nat, mem: seq<Byte>)

  /** `Overrun` stands for a record longer than the reader's record buffer, on which the C
      code writes past that buffer. */
  datatype Result = Finished(high: nat, mem: seq<Byte>) | Failed(mem: seq<Byte>) | Overrun

  function Store(mem: seq<Byte>, at: nat, part: seq<Byte>): (r: seq<Byte>)
    requires at + |part| <= |mem|
    ensures |r| == |mem|
  {
    mem[..at] + part + mem[at + |part|..]
  }

  /** The address a data record starts at: its own low word below the present high word. */
  function DataAddress(addr: nat, b1: Byte, b2: Byte): nat {
    addr / 0x1_0000 * SEGMENT + Word(b1, b2)
  }

  function Word(high: Byte, low: Byte): nat {
    high as int * 256 + low as int
  }

  /** What one record does; None if the reader goes on with the file. */
  datatype Effect = Go(r: Reader) | Stop(result: Result)

  function Apply(fields: seq<Byte>, r: Reader, offset: nat, size: nat): (e: Effect)
    requires |fields| >= 5 && |fields| == fields[0] as int + 5 <= RECORD_BUFFER
    requires |r.mem| == size + SLACK
    ensures e.Go? ==> |e.r.mem| == |r.mem|
  {
    match fields[3]
    case 0 =>
      var addr := DataAddress(r.addr, fields[1], fields[2]);
      if addr < offset || addr - offset >= size then Stop(Failed(r.mem))
      else
        var n, at := fields[0], addr - offset;
        var high := if n > 0 && at + n - 1 > r.high then at + n - 1 else r.high;
        Go(Reader((addr + n) % 0x1_0000_0000, high, Store(r.mem, at, fields[4..4 + n])))
    case 1 => Stop(Finished(r.high, r.mem))
    case 2 =>
      if fields[0] == 2 then Go(r.(addr := Word(fields[4], fields[5]) * 16)) else Stop(Failed(r.mem))
    case 3 => Go(r)
    case 4 =>
      if fields[0] == 2 then Go(r.(addr := Word(fields[4], fields[5]) * SEGMENT + r.addr % 0x1_0000))
      else Stop(Failed(r.mem))
    case 5 => Go(r)
    case _ => Stop(Failed(r.mem))
  }

  /** read_hex_file on the rest `t` of the file. Checksums are reported, not acted on. */
  function Read(t: string, r: Reader, offset: nat, size: nat): Result
    requires |r.mem| == size + SLACK
    decreases |t|
  {
    var next := NextRecord(t);
    if next.None? then Failed(r.mem)
    else
      var u := next.value;
      var n: int := ByteOf(u);
      if n + 5 > RECORD_BUFFER then Overrun
      else
        var e := Apply(Bytes(u, n + 5), r, offset, size);
        if e.Stop? then e.result else Read(SkipBytes(u, n + 5), e.r, offset, size)
  }

  // ---------------------------------------------------------------- in place

  /** The open file: its text and how far it has been read. */
  class Input {
    const text: string
    var pos: nat

    constructor (text: string)
      ensures this.text == text && pos == 0
    {
      this.text := text;
      pos := 0;
    }

    ghost predicate Valid()
      reads this
    {
      pos <= |text|
    }

    ghost function Rest(): string
      requires Valid()
      reads this
    {
      text[pos..]
    }

    /** read_hexuint8_t: whatever is left is consumed, but only two characters count. */
    method ReadByte() returns (b: Byte)
      requires Valid()
      modifies this
      ensures Valid() && b == ByteOf(old(Rest())) && Rest() == Skip2(old(Rest()))
    {
      if |text| - pos < 2 {
        pos := |text|;
        return 0;
      }
      var high, low := Digit(text[pos]), Digit(text[pos + 1]);
      b := high * 16 + low;
      ghost var t := Rest();
      pos := pos + 2;
      assert t[2..] == Rest();
    }

    /** Reads up to and past the next colon. */
    method FindRecord() returns (found: bool)
      requires Valid()
      modifies this
      ensures Valid()
      ensures found == NextRecord(old(Rest())).Some?
      ensures found ==> Rest() == NextRecord(old(Rest())).value
    {
      while pos < |text| && text[pos] != ':'
        invariant Valid() && NextRecord(Rest()) == NextRecord(old(Rest()))
        decreases |text| - pos
      {
        assert Rest()[1..] == text[pos + 1..];
        pos := pos + 1;
      }
      found := pos < |text|;
      if found {
        assert Rest()[1..] == text[pos + 1..];
        pos := pos + 1;
      }
    }

    /** The bytes of a record; None if they do not fit the record buffer. */
    method ReadRecord() returns (fields: Option<seq<Byte>>)
      requires Valid()
      modifies this
      ensures Valid()
      ensures var n: int := ByteOf(old(Rest()));
        if n + 5 > RECORD_BUFFER then fields == None
        else fields == Some(Bytes(old(Rest()), n + 5)) && Rest() == SkipBytes(old(Rest()), n + 5)
    {
      ghost var start := Rest();
      var first := ReadByte();
      if first as int + 5 > RECORD_BUFFER {
        return None;
      }
      var data := new Byte[RECORD_BUFFER];
      data[0] := first;
      var n := first as int + 5;
      ghost var b, rest := BytesMove([], start, n);
      assert data[..1] == [] + [b];
      ReadFields(data, n, rest);
      assert [] + Bytes(start, n) == Bytes(start, n);
      return Some(data[..n]);
    }

    /** The bytes of a record behind its first. */
    method ReadFields(data: array<Byte>, n: nat, ghost start: string)
      requires Valid() && 1 <= n <= data.Length && start == Rest()
      modifies this, data
      ensures Valid() && data[..n] == old(data[..1]) + Bytes(start, n - 1)
      ensures Rest() == SkipBytes(start, n - 1)
    {
      var i := 1;
      ghost var done, rest := data[..1], start;
      ghost var all, end := done + Bytes(start, n - 1), SkipBytes(start, n - 1);
      while i < n
        invariant Valid() && 1 <= i <= n && data[..i] == done && rest == Rest()
        invariant all == done + Bytes(rest, n - i) && end == SkipBytes(rest, n - i)
      {
        ghost var b, rest' := BytesMove(done, rest, n - i);
        var d := ReadByte();
        data[i] := d;
        i := i + 1;
        assert data[..i] == done + [b];
        done, rest := done + [b], rest';
      }
      assert done + [] == done;
    }
  }

  lemma BytesMove(before: seq<Byte>, t: string, n: nat) returns (b: Byte, rest: string)
    requires n > 0
    ensures b == ByteOf(t) && rest == Skip2(t)
    ensures before + Bytes(t, n) == (before + [b]) + Bytes(rest, n - 1)
    ensures SkipBytes(t, n) == SkipBytes(rest, n - 1)
  {
    b, rest := ByteOf(t), Skip2(t);
    assert before + ([b] + Bytes(rest, n - 1)) == (before + [b]) + Bytes(rest, n - 1);
  }

  /** The bytes of a data record go into the buffer one by one. */
  method Program(buffer: array<Byte>, part: seq<Byte>, addr0: nat, offset: nat, high0: nat)
    returns (addr: nat, high: nat)
    requires offset <= addr0 < WORD && addr0 - offset + |part| <= buffer.Length < WORD
    modifies buffer
    ensures addr == (addr0 + |part|) % 0x1_0000_0000
    ensures buffer[..] == Store(old(buffer[..]), addr0 - offset, part)
    ensures var last := addr0 - offset + |part| - 1;
      high == if |part| > 0 && last > high0 then last else high0
  {
    addr, high := addr0, high0;
    ghost var at, mem := addr0 - offset, buffer[..];
    var i := 0;
    while i < |part|
      invariant 0 <= i <= |part|
      invariant addr == (addr0 + i) % 0x1_0000_0000
      invariant buffer[..] == Store(mem, at, part[..i])
      invariant high == if i > 0 && at + i - 1 > high0 then at + i - 1 else high0
    {
      Distance(addr0, offset, i);
      StoreNext(mem, at, part, i);
      var index := (addr - offset) % 0x1_0000_0000;
      buffer[index] := part[i];
      if index > high {
        high := index;
      }
      addr := (addr + 1) % 0x1_0000_0000;
      i := i + 1;
    }
    assert part[..i] == part;
  }

  lemma StoreNext(mem: seq<Byte>, at: nat, part: seq<Byte>, i: nat)
    requires at + |part| <= |mem| && i < |part|
    ensures Store(mem, at, part[..i])[at + i := part[i]] == Store(mem, at, part[..i + 1])
  {
  }

  /** The 32-bit distance from the offset, even when the address has wrapped. */
  lemma Distance(addr0: nat, offset: nat, i: nat)
    requires offset <= addr0 < WORD && addr0 - offset + i < WORD
    ensures ((addr0 + i) % 0x1_0000_0000 - offset) % 0x1_0000_0000 == addr0 - offset + i
    ensures ((addr0 + i) % 0x1_0000_0000 + 1) % 0x1_0000_0000 == (addr0 + i + 1) % 0x1_0000_0000
  {
  }

  /** read_hex_file; 0 is its answer to every error, and `overrun` marks the records the C
      code has no room for. */
  method ReadHexFile(file: Input, buffer: array<Byte>, offset: nat, size: nat)
    returns (highest: nat, ok: bool, overrun: bool)
    requires file.Valid() && buffer.Length == size + SLACK < WORD && offset < WORD
    modifies file, buffer
    ensures var result := Read(old(file.Rest()), Reader(0, 0, old(buffer[..])), offset, size);
      match result
      case Finished(high, mem) => ok && !overrun && highest == high && buffer[..] == mem
      case Failed(mem) => !ok && !overrun && highest == 0 && buffer[..] == mem
      case Overrun => overrun
  {
    var addr: nat, high: nat := 0, 0;
    var stop := false;
    ok, overrun := false, false;
    while !stop
      invariant file.Valid() && addr < WORD
      invariant !stop ==> !ok && !overrun
      invariant Read(old(file.Rest()), Reader(0, 0, old(buffer[..])), offset, size)
             == if !stop then Read(file.Rest(), Reader(addr, high, buffer[..]), offset, size)
                else if overrun then Overrun
                else if ok then Finished(high, buffer[..]) else Failed(buffer[..])
      decreases !stop, |file.text| - file.pos
    {
      stop, ok, overrun, addr, high := HandleRecord(file, buffer, addr, high, offset, size);
    }
    highest := if ok then high else 0;
  }

  /** Finds a record, reads it and acts on it. */
  method HandleRecord(file: Input, buffer: array<Byte>, addr0: nat, high0: nat, offset: nat, size: nat)
    returns (stop: bool, ok: bool, overrun: bool, addr: nat, high: nat)
    requires file.Valid() && buffer.Length == size + SLACK < WORD && addr0 < WORD
    modifies file, buffer
    ensures file.Valid() && addr < WORD && (!stop ==> !ok && !overrun) && (overrun ==> !ok)
    ensures !stop ==> file.pos > old(file.pos)
    ensures Read(old(file.Rest()), Reader(addr0, high0, old(buffer[..])), offset, size)
         == if !stop then Read(file.Rest(), Reader(addr, high, buffer[..]), offset, size)
            else if overrun then Overrun
            else if ok then Finished(high, buffer[..]) else Failed(buffer[..])
  {
    stop, ok, overrun, addr, high := true, false, false, addr0, high0;
    ghost var mem := buffer[..];
    var found := file.FindRecord();
    if !found {
      return;
    }
    var record := file.ReadRecord();
    if record == None {
      overrun := true;
      return;
    }
    assert buffer[..] == mem;
    stop, ok, addr, high := ApplyRecord(record.value, buffer, addr0, high0, offset, size);
  }

  /** What one record does to the address and the buffer. */
  method ApplyRecord(data: seq<Byte>, buffer: array<Byte>, addr0: nat, high0: nat, offset: nat, size: nat)
    returns (stop: bool, ok: bool, addr: nat, high: nat)
    requires |data| >= 5 && |data| == data[0] as int + 5 <= RECORD_BUFFER
    requires buffer.Length == size + SLACK < WORD && addr0 < WORD
    modifies buffer
    ensures addr < WORD && (!stop ==> !ok)
    ensures var e := Apply(data, Reader(addr0, high0, old(buffer[..])), offset, size);
      if stop then e == Stop(if ok then Finished(high, buffer[..]) else Failed(buffer[..]))
      else e == Go(Reader(addr, high, buffer[..]))
  {
    stop, ok, addr, high := false, false, addr0, high0;
    if data[3] == 0 {
      var start := DataAddress(addr, data[1], data[2]);
      if start < offset || start - offset >= size {
        return true, false, addr0, high0;
      }
      HighWordBelow(addr, data[1], data[2]);
      addr, high := Program(buffer, data[4..4 + data[0] as int], start, offset, high);
    } else if data[3] == 1 {
      return true, true, addr0, high0;
    } else if data[3] == 2 && data[0] == 2 {
      addr := Word(data[4], data[5]) * 16;
    } else if data[3] == 4 && data[0] == 2 {
      addr := Word(data[4], data[5]) * SEGMENT + addr % 0x1_0000;
    } else if data[3] == 3 || data[3] == 5 {
    } else {
      return true, false, addr0, high0;
    }
  }

  lemma HighWordBelow(addr: nat, b1: Byte, b2: Byte)
    requires addr < WORD
    ensures DataAddress(addr, b1, b2) < WORD
  {
  }
}
