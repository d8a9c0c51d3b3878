/** The CRC of the 1581's address fields, after c1581.cc: the table-driven routine computes the
    bit-by-bit one, a field followed by its CRC has residue 0, and short bursts never hide. */
module Crc16 {

  // ---------------------------------------------------------------- bit by bit

  /** One bit of the division by x^16 + x^12 + x^5 + 1: the bit that falls out at the top is
      taken away at places 0, 5 and 12. */
  function Shift(crc: bv16): bv16 {
    Subtract(crc << 1, crc >> 15)
  }

  function Subtract(x: bv16, bit: bv16): bv16 {
    x ^ bit ^ (bit << 5) ^ (bit << 12)
  }

  lemma ShiftSubtracts(crc: bv16)
    ensures Shift(crc) == if crc & 0x8000 != 0 then (crc << 1) ^ 0x1021 else crc << 1
  {
    TopBit(crc);
    SubtractOne(crc << 1);
    SubtractNone(crc << 1);
  }

  lemma TopBit(crc: bv16)
    ensures crc >> 15 == if crc & 0x8000 != 0 then 1 else 0
  {
  }

  lemma SubtractOne(x: bv16)
    ensures Subtract(x, 1) == x ^ 0x1021
  {
  }

  lemma SubtractNone(x: bv16)
    ensures Subtract(x, 0) == x
  {
  }

  function Eight(crc: bv16): bv16 {
    Shift(Shift(Shift(Shift(Shift(Shift(Shift(Shift(crc))))))))
  }

  function Times(f: bv16 -> bv16, n: nat, x: bv16): bv16
    decreases n
  {
    if n == 0 then x else f(Times(f, n - 1, x))
  }

  lemma EightTimes(f: bv16 -> bv16, x: bv16)
    ensures Times(f, 8, x) == f(f(f(f(f(f(f(f(x))))))))
  {
  }

  /** One byte, its highest bit first. */
  function Feed(crc: bv16, b: bv8): bv16 {
    Eight(crc ^ ((b as bv16) << 8))
  }

  function Fold(feed: (bv16, bv8) -> bv16, seed: bv16, s: seq<bv8>): bv16
    decreases |s|
  {
    if s == [] then seed else Fold(feed, feed(seed, s[0]), s[1..])
  }

  /** The CRC of some bytes, bit by bit. */
  function Crc(seed: bv16, s: seq<bv8>): bv16 {
    Fold(Feed, seed, s)
  }

  // ---------------------------------------------------------------- by table

  function Pick(i: bv8, v0: bv16, v1: bv16, v2: bv16, v3: bv16, v4: bv16, v5: bv16, v6: bv16, v7: bv16): bv16 {
    if i == 0 then v0 else if i == 1 then v1 else if i == 2 then v2 else if i == 3 then v3
    else if i == 4 then v4 else if i == 5 then v5 else if i == 6 then v6 else v7
  }

  /** The table of 256 entries, eight to a row. */
  function Table(i: bv8): bv16 {
    var row := i >> 3;
    if row == 0x00 then Pick(i & 7, 0x0000, 0x1021, 0x2042, 0x3063, 0x4084, 0x50a5, 0x60c6, 0x70e7)
    else if row == 0x01 then Pick(i & 7, 0x8108, 0x9129, 0xa14a, 0xb16b, 0xc18c, 0xd1ad, 0xe1ce, 0xf1ef)
    else if row == 0x02 then Pick(i & 7, 0x1231, 0x0210, 0x3273, 0x2252, 0x52b5, 0x4294, 0x72f7, 0x62d6)
    else if row == 0x03 then Pick(i & 7, 0x9339, 0x8318, 0xb37b, 0xa35a, 0xd3bd, 0xc39c, 0xf3ff, 0xe3de)
    else if row == 0x04 then Pick(i & 7, 0x2462, 0x3443, 0x0420, 0x1401, 0x64e6, 0x74c7, 0x44a4, 0x5485)
    else if row == 0x05 then Pick(i & 7, 0xa56a, 0xb54b, 0x8528, 0x9509, 0xe5ee, 0xf5cf, 0xc5ac, 0xd58d)
    else if row == 0x06 then Pick(i & 7, 0x3653, 0x2672, 0x1611, 0x0630, 0x76d7, 0x66f6, 0x5695, 0x46b4)
    else if row == 0x07 then Pick(i & 7, 0xb75b, 0xa77a, 0x9719, 0x8738, 0xf7df, 0xe7fe, 0xd79d, 0xc7bc)
    else if row == 0x08 then Pick(i & 7, 0x48c4, 0x58e5, 0x6886, 0x78a7, 0x0840, 0x1861, 0x2802, 0x3823)
    else if row == 0x09 then Pick(i & 7, 0xc9cc, 0xd9ed, 0xe98e, 0xf9af, 0x8948, 0x9969, 0xa90a, 0xb92b)
    else if row == 0x0a then Pick(i & 7, 0x5af5, 0x4ad4, 0x7ab7, 0x6a96, 0x1a71, 0x0a50, 0x3a33, 0x2a12)
    else if row == 0x0b then Pick(i & 7, 0xdbfd, 0xcbdc, 0xfbbf, 0xeb9e, 0x9b79, 0x8b58, 0xbb3b, 0xab1a)
    else if row == 0x0c then Pick(i & 7, 0x6ca6, 0x7c87, 0x4ce4, 0x5cc5, 0x2c22, 0x3c03, 0x0c60, 0x1c41)
    else if row == 0x0d then Pick(i & 7, 0xedae, 0xfd8f, 0xcdec, 0xddcd, 0xad2a, 0xbd0b, 0x8d68, 0x9d49)
    else if row == 0x0e then Pick(i & 7, 0x7e97, 0x6eb6, 0x5ed5, 0x4ef4, 0x3e13, 0x2e32, 0x1e51, 0x0e70)
    else if row == 0x0f then Pick(i & 7, 0xff9f, 0xefbe, 0xdfdd, 0xcffc, 0xbf1b, 0xaf3a, 0x9f59, 0x8f78)
    else if row == 0x10 then Pick(i & 7, 0x9188, 0x81a9, 0xb1ca, 0xa1eb, 0xd10c, 0xc12d, 0xf14e, 0xe16f)
    else if row == 0x11 then Pick(i & 7, 0x1080, 0x00a1, 0x30c2, 0x20e3, 0x5004, 0x4025, 0x7046, 0x6067)
    else if row == 0x12 then Pick(i & 7, 0x83b9, 0x9398, 0xa3fb, 0xb3da, 0xc33d, 0xd31c, 0xe37f, 0xf35e)
    else if row == 0x13 then Pick(i & 7, 0x02b1, 0x1290, 0x22f3, 0x32d2, 0x4235, 0x5214, 0x6277, 0x7256)
    else if row == 0x14 then Pick(i & 7, 0xb5ea, 0xa5cb, 0x95a8, 0x8589, 0xf56e, 0xe54f, 0xd52c, 0xc50d)
    else if row == 0x15 then Pick(i & 7, 0x34e2, 0x24c3, 0x14a0, 0x0481, 0x7466, 0x6447, 0x5424, 0x4405)
    else if row == 0x16 then Pick(i & 7, 0xa7db, 0xb7fa, 0x8799, 0x97b8, 0xe75f, 0xf77e, 0xc71d, 0xd73c)
    else if row == 0x17 then Pick(i & 7, 0x26d3, 0x36f2, 0x0691, 0x16b0, 0x6657, 0x7676, 0x4615, 0x5634)
    else if row == 0x18 then Pick(i & 7, 0xd94c, 0xc96d, 0xf90e, 0xe92f, 0x99c8, 0x89e9, 0xb98a, 0xa9ab)
    else if row == 0x19 then Pick(i & 7, 0x5844, 0x4865, 0x7806, 0x6827, 0x18c0, 0x08e1, 0x3882, 0x28a3)
    else if row == 0x1a then Pick(i & 7, 0xcb7d, 0xdb5c, 0xeb3f, 0xfb1e, 0x8bf9, 0x9bd8, 0xabbb, 0xbb9a)
    else if row == 0x1b then Pick(i & 7, 0x4a75, 0x5a54, 0x6a37, 0x7a16, 0x0af1, 0x1ad0, 0x2ab3, 0x3a92)
    else if row == 0x1c then Pick(i & 7, 0xfd2e, 0xed0f, 0xdd6c, 0xcd4d, 0xbdaa, 0xad8b, 0x9de8, 0x8dc9)
    else if row == 0x1d then Pick(i & 7, 0x7c26, 0x6c07, 0x5c64, 0x4c45, 0x3ca2, 0x2c83, 0x1ce0, 0x0cc1)
    else if row == 0x1e then Pick(i & 7, 0xef1f, 0xff3e, 0xcf5d, 0xdf7c, 0xaf9b, 0xbfba, 0x8fd9, 0x9ff8)
    else Pick(i & 7, 0x6e17, 0x7e36, 0x4e55, 0x5e74, 0x2e93, 0x3eb2, 0x0ed1, 0x1ef0)
  }

  function Meet(crc: bv16, b: bv8): bv8 {
    ((crc >> 8) as bv8) ^ b
  }

  function Join(crc: bv16, entry: bv16): bv16 {
    (crc << 8) ^ entry
  }

  /** A step of the routine. */
  function Lookup(table: bv8 -> bv16, crc: bv16, b: bv8): bv16 {
    Join(crc, table(Meet(crc, b)))
  }

  function TableStep(crc: bv16, b: bv8): bv16 {
    Lookup(Table, crc, b)
  }

  /** Every entry is what eight bits of its index leave. */
  lemma TableIsEight(i: bv8)
    ensures Table(i) == Eight((i as bv16) << 8)
  {
    if i < 0x80 {
      LowerHalf(i);
    } else {
      UpperHalf(i);
    }
  }

  lemma LowerHalf(i: bv8)
    requires i < 0x80
    ensures Table(i) == Eight((i as bv16) << 8)
  {
  }

  lemma UpperHalf(i: bv8)
    requires i >= 0x80
    ensures Table(i) == Eight((i as bv16) << 8)
  {
  }

  /** The low byte of the CRC only moves up, and the high byte meets the next byte. */
  lemma BytesMeet(crc: bv16, b: bv8)
    ensures (crc << 8) ^ Eight(((((crc >> 8) as bv8) ^ b) as bv16) << 8) == Feed(crc, b)
  {
  }

  /** A step by a table that holds eight bits of each index is eight bits. */
  lemma LookupIsFeed(table: bv8 -> bv16, crc: bv16, b: bv8, i: bv8)
    requires i == Meet(crc, b) && table(i) == Eight((i as bv16) << 8)
    ensures Lookup(table, crc, b) == Feed(crc, b)
  {
    BytesMeet(crc, b);
  }

  lemma TableStepIsFeed(crc: bv16, b: bv8)
    ensures TableStep(crc, b) == Feed(crc, b)
  {
    var table: bv8 -> bv16 := Table;
    TableIsEight(Meet(crc, b));
    LookupIsFeed(table, crc, b, Meet(crc, b));
  }

  lemma {:induction false} SameStepsSameFold(f: (bv16, bv8) -> bv16, g: (bv16, bv8) -> bv16, seed: bv16, s: seq<bv8>)
    requires forall c, b :: f(c, b) == g(c, b)
    ensures Fold(f, seed, s) == Fold(g, seed, s)
    decreases |s|
  {
    if s != [] {
      SameStepsSameFold(f, g, f(seed, s[0]), s[1..]);
    }
  }

  /** The table-driven CRC is the bit-by-bit one, for every seed and all bytes. */
  lemma TableDrivenIsBitwise(seed: bv16, s: seq<bv8>)
    ensures Fold(TableStep, seed, s) == Crc(seed, s)
  {
    forall c, b
      ensures TableStep(c, b) == Feed(c, b)
    {
      TableStepIsFeed(c, b);
    }
    SameStepsSameFold(TableStep, Feed, seed, s);
  }

  /** The routine over a buffer. */
  method Crc16Ccitt(seed: bv16, buf: array<bv8>, len: nat) returns (crc: bv16)
    requires len <= buf.Length
    ensures crc == Crc(seed, buf[..len])
  {
    crc := seed;
    var counter := 0;
    while counter < len
      invariant counter <= len
      invariant Fold(TableStep, crc, buf[counter..len]) == Fold(TableStep, seed, buf[..len])
    {
      assert buf[counter..len][1..] == buf[counter + 1..len];
      crc := TableStep(crc, buf[counter]);
      counter := counter + 1;
    }
    TableDrivenIsBitwise(seed, buf[..len]);
  }

  // ---------------------------------------------------------------- seeds and residues

  lemma {:induction false} FoldTogether(feed: (bv16, bv8) -> bv16, seed: bv16, a: seq<bv8>, b: seq<bv8>)
    ensures Fold(feed, seed, a + b) == Fold(feed, Fold(feed, seed, a), b)
    decreases |a|
  {
    if a == [] {
      assert a + b == b;
    } else {
      assert (a + b)[0] == a[0] && (a + b)[1..] == a[1..] + b;
      FoldTogether(feed, feed(seed, a[0]), a[1..], b);
    }
  }

  lemma FoldTwo(feed: (bv16, bv8) -> bv16, seed: bv16, a: bv8, b: bv8)
    ensures Fold(feed, seed, [a, b]) == feed(feed(seed, a), b)
  {
    assert [a, b][1..] == [b] && [b][1..] == [];
    assert Fold(feed, seed, [a, b]) == Fold(feed, feed(seed, a), [b]);
    assert Fold(feed, feed(seed, a), [b]) == Fold(feed, feed(feed(seed, a), b), []);
  }

  function High(crc: bv16): bv8 {
    (crc >> 8) as bv8
  }

  function Low(crc: bv16): bv8 {
    (crc & 0xFF) as bv8
  }

  /** Feeding a CRC to itself, the high byte first, leaves nothing. */
  lemma ItselfLeavesNothing(crc: bv16)
    ensures Feed(Feed(crc, High(crc)), Low(crc)) == 0
  {
  }

  lemma {:induction false} ResidueOfFold(feed: (bv16, bv8) -> bv16, seed: bv16, s: seq<bv8>)
    requires forall c :: feed(feed(c, High(c)), Low(c)) == 0
    ensures var crc := Fold(feed, seed, s); Fold(feed, seed, s + [High(crc), Low(crc)]) == 0
  {
    var crc := Fold(feed, seed, s);
    FoldTogether(feed, seed, s, [High(crc), Low(crc)]);
    FoldTwo(feed, crc, High(crc), Low(crc));
  }

  /** Any bytes followed by their CRC, the high byte first, have residue 0. */
  lemma ResidueIsZero(seed: bv16, s: seq<bv8>)
    ensures Crc(seed, s + [High(Crc(seed, s)), Low(Crc(seed, s))]) == 0
  {
    forall c
      ensures Feed(Feed(c, High(c)), Low(c)) == 0
    {
      ItselfLeavesNothing(c);
    }
    ResidueOfFold(Feed, seed, s);
  }

  const SYNC_SEED: bv16 := 0xB230

  function AddressMark(): seq<bv8> {
    [0xA1, 0xA1, 0xA1, 0xFE]
  }

  lemma FourBytesGiveSeed()
    ensures Feed(Feed(Feed(Feed(0xFFFF, 0xA1), 0xA1), 0xA1), 0xFE) == SYNC_SEED
  {
  }

  lemma FoldFour(feed: (bv16, bv8) -> bv16, seed: bv16, a: bv8, b: bv8, c: bv8, d: bv8)
    ensures Fold(feed, seed, [a, b, c, d]) == feed(feed(feed(feed(seed, a), b), c), d)
  {
    assert [a, b, c, d] == [a, b] + [c, d];
    FoldTogether(feed, seed, [a, b], [c, d]);
    FoldTwo(feed, seed, a, b);
    FoldTwo(feed, feed(feed(seed, a), b), c, d);
  }

  /** The seed stands for the sync bytes and the address mark, which are never in the buffer. */
  lemma SeedIsAddressMark(s: seq<bv8>)
    ensures Crc(SYNC_SEED, s) == Crc(0xFFFF, AddressMark() + s)
  {
    FoldFour(Feed, 0xFFFF, 0xA1, 0xA1, 0xA1, 0xFE);
    FourBytesGiveSeed();
    FoldTogether(Feed, 0xFFFF, AddressMark(), s);
  }

  // ---------------------------------------------------------------- the address field

  const SECTORS: bv8 := 10

  /** READ ADDRESS: the next sector's field in the buffer, followed by its CRC. */
  class AddressReader {
    const buffer: array<bv8>
    var sector: bv8

    constructor (buffer: array<bv8>, sector: bv8)
      ensures this.buffer == buffer && this.sector == sector
    {
      this.buffer := buffer;
      this.sector := sector;
    }

    method ReadAddress(track: bv8, side: bv8)
      requires buffer.Length >= 6
      modifies this, buffer
      ensures sector == if old(sector) + 1 > SECTORS then 1 else old(sector) + 1
      ensures buffer[..4] == [track, side, sector, 2]
      ensures Crc(0xFFFF, AddressMark() + buffer[..6]) == 0
      ensures forall i :: 6 <= i < buffer.Length ==> buffer[i] == old(buffer[i])
    {
      sector := sector + 1;
      if sector > SECTORS {
        sector := 1;
      }
      buffer[0], buffer[1], buffer[2], buffer[3] := track, side, sector, 2;
      AppendCrc();
    }

    /** Puts the CRC of the first four bytes behind them. */
    method AppendCrc()
      requires buffer.Length >= 6
      modifies buffer
      ensures buffer[..4] == old(buffer[..4])
      ensures Crc(0xFFFF, AddressMark() + buffer[..6]) == 0
      ensures forall i :: 6 <= i < buffer.Length ==> buffer[i] == old(buffer[i])
    {
      var crc := Crc16Ccitt(SYNC_SEED, buffer, 4);
      ghost var field, high, low := buffer[..4], High(crc), Low(crc);
      buffer[4] := High(crc);
      buffer[5] := Low(crc);
      assert buffer[..6] == field + [high, low];
      ResidueIsZero(SYNC_SEED, field);
      SeedIsAddressMark(buffer[..6]);
    }
  }

  // ---------------------------------------------------------------- what it detects

  /** The way back of one bit. */
  function Unshift(crc: bv16): bv16 {
    ((crc ^ (crc & 1) ^ ((crc & 1) << 5) ^ ((crc & 1) << 12)) >> 1) ^ ((crc & 1) << 15)
  }

  function Uneight(crc: bv16): bv16 {
    Unshift(Unshift(Unshift(Unshift(Unshift(Unshift(Unshift(Unshift(crc))))))))
  }

  lemma UnshiftInverts(crc: bv16)
    ensures Unshift(Shift(crc)) == crc
  {
  }

  lemma {:induction false} TimesLast(f: bv16 -> bv16, n: nat, x: bv16)
    requires n > 0
    ensures Times(f, n, x) == Times(f, n - 1, f(x))
    decreases n
  {
    if n > 1 {
      TimesLast(f, n - 1, x);
    }
  }

  lemma {:induction false} TimesBack(f: bv16 -> bv16, g: bv16 -> bv16, n: nat, x: bv16)
    requires forall y :: g(f(y)) == y
    ensures Times(g, n, Times(f, n, x)) == x
    decreases n
  {
    if n > 0 {
      TimesLast(g, n, Times(f, n, x));
      TimesBack(f, g, n - 1, x);
    }
  }

  lemma UneightInverts(crc: bv16)
    ensures Uneight(Eight(crc)) == crc
  {
    forall y
      ensures Unshift(Shift(y)) == y
    {
      UnshiftInverts(y);
    }
    TimesBack(Shift, Unshift, 8, crc);
    EightTimes(Shift, crc);
    EightTimes(Unshift, Eight(crc));
  }

  function Unfeed(crc: bv16, b: bv8): bv16 {
    Uneight(crc) ^ ((b as bv16) << 8)
  }

  lemma ByteCancels(x: bv16, y: bv16)
    ensures (x ^ y) ^ y == x
  {
  }

  lemma UnfeedInverts(crc: bv16, b: bv8)
    ensures Unfeed(Feed(crc, b), b) == crc
  {
    UneightInverts(crc ^ ((b as bv16) << 8));
    ByteCancels(crc, (b as bv16) << 8);
  }

  function Mix(u: bv16, b: bv8): bv16 {
    u ^ ((b as bv16) << 8)
  }

  /** The index whose table entry has this low byte. */
  function Index(low: bv8): bv8 {
    var t := low ^ (low << 5);
    t ^ (t >> 4)
  }

  lemma LowByteTellsIndex(i: bv8)
    ensures Index(Low(Eight((i as bv16) << 8))) == i
  {
  }

  function Entry(i: bv8): bv16 {
    Eight((i as bv16) << 8)
  }

  function Unmeet(i: bv8, crc: bv16): bv8 {
    i ^ ((crc >> 8) as bv8)
  }

  function Second(w: bv16, u: bv16): bv8 {
    High(w ^ u)
  }

  lemma EntryJoins(crc: bv16, b: bv8)
    ensures Lookup(Entry, crc, b) == Feed(crc, b)
  {
    LookupIsFeed(Entry, crc, b, Meet(crc, b));
  }

  lemma LowStays(crc: bv16, entry: bv16, b: bv8)
    ensures Low(Mix(Join(crc, entry), b)) == Low(entry)
  {
  }

  lemma UnmeetInverts(crc: bv16, b: bv8)
    ensures Unmeet(Meet(crc, b), crc) == b
  {
  }

  lemma SecondIsTold(u: bv16, b: bv8)
    ensures Second(Mix(u, b), u) == b
  {
  }

  /** The first of two bytes shows in the low byte, which the second one leaves alone. */
  lemma FirstIsTold(feed: (bv16, bv8) -> bv16, mix: (bv16, bv8) -> bv16, low: bv16 -> bv8, index: bv8 -> bv8,
                    unmeet: (bv8, bv16) -> bv8, entry: bv8 -> bv16)
    requires forall x, e :: feed(x, e) == Lookup(entry, x, e)
    requires forall x, t, f :: low(mix(Join(x, t), f)) == low(t)
    requires forall i :: index(low(entry(i))) == i
    requires forall x, e :: unmeet(Meet(x, e), x) == e
    ensures forall x, e, f :: unmeet(index(low(mix(feed(x, e), f))), x) == e
  {
    forall x, e, f
      ensures unmeet(index(low(mix(feed(x, e), f))), x) == e
    {
      var t := entry(Meet(x, e));
      assert feed(x, e) == Join(x, t);
      assert low(mix(Join(x, t), f)) == low(t);
      assert index(low(t)) == Meet(x, e);
      assert unmeet(Meet(x, e), x) == e;
    }
  }

  lemma {:induction false} TailIsOneToOne(feed: (bv16, bv8) -> bv16, back: (bv16, bv8) -> bv16, x: bv16, y: bv16,
                                          s: seq<bv8>)
    requires forall c, b :: back(feed(c, b), b) == c
    requires Fold(feed, x, s) == Fold(feed, y, s)
    ensures x == y
    decreases |s|
  {
    if s != [] {
      TailIsOneToOne(feed, back, feed(x, s[0]), feed(y, s[0]), s[1..]);
      assert back(feed(x, s[0]), s[0]) == x && back(feed(y, s[0]), s[0]) == y;
    }
  }

  lemma {:induction false} BurstOfFold(feed: (bv16, bv8) -> bv16, back: (bv16, bv8) -> bv16, undo: bv16 -> bv16,
                                       mix: (bv16, bv8) -> bv16, low: bv16 -> bv8, index: bv8 -> bv8,
                                       unmeet: (bv8, bv16) -> bv8, second: (bv16, bv16) -> bv8,
                                       seed: bv16, front: seq<bv8>, a: bv8, b: bv8, c: bv8, d: bv8, rest: seq<bv8>)
    requires forall x, e :: back(feed(x, e), e) == x
    requires forall x, e :: undo(feed(x, e)) == mix(x, e)
    requires forall x, e, f :: unmeet(index(low(mix(feed(x, e), f))), x) == e
    requires forall x, e :: second(mix(x, e), x) == e
    requires Fold(feed, seed, front + ([a, b] + rest)) == Fold(feed, seed, front + ([c, d] + rest))
    ensures a == c && b == d
  {
    var state := Fold(feed, seed, front);
    FoldTogether(feed, seed, front, [a, b] + rest);
    FoldTogether(feed, seed, front, [c, d] + rest);
    FoldTogether(feed, state, [a, b], rest);
    FoldTogether(feed, state, [c, d], rest);
    FoldTwo(feed, state, a, b);
    FoldTwo(feed, state, c, d);
    var u, v := feed(state, a), feed(state, c);
    TailIsOneToOne(feed, back, feed(u, b), feed(v, d), rest);
    assert mix(u, b) == undo(feed(u, b)) == undo(feed(v, d)) == mix(v, d);
    assert a == unmeet(index(low(mix(u, b))), state) == unmeet(index(low(mix(v, d))), state) == c;
    assert b == second(mix(u, b), u) == second(mix(v, d), v) == d;
  }

  lemma FeedIsUndone(x: bv16, e: bv8)
    ensures Uneight(Feed(x, e)) == Mix(x, e)
  {
    UneightInverts(Mix(x, e));
  }

  lemma FeedCanBeUndone()
    ensures forall x, e :: Unfeed(Feed(x, e), e) == x
    ensures forall x, e :: Uneight(Feed(x, e)) == Mix(x, e)
    ensures forall x, e :: Second(Mix(x, e), x) == e
  {
    forall x, e
      ensures Unfeed(Feed(x, e), e) == x && Uneight(Feed(x, e)) == Mix(x, e) && Second(Mix(x, e), x) == e
    {
      UnfeedInverts(x, e);
      FeedIsUndone(x, e);
      SecondIsTold(x, e);
    }
  }

  lemma EntriesCanBeTold()
    ensures forall x, e :: Feed(x, e) == Lookup(Entry, x, e)
    ensures forall x, t, f :: Low(Mix(Join(x, t), f)) == Low(t)
    ensures forall i :: Index(Low(Entry(i))) == i
    ensures forall x, e :: Unmeet(Meet(x, e), x) == e
  {
    forall x, e
      ensures Feed(x, e) == Lookup(Entry, x, e)
    {
      EntryJoins(x, e);
    }
    forall x, t, f
      ensures Low(Mix(Join(x, t), f)) == Low(t)
    {
      LowStays(x, t, f);
    }
    forall i
      ensures Index(Low(Entry(i))) == i
    {
      LowByteTellsIndex(i);
    }
    forall x, e
      ensures Unmeet(Meet(x, e), x) == e
    {
      UnmeetInverts(x, e);
    }
  }

  /** Messages that differ, but only within two neighbouring bytes, never have the same CRC. */
  lemma BurstIsDetected(seed: bv16, front: seq<bv8>, a: bv8, b: bv8, c: bv8, d: bv8, rest: seq<bv8>)
    ensures Crc(seed, front + ([a, b] + rest)) == Crc(seed, front + ([c, d] + rest)) <==> a == c && b == d
  {
    if Crc(seed, front + ([a, b] + rest)) == Crc(seed, front + ([c, d] + rest)) {
      FeedCanBeUndone();
      EntriesCanBeTold();
      FirstIsTold(Feed, Mix, Low, Index, Unmeet, Entry);
      BurstOfFold(Feed, Unfeed, Uneight, Mix, Low, Index, Unmeet, Second, seed, front, a, b, c, d, rest);
    }
  }
}
