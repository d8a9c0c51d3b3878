/** What the two name codecs of pattern.cc share. A character stands for a byte. */
module Petscii {
  import opened Hex

  predicate IsByte(c: char) {
    c < 256 as char
  }

  /** A C string of bytes: no NUL inside. */
  type Name = s: string | forall i :: 0 <= i < |s| ==> '\0' < s[i] < 256 as char
    witness ""

  /** hex2bin: the value of a hexadecimal digit, or -1. */
  function HexValue(c: char): (v: int)
    ensures -1 <= v < 16
  {
    if '0' <= c <= '9' then c as int - '0' as int
    else if 'A' <= c <= 'F' then c as int - 'A' as int + 10
    else if 'a' <= c <= 'f' then c as int - 'a' as int + 10
    else -1
  }

  /** The two digits an escape writes for a byte. */
  function HexPair(p: char): (s: string)
    requires IsByte(p)
    ensures |s| == 2
  {
    [HexDigit(p as int / 16), HexDigit(p as int % 16)]
  }

  lemma HexDigitValue(d: nat)
    requires d < 16
    ensures HexValue(HexDigit(d)) == d && ('0' <= HexDigit(d) <= '9' || 'A' <= HexDigit(d) <= 'F')
  {
  }

  lemma HexPairReads(p: char)
    requires IsByte(p)
    ensures HexValue(HexPair(p)[0]) * 16 + HexValue(HexPair(p)[1]) == p as int
    ensures HexValue(HexPair(p)[0]) >= 0 && HexValue(HexPair(p)[1]) >= 0
  {
    HexDigitValue(p as int / 16);
    HexDigitValue(p as int % 16);
  }

  /** The bytes of a C string in a buffer, without its NUL. */
  predicate Holds(buffer: string, s: string) {
    |s| < |buffer| && buffer[..|s|] == s && buffer[|s|] == '\0'
  }

  lemma SuffixSplit(text: string, j: nat, a: string, b: string)
    requires j <= |text| && text[j..] == a + b
    ensures j + |a| <= |text| && text[j..j + |a|] == a && text[j + |a|..] == b
    ensures forall q :: 0 <= q < |a| ==> text[j + q] == a[q]
  {
    assert text[j..][..|a|] == a && text[j..][|a|..] == b;
    forall q | 0 <= q < |a|
      ensures text[j + q] == a[q]
    {
      assert text[j..][q] == text[j + q];
    }
  }
}
