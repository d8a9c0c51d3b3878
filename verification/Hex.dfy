/** Hexadecimal digits, as every writer of the firmware and its tools spells them. */
module Hex {

  /** Entry `d` of the table "0123456789ABCDEF". */
  function HexDigit(d: nat): char
    requires d < 16
  {
    if d < 10 then ('0' as int + d) as char else ('A' as int + (d - 10)) as char
  }
}
