/** What strtol makes of a number in base 0: blanks and a sign in front, then the prefix that
    tells the base, then digits up to the first character that is none. */
module JsonNumbers {
  import opened Json

  /** What a digit is worth. */
  function Worth(c: char): nat {
    if '0' <= c <= '9' then c as int - '0' as int
    else if 'a' <= c <= 'z' then c as int - 'a' as int + 10
    else if 'A' <= c <= 'Z' then c as int - 'A' as int + 10
    else 36
  }

  predicate AllDigits(s: string, base: nat) {
    forall i :: 0 <= i < |s| ==> Worth(s[i]) < base
  }

  /** The number the digits stand for, the last being the lowest. */
  function Number(s: string, base: nat): nat {
    if s == "" then 0 else Number(s[..|s| - 1], base) * base + Worth(s[|s| - 1])
  }

  /** There is no digit any more. */
  predicate Ends(rest: string, base: nat) {
    rest == "" || Worth(rest[0]) >= base
  }

  lemma WorthIs(c: char)
    ensures DigitValue(c) == Worth(c)
  {
  }

  /** Digits from the left, `acc` before them, and whatever comes behind. */
  lemma {:induction false} ReadsOn(s: string, t: string, base: nat, acc: nat)
    requires AllDigits(s, base)
    ensures ReadDigits(s + t, base, acc) == ReadDigits(t, base, ReadDigits(s, base, acc))
    decreases |s|
  {
    if s == "" {
      assert s + t == t;
    } else {
      WorthIs(s[0]);
      assert (s + t)[1..] == s[1..] + t;
      ReadsOn(s[1..], t, base, acc * base + DigitValue(s[0]));
    }
  }

  /** Digits are read as the number they stand for, up to what is no digit. */
  lemma {:induction false} DigitsRead(s: string, rest: string, base: nat)
    requires AllDigits(s, base) && Ends(rest, base)
    ensures ReadDigits(s + rest, base, 0) == Number(s, base)
    decreases |s|
  {
    if rest != "" {
      WorthIs(rest[0]);
    }
    if s == "" {
      assert s + rest == rest;
    } else {
      var front, last := s[..|s| - 1], [s[|s| - 1]];
      DigitsRead(front, "", base);
      assert front + "" == front;
      ReadsOn(front, last + rest, base, 0);
      assert s + rest == front + (last + rest) && (last + rest)[1..] == rest;
      WorthIs(last[0]);
    }
  }

  /** The nearest number of 32 bits. */
  function Nearest(v: int): int {
    if v < -2147483648 then -2147483648 else if v > 2147483647 then 2147483647 else v
  }

  predicate Blanks(s: string) {
    forall i :: 0 <= i < |s| ==> s[i] == ' ' || 9 <= s[i] as int <= 13
  }

  lemma {:induction false} BlanksSkipped(blanks: string, s: string)
    requires Blanks(blanks)
    ensures StrToL(blanks + s) == StrToL(s)
    decreases |blanks|
  {
    if blanks == "" {
      assert blanks + s == s;
    } else {
      assert (blanks + s)[1..] == blanks[1..] + s;
      BlanksSkipped(blanks[1..], s);
    }
  }

  lemma SignRead(sign: string, body: string, n: nat)
    requires sign == "" || sign == "+" || sign == "-"
    requires body != "" && '0' <= body[0] <= '9' && ReadPrefixed(body) == n
    ensures StrToL(sign + body) == Nearest(if sign == "-" then 0 - n else n)
  {
    if sign != "" {
      assert (sign + body)[1..] == body;
    } else {
      assert sign + body == body;
    }
  }

  /** Hexadecimal behind 0x, at least one digit. */
  lemma HexRead(blanks: string, sign: string, x: char, digits: string, rest: string, n: nat)
    requires Blanks(blanks) && (sign == "" || sign == "+" || sign == "-") && (x == 'x' || x == 'X')
    requires digits != "" && AllDigits(digits, 16) && Ends(rest, 16) && n == Number(digits, 16)
    ensures StrToL(blanks + (sign + (['0', x] + (digits + rest)))) == Nearest(if sign == "-" then 0 - n else n)
  {
    var body := ['0', x] + (digits + rest);
    WorthIs(digits[0]);
    assert body[2..] == digits + rest && body[2] == digits[0];
    DigitsRead(digits, rest, 16);
    SignRead(sign, body, n);
    BlanksSkipped(blanks, sign + body);
  }

  /** Octal behind another 0. */
  lemma OctalRead(blanks: string, sign: string, digits: string, rest: string, n: nat)
    requires Blanks(blanks) && (sign == "" || sign == "+" || sign == "-")
    requires digits != "" && digits[0] == '0' && AllDigits(digits, 8) && Ends(rest, 8) && n == Number(digits, 8)
    requires |digits| > 1 || rest == "" || (rest[0] != 'x' && rest[0] != 'X')
    ensures StrToL(blanks + (sign + (digits + rest))) == Nearest(if sign == "-" then 0 - n else n)
  {
    var body := digits + rest;
    if |digits| > 1 {
      WorthIs(digits[1]);
      assert body[1] == digits[1];
    } else if rest != "" {
      assert body[1] == rest[0];
    }
    DigitsRead(digits, rest, 8);
    SignRead(sign, body, n);
    BlanksSkipped(blanks, sign + body);
  }

  /** Decimal in every other case. */
  lemma DecimalRead(blanks: string, sign: string, digits: string, rest: string, n: nat)
    requires Blanks(blanks) && (sign == "" || sign == "+" || sign == "-")
    requires digits != "" && '1' <= digits[0] <= '9' && AllDigits(digits, 10) && Ends(rest, 10)
    requires n == Number(digits, 10)
    ensures StrToL(blanks + (sign + (digits + rest))) == Nearest(if sign == "-" then 0 - n else n)
  {
    var body := digits + rest;
    assert body[0] == digits[0];
    DigitsRead(digits, rest, 10);
    SignRead(sign, body, n);
    BlanksSkipped(blanks, sign + body);
  }
}
