/** `format` of a stream in memory, after small_printf.cc and stream_ramfile.h: one call
    writes at most 9999 characters, whatever it was asked to write; `charout` has no limit. */
module Printf {
  import opened Common
  import opened Json

  const FORMAT_LIMIT := 9999

  // ---------------------------------------------------------------- what a call writes

  datatype Arg = Text(s: string) | Number(n: int)

  /** Every percent sign asks for a string or a number, and there is an argument for it. */
  predicate Matches(fmt: string, args: seq<Arg>) {
    if fmt == "" then args == []
    else if fmt[0] != '%' then Matches(fmt[1..], args)
    else
      && |fmt| > 1 && args != []
      && ((fmt[1] == 's' && args[0].Text?) || (fmt[1] == 'd' && args[0].Number?))
      && Matches(fmt[2..], args[1..])
  }

  function ArgText(a: Arg): string {
    match a
    case Text(s) => s
    case Number(n) => IntText(n)
  }

  /** The format with its arguments put in. */
  function Expand(fmt: string, args: seq<Arg>): string
    requires Matches(fmt, args)
  {
    if fmt == "" then ""
    else if fmt[0] != '%' then [fmt[0]] + Expand(fmt[1..], args)
    else ArgText(args[0]) + Expand(fmt[2..], args[1..])
  }

  /** The first `n` characters, or all if there are fewer. */
  function Front(s: string, n: nat): (r: string)
    ensures |r| == if |s| <= n then |s| else n
  {
    if |s| <= n then s else s[..n]
  }

  /** What one call of format writes of a text. */
  function Cut(s: string): string {
    Front(s, FORMAT_LIMIT)
  }

  // ---------------------------------------------------------------- numbers

  function Reversed(s: string): string {
    if s == "" then "" else [s[|s| - 1]] + Reversed(s[..|s| - 1])
  }

  lemma ReversedPush(s: string, c: char)
    ensures Reversed(s + [c]) == [c] + Reversed(s)
  {
    assert (s + [c])[..|s|] == s;
  }

  /** The digits of a number above 0, the last first. */
  method LowDigits(val: nat) returns (temp: string)
    requires val > 0
    ensures Reversed(temp) == Digits(val)
  {
    temp := "";
    var v := val;
    while v != 0
      invariant v >= 0 && Digits(val) == (if v == 0 then "" else Digits(v)) + Reversed(temp)
    {
      var c := (v % 10) as char + '0';
      ReversedPush(temp, c);
      Regroup(if v < 10 then "" else Digits(v / 10), [c], Reversed(temp));
      temp := temp + [c];
      v := v / 10;
    }
  }

  /** Copies `temp` behind `sign` from its end on. */
  method TurnRound(sign: string, temp: string) returns (buf: string)
    ensures buf == sign + Reversed(temp)
  {
    buf := sign;
    var n := |temp|;
    assert temp[..n] == temp;
    while n != 0
      invariant 0 <= n <= |temp| && buf + Reversed(temp[..n]) == sign + Reversed(temp)
    {
      assert temp[..n] == temp[..n - 1] + [temp[n - 1]];
      ReversedPush(temp[..n - 1], temp[n - 1]);
      Regroup(buf, [temp[n - 1]], Reversed(temp[..n - 1]));
      n := n - 1;
      buf := buf + [temp[n]];
    }
  }

  /** _cvt in radix 10, with a sign and without padding. */
  method Convert(val: int) returns (buf: string)
    ensures buf == IntText(val)
  {
    var sign, v := "", val;
    if val < 0 {
      sign, v := "-", -val;
    }
    var temp := "0";
    if v != 0 {
      temp := LowDigits(v);
    }
    assert Reversed("0") == ['0'] + Reversed("0"[..0]);
    buf := TurnRound(sign, temp);
  }

  // ---------------------------------------------------------------- the stream

  class Stream {
    var written: string

    constructor ()
      ensures written == ""
    {
      written := "";
    }

    method CharOut(c: char)
      modifies this
      ensures written == old(written) + [c]
    {
      written := written + [c];
    }

    /** As much of a text as there is room for. */
    method PutText(text: string, res0: nat, maxlen: nat) returns (res: nat)
      requires res0 <= maxlen
      modifies this
      ensures written == old(written) + Front(text, maxlen - res0)
      ensures res == res0 + |Front(text, maxlen - res0)|
    {
      res := res0;
      var i := 0;
      while i < |text| && res < maxlen
        invariant 0 <= i <= |text| && res == res0 + i <= maxlen
        invariant written == old(written) + text[..i]
      {
        Regroup(old(written), text[..i], [text[i]]);
        assert text[..i + 1] == text[..i] + [text[i]];
        CharOut(text[i]);
        res := res + 1;
        i := i + 1;
      }
      assert text[..i] == Front(text, maxlen - res0);
    }

    /** What a call that has written `res` characters and has the rest of the format before it
        will have written. */
    ghost function Coming(maxlen: nat, res: nat, fmt: string, args: seq<Arg>): string
      requires Matches(fmt, args) && res <= maxlen
      reads this
    {
      written + Front(Expand(fmt, args), maxlen - res)
    }

    /** _my_vnprintf, for the conversions the JSON printer uses. */
    method VnPrintf(maxlen: nat, fmt: string, args: seq<Arg>) returns (res: nat)
      requires Matches(fmt, args)
      modifies this
      ensures written == old(written) + Front(Expand(fmt, args), maxlen)
    {
      res := 0;
      var i, k := 0, 0;
      ghost var goal := Coming(maxlen, 0, fmt, args);
      assert fmt[0..] == fmt && args[0..] == args;
      while i < |fmt| && res < maxlen
        invariant i <= |fmt| && k <= |args| && res <= maxlen && Matches(fmt[i..], args[k..])
        invariant Coming(maxlen, res, fmt[i..], args[k..]) == goal
      {
        assert fmt[i..][1..] == fmt[i + 1..];
        if fmt[i] == '%' {
          assert fmt[i..][2..] == fmt[i + 2..] && args[k..][1..] == args[k + 1..];
          res := PutArg(args[k], res, maxlen, fmt[i + 2..], args[k + 1..], goal);
          i, k := i + 2, k + 1;
        } else {
          FrontSplit([fmt[i]], Expand(fmt[i + 1..], args[k..]), maxlen - res);
          Regroup(written, [fmt[i]], Front(Expand(fmt[i + 1..], args[k..]), maxlen - res - 1));
          CharOut(fmt[i]);
          res := res + 1;
          i := i + 1;
        }
      }
    }

    method PutArg(arg: Arg, res0: nat, maxlen: nat, ghost fmt: string, ghost args: seq<Arg>, ghost goal: string)
      returns (res: nat)
      requires res0 < maxlen && Matches(fmt, args)
      requires written + Front(ArgText(arg) + Expand(fmt, args), maxlen - res0) == goal
      modifies this
      ensures res <= maxlen && Coming(maxlen, res, fmt, args) == goal
    {
      var buf;
      match arg {
        case Text(s) => buf := s;
        case Number(n) => buf := Convert(n);
      }
      ghost var room := maxlen - res0;
      FrontSplit(buf, Expand(fmt, args), room);
      Regroup(written, Front(buf, room), Front(Expand(fmt, args), room - |Front(buf, room)|));
      res := PutText(buf, res0, maxlen);
    }

    static lemma FrontSplit(a: string, b: string, n: nat)
      ensures Front(a + b, n) == Front(a, n) + Front(b, n - |Front(a, n)|)
    {
    }

    method Format(fmt: string, args: seq<Arg>)
      requires Matches(fmt, args)
      modifies this
      ensures written == old(written) + Cut(Expand(fmt, args))
    {
      var res := VnPrintf(FORMAT_LIMIT, fmt, args);
    }
  }
}
