/** The two-pass assembler parse_nano.py, on statements: what a pass does, the pool of immediate
    values, and when the two passes agree. */
module NanoAssembler {
  // ---------------------------------------------------------------- programs

  /** An operand as _get_value sees it: a number in any notation, a name, something behind a
      hash sign, or nothing. */
  datatype Expr = Number(value: int) | Name(name: string) | Hash(of: Expr) | Empty

  datatype Mnemonic =
    | LOAD | STORE | LOADI | STORI | OR | AND | XOR | ADD | SUB | CMP | ADDC | INP | OUTP | RET
    | BEQ | BNE | BMI | BPL | BRA | CALL | BCS | BCC

  datatype Mode = Absolute | Immediate | Relative | InOut | None

  function ModeOf(m: Mnemonic): Mode {
    match m
    case LOAD | OR | AND | XOR | ADD | SUB | CMP | ADDC => Immediate
    case LOADI | STORI => Relative
    case INP | OUTP => InOut
    case RET => Mode.None
    case _ => Absolute
  }

  function Code(m: Mnemonic): nat {
    match m
    case LOAD => 0x0800 case STORE => 0x8000 case LOADI => 0x8800 case STORI => 0x9000
    case OR => 0x1800 case AND => 0x2800 case XOR => 0x3800 case ADD => 0x4800
    case SUB => 0x5800 case CMP => 0x5000 case ADDC => 0x6800
    case INP => 0x7800 case OUTP => 0xA000 case RET => 0xB800
    case BEQ => 0xC000 case BNE => 0xC800 case BMI => 0xD000 case BPL => 0xD800
    case BRA => 0xE000 case CALL => 0xE800 case BCS => 0xF000 case BCC => 0xF800
  }

  /** A line: a label, a definition, an instruction, data, a block, or none of these. */
  datatype Statement =
    | Label(name: string)
    | Define(name: string, e: Expr)
    | Op(m: Mnemonic, a: Expr, b: Expr)
    | Data(e: Expr)
    | Block(e: Expr)
    | Malformed

  // ---------------------------------------------------------------- operands in codes

  /** The bitwise or of two numbers. */
  function BitOr(x: nat, y: nat): nat {
    if x == 0 && y == 0 then 0
    else (if x % 2 == 1 || y % 2 == 1 then 1 else 0) + 2 * BitOr(x / 2, y / 2)
  }

  function Shl(x: nat, k: nat): nat {
    if k == 0 then x else 2 * Shl(x, k - 1)
  }

  /** Shifting both numbers shifts the result, and bits below the shift stay. */
  lemma {:induction false} OrAbove(x: nat, y: nat, k: nat, low: nat)
    requires low < Shl(1, k)
    ensures BitOr(Shl(x, k) + low, Shl(y, k)) == Shl(BitOr(x, y), k) + low
  {
    if k > 0 {
      OrAbove(x, y, k - 1, low / 2);
      Halved(Shl(x, k - 1), Shl(y, k - 1), low);
    }
  }

  lemma Halved(a: nat, b: nat, low: nat)
    ensures BitOr(2 * a + low, 2 * b) == low % 2 + 2 * BitOr(a + low / 2, b)
  {
    var x := 2 * a + low;
    assert x / 2 == a + low / 2 && x % 2 == low % 2 && 2 * b / 2 == b;
  }

  lemma {:induction false} OrOfNothing(x: nat)
    ensures BitOr(x, 0) == x && BitOr(0, x) == x
  {
    if x > 0 {
      OrOfNothing(x / 2);
    }
  }

  lemma {:induction false} OrSwaps(x: nat, y: nat)
    ensures BitOr(x, y) == BitOr(y, x)
    decreases x + y
  {
    if x != 0 || y != 0 {
      OrSwaps(x / 2, y / 2);
    }
  }

  /** With bits below those of the other number, or is sum. */
  lemma OrAdds(x: nat, k: nat, low: nat)
    requires low < Shl(1, k)
    ensures BitOr(Shl(x, k), low) == Shl(x, k) + low
  {
    OrSwaps(Shl(x, k), low);
    OrOfNothing(x);
    NothingShifted(k);
    OrAbove(0, x, k, low);
  }

  lemma {:induction false} NothingShifted(k: nat)
    ensures Shl(0, k) == 0
  {
    if k > 0 {
      NothingShifted(k - 1);
    }
  }

  lemma ShlIs(x: nat)
    ensures Shl(x, 3) == x * 8 && Shl(x, 8) == x * 0x100 && Shl(x, 11) == x * 0x800
  {
    assert Shl(x, 1) == x * 2;
    assert Shl(x, 2) == x * 4;
    assert Shl(x, 3) == x * 8;
    assert Shl(x, 4) == x * 16;
    assert Shl(x, 5) == x * 32;
    assert Shl(x, 6) == x * 64;
    assert Shl(x, 7) == x * 128;
    assert Shl(x, 8) == x * 256;
    assert Shl(x, 9) == x * 512;
    assert Shl(x, 10) == x * 1024;
  }

  lemma CodeIsShifted(m: Mnemonic)
    ensures Code(m) == Shl(Code(m) / 0x800, 11)
  {
    ShlIs(Code(m) / 0x800);
  }

  /** A code leaves the low eleven bits free: putting operands in with a bitwise or, one of
      eleven bits, or one of three bits and one of eight above it, adds them to it. */
  lemma OperandBitsAreFree(m: Mnemonic, operand: nat, base: nat, offset: nat)
    requires operand < 0x800 && offset <= 0xFF
    ensures BitOr(Code(m), operand) == Code(m) + operand
    ensures BitOr(BitOr(Code(m), base % 8), offset * 8) == Code(m) + base % 8 + offset * 8
  {
    var d := Code(m) / 0x800;
    CodeIsShifted(m);
    ShlIs(1);
    OrAdds(d, 11, operand);
    OrAdds(d, 11, base % 8);
    TwoOperands(d, base % 8, offset);
  }

  lemma TwoOperands(d: nat, low: nat, offset: nat)
    requires low < 8 && offset <= 0xFF
    ensures BitOr(Shl(d, 11) + low, offset * 8) == Shl(d, 11) + low + offset * 8
  {
    ShlIs(1);
    ShlIs(d);
    ShlIs(Shl(d, 8));
    ShlIs(offset);
    OrAdds(d, 8, offset);
    OrAbove(Shl(d, 8), offset, 3, low);
    ShlIs(Shl(d, 8) + offset);
  }

  // ---------------------------------------------------------------- values

  datatype Result<T> = Ok(value: T) | Error

  type Labels = map<string, int>

  function Mask(v: int): (r: nat)
    ensures r < 0x1_0000
    ensures 0 <= v < 0x1_0000 ==> r == v
  {
    v % 0x1_0000
  }

  /** A plain value; unknown names are 0 in pass 1 and an error in pass 2. */
  function GetValue(labels: Labels, e: Expr, second: bool): Result<nat> {
    match e
    case Number(v) => Ok(Mask(v))
    case Name(n) => if n in labels then Ok(Mask(labels[n])) else if second then Error else Ok(0)
    case Hash(_) => Error
    case Empty => Error
  }

  /** A value or, behind a hash sign, the address of a pool word: 0 in pass 1. */
  function GetValueImm(labels: Labels, e: Expr, second: bool, pool: map<nat, nat>): Result<nat> {
    if e.Hash? then
      if !second then Ok(0)
      else
        match GetValue(labels, e.of, true)
        case Ok(v) => if v in pool then Ok(pool[v]) else Error
        case Error => Error
    else GetValue(labels, e, second)
  }

  function Below(v: Result<nat>, code: nat, bound: nat): Result<nat> {
    match v
    case Ok(a) => if a > bound then Error else Ok(code + a)
    case Error => Error
  }

  /** The word of an instruction. */
  function WordOf(labels: Labels, m: Mnemonic, a: Expr, b: Expr, second: bool, pool: map<nat, nat>): Result<nat> {
    match ModeOf(m)
    case Absolute => Below(GetValue(labels, a, second), Code(m), 0x3FF)
    case Immediate => Below(GetValueImm(labels, a, second, pool), Code(m), 0x3FF)
    case InOut => Below(GetValue(labels, a, second), Code(m), 0xFF)
    case None => Ok(Code(m))
    case Relative =>
      match GetValue(labels, a, second)
      case Error => Error
      case Ok(base) =>
        if second && (base < 0x3F8 || base > 0x3FF) then Error
        else
          match GetValue(labels, b, second)
          case Error => Error
          case Ok(offset) => if offset > 0xFF then Error else Ok(Code(m) + base % 8 + offset * 8)
  }

  // ---------------------------------------------------------------- a pass

  /** Names, program counter, the words written so far (in pass 2) and the expressions behind
      hash signs seen so far (in pass 1). */
  datatype State = State(labels: Labels, pc: nat, program: seq<nat>, exprs: seq<Expr>)

  function Zeros(n: nat): seq<nat> {
    if n == 0 then [] else Zeros(n - 1) + [0]
  }

  function Emit(st: State, words: seq<nat>, second: bool): State {
    st.(pc := st.pc + |words|, program := if second then st.program + words else st.program)
  }

  function Collect(st: State, e: Expr): State {
    if e.Hash? && e.of !in st.exprs then st.(exprs := st.exprs + [e.of]) else st
  }

  function AddLabel(st: State, name: string, v: int, second: bool): Result<State> {
    if !second && name in st.labels then Error else Ok(st.(labels := st.labels[name := v]))
  }

  function Step(st: State, s: Statement, second: bool, pool: map<nat, nat>): Result<State> {
    match s
    case Label(name) => AddLabel(st, name, st.pc, second)
    case Define(name, e) =>
      (match GetValue(st.labels, e, second)
       case Ok(v) => AddLabel(st, name, v, second)
       case Error => Error)
    case Op(m, a, b) =>
      (match WordOf(st.labels, m, a, b, second, pool)
       case Ok(w) => Ok(Emit(if !second && ModeOf(m) == Immediate then Collect(st, a) else st, [w], second))
       case Error => Error)
    case Data(e) =>
      (match GetValue(st.labels, e, second)
       case Ok(v) => Ok(Emit(st, [v], second))
       case Error => Error)
    case Block(e) =>
      (match GetValue(st.labels, e, second)
       case Ok(n) => Ok(Emit(st, Zeros(n), second))
       case Error => Error)
    case Malformed => Error
  }

  /** The first `n` lines. */
  function Pass(lines: seq<Statement>, n: nat, start: State, second: bool, pool: map<nat, nat>): Result<State>
    requires n <= |lines|
  {
    if n == 0 then Ok(start)
    else
      match Pass(lines, n - 1, start, second, pool)
      case Ok(st) => Step(st, lines[n - 1], second, pool)
      case Error => Error
  }

  const NOTHING := State(map[], 0, [], [])

  function First(lines: seq<Statement>, n: nat): Result<State>
    requires n <= |lines|
  {
    Pass(lines, n, NOTHING, false, map[])
  }

  function Second(lines: seq<Statement>, n: nat, labels: Labels, pool: map<nat, nat>): Result<State>
    requires n <= |lines|
  {
    Pass(lines, n, State(labels, 0, [], []), true, pool)
  }

  // ---------------------------------------------------------------- the pool

  /** The values of the first `k` expressions, each once, as first seen. */
  function Values(labels: Labels, exprs: seq<Expr>, k: nat): Result<seq<nat>>
    requires k <= |exprs|
  {
    if k == 0 then Ok([])
    else
      match Values(labels, exprs, k - 1)
      case Error => Error
      case Ok(vs) =>
        match GetValue(labels, exprs[k - 1], false)
        case Error => Error
        case Ok(v) => Ok(if v in vs then vs else vs + [v])
  }

  /** Where the first `k` values are, one behind the other from `pc` on. */
  function Pool(values: seq<nat>, k: nat, pc: nat): map<nat, nat>
    requires k <= |values|
  {
    if k == 0 then map[] else Pool(values, k - 1, pc)[values[k - 1] := pc + k - 1]
  }

  // ---------------------------------------------------------------- the assembler

  /** Both passes and the pool behind the second one. */
  function Assembled(lines: seq<Statement>): Result<seq<nat>> {
    match First(lines, |lines|)
    case Error => Error
    case Ok(one) =>
      match Values(one.labels, one.exprs, |one.exprs|)
      case Error => Error
      case Ok(values) =>
        match Second(lines, |lines|, one.labels, Pool(values, |values|, one.pc))
        case Error => Error
        case Ok(two) => Ok(two.program + values)
  }

  // ---------------------------------------------------------------- pass 1

  predicate Defines(s: Statement, name: string) {
    (s.Label? || s.Define?) && s.name == name
  }

  /** Pass 1 stops at nothing but errors: the lines before succeeded too. */
  lemma {:induction false} FirstBefore(lines: seq<Statement>, i: nat, n: nat)
    requires i <= n <= |lines| && First(lines, n).Ok?
    ensures First(lines, i).Ok?
    decreases n
  {
    if i < n {
      FirstBefore(lines, i, n - 1);
    }
  }

  /** What pass 1 says of a name stays. */
  lemma {:induction false} LabelsStay(lines: seq<Statement>, i: nat, n: nat, name: string)
    requires i <= n <= |lines| && First(lines, n).Ok? && First(lines, i).Ok?
    requires name in First(lines, i).value.labels
    ensures name in First(lines, n).value.labels
    ensures First(lines, n).value.labels[name] == First(lines, i).value.labels[name]
    decreases n
  {
    if i < n {
      FirstBefore(lines, n - 1, n);
      LabelsStay(lines, i, n - 1, name);
    }
  }

  /** The names known after `n` lines are the ones those lines define. */
  lemma {:induction false} LabelsAreDefined(lines: seq<Statement>, n: nat, name: string)
    requires n <= |lines| && First(lines, n).Ok?
    ensures name in First(lines, n).value.labels <==> exists i :: 0 <= i < n && Defines(lines[i], name)
    decreases n
  {
    if n > 0 {
      LabelsAreDefined(lines, n - 1, name);
    }
  }

  /** Every expression behind a hash sign gets collected. */
  lemma {:induction false} ExprsCollected(lines: seq<Statement>, i: nat, n: nat)
    requires i < n <= |lines| && First(lines, n).Ok?
    requires lines[i].Op? && ModeOf(lines[i].m) == Immediate && lines[i].a.Hash?
    ensures lines[i].a.of in First(lines, n).value.exprs
    decreases n
  {
    if i + 1 < n {
      ExprsCollected(lines, i, n - 1);
    }
  }
}
