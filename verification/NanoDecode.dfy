/** What the processor makes of the assembler's words: the instruction decoder of nano_cpu.vhd,
    with the fields of nano_cpu_pkg.vhd, gives back what each line says. */
module NanoDecode {
  import opened NanoAssembler
  import opened NanoPasses

  // ---------------------------------------------------------------- the decoder

  datatype AluOperation = Load | Or | And | Xor | Add | Subtract | AddWithCarry | External

  datatype Condition = Zero | NotZero | Negative | NotNegative | Always | AlwaysAndPush | Carry | NotCarry

  /** What the processor does next. `keep` says whether the accumulator takes the result. */
  datatype Operation =
    | Alu(operation: AluOperation, keep: bool, address: nat)
    | Input(port: nat)
    | Branch(condition: Condition, target: nat)
    | StoreAt(address: nat)
    | LoadVia(pointer: nat, offset: nat)
    | StoreVia(pointer: nat, offset: nat)
    | Output(port: nat)
    | Return
    | Nothing

  /** The operation in bits 14 to 12, given bits 15 to 11. */
  function AluField(v: nat): AluOperation {
    match v / 2 % 8
    case 0 => Load
    case 1 => Or
    case 2 => And
    case 3 => Xor
    case 4 => Add
    case 5 => Subtract
    case 6 => AddWithCarry
    case _ => External
  }

  /** The condition in bits 13 to 11. */
  function BranchField(v: nat): Condition {
    match v % 8
    case 0 => Zero
    case 1 => NotZero
    case 2 => Negative
    case 3 => NotNegative
    case 4 => Always
    case 5 => AlwaysAndPush
    case 6 => Carry
    case _ => NotCarry
  }

  /** The state decode_inst, on bits 15 to 11 and on bits 10 to 0: the IN instruction first,
      then by bit 15, by bits 15 and 14, and by all five. */
  function DecodeFields(v: nat, low: nat): Operation {
    if v == 15 then Input(low % 0x100)
    else if v / 16 == 0 then Alu(AluField(v), v % 2 == 1, low % 0x400)
    else if v / 8 == 3 then Branch(BranchField(v), low % 0x400)
    else if v == 16 then StoreAt(low % 0x400)
    else if v == 17 then LoadVia(0x3F8 + low % 8, low / 8)
    else if v == 18 then StoreVia(0x3F8 + low % 8, low / 8)
    else if v == 20 then Output(low % 0x100)
    else if v == 23 then Return
    else Nothing
  }

  function Decode(word: nat): Operation {
    DecodeFields(word / 0x800, word % 0x800)
  }

  // ---------------------------------------------------------------- what a line says

  /** What a mnemonic's name asks for, with the values of its operands. */
  function Asked(m: Mnemonic, a: nat, b: nat): Operation {
    match m
    case LOAD => Alu(Load, true, a)
    case OR => Alu(Or, true, a)
    case AND => Alu(And, true, a)
    case XOR => Alu(Xor, true, a)
    case ADD => Alu(Add, true, a)
    case SUB => Alu(Subtract, true, a)
    case CMP => Alu(Subtract, false, a)
    case ADDC => Alu(AddWithCarry, true, a)
    case STORE => StoreAt(a)
    case LOADI => LoadVia(a, b)
    case STORI => StoreVia(a, b)
    case INP => Input(a)
    case OUTP => Output(a)
    case RET => Return
    case BEQ => Branch(Zero, a)
    case BNE => Branch(NotZero, a)
    case BMI => Branch(Negative, a)
    case BPL => Branch(NotNegative, a)
    case BRA => Branch(Always, a)
    case CALL => Branch(AlwaysAndPush, a)
    case BCS => Branch(Carry, a)
    case BCC => Branch(NotCarry, a)
  }

  /** The operands that an operation has room for. */
  predicate Encodable(o: Operation) {
    match o
    case Alu(_, _, a) => a <= 0x3FF
    case Input(p) => p <= 0xFF
    case Branch(_, a) => a <= 0x3FF
    case StoreAt(a) => a <= 0x3FF
    case LoadVia(p, offset) => 0x3F8 <= p <= 0x3FF && offset <= 0xFF
    case StoreVia(p, offset) => 0x3F8 <= p <= 0x3FF && offset <= 0xFF
    case Output(p) => p <= 0xFF
    case Return => true
    case Nothing => false
  }

  /** Mnemonics whose operand may stand behind a hash sign. */
  predicate TakesValues(m: Mnemonic) {
    m == LOAD || m == OR || m == AND || m == XOR || m == ADD || m == SUB || m == CMP || m == ADDC
  }

  /** The first operand: a value, or the pool address of one behind a hash sign. */
  predicate FirstOperand(labels: Labels, m: Mnemonic, e: Expr, pool: map<nat, nat>, a: nat) {
    if e.Hash? then
      TakesValues(m) && GetValue(labels, e.of, true).Ok? && GetValue(labels, e.of, true).value in pool
      && a == pool[GetValue(labels, e.of, true).value]
    else GetValue(labels, e, true) == Ok(a)
  }

  predicate SecondOperand(labels: Labels, m: Mnemonic, e: Expr, b: nat) {
    m == LOADI || m == STORI ==> GetValue(labels, e, true) == Ok(b)
  }

  /** The line's operands have these values, and the operation asked for has room for them. */
  predicate Says(labels: Labels, m: Mnemonic, a: Expr, b: Expr, pool: map<nat, nat>, x: nat, y: nat) {
    && (m != RET ==> FirstOperand(labels, m, a, pool, x))
    && SecondOperand(labels, m, b, y)
    && Encodable(Asked(m, x, y))
  }

  // ---------------------------------------------------------------- both agree

  /** In pass 2 an instruction has a word if and only if its operands have values that the
      operation it asks for has room for, and the decoder gives that operation back. */
  lemma WordDecodes(labels: Labels, m: Mnemonic, a: Expr, b: Expr, pool: map<nat, nat>)
    ensures WordOf(labels, m, a, b, true, pool).Ok? <==> exists x: nat, y: nat :: Says(labels, m, a, b, pool, x, y)
    ensures forall x: nat, y: nat :: Says(labels, m, a, b, pool, x, y) ==>
      WordOf(labels, m, a, b, true, pool).Ok? && Decode(WordOf(labels, m, a, b, true, pool).value) == Asked(m, x, y)
  {
    forall x: nat, y: nat | Says(labels, m, a, b, pool, x, y)
      ensures WordOf(labels, m, a, b, true, pool).Ok?
      ensures Decode(WordOf(labels, m, a, b, true, pool).value) == Asked(m, x, y)
    {
      SaidIsWord(labels, m, a, b, pool, x, y);
    }
    if WordOf(labels, m, a, b, true, pool).Ok? {
      var x, y := OperandsOf(labels, m, a, b, pool);
    }
  }

  lemma SaidIsWord(labels: Labels, m: Mnemonic, a: Expr, b: Expr, pool: map<nat, nat>, x: nat, y: nat)
    requires Says(labels, m, a, b, pool, x, y)
    ensures WordOf(labels, m, a, b, true, pool).Ok?
    ensures Decode(WordOf(labels, m, a, b, true, pool).value) == Asked(m, x, y)
  {
    var low := if m == RET then 0 else if ModeOf(m) == Relative then x % 8 + y * 8 else x;
    SaidWord(labels, m, a, b, pool, x, y, low);
    FieldsOf(m, low);
    LowDecodes(m, x, y, low);
  }

  /** The word that operands give. */
  lemma SaidWord(labels: Labels, m: Mnemonic, a: Expr, b: Expr, pool: map<nat, nat>, x: nat, y: nat, low: nat)
    requires Says(labels, m, a, b, pool, x, y)
    requires low == if m == RET then 0 else if ModeOf(m) == Relative then x % 8 + y * 8 else x
    ensures low < 0x800 && WordOf(labels, m, a, b, true, pool) == Ok(Code(m) + low)
  {
    if m != RET {
      if ModeOf(m) == Relative {
        SaidRelative(labels, m, a, b, x, y);
      } else {
        SaidPlain(labels, m, a, b, pool, x, y);
      }
    }
  }

  lemma SaidRelative(labels: Labels, m: Mnemonic, a: Expr, b: Expr, x: nat, y: nat)
    requires ModeOf(m) == Relative && GetValue(labels, a, true) == Ok(x) && GetValue(labels, b, true) == Ok(y)
    requires 0x3F8 <= x <= 0x3FF && y <= 0xFF
    ensures WordOf(labels, m, a, b, true, map[]) == Ok(Code(m) + x % 8 + y * 8)
  {
  }

  lemma SaidPlain(labels: Labels, m: Mnemonic, a: Expr, b: Expr, pool: map<nat, nat>, x: nat, y: nat)
    requires m != RET && ModeOf(m) != Relative && FirstOperand(labels, m, a, pool, x) && Encodable(Asked(m, x, y))
    ensures x <= 0x3FF && WordOf(labels, m, a, b, true, pool) == Ok(Code(m) + x)
  {
  }

  lemma FieldsOf(m: Mnemonic, low: nat)
    requires low < 0x800
    ensures (Code(m) + low) / 0x800 == Code(m) / 0x800 && (Code(m) + low) % 0x800 == low
  {
    assert Code(m) == Code(m) / 0x800 * 0x800;
  }

  lemma LowDecodes(m: Mnemonic, x: nat, y: nat, low: nat)
    requires Encodable(Asked(m, x, y))
    requires low == if m == RET then 0 else if ModeOf(m) == Relative then x % 8 + y * 8 else x
    ensures DecodeFields(Code(m) / 0x800, low) == Asked(m, x, y)
  {
    if ModeOf(m) == Relative {
      assert low % 8 == x % 8 && low / 8 == y && 0x3F8 + x % 8 == x;
    }
  }

  lemma OperandsOf(labels: Labels, m: Mnemonic, a: Expr, b: Expr, pool: map<nat, nat>) returns (x: nat, y: nat)
    requires WordOf(labels, m, a, b, true, pool).Ok?
    ensures Says(labels, m, a, b, pool, x, y)
  {
    x, y := 0, 0;
    if m != RET {
      x := OperandOf(labels, m, a, b, pool);
    }
    if ModeOf(m) == Relative {
      y := GetValue(labels, b, true).value;
    }
    HasRoom(m, x, y);
  }

  lemma HasRoom(m: Mnemonic, x: nat, y: nat)
    requires ModeOf(m) == Relative ==> 0x3F8 <= x <= 0x3FF && y <= 0xFF
    requires ModeOf(m) != Relative && m != RET ==> x <= if ModeOf(m) == InOut then 0xFF else 0x3FF
    ensures Encodable(Asked(m, x, y))
  {
  }

  lemma OperandOf(labels: Labels, m: Mnemonic, a: Expr, b: Expr, pool: map<nat, nat>) returns (x: nat)
    requires m != RET && WordOf(labels, m, a, b, true, pool).Ok?
    ensures FirstOperand(labels, m, a, pool, x)
    ensures ModeOf(m) == Relative ==> 0x3F8 <= x <= 0x3FF
    ensures ModeOf(m) != Relative ==> x <= if ModeOf(m) == InOut then 0xFF else 0x3FF
  {
    x := if a.Hash? then pool[GetValue(labels, a.of, true).value] else GetValue(labels, a, true).value;
  }

  // ---------------------------------------------------------------- whole programs

  /** The operands of line `i` with the names as pass 1 leaves them; a value behind a hash sign
      is the address of a word of the program that holds it. */
  predicate LineSays(program: seq<nat>, labels: Labels, s: Statement, x: nat, y: nat)
    requires s.Op?
  {
    && (s.m != RET ==>
          if s.a.Hash? then TakesValues(s.m) && x < |program| && GetValue(labels, s.a.of, true) == Ok(program[x])
          else GetValue(labels, s.a, true) == Ok(x))
    && SecondOperand(labels, s.m, s.b, y)
  }

  /** Each instruction of a program whose passes agree stands at its pass 1 address, and the
      decoder makes of it what the line says. */
  lemma InstructionsDecode(lines: seq<Statement>, i: nat) returns (x: nat, y: nat)
    requires Assembled(lines).Ok? && Settled(lines, First(lines, |lines|).value.labels)
    requires i < |lines| && lines[i].Op?
    ensures First(lines, i).Ok?
    ensures var program := Assembled(lines).value; var at := First(lines, i).value.pc;
      at < |program| && LineSays(program, First(lines, |lines|).value.labels, lines[i], x, y)
      && Decode(program[at]) == Asked(lines[i].m, x, y) && Encodable(Asked(lines[i].m, x, y))
  {
    var one := First(lines, |lines|).value;
    var values := Values(one.labels, one.exprs, |one.exprs|).value;
    var pool := Pool(values, |values|, one.pc);
    SettledAgrees(lines, i, one.labels, pool);
    SettledAgrees(lines, |lines|, one.labels, pool);
    WordsAreCounted(lines, |lines|, one.labels, pool);
    var s := lines[i];
    WordStands(lines, i, one.labels, pool);
    x, y := OperandsOf(one.labels, s.m, s.a, s.b, pool);
    SaidIsWord(one.labels, s.m, s.a, s.b, pool, x, y);
    if s.m != RET && s.a.Hash? {
      PoolAddress(values, |values|, one.pc, GetValue(one.labels, s.a.of, true).value);
    }
  }

  /** What pass 2 writes for a line is in the program at the line's pass 1 address. */
  lemma WordStands(lines: seq<Statement>, i: nat, labels: Labels, pool: map<nat, nat>)
    requires i < |lines| && BothRan(lines, labels, pool) && Agree(lines, i, labels, pool) && lines[i].Op?
    ensures var two := Second(lines, |lines|, labels, pool).value; var at := First(lines, i).value.pc;
      var word := WordOf(labels, lines[i].m, lines[i].a, lines[i].b, true, pool);
      word.Ok? && at < |two.program| && two.program[at] == word.value
  {
    SecondBefore(lines, i + 1, |lines|, labels, pool);
    WordsAreCounted(lines, i, labels, pool);
    WordsStay(lines, i + 1, |lines|, labels, pool);
  }

  /** A data line leaves its value, and a block as many zeros as it says. */
  lemma DataStands(lines: seq<Statement>, i: nat)
    requires Assembled(lines).Ok? && Settled(lines, First(lines, |lines|).value.labels)
    requires i < |lines| && (lines[i].Data? || lines[i].Block?)
    ensures First(lines, i).Ok? && GetValue(First(lines, |lines|).value.labels, lines[i].e, true).Ok?
    ensures var program := Assembled(lines).value; var at := First(lines, i).value.pc;
      var v := GetValue(First(lines, |lines|).value.labels, lines[i].e, true).value;
      if lines[i].Data? then at < |program| && program[at] == v
      else at + v <= |program| && forall k :: at <= k < at + v ==> program[k] == 0
  {
    var one := First(lines, |lines|).value;
    var values := Values(one.labels, one.exprs, |one.exprs|).value;
    var pool := Pool(values, |values|, one.pc);
    SettledAgrees(lines, i, one.labels, pool);
    SettledAgrees(lines, |lines|, one.labels, pool);
    WordsAreCounted(lines, |lines|, one.labels, pool);
    WordsAreCounted(lines, i, one.labels, pool);
    SecondBefore(lines, i + 1, |lines|, one.labels, pool);
    WordsStay(lines, i + 1, |lines|, one.labels, pool);
    var v := GetValue(one.labels, lines[i].e, true).value;
    ZerosCount(v);
  }

  // ---------------------------------------------------------------- names

  /** A label is worth the address of what follows it, and a definition what its expression
      was worth there. */
  lemma NamesStand(lines: seq<Statement>, i: nat)
    requires First(lines, |lines|).Ok? && i < |lines| && (lines[i].Label? || lines[i].Define?)
    ensures First(lines, i).Ok? && lines[i].name in First(lines, |lines|).value.labels
    ensures var st := First(lines, i).value; var v := First(lines, |lines|).value.labels[lines[i].name];
      if lines[i].Label? then v == st.pc else GetValue(st.labels, lines[i].e, false) == Ok(v)
  {
    FirstBefore(lines, i, |lines|);
    FirstBefore(lines, i + 1, |lines|);
    LabelsStay(lines, i + 1, |lines|, lines[i].name);
  }

  /** No name is defined twice. */
  lemma NamesOnce(lines: seq<Statement>, i: nat, j: nat)
    requires First(lines, |lines|).Ok? && i < j < |lines|
    requires (lines[i].Label? || lines[i].Define?) && (lines[j].Label? || lines[j].Define?)
    ensures lines[i].name != lines[j].name
  {
    FirstBefore(lines, i + 1, |lines|);
    FirstBefore(lines, j, |lines|);
    FirstBefore(lines, j + 1, |lines|);
    LabelsStay(lines, i + 1, j, lines[i].name);
  }

  /** How many words a line takes. */
  function WordsOf(s: Statement, labels: Labels): nat {
    match s
    case Op(_, _, _) => 1
    case Data(_) => 1
    case Block(e) => if GetValue(labels, e, false).Ok? then GetValue(labels, e, false).value else 0
    case _ => 0
  }

  /** Addresses begin at 0 and go on by the words of each line. */
  lemma AddressesGoOn(lines: seq<Statement>, i: nat)
    requires First(lines, |lines|).Ok? && i < |lines|
    ensures First(lines, 0).Ok? && First(lines, 0).value.pc == 0
    ensures First(lines, i).Ok? && First(lines, i + 1).Ok?
    ensures First(lines, i + 1).value.pc
         == First(lines, i).value.pc + WordsOf(lines[i], First(lines, i).value.labels)
  {
    FirstBefore(lines, i, |lines|);
    FirstBefore(lines, i + 1, |lines|);
    if lines[i].Block? {
      ZerosCount(GetValue(First(lines, i).value.labels, lines[i].e, false).value);
    }
  }
}
