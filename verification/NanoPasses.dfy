/** When both passes of the assembler agree, and what the pool then guarantees. */
module NanoPasses {
  import opened NanoAssembler

  // ---------------------------------------------------------------- agreement

  /** The operand that a later line may depend on: of a definition or a block size. */
  predicate Opens(s: Statement) {
    (s.Define? || s.Block?) && s.e.Name?
  }

  /** The name is known when pass 1 gets there, or in the end is worth what pass 1 took it for. */
  predicate SettledAt(lines: seq<Statement>, i: nat, labels: Labels)
    requires i < |lines|
  {
    (&& Opens(lines[i]) && First(lines, i).Ok?
     && lines[i].e.name !in First(lines, i).value.labels && lines[i].e.name in labels) ==>
      Mask(labels[lines[i].e.name]) == 0
  }

  predicate Settled(lines: seq<Statement>, labels: Labels) {
    forall i :: 0 <= i < |lines| ==> SettledAt(lines, i, labels)
  }

  /** Blocks and definitions use numbers or earlier names. */
  predicate Grounded(lines: seq<Statement>) {
    forall i :: 0 <= i < |lines| && Opens(lines[i]) ==> exists j :: 0 <= j < i && Defines(lines[j], lines[i].e.name)
  }

  lemma GroundedIsSettled(lines: seq<Statement>, labels: Labels)
    requires Grounded(lines)
    ensures Settled(lines, labels)
  {
    forall i | 0 <= i < |lines| && Opens(lines[i]) && First(lines, i).Ok?
      ensures lines[i].e.name in First(lines, i).value.labels
    {
      LabelsAreDefined(lines, i, lines[i].e.name);
    }
  }

  /** After `n` lines pass 2 knows the names of pass 1 with their values there, and is at the
      same address. */
  predicate Agree(lines: seq<Statement>, n: nat, labels: Labels, pool: map<nat, nat>)
    requires n <= |lines|
  {
    First(lines, n).Ok? && Second(lines, n, labels, pool).Ok?
    && Second(lines, n, labels, pool).value.labels == labels
    && Second(lines, n, labels, pool).value.pc == First(lines, n).value.pc
  }

  /** The runs this is about: pass 1 succeeded with these labels, and so did pass 2. */
  predicate BothRan(lines: seq<Statement>, labels: Labels, pool: map<nat, nat>) {
    First(lines, |lines|).Ok? && labels == First(lines, |lines|).value.labels
    && Second(lines, |lines|, labels, pool).Ok?
  }

  lemma {:induction false} SecondBefore(lines: seq<Statement>, i: nat, n: nat, labels: Labels, pool: map<nat, nat>)
    requires i <= n <= |lines| && Second(lines, n, labels, pool).Ok?
    ensures Second(lines, i, labels, pool).Ok?
    decreases n
  {
    if i < n {
      SecondBefore(lines, i, n - 1, labels, pool);
    }
  }

  lemma {:induction false} ZerosCount(n: nat)
    ensures |Zeros(n)| == n && forall i :: 0 <= i < n ==> Zeros(n)[i] == 0
  {
    if n > 0 {
      ZerosCount(n - 1);
    }
  }

  /** A settled operand has one value; where it has, it is settled. */
  lemma OneValue(early: Labels, late: Labels, e: Expr)
    requires forall name :: name in early ==> name in late && late[name] == early[name]
    requires GetValue(late, e, true).Ok?
    ensures GetValue(early, e, false).Ok?
    ensures GetValue(early, e, false) == GetValue(late, e, true)
       <==> (e.Name? && e.name !in early && e.name in late ==> Mask(late[e.name]) == 0)
  {
  }

  lemma EarlyIsLate(lines: seq<Statement>, n: nat, labels: Labels)
    requires n <= |lines| && First(lines, |lines|).Ok? && labels == First(lines, |lines|).value.labels
    ensures First(lines, n).Ok?
    ensures forall name :: name in First(lines, n).value.labels ==>
      name in labels && labels[name] == First(lines, n).value.labels[name]
  {
    FirstBefore(lines, n, |lines|);
    forall name | name in First(lines, n).value.labels
      ensures name in labels && labels[name] == First(lines, n).value.labels[name]
    {
      LabelsStay(lines, n, |lines|, name);
    }
  }

  /** How the two passes take one line, from agreeing states `one` and `two`. */
  lemma StepsAgree(one: State, one': State, two: State, two': State, s: Statement, labels: Labels, pool: map<nat, nat>)
    requires Step(one, s, false, map[]) == Ok(one') && Step(two, s, true, pool) == Ok(two')
    requires two.labels == labels && two.pc == one.pc
    requires forall name :: name in one.labels ==> name in labels && labels[name] == one.labels[name]
    requires forall name :: name in one'.labels ==> name in labels && labels[name] == one'.labels[name]
    ensures (two'.labels == labels && two'.pc == one'.pc)
       <==> (Opens(s) && s.e.name !in one.labels && s.e.name in labels ==> Mask(labels[s.e.name]) == 0)
  {
    match s
    case Label(name) =>
      assert name in one'.labels;
      assert labels[name := one.pc] == labels;
    case Define(name, e) =>
      OneValue(one.labels, labels, e);
      assert name in one'.labels;
      assert labels[name] == GetValue(one.labels, e, false).value;
      assert two'.labels == labels[name := GetValue(labels, e, true).value];
      assert two'.labels[name] == GetValue(labels, e, true).value;
      if GetValue(labels, e, true) == GetValue(one.labels, e, false) {
        assert labels[name := labels[name]] == labels;
      }
    case Block(e) =>
      OneValue(one.labels, labels, e);
      ZerosCount(GetValue(one.labels, e, false).value);
      ZerosCount(GetValue(labels, e, true).value);
    case _ =>
  }

  lemma AgreeStep(lines: seq<Statement>, n: nat, labels: Labels, pool: map<nat, nat>)
    requires n < |lines| && BothRan(lines, labels, pool) && Agree(lines, n, labels, pool)
    ensures Agree(lines, n + 1, labels, pool) <==> SettledAt(lines, n, labels)
  {
    EarlyIsLate(lines, n, labels);
    EarlyIsLate(lines, n + 1, labels);
    SecondBefore(lines, n + 1, |lines|, labels, pool);
    StepsAgree(First(lines, n).value, First(lines, n + 1).value,
               Second(lines, n, labels, pool).value, Second(lines, n + 1, labels, pool).value, lines[n], labels, pool);
  }

  lemma {:induction false} SettledAgrees(lines: seq<Statement>, n: nat, labels: Labels, pool: map<nat, nat>)
    requires n <= |lines| && BothRan(lines, labels, pool) && Settled(lines, labels)
    ensures Agree(lines, n, labels, pool)
  {
    if n > 0 {
      SettledAgrees(lines, n - 1, labels, pool);
      assert SettledAt(lines, n - 1, labels);
      AgreeStep(lines, n - 1, labels, pool);
    }
  }

  /** Exactly when every block size and definition is settled does pass 2 give every name its
      pass 1 value and reach every line at its pass 1 address. */
  lemma PassesAgree(lines: seq<Statement>, labels: Labels, pool: map<nat, nat>)
    requires BothRan(lines, labels, pool)
    ensures Settled(lines, labels) <==> forall n :: 0 <= n <= |lines| ==> Agree(lines, n, labels, pool)
  {
    if Settled(lines, labels) {
      forall n | 0 <= n <= |lines|
        ensures Agree(lines, n, labels, pool)
      {
        SettledAgrees(lines, n, labels, pool);
      }
    }
    if forall n :: 0 <= n <= |lines| ==> Agree(lines, n, labels, pool) {
      forall i | 0 <= i < |lines|
        ensures SettledAt(lines, i, labels)
      {
        assert Agree(lines, i, labels, pool) && Agree(lines, i + 1, labels, pool);
        AgreeStep(lines, i, labels, pool);
      }
    }
  }

  /** With numbers and earlier names only, both passes agree. */
  lemma GroundedAgrees(lines: seq<Statement>, labels: Labels, pool: map<nat, nat>, n: nat)
    requires n <= |lines| && BothRan(lines, labels, pool) && Grounded(lines)
    ensures Agree(lines, n, labels, pool)
  {
    GroundedIsSettled(lines, labels);
    SettledAgrees(lines, n, labels, pool);
  }

  /** A block sized by a later name moves the label behind it between the passes. */
  lemma LateBlockDisagrees()
    ensures var lines := [Block(Name("n")), Label("here"), Define("n", Number(1))];
      First(lines, 3).Ok?
      && var labels := First(lines, 3).value.labels;
      BothRan(lines, labels, map[]) && "here" in labels && labels["here"] == 0
      && Second(lines, 3, labels, map[]).value.labels["here"] == 1
  {
    var lines := [Block(Name("n")), Label("here"), Define("n", Number(1))];
    assert First(lines, 1) == Ok(State(map[], 0, [], []));
    assert First(lines, 2) == Ok(State(map["here" := 0], 0, [], []));
    var labels := map["here" := 0]["n" := 1];
    assert First(lines, 3) == Ok(State(labels, 0, [], []));
    ZerosCount(1);
    assert Zeros(1) == [0];
    var start := State(labels, 0, [], []);
    assert labels["n"] == 1 && GetValue(labels, Name("n"), true) == Ok(1);
    assert Step(start, Block(Name("n")), true, map[]) == Ok(Emit(start, [0], true));
    assert Second(lines, 0, labels, map[]) == Ok(start);
    assert Second(lines, 1, labels, map[]) == Step(start, lines[0], true, map[]);
    assert Second(lines, 1, labels, map[]) == Ok(State(labels, 1, [0], []));
    assert Second(lines, 2, labels, map[]) == Ok(State(labels["here" := 1], 1, [0], []));
  }

  // ---------------------------------------------------------------- words

  /** Pass 1 writes nothing. */
  lemma {:induction false} FirstWritesNothing(lines: seq<Statement>, n: nat)
    requires n <= |lines| && First(lines, n).Ok?
    ensures First(lines, n).value.program == []
  {
    if n > 0 {
      FirstWritesNothing(lines, n - 1);
    }
  }

  predicate IsWord(w: nat) {
    w < 0x1_0000
  }

  lemma WordFits(labels: Labels, m: Mnemonic, a: Expr, b: Expr, second: bool, pool: map<nat, nat>)
    requires WordOf(labels, m, a, b, second, pool).Ok?
    ensures Code(m) <= WordOf(labels, m, a, b, second, pool).value < Code(m) + 0x800 <= 0x1_0000
  {
  }

  /** Pass 2 writes one word for each step of the program counter, and each is a word. */
  lemma {:induction false} WordsAreCounted(lines: seq<Statement>, n: nat, labels: Labels, pool: map<nat, nat>)
    requires n <= |lines| && Second(lines, n, labels, pool).Ok?
    ensures var two := Second(lines, n, labels, pool).value;
      |two.program| == two.pc && forall i :: 0 <= i < two.pc ==> IsWord(two.program[i])
  {
    if n > 0 {
      WordsAreCounted(lines, n - 1, labels, pool);
      var s, two := lines[n - 1], Second(lines, n - 1, labels, pool).value;
      if s.Op? {
        WordFits(two.labels, s.m, s.a, s.b, true, pool);
      } else if s.Block? {
        ZerosCount(GetValue(two.labels, s.e, true).value);
      }
    }
  }

  /** Words once written stay. */
  lemma {:induction false} WordsStay(lines: seq<Statement>, i: nat, n: nat, labels: Labels, pool: map<nat, nat>)
    requires i <= n <= |lines| && Second(lines, n, labels, pool).Ok? && Second(lines, i, labels, pool).Ok?
    ensures Second(lines, i, labels, pool).value.program <= Second(lines, n, labels, pool).value.program
    decreases n
  {
    if i < n {
      SecondBefore(lines, n - 1, n, labels, pool);
      WordsStay(lines, i, n - 1, labels, pool);
    }
  }

  // ---------------------------------------------------------------- the pool

  predicate Distinct(s: seq<nat>) {
    forall i, j :: 0 <= i < j < |s| ==> s[i] != s[j]
  }

  /** The pool holds the value of every expression, once. */
  lemma {:induction false} ValuesHold(labels: Labels, exprs: seq<Expr>, k: nat)
    requires k <= |exprs| && Values(labels, exprs, k).Ok?
    ensures Distinct(Values(labels, exprs, k).value)
    ensures forall i :: 0 <= i < k ==>
      GetValue(labels, exprs[i], false).Ok? && GetValue(labels, exprs[i], false).value in Values(labels, exprs, k).value
  {
    if k > 0 {
      ValuesHold(labels, exprs, k - 1);
    }
  }

  /** A value's pool address is where it is. */
  lemma {:induction false} PoolAddress(values: seq<nat>, k: nat, pc: nat, v: nat)
    requires k <= |values| && v in Pool(values, k, pc)
    ensures pc <= Pool(values, k, pc)[v] < pc + k && values[Pool(values, k, pc)[v] - pc] == v
  {
    if k > 0 && v != values[k - 1] {
      PoolAddress(values, k - 1, pc, v);
    }
  }

  /** The line as pass 2 takes it. */
  lemma ImmediateWord(lines: seq<Statement>, i: nat, labels: Labels, pool: map<nat, nat>)
    returns (v: nat)
    requires i < |lines| && BothRan(lines, labels, pool) && Agree(lines, i, labels, pool)
    requires lines[i].Op? && ModeOf(lines[i].m) == Immediate && lines[i].a.Hash?
    ensures GetValue(labels, lines[i].a.of, true) == Ok(v) && v in pool && pool[v] <= 0x3FF
    ensures var two := Second(lines, |lines|, labels, pool).value; var at := First(lines, i).value.pc;
      at < |two.program| && two.program[at] == Code(lines[i].m) + pool[v]
  {
    SecondBefore(lines, i + 1, |lines|, labels, pool);
    WordsAreCounted(lines, i, labels, pool);
    WordsStay(lines, i + 1, |lines|, labels, pool);
    v := GetValue(labels, lines[i].a.of, true).value;
  }

  /** The low ten bits of a code that is a multiple of 0x800 plus an address. */
  lemma LowTenBits(m: Mnemonic, a: nat)
    requires a <= 0x3FF
    ensures (Code(m) + a) % 0x400 == a
  {
    assert Code(m) % 0x400 == 0;
  }

  /** Each instruction with an immediate value: the low ten bits of its word address a word of
      the program that holds the value of the expression, and every word counts. */
  lemma ImmediatesAreAddressed(lines: seq<Statement>, i: nat)
    requires Assembled(lines).Ok? && Settled(lines, First(lines, |lines|).value.labels)
    requires i < |lines| && lines[i].Op? && ModeOf(lines[i].m) == Immediate && lines[i].a.Hash?
    ensures First(lines, i).Ok?
    ensures var program := Assembled(lines).value; var at := First(lines, i).value.pc;
      at < |program| && program[at] % 0x400 < |program| && program[at] - program[at] % 0x400 == Code(lines[i].m)
      && GetValue(First(lines, |lines|).value.labels, lines[i].a.of, true) == Ok(program[program[at] % 0x400])
  {
    var one := First(lines, |lines|).value;
    var values := Values(one.labels, one.exprs, |one.exprs|).value;
    var pool := Pool(values, |values|, one.pc);
    var two := Second(lines, |lines|, one.labels, pool).value;
    SettledAgrees(lines, i, one.labels, pool);
    SettledAgrees(lines, |lines|, one.labels, pool);
    WordsAreCounted(lines, |lines|, one.labels, pool);
    var v := ImmediateWord(lines, i, one.labels, pool);
    PoolAddress(values, |values|, one.pc, v);
    LowTenBits(lines[i].m, pool[v]);
  }

  /** The program has as many words as its pool's end says, when the passes agree. */
  lemma ProgramIsWhole(lines: seq<Statement>)
    requires Assembled(lines).Ok? && Settled(lines, First(lines, |lines|).value.labels)
    ensures var one := First(lines, |lines|).value;
      var values := Values(one.labels, one.exprs, |one.exprs|).value;
      |Assembled(lines).value| == one.pc + |values| && Distinct(values)
      && forall k :: 0 <= k < |values| ==> Assembled(lines).value[one.pc + k] == values[k]
  {
    var one := First(lines, |lines|).value;
    var values := Values(one.labels, one.exprs, |one.exprs|).value;
    var pool := Pool(values, |values|, one.pc);
    ValuesHold(one.labels, one.exprs, |one.exprs|);
    SettledAgrees(lines, |lines|, one.labels, pool);
    WordsAreCounted(lines, |lines|, one.labels, pool);
  }

  /** No lookup in the pool ever fails when the passes agree: a value behind a hash sign that
      pass 2 can evaluate is in it. */
  lemma PoolIsComplete(lines: seq<Statement>, i: nat, e: Expr)
    requires First(lines, |lines|).Ok? && i < |lines|
    requires lines[i].Op? && ModeOf(lines[i].m) == Immediate && lines[i].a == Hash(e)
    requires var one := First(lines, |lines|).value;
      Values(one.labels, one.exprs, |one.exprs|).Ok? && GetValue(one.labels, e, true).Ok?
    ensures var one := First(lines, |lines|).value;
      GetValue(one.labels, e, true).value in Values(one.labels, one.exprs, |one.exprs|).value
  {
    var one := First(lines, |lines|).value;
    ExprsCollected(lines, i, |lines|);
    ValuesHold(one.labels, one.exprs, |one.exprs|);
    var k :| 0 <= k < |one.exprs| && one.exprs[k] == e;
    OneValue(one.labels, one.labels, e);
  }
}
