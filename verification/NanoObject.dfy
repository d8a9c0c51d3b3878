/** The assembler's global state and the procedures that change it, over both passes. */
module NanoObject {
  import opened NanoAssembler
  import opened NanoPasses

  lemma {:induction false} PoolKeys(values: seq<nat>, k: nat, pc: nat, v: nat)
    requires k <= |values|
    ensures v in Pool(values, k, pc) <==> v in values[..k]
  {
    if k > 0 {
      PoolKeys(values, k - 1, pc, v);
      assert values[..k] == values[..k - 1] + [values[k - 1]];
    }
  }

  /** A dictionary that gives each value its address is the pool. */
  lemma PoolIs(values: seq<nat>, pc: nat, dict: map<nat, nat>)
    requires Distinct(values) && forall v :: v in dict <==> v in values
    requires forall j :: 0 <= j < |values| ==> dict[values[j]] == pc + j
    ensures dict == Pool(values, |values|, pc)
  {
    var pool := Pool(values, |values|, pc);
    assert values[..|values|] == values;
    forall v: nat
      ensures v in dict <==> v in pool
      ensures v in dict ==> dict[v] == pool[v]
    {
      PoolKeys(values, |values|, pc, v);
      if v in pool {
        PoolAddress(values, |values|, pc, v);
        assert dict[values[pool[v] - pc]] == pc + (pool[v] - pc);
      }
    }
  }

  class Assembler {
    var labels: Labels
    var program: seq<nat>
    var immExpr: seq<Expr>
    var immDict: map<nat, nat>
    var immValues: seq<nat>
    var pc: nat
    var second: bool

    constructor ()
      ensures labels == map[] && program == [] && immExpr == [] && immDict == map[] && immValues == []
      ensures pc == 0 && !second
    {
      labels, program, immExpr, immDict, immValues, pc, second := map[], [], [], map[], [], 0, false;
    }

    /** The state of the pass that is running. */
    function View(): State
      reads this
    {
      State(labels, pc, program, if second then [] else immExpr)
    }

    /** What a pass leaves alone. */
    twostate predicate Rest()
      reads this
    {
      immDict == old(immDict) && immValues == old(immValues) && second == old(second)
      && (second ==> immExpr == old(immExpr))
    }

    method OutputDirect(data: nat)
      modifies this
      ensures View() == Emit(old(View()), [data], second) && Rest()
    {
      pc := pc + 1;
      if second {
        program := program + [data];
      }
    }

    method AddLabel(name: string, v: nat) returns (ok: bool)
      modifies this
      ensures Rest() && ok == NanoAssembler.AddLabel(old(View()), name, v, second).Ok?
      ensures ok ==> View() == NanoAssembler.AddLabel(old(View()), name, v, second).value
    {
      if !second && name in labels {
        return false;
      }
      labels := labels[name := v];
      return true;
    }

    /** _get_value_imm: in pass 1 the expression is only remembered. */
    method ValueImm(e: Expr) returns (v: Result<nat>)
      modifies this
      ensures Rest() && View() == if second then old(View()) else Collect(old(View()), e)
      ensures v == GetValueImm(old(labels), e, second, immDict)
    {
      if e.Hash? {
        if !second {
          if e.of !in immExpr {
            immExpr := immExpr + [e.of];
          }
          return Ok(0);
        }
        var value := GetValue(labels, e.of, true);
        if value.Error? || value.value !in immDict {
          return Error;
        }
        return Ok(immDict[value.value]);
      }
      return GetValue(labels, e, second);
    }

    /** The handler of an instruction. */
    method Instruction(m: Mnemonic, a: Expr, b: Expr) returns (ok: bool)
      modifies this
      ensures Rest() && ok == Step(old(View()), Op(m, a, b), second, immDict).Ok?
      ensures ok ==> View() == Step(old(View()), Op(m, a, b), second, immDict).value
    {
      var word: Result<nat> := Error;
      if ModeOf(m) == Immediate {
        var v := ValueImm(a);
        word := Below(v, Code(m), 0x3FF);
      } else {
        word := WordOf(labels, m, a, b, second, immDict);
      }
      if word.Error? {
        return false;
      }
      OutputDirect(word.value);
      return true;
    }

    method BlockOf(n: nat)
      modifies this
      ensures View() == Emit(old(View()), Zeros(n), second) && Rest()
    {
      var i := 0;
      while i < n
        invariant 0 <= i <= n && Rest()
        invariant View() == Emit(old(View()), Zeros(i), second)
      {
        OutputDirect(0);
        i := i + 1;
      }
    }

    method ParseLine(s: Statement) returns (ok: bool)
      modifies this
      ensures Rest() && ok == Step(old(View()), s, second, immDict).Ok?
      ensures ok ==> View() == Step(old(View()), s, second, immDict).value
    {
      match s
      case Label(name) =>
        ok := AddLabel(name, pc);
      case Define(name, e) =>
        var v := GetValue(labels, e, second);
        if v.Error? {
          return false;
        }
        ok := AddLabel(name, v.value);
      case Op(m, a, b) =>
        ok := Instruction(m, a, b);
      case Data(e) =>
        var v := GetValue(labels, e, second);
        if v.Error? {
          return false;
        }
        OutputDirect(v.value);
        ok := true;
      case Block(e) =>
        var v := GetValue(labels, e, second);
        if v.Error? {
          return false;
        }
        BlockOf(v.value);
        ok := true;
      case Malformed =>
        ok := false;
    }

    method ParseLines(lines: seq<Statement>) returns (ok: bool)
      modifies this
      ensures Rest() && ok == Pass(lines, |lines|, old(View()), second, immDict).Ok?
      ensures ok ==> View() == Pass(lines, |lines|, old(View()), second, immDict).value
    {
      var nr := 0;
      while nr < |lines|
        invariant 0 <= nr <= |lines| && Rest()
        invariant Pass(lines, nr, old(View()), second, immDict) == Ok(View())
      {
        ok := ParseLine(lines[nr]);
        if !ok {
          FailureStays(lines, nr + 1, old(View()));
          return;
        }
        nr := nr + 1;
      }
      ok := true;
    }

    lemma {:induction false} FailureStays(lines: seq<Statement>, n: nat, start: State)
      requires n <= |lines| && Pass(lines, n, start, second, immDict).Error?
      ensures Pass(lines, |lines|, start, second, immDict).Error?
      decreases |lines| - n
    {
      if n < |lines| {
        FailureStays(lines, n + 1, start);
      }
    }

    /** Places the values of the collected expressions behind the program, each once. */
    method ResolveImmediates() returns (ok: bool)
      requires !second && immDict == map[] && immValues == []
      modifies this
      ensures labels == old(labels) && program == old(program) && immExpr == old(immExpr) && second == old(second)
      ensures ok == Values(labels, immExpr, |immExpr|).Ok?
      ensures ok ==> immValues == Values(labels, immExpr, |immExpr|).value
      ensures ok ==> immDict == Pool(immValues, |immValues|, old(pc))
    {
      var keys;
      ok, keys := EvaluateAll();
      if ok {
        ValuesHold(labels, immExpr, |immExpr|);
        PlaceAll(keys);
      }
    }

    /** First every value becomes a key; `keys` is their order. */
    method EvaluateAll() returns (ok: bool, keys: seq<nat>)
      requires immDict == map[]
      modifies this`immDict
      ensures ok == Values(labels, immExpr, |immExpr|).Ok?
      ensures ok ==> keys == Values(labels, immExpr, |immExpr|).value && forall v :: v in immDict <==> v in keys
    {
      keys := [];
      var i := 0;
      while i < |immExpr|
        invariant 0 <= i <= |immExpr|
        invariant Values(labels, immExpr, i) == Ok(keys) && forall v :: v in immDict <==> v in keys
      {
        var value := GetValue(labels, immExpr[i], false);
        if value.Error? {
          ErrorStays(i + 1);
          return false, keys;
        }
        if value.value !in immDict {
          keys := keys + [value.value];
        }
        immDict := immDict[value.value := 0];
        i := i + 1;
      }
      ok := true;
    }

    /** Then each key gets the next address. */
    method PlaceAll(keys: seq<nat>)
      requires Distinct(keys) && immValues == [] && forall v :: v in immDict <==> v in keys
      modifies this`immDict, this`immValues, this`pc
      ensures immValues == keys && immDict == Pool(keys, |keys|, old(pc))
    {
      var k := 0;
      while k < |keys|
        invariant 0 <= k <= |keys| && immValues == keys[..k] && pc == old(pc) + k
        invariant forall v :: v in immDict <==> v in keys
        invariant forall j :: 0 <= j < k ==> immDict[keys[j]] == old(pc) + j
      {
        immDict := immDict[keys[k] := pc];
        immValues := immValues + [keys[k]];
        pc := pc + 1;
        k := k + 1;
      }
      PoolIs(keys, old(pc), immDict);
    }

    lemma {:induction false} ErrorStays(k: nat)
      requires k <= |immExpr| && Values(labels, immExpr, k).Error?
      ensures Values(labels, immExpr, |immExpr|).Error?
      decreases |immExpr| - k
    {
      if k < |immExpr| {
        ErrorStays(k + 1);
      }
    }

    method WritePool()
      requires second
      modifies this
      ensures program == old(program) + immValues && Rest()
    {
      var i := 0;
      while i < |immValues|
        invariant 0 <= i <= |immValues| && Rest()
        invariant program == old(program) + immValues[..i]
      {
        OutputDirect(immValues[i]);
        i := i + 1;
      }
    }

    /** Both passes, and the pool behind the program. */
    method Assemble(lines: seq<Statement>) returns (ok: bool)
      requires labels == map[] && program == [] && immExpr == [] && immDict == map[] && immValues == []
      requires pc == 0 && !second
      modifies this
      ensures ok == Assembled(lines).Ok?
      ensures ok ==> program == Assembled(lines).value
    {
      ok := ParseLines(lines);
      if !ok {
        return;
      }
      FirstWritesNothing(lines, |lines|);
      ok := ResolveImmediates();
      if !ok {
        return;
      }
      pc := 0;
      second := true;
      ok := ParseLines(lines);
      if ok {
        WritePool();
      }
    }
  }
}
