/** `script::run` on an input and an output script, with the second pass of BIP 16. */
module PayToScriptHash {
  import opened Types
  import opened ScriptCodec
  import opened BigNumber
  import opened Interpreter
  import opened Conditionals
  import opened ScriptRunners

  predicate IsScriptHash(ops: Script) {
    && |ops| == 3 && ops[0].code == 169 && ops[1].code == SPECIAL
    && |ops[1].data| == 20 && ops[2].code == 135
  }

  predicate LeavesTrue(stack: Stack) {
    stack != [] && CastBool(Top(stack, 1))
  }

  /** A run that counts only when it ends and leaves true. */
  function Accepts(c: Context, stack: Stack): Outcome<bool> {
    match RunScript(c, stack)
    case Done(final) => Done(LeavesTrue(final))
    case Fail => Done(false)
    case Undefined => Undefined
  }

  /** The script carried by the top item, run on the items below it. */
  function SecondPass(e: Env, tx: Transaction, index: nat, stack: Stack): Outcome<bool> {
    if stack == [] then Undefined else
      match ParseScript(Top(stack, 1))
      case Done(ops) => Accepts(Context(e, ops, tx, index), Drop(stack, 1))
      case _ => Undefined
  }

  function RunScripts(e: Env, output: Script, input: Script, tx: Transaction, index: nat, bip16: bool): Outcome<bool> {
    match RunScript(Context(e, input, tx, index), [])
    case Fail => Done(false)
    case Undefined => Undefined
    case Done(stack) =>
      match Accepts(Context(e, output, tx, index), stack)
      case Done(true) =>
        if !bip16 || !IsScriptHash(output) then Done(true)
        else if CountNonPush(input) != 0 then Done(false)
        else SecondPass(e, tx, index, stack)
      case other => other
  }

  method Run(e: Env, output: Script, input: Script, tx: Transaction, index: nat, bip16: bool) returns (r: Outcome<bool>)
    ensures r == RunScripts(e, output, input, tx, index, bip16)
  {
    hide RunScript;
    var inputRunner := new ScriptRunner(Context(e, input, tx, index), []);
    var ran := inputRunner.Run();
    if !ran.Done? { return if ran.Fail? then Done(false) else Undefined; }
    var outputRunner := new ScriptRunner(Context(e, output, tx, index), inputRunner.stack);
    ran := outputRunner.Run();
    if !ran.Done? { return if ran.Fail? then Done(false) else Undefined; }
    if outputRunner.stack == [] { return Done(false); }
    var top := CastToBool(Top(outputRunner.stack, 1));
    if !top { return Done(false); }
    if bip16 && IsScriptHash(output) {
      if CountNonPush(input) != 0 { return Done(false); }
      r := RunSecond(e, tx, index, inputRunner.stack);
      return;
    }
    return Done(true);
  }

  method RunSecond(e: Env, tx: Transaction, index: nat, stack: Stack) returns (r: Outcome<bool>)
    ensures r == SecondPass(e, tx, index, stack)
  {
    hide RunScript;
    if stack == [] { return Undefined; }
    var ops := Parse(Top(stack, 1));
    if !ops.Done? { return Undefined; }
    var runner := new ScriptRunner(Context(e, ops.value, tx, index), Drop(stack, 1));
    var ran := runner.Run();
    if !ran.Done? { return if ran.Fail? then Done(false) else Undefined; }
    if runner.stack == [] { return Done(false); }
    var top := CastToBool(Top(runner.stack, 1));
    return Done(top);
  }

  // ---- what the second pass decides

  lemma ScriptHashLimits(ops: Script)
    requires IsScriptHash(ops) && WellFormedScript(ops)
    ensures WithinLimits(ops)
  {
    assert WellFormedOp(ops[0]) && WellFormedOp(ops[1]) && WellFormedOp(ops[2]);
    assert ops[1..][1..] == ops[2..] && ops[2..][1..] == [];
    assert |OpBytes(ops[0])| == 1 && |OpBytes(ops[1])| == 21 && |OpBytes(ops[2])| == 1;
    assert |OpsBytes(ops[2..])| == 1;
    assert |OpsBytes(ops[1..])| == 22;
    assert CountNonPush(ops[2..]) == 1;
    assert CountNonPush(ops[1..]) == 1;
  }

  /** The hash comparison, step by step: hash the top item, push the committed hash, compare. */
  lemma ScriptHashRun(c: Context, stack: Stack)
    requires IsScriptHash(c.ops) && WellFormedScript(c.ops)
    ensures RunScript(c, stack) ==
            if stack == [] || |stack| >= MAX_STACK then Fail
            else Done(Drop(stack, 1) + [Truth(c.e.hash160(Top(stack, 1)) == c.ops[1].data)])
  {
    ScriptHashLimits(c.ops);
    assert WellFormedOp(c.ops[0]) && WellFormedOp(c.ops[2]);
    var ops := c.ops;
    var m0 := Machine(stack, [], 0);
    assert ops[1..][1..] == ops[2..] && ops[2..][1..] == [];
    if stack != [] {
      var hash: Bytes := c.e.hash160(Top(stack, 1));
      var m1 := m0.(stack := Drop(stack, 1) + [hash]);
      var m2 := m1.(stack := m1.stack + [ops[1].data]);
      assert RunOperation(c, ops[0], m0) == Done(m1);
      assert Execute(c, ops[1], 1, m1) == CheckBound(m2);
      assert Drop(m2.stack, 2) == Drop(stack, 1);
      assert RunOperation(c, ops[2], m2) == Done(m2.(stack := Drop(stack, 1) + [Truth(hash == ops[1].data)]));
      hide RunOperation;
      assert AllTaken([]);
      assert RunFlat(c, ops[2..], 2, State(m2, []))
          == WithFlags(CheckBound(m2.(stack := Drop(stack, 1) + [Truth(hash == ops[1].data)])), []);
      assert RunFlat(c, ops[1..], 1, State(m1, []))
          == if Bounded(m2) then RunFlat(c, ops[2..], 2, State(m2, [])) else Fail;
    }
  }

  /** Whatever the output script compares, an accepted comparison had an item on the input stack. */
  lemma TopItemExists(c: Context, stack: Stack)
    requires IsScriptHash(c.ops) && WellFormedScript(c.ops) && Accepts(c, stack) == Done(true)
    ensures stack != [] && |stack| < MAX_STACK
  {
    ScriptHashRun(c, stack);
  }

  /** The script parsed from an item runs on a stack and leaves a top item that is not zero. */
  predicate ItemUnlocks(e: Env, tx: Transaction, index: nat, item: Bytes, stack: Stack) {
    && ParseScript(item).Done?
    && LeavesNonZero(RunScript(Context(e, ParseScript(item).value, tx, index), stack))
  }

  predicate LeavesNonZero(ran: Outcome<Stack>) {
    ran.Done? && ran.value != [] && SetData(ran.value[|ran.value| - 1]) != 0
  }

  lemma SecondPassMeans(e: Env, tx: Transaction, index: nat, stack: Stack)
    requires stack != []
    ensures SecondPass(e, tx, index, stack) == Done(true)
            <==> ItemUnlocks(e, tx, index, stack[|stack| - 1], stack[..|stack| - 1])
  {
    hide RunScript;
    hide ParseScript;
    hide SetData;
  }

  lemma NoOthers(input: Script)
    ensures CountNonPush(input) == 0 <==> Others(input) == []
  {
    CountOthers(input);
  }

  /** A script-hash output is spent exactly when the input runs, only pushes, leaves fewer than a thousand
      items with one of the committed hash on top, and that item's script leaves true on the rest. */
  lemma ScriptHashSpent(e: Env, output: Script, input: Script, tx: Transaction, index: nat)
    requires IsScriptHash(output) && WellFormedScript(output)
    ensures RunScripts(e, output, input, tx, index, true) == Done(true) <==>
            var ran := RunScript(Context(e, input, tx, index), []);
            && ran.Done? && Others(input) == [] && 0 < |ran.value| < 1000
            && var n := |ran.value| - 1;
               && e.hash160(ran.value[n]) == output[1].data
               && ItemUnlocks(e, tx, index, ran.value[n], ran.value[..n])
  {
    hide SecondPass;
    hide ItemUnlocks;
    NoOthers(input);
    var ran := RunScript(Context(e, input, tx, index), []);
    if ran.Done? {
      if ran.value != [] { SecondPassMeans(e, tx, index, ran.value); }
      ScriptHashRun(Context(e, output, tx, index), ran.value);
      TruthCasts();
    }
    hide RunScript;
    hide Others;
    hide CountNonPush;
  }

  /** Any other output, and every one before the switch, is spent exactly when the input script runs and the
      output script, started on the stack it leaves, leaves true. */
  lemma PlainSpent(e: Env, output: Script, input: Script, tx: Transaction, index: nat, bip16: bool)
    requires !bip16 || !IsScriptHash(output)
    ensures RunScripts(e, output, input, tx, index, bip16) == Done(true) <==>
            var ran := RunScript(Context(e, input, tx, index), []);
            ran.Done? && LeavesNonZero(RunScript(Context(e, output, tx, index), ran.value))
  {
    hide RunScript;
    hide SetData;
  }

  lemma TruthCasts()
    ensures CastBool(TRUE_VALUE) && !CastBool(FALSE_VALUE)
  {
    ValueIsZero(Magnitude(TRUE_VALUE));
    assert Magnitude(TRUE_VALUE)[0] == 1;
  }
}
