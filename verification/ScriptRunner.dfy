/** The object that runs a script: every operation pushes to and pops from its stacks in place. */
module ScriptRunners {
  import opened Types
  import opened ScriptCodec
  import opened BigNumber
  import opened Interpreter
  import opened Conditionals

  class ScriptRunner {
    const c: Context
    var stack: Stack
    var alternate: Stack
    var conditional: Flags
    var codehash: nat

    constructor (c: Context, stack: Stack)
      ensures this.c == c && this.stack == stack
    {
      this.c := c;
      this.stack := stack;
      alternate, conditional, codehash := [], [], 0;
    }

    function Now(): Machine
      reads this
    {
      Machine(stack, alternate, codehash)
    }

    function Current(): State
      reads this
    {
      State(Now(), conditional)
    }

    /** The operation came out as given, and on success the stack is the given one. */
    predicate Left(s: Outcome<Stack>, r: Outcome<()>)
      reads this`stack
    {
      match s
      case Done(next) => r == Done(()) && stack == next
      case Fail => r == Fail
      case Undefined => r == Undefined
    }

    predicate Reached(m: Outcome<Machine>, r: Outcome<()>)
      reads this
    {
      match m
      case Done(next) => r == Done(()) && Now() == next
      case Fail => r == Fail
      case Undefined => r == Undefined
    }

    // ---- the stack

    method Push(item: Bytes)
      modifies this`stack
      ensures stack == old(stack) + [item]
    {
      stack := stack + [item];
    }

    method PopStack() returns (item: Bytes)
      requires stack != []
      modifies this`stack
      ensures item == Top(old(stack), 1) && stack == Drop(old(stack), 1)
    {
      item := stack[|stack| - 1];
      stack := stack[..|stack| - 1];
    }

    /** `copy_item_over_stack`. */
    method CopyOver(index: nat)
      requires 1 <= index <= |stack|
      modifies this`stack
      ensures stack == old(stack) + [Top(old(stack), index)]
    {
      stack := stack + [stack[|stack| - index]];
    }

    /** `stack_swap`. */
    method SwapItems(a: nat, b: nat)
      requires 1 <= a <= |stack| && 1 <= b <= |stack|
      modifies this`stack
      ensures stack == old(stack)[|old(stack)| - a := Top(old(stack), b)][|old(stack)| - b := Top(old(stack), a)]
    {
      var n := |stack|;
      var first, second := stack[n - a], stack[n - b];
      stack := stack[n - a := second];
      stack := stack[n - b := first];
    }

    /** Erases `count` items that start `index` from the top. */
    method Erase(index: nat, count: nat)
      requires count <= index <= |stack|
      modifies this`stack
      ensures stack == Drop(old(stack), index) + old(stack)[|old(stack)| - index + count..]
    {
      var at := |stack| - index;
      stack := stack[..at] + stack[at + count..];
    }

    method TwoDup() returns (r: Outcome<()>)
      modifies this`stack
      ensures Left(Shuffle(110, old(stack)), r)
    {
      if |stack| < 2 { return Fail; }
      var first, second := stack[|stack| - 2], stack[|stack| - 1];
      Push(first);
      Push(second);
      return Done(());
    }

    method ThreeDup() returns (r: Outcome<()>)
      modifies this`stack
      ensures Left(Shuffle(111, old(stack)), r)
    {
      if |stack| < 3 { return Fail; }
      var first, second, third := stack[|stack| - 3], stack[|stack| - 2], stack[|stack| - 1];
      Push(first);
      Push(second);
      Push(third);
      return Done(());
    }

    method TwoOver() returns (r: Outcome<()>)
      modifies this`stack
      ensures Left(Shuffle(112, old(stack)), r)
    {
      if |stack| < 4 { return Fail; }
      CopyOver(4);
      CopyOver(4);
      return Done(());
    }

    method TwoRot() returns (r: Outcome<()>)
      modifies this`stack
      ensures Left(Shuffle(113, old(stack)), r)
    {
      if |stack| < 6 { return Fail; }
      var first, second := stack[|stack| - 6], stack[|stack| - 5];
      Erase(6, 2);
      assert stack == Drop(old(stack), 6)
                      + [Top(old(stack), 4), Top(old(stack), 3), Top(old(stack), 2), Top(old(stack), 1)];
      Push(first);
      Push(second);
      return Done(());
    }

    method TwoSwap() returns (r: Outcome<()>)
      modifies this`stack
      ensures Left(Shuffle(114, old(stack)), r)
    {
      if |stack| < 4 { return Fail; }
      SwapItems(4, 2);
      SwapItems(3, 1);
      return Done(());
    }

    method IfDup() returns (r: Outcome<()>)
      modifies this`stack
      ensures Left(Shuffle(115, old(stack)), r)
    {
      if |stack| < 1 { return Fail; }
      var top := CastToBool(stack[|stack| - 1]);
      if top { CopyOver(1); }
      return Done(());
    }

    method Nip() returns (r: Outcome<()>)
      modifies this`stack
      ensures Left(Shuffle(119, old(stack)), r)
    {
      if |stack| < 2 { return Fail; }
      Erase(2, 1);
      return Done(());
    }

    /** `pick_roll_impl`. */
    method PickRoll(roll: bool) returns (r: Outcome<()>)
      modifies this`stack
      ensures Left(PickOrRoll(old(stack), roll), r)
    {
      if |stack| < 2 { return Fail; }
      var number := Number(stack[|stack| - 1]);
      if !number.Done? { return Fail; }
      var _ := PopStack();
      var n := Abs(number.value);
      if n >= |stack| { return Fail; }
      var item := stack[|stack| - n - 1];
      if roll { Erase(n + 1, 1); }
      Push(item);
      return Done(());
    }

    method Rot() returns (r: Outcome<()>)
      modifies this`stack
      ensures Left(Shuffle(123, old(stack)), r)
    {
      if |stack| < 3 { return Fail; }
      SwapItems(3, 2);
      SwapItems(2, 1);
      return Done(());
    }

    method Tuck() returns (r: Outcome<()>)
      modifies this`stack
      ensures Left(Shuffle(125, old(stack)), r)
    {
      if |stack| < 2 { return Fail; }
      var at := |stack| - 2;
      stack := stack[..at] + [stack[|stack| - 1]] + stack[at..];
      return Done(());
    }

    method Equal() returns (r: Outcome<()>)
      modifies this`stack
      ensures Left(Shuffle(135, old(stack)), r)
    {
      if |stack| < 2 { return Fail; }
      var first := PopStack();
      var second := PopStack();
      Push(if first == second then TRUE_VALUE else FALSE_VALUE);
      return Done(());
    }

    method EqualVerify() returns (r: Outcome<()>)
      modifies this`stack
      ensures Left(Shuffle(136, old(stack)), r)
    {
      if |stack| < 2 { return Fail; }
      var first := PopStack();
      var second := PopStack();
      return if first == second then Done(()) else Fail;
    }

    /** The operations of one or two pushes and pops. */
    method SmallShuffle(code: byte) returns (r: Outcome<()>)
      requires code in {109, 116, 117, 118, 120, 124, 130}
      modifies this`stack
      ensures Left(Shuffle(code, old(stack)), r)
    {
      if code == 116 {
        Push(Data(|stack|));
        return Done(());
      }
      if |stack| < (if code in {117, 118, 130} then 1 else 2) { return Fail; }
      if code == 109 {
        var _ := PopStack();
        var _ := PopStack();
      } else if code == 117 {
        var _ := PopStack();
      } else if code == 118 {
        CopyOver(1);
      } else if code == 120 {
        CopyOver(2);
      } else if code == 124 {
        SwapItems(2, 1);
      } else {
        Push(Data(|stack[|stack| - 1]|));
      }
      return Done(());
    }

    method RunShuffle(code: byte) returns (r: Outcome<()>)
      requires 109 <= code <= 125 || code == 130 || code == 135 || code == 136
      modifies this`stack
      ensures Left(Shuffle(code, old(stack)), r)
    {
      match code
      case 110 => r := TwoDup();
      case 111 => r := ThreeDup();
      case 112 => r := TwoOver();
      case 113 => r := TwoRot();
      case 114 => r := TwoSwap();
      case 115 => r := IfDup();
      case 119 => r := Nip();
      case 121 => r := PickRoll(false);
      case 122 => r := PickRoll(true);
      case 123 => r := Rot();
      case 125 => r := Tuck();
      case 135 => r := Equal();
      case 136 => r := EqualVerify();
      case _ => r := SmallShuffle(code);
    }

    // ---- numbers

    method RunUnary(code: byte) returns (r: Outcome<()>)
      requires IsUnary(code)
      modifies this`stack
      ensures Left(Arithmetic(code, old(stack)), r)
    {
      if |stack| < 1 { return Fail; }
      var top := PopStack();
      var number := Number(top);
      if !number.Done? { return Fail; }
      Push(Data(Unary(code, number.value)));
      return Done(());
    }

    /** `arithmetic_start`: the second operand is on top. */
    method ArithmeticStart() returns (ok: bool, a: int, b: int)
      modifies this`stack
      ensures ok <==> |old(stack)| >= 2 && Number(Top(old(stack), 1)).Done? && Number(Top(old(stack), 2)).Done?
      ensures ok ==> stack == Drop(old(stack), 2)
                     && a == Number(Top(old(stack), 2)).value && b == Number(Top(old(stack), 1)).value
    {
      if |stack| < 2 { return false, 0, 0; }
      var top := PopStack();
      if !Number(top).Done? { return false, 0, 0; }
      var next := PopStack();
      if !Number(next).Done? { return false, 0, 0; }
      return true, Number(next).value, Number(top).value;
    }

    method RunBinary(code: byte) returns (r: Outcome<()>)
      requires IsBinary(code) || code == 157
      modifies this`stack
      ensures Left(Arithmetic(code, old(stack)), r)
    {
      hide Number;
      hide Binary;
      var ok, a, b := ArithmeticStart();
      if !ok { return Fail; }
      if code == 157 { return if a == b then Done(()) else Fail; }
      Push(Data(Binary(code, a, b)));
      return Done(());
    }

    /** `op_within` pops three times without looking. */
    method RunWithin() returns (r: Outcome<()>)
      modifies this`stack
      ensures Left(Within(old(stack)), r)
    {
      hide Number;
      if stack == [] { return Undefined; }
      var upper := PopStack();
      if !Number(upper).Done? { return Fail; }
      if stack == [] { return Undefined; }
      var lower := PopStack();
      if !Number(lower).Done? { return Fail; }
      if stack == [] { return Undefined; }
      var value := PopStack();
      if !Number(value).Done? { return Fail; }
      var inside := Number(lower).value <= Number(value).value < Number(upper).value;
      assert stack == Drop(old(stack), 3);
      Push(if inside then TRUE_VALUE else FALSE_VALUE);
      return Done(());
    }

    method RunHash(code: byte) returns (r: Outcome<()>)
      modifies this`stack
      ensures Left(HashOp(c.e, code, old(stack)), r)
    {
      if |stack| < 1 { return Fail; }
      var data := PopStack();
      if code == 169 {
        Push(c.e.hash160(data));
      } else if code == 170 {
        Push(Reversed(c.e.sha256(data)));
      } else {
        Push(c.e.digest(code, data));
      }
      return Done(());
    }

    // ---- signatures

    /** The operations from the last separator on that a signature covers. */
    method CoveredScript(signatures: seq<Bytes>) returns (code: Script)
      ensures code == ScriptCode(if codehash <= |c.ops| then c.ops[codehash..] else [], signatures)
    {
      code := [];
      if codehash > |c.ops| { return; }
      var it := codehash;
      while it < |c.ops|
        invariant codehash <= it <= |c.ops|
        invariant code + ScriptCode(c.ops[it..], signatures) == ScriptCode(c.ops[codehash..], signatures)
      {
        assert c.ops[it..][1..] == c.ops[it + 1..];
        if c.ops[it].code != CODESEPARATOR && c.ops[it].data !in signatures {
          assert code + ([c.ops[it]] + ScriptCode(c.ops[it + 1..], signatures))
              == (code + [c.ops[it]]) + ScriptCode(c.ops[it + 1..], signatures);
          code := code + [c.ops[it]];
        }
        it := it + 1;
      }
      assert c.ops[it..] == [] && code + [] == code;
    }

    /** The verdict came out as given, with the stack after what was popped. */
    predicate Judged(v: Outcome<(bool, Stack)>, verdict: Outcome<bool>)
      reads this`stack
    {
      match v
      case Done((ok, rest)) => verdict == Done(ok) && stack == rest
      case _ => verdict == Undefined
    }

    method CheckSigVerify() returns (verdict: Outcome<bool>)
      modifies this`stack
      ensures Judged(CheckSig(c, old(Now())), verdict)
    {
      hide ScriptCode;
      hide CheckSignature;
      if |stack| < 2 { return Done(false); }
      var pubkey := PopStack();
      var signature := PopStack();
      var code := CoveredScript([signature]);
      verdict := CheckSignature(c, signature, pubkey, code);
      if !verdict.Done? { return Undefined; }
    }

    /** `read_section`: a count, and that many items in the order they are popped. */
    method PopSection() returns (ok: bool, section: seq<Bytes>)
      modifies this`stack
      ensures (ok, stack, section) == ReadSection(old(stack))
    {
      hide Number;
      section := [];
      if stack == [] { return false, []; }
      var top := PopStack();
      var number := Number(top);
      if !number.Done? { return false, []; }
      var count := Abs(number.value);
      if |stack| < count { return false, []; }
      ghost var rest := stack;
      for i := 0 to count
        invariant stack == Drop(rest, i) && section == Reversed(rest[|rest| - i..])
      {
        assert rest[|rest| - i - 1..] == [Top(rest, i + 1)] + rest[|rest| - i..];
        ReversedFront(Top(rest, i + 1), rest[|rest| - i..]);
        var item := PopStack();
        section := section + [item];
      }
      return true, section;
    }

    /** Each signature tries the keys from the last match on. */
    method TryKeys(signature: Bytes, keys: seq<Bytes>, from: nat, code: Script) returns (found: Outcome<bool>, at: nat)
      requires from < |keys|
      ensures from <= at <= |keys| && !found.Fail? && (at == |keys| <==> found.Done? && !found.value)
      ensures forall j | from <= j < at :: CheckSignature(c, signature, keys[j], code) == Done(false)
      ensures found.Done? && found.value ==> CheckSignature(c, signature, keys[at], code) == found
      ensures found.Undefined? ==> !CheckSignature(c, signature, keys[at], code).Done?
    {
      hide CheckSignature;
      at := from;
      while true
        invariant from <= at < |keys|
        invariant forall j | from <= j < at :: CheckSignature(c, signature, keys[j], code) == Done(false)
        decreases |keys| - at
      {
        found := CheckSignature(c, signature, keys[at], code);
        if !found.Done? { return Undefined, at; }
        if found.value { return; }
        at := at + 1;
        if at == |keys| { return; }
      }
    }

    method MatchAll(signatures: seq<Bytes>, keys: seq<Bytes>, code: Script) returns (verdict: Outcome<bool>)
      ensures verdict == MatchSignatures(c, signatures, keys, 0, code)
    {
      hide CheckSignature;
      var current := 0;
      assert signatures[0..] == signatures;
      for i := 0 to |signatures|
        invariant keys != [] ==> current < |keys|
        invariant MatchSignatures(c, signatures[i..], keys, current, code) == MatchSignatures(c, signatures, keys, 0, code)
      {
        assert signatures[i..][0] == signatures[i] && signatures[i..][1..] == signatures[i + 1..];
        if keys == [] { return Undefined; }
        var found, at := TryKeys(signatures[i], keys, current, code);
        if found.Done? && found.value {
          SkipKeys(c, signatures[i..], keys, current, at, code);
          current := at;
        } else {
          SkipKeys(c, signatures[i..], keys, current, at, code);
          StuckKeys(c, signatures[i..], keys, at, code);
          return found;
        }
      }
      return Done(true);
    }

    method CheckMultisigVerify() returns (verdict: Outcome<bool>)
      modifies this`stack
      ensures Judged(CheckMultisig(c, old(Now())), verdict)
    {
      hide ScriptCode;
      hide MatchSignatures;
      hide ReadSection;
      var ok, keys := PopSection();
      if !ok { return Done(false); }
      var signatures;
      ok, signatures := PopSection();
      if !ok { return Done(false); }
      var code := CoveredScript(signatures);
      verdict := MatchAll(signatures, keys, code);
      if !verdict.Done? { return Undefined; }
    }

    method RunSignature(code: byte) returns (r: Outcome<()>)
      requires 172 <= code <= 175
      modifies this`stack
      ensures Reached(SignatureOp(c, code, old(Now())), r)
    {
      hide CheckSig;
      hide CheckMultisig;
      var verdict;
      if code <= 173 {
        verdict := CheckSigVerify();
      } else {
        verdict := CheckMultisigVerify();
      }
      if !verdict.Done? { return Undefined; }
      if code == 173 || code == 175 { return if verdict.value then Done(()) else Fail; }
      Push(if verdict.value then TRUE_VALUE else FALSE_VALUE);
      return Done(());
    }

    // ---- the conditional stack

    method HasFailedBranches() returns (failed: bool)
      ensures failed <==> !AllTaken(conditional)
    {
      for i := 0 to |conditional|
        invariant forall j | 0 <= j < i :: conditional[j]
      {
        if !conditional[i] { return true; }
      }
      return false;
    }

    method FlipTop()
      requires conditional != []
      modifies this`conditional
      ensures conditional == old(conditional)[..|old(conditional)| - 1] + [!old(conditional)[|old(conditional)| - 1]]
    {
      var n := |conditional| - 1;
      conditional := conditional[n := !conditional[n]];
    }

    /** `op_if`: a skipped one opens a branch without popping. */
    method OpIf() returns (r: Outcome<()>)
      modifies this`stack, this`conditional
      ensures AllTaken(old(conditional)) && old(stack) == [] ==> r == Fail
      ensures AllTaken(old(conditional)) && old(stack) != [] ==>
                && r == Done(()) && stack == Drop(old(stack), 1)
                && conditional == old(conditional) + [CastBool(Top(old(stack), 1))]
      ensures !AllTaken(old(conditional)) ==>
                r == Done(()) && stack == old(stack) && conditional == old(conditional) + [false]
    {
      var value := false;
      var failed := HasFailedBranches();
      if !failed {
        if |stack| < 1 { return Fail; }
        var top := PopStack();
        value := CastToBool(top);
      }
      conditional := conditional + [value];
      return Done(());
    }

    /** The four conditionals, without the size check that follows. */
    method RunCondition(code: byte) returns (r: Outcome<()>)
      requires IsCondition(code)
      modifies this`stack, this`conditional
      ensures Conditioned(ConditionStep(Operation(code, []), old(Current())), r)
    {
      hide AllTaken;
      hide CastBool;
      if code == IF {
        r := OpIf();
      } else if code == NOTIF {
        r := OpIf();
        if r.Done? { FlipTop(); }
      } else {
        if conditional == [] { return Fail; }
        if code == ELSE { FlipTop(); } else { conditional := conditional[..|conditional| - 1]; }
        r := Done(());
      }
    }

    /** Once the size check is made, the operation came out as given. */
    predicate Conditioned(s: Outcome<State>, r: Outcome<()>)
      reads this
    {
      if r.Done? && Bounded(Now()) then s == Done(Current()) else s == Fail && !r.Undefined?
    }

    // ---- dispatch

    method OpVerify() returns (r: Outcome<()>)
      modifies this`stack
      ensures Left(if |old(stack)| < 1 || !CastBool(Top(old(stack), 1)) then Fail else Done(Drop(old(stack), 1)), r)
    {
      if |stack| < 1 { return Fail; }
      var top := CastToBool(stack[|stack| - 1]);
      if !top { return Fail; }
      var _ := PopStack();
      return Done(());
    }

    method ToAltStack() returns (r: Outcome<()>)
      modifies this`stack, this`alternate
      ensures Reached(RunOperation(c, Operation(107, []), old(Now())), r)
    {
      if |stack| < 1 { return Fail; }
      var item := PopStack();
      alternate := alternate + [item];
      return Done(());
    }

    method FromAltStack() returns (r: Outcome<()>)
      modifies this`stack, this`alternate
      ensures Reached(RunOperation(c, Operation(108, []), old(Now())), r)
    {
      if |alternate| < 1 { return Fail; }
      Push(alternate[|alternate| - 1]);
      alternate := alternate[..|alternate| - 1];
      return Done(());
    }

    /** `run_operation`, the conditionals aside. */
    method Perform(op: Operation) returns (r: Outcome<()>)
      modifies this`stack, this`alternate
      ensures Reached(RunOperation(c, op, old(Now())), r)
    {
      hide Shuffle;
      hide Arithmetic;
      hide Within;
      hide HashOp;
      hide SignatureOp;
      hide CastBool;
      hide Data;
      var code := op.code;
      if code == 79 {
        Push(Data(-1));
        return Done(());
      } else if 81 <= code <= 96 {
        Push(Data(code - 80));
        return Done(());
      } else if code == 97 || 176 <= code <= 185 {
        return Done(());
      } else if code == 105 {
        r := OpVerify();
      } else if code == 107 {
        r := ToAltStack();
      } else if code == 108 {
        r := FromAltStack();
      } else if 109 <= code <= 125 || code == 130 || code == 135 || code == 136 {
        r := RunShuffle(code);
      } else if IsUnary(code) {
        r := RunUnary(code);
      } else if IsBinary(code) || code == 157 {
        r := RunBinary(code);
      } else if code == 165 {
        r := RunWithin();
      } else if 166 <= code <= 170 {
        r := RunHash(code);
      } else if 172 <= code <= 175 {
        r := RunSignature(code);
      } else {
        return Fail;
      }
    }

    /** An operation that is not skipped: pushes, the separator, and the rest; the size check is last. */
    method PerformAt(op: Operation, it: nat) returns (r: Outcome<()>)
      modifies this`stack, this`alternate, this`codehash
      ensures Reached(Execute(c, op, it, old(Now())), r)
    {
      hide RunOperation;
      if op.code == ZERO {
        Push([]);
      } else if op.code == SPECIAL || PUSHDATA1 <= op.code <= PUSHDATA4 {
        Push(op.data);
      } else if op.code == CODESEPARATOR {
        codehash := it;
      } else {
        r := Perform(op);
        if !r.Done? { return; }
      }
      return if |stack| + |alternate| > MAX_STACK then Fail else Done(());
    }

    /** `next_step`. */
    method Step(it: nat) returns (r: Outcome<()>)
      requires it < |c.ops|
      modifies this
      ensures match NextStep(c, c.ops[it], it, old(Current()))
              case Done(next) => r == Done(()) && Current() == next
              case Fail => r == Fail
              case Undefined => r == Undefined
    {
      hide Execute;
      var op := c.ops[it];
      if |op.data| > MAX_PUSH || IsDisabled(op.code) { return Fail; }
      if IsCondition(op.code) {
        ConditionCode(op, Current());
        r := RunCondition(op.code);
        if !r.Done? { return; }
        return if |stack| + |alternate| > MAX_STACK then Fail else Done(());
      }
      var failed := HasFailedBranches();
      if failed { return Done(()); }
      r := PerformAt(op, it);
    }

    method Run() returns (r: Outcome<()>)
      modifies this
      ensures match RunScript(c, old(stack))
              case Done(final) => r == Done(()) && stack == final
              case Fail => r == Fail
              case Undefined => r == Undefined
    {
      if !WithinLimits(c.ops) { return Fail; }
      alternate, codehash, conditional := [], 0, [];
      ghost var start := Current();
      assert c.ops[0..] == c.ops;
      for it := 0 to |c.ops|
        invariant RunFlat(c, c.ops, 0, start) == RunFlat(c, c.ops[it..], it, Current())
      {
        assert c.ops[it..][1..] == c.ops[it + 1..];
        var step := Step(it);
        if !step.Done? { return step; }
      }
      return if conditional == [] then Done(()) else Fail;
    }
  }

  /** A conditional does not look at the data of its operation. */
  lemma ConditionCode(op: Operation, s: State)
    requires IsCondition(op.code)
    ensures ConditionStep(op, s) == ConditionStep(Operation(op.code, []), s)
  {
  }

  lemma ReversedFront(x: Bytes, s: seq<Bytes>)
    ensures Reversed([x] + s) == Reversed(s) + [x]
  {
    assert ([x] + s)[1..] == s;
  }

  /** At the end of the keys, or at one that cannot be tried, the search is decided. */
  lemma StuckKeys(c: Context, signatures: seq<Bytes>, keys: seq<Bytes>, at: nat, code: Script)
    requires signatures != [] && keys != [] && at <= |keys|
    ensures at == |keys| ==> MatchSignatures(c, signatures, keys, at, code) == Done(false)
    ensures at < |keys| && !CheckSignature(c, signatures[0], keys[at], code).Done? ==>
              MatchSignatures(c, signatures, keys, at, code) == Undefined
  {
    hide CheckSignature;
  }

  /** Keys that do not match are passed over. */
  lemma {:induction false} SkipKeys(c: Context, signatures: seq<Bytes>, keys: seq<Bytes>, from: nat, to: nat, code: Script)
    requires signatures != [] && from <= to <= |keys|
    requires forall j | from <= j < to :: CheckSignature(c, signatures[0], keys[j], code) == Done(false)
    ensures MatchSignatures(c, signatures, keys, from, code) == MatchSignatures(c, signatures, keys, to, code)
    decreases |keys| - from
  {
    hide CheckSignature;
    if from < to { SkipKeys(c, signatures, keys, from + 1, to, code); }
  }
}
