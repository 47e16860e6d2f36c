/** The flat interpreter with its stack of branch flags, and the nested reading of the same script. */
module Conditionals {
  import opened Types
  import opened ScriptCodec
  import opened Interpreter

  type Flags = seq<bool>

  predicate AllTaken(flags: Flags) {
    forall i | 0 <= i < |flags| :: flags[i]
  }

  /** Checked for every operation, executed or skipped. */
  predicate Admitted(op: Operation) {
    |op.data| <= MAX_PUSH && !IsDisabled(op.code)
  }

  // ---- the flat interpreter

  /** A step changes the machine and the branch flags together. */
  datatype State = State(machine: Machine, flags: Flags)

  function WithFlags(m: Outcome<Machine>, flags: Flags): Outcome<State> {
    match m
    case Done(machine) => Done(State(machine, flags))
    case Fail => Fail
    case Undefined => Undefined
  }

  function ConditionStep(op: Operation, s: State): Outcome<State>
    requires IsCondition(op.code)
  {
    var m, flags, n := s.machine, s.flags, |s.flags|;
    if op.code == IF || op.code == NOTIF then
      var invert := op.code == NOTIF;
      if !AllTaken(flags) then WithFlags(CheckBound(m), flags + [invert])
      else if m.stack == [] then Fail
      else WithFlags(CheckBound(m.(stack := Drop(m.stack, 1))), flags + [CastBool(Top(m.stack, 1)) != invert])
    else if n == 0 then Fail
    else if op.code == ELSE then WithFlags(CheckBound(m), flags[..n - 1] + [!flags[n - 1]])
    else WithFlags(CheckBound(m), flags[..n - 1])
  }

  function NextStep(c: Context, op: Operation, at: nat, s: State): Outcome<State> {
    if !Admitted(op) then Fail
    else if IsCondition(op.code) then ConditionStep(op, s)
    else if !AllTaken(s.flags) then Done(s)
    else WithFlags(Execute(c, op, at, s.machine), s.flags)
  }

  /** The loop over the operations from position `at` on. */
  function RunFlat(c: Context, ops: Script, at: nat, s: State): Outcome<State> {
    if ops == [] then Done(s) else
      match NextStep(c, ops[0], at, s)
      case Done(next) => RunFlat(c, ops[1..], at + 1, next)
      case Fail => Fail
      case Undefined => Undefined
  }

  predicate WithinLimits(ops: Script) {
    |SaveScript(ops)| <= 10000 && CountNonPush(ops) <= 201
  }

  function CountNonPush(ops: Script): nat {
    if ops == [] then 0 else (if IsPush(ops[0].code) then 0 else 1) + CountNonPush(ops[1..])
  }

  /** `run`: the size limits, the loop, and no branch left open. */
  function RunScript(c: Context, stack: Stack): Outcome<Stack> {
    if !WithinLimits(c.ops) then Fail else
      match RunFlat(c, c.ops, 0, State(Machine(stack, [], 0), []))
      case Done(s) => if s.flags == [] then Done(s.machine.stack) else Fail
      case Fail => Fail
      case Undefined => Undefined
  }

  // ---- the nested reading

  datatype Code = Nil | Plain(op: Operation, rest: Code) | Cond(open: Operation, body: Branches, close: Operation, rest: Code)
  datatype Branches = Last(code: Code) | Alternative(code: Code, separator: Operation, more: Branches)

  predicate Proper(code: Code) {
    match code
    case Nil => true
    case Plain(op, rest) => !IsCondition(op.code) && Proper(rest)
    case Cond(open, body, close, rest) =>
      (open.code == IF || open.code == NOTIF) && ProperBranches(body) && close.code == ENDIF && Proper(rest)
  }

  predicate ProperBranches(branches: Branches) {
    match branches
    case Last(code) => Proper(code)
    case Alternative(code, separator, more) => Proper(code) && separator.code == ELSE && ProperBranches(more)
  }

  function Flatten(code: Code): Script {
    match code
    case Nil => []
    case Plain(op, rest) => [op] + Flatten(rest)
    case Cond(open, body, close, rest) => [open] + (FlattenBranches(body) + ([close] + Flatten(rest)))
  }

  function FlattenBranches(branches: Branches): Script {
    match branches
    case Last(code) => Flatten(code)
    case Alternative(code, separator, more) => Flatten(code) + ([separator] + FlattenBranches(more))
  }

  /** A conditional takes its branches in turn: the first when its test holds, then every other one.
      A branch that is not live is only checked, never executed. */
  function RunCode(c: Context, code: Code, at: nat, m: Machine, live: bool): Outcome<Machine>
    decreases code
  {
    match code
    case Nil => Done(m)
    case Plain(op, rest) =>
      if !Admitted(op) then Fail
      else if !live then RunCode(c, rest, at + 1, m, live)
      else (
        match Execute(c, op, at, m)
        case Done(next) => RunCode(c, rest, at + 1, next, live)
        case Fail => Fail
        case Undefined => Undefined)
    case Cond(open, body, close, rest) =>
      if !Admitted(open) || (live && m.stack == []) then Fail
      else
        var taken := (live && CastBool(Top(m.stack, 1))) != (open.code == NOTIF);
        var entered := if live then m.(stack := Drop(m.stack, 1)) else m;
        if !Bounded(entered) then Fail else
          match RunBranches(c, body, at + 1, entered, live, taken)
          case Done(next) =>
            if !Admitted(close) || !Bounded(next) then Fail
            else RunCode(c, rest, at + 2 + |FlattenBranches(body)|, next, live)
          case Fail => Fail
          case Undefined => Undefined
  }

  function RunBranches(c: Context, branches: Branches, at: nat, m: Machine, live: bool, taken: bool): Outcome<Machine>
    decreases branches
  {
    match branches
    case Last(code) => RunCode(c, code, at, m, live && taken)
    case Alternative(code, separator, more) =>
      match RunCode(c, code, at, m, live && taken)
      case Done(next) =>
        if !Admitted(separator) || !Bounded(next) then Fail
        else RunBranches(c, more, at + |Flatten(code)| + 1, next, live, !taken)
      case Fail => Fail
      case Undefined => Undefined
  }

  function Alternations(branches: Branches): nat {
    match branches
    case Last(_) => 0
    case Alternative(_, _, more) => 1 + Alternations(more)
  }

  predicate FinalFlag(branches: Branches, taken: bool) {
    taken == (Alternations(branches) % 2 == 0)
  }

  /** What the flat loop does after a nested piece of code. */
  function Continue(c: Context, m: Outcome<Machine>, tail: Script, at: nat, flags: Flags): Outcome<State> {
    match m
    case Done(machine) => RunFlat(c, tail, at, State(machine, flags))
    case Fail => Fail
    case Undefined => Undefined
  }

  lemma TakenAppend(flags: Flags, b: bool)
    ensures AllTaken(flags + [b]) == (AllTaken(flags) && b)
    ensures (flags + [b])[..|flags|] == flags && (flags + [b])[|flags|] == b
  {
    var longer := flags + [b];
    assert longer[|flags|] == b;
    assert forall i | 0 <= i < |flags| :: longer[i] == flags[i];
  }

  lemma HeadTail(op: Operation, rest: Script, tail: Script)
    ensures (([op] + rest) + tail)[0] == op && (([op] + rest) + tail)[1..] == rest + tail
  {
  }

  /** Running a nested piece flat, whatever is around it, gives its nested meaning. */
  lemma {:induction false} FlatCode(c: Context, code: Code, tail: Script, at: nat, m: Machine, flags: Flags)
    requires Proper(code)
    ensures RunFlat(c, Flatten(code) + tail, at, State(m, flags))
            == Continue(c, RunCode(c, code, at, m, AllTaken(flags)), tail, at + |Flatten(code)|, flags)
    decreases code, 2
  {
    hide Execute;
    hide CastBool;
    match code
    case Nil =>
      assert [] + tail == tail;
    case Plain(op, rest) =>
      HeadTail(op, Flatten(rest), tail);
      var step := NextStep(c, op, at, State(m, flags));
      if step.Done? {
        FlatCode(c, rest, tail, at + 1, step.value.machine, flags);
      }
    case Cond(open, body, close, rest) =>
      FlatCond(c, code, tail, at, m, flags);
  }

  lemma OpenStep(c: Context, open: Operation, at: nat, m: Machine, flags: Flags)
    requires open.code == IF || open.code == NOTIF
    ensures var live := AllTaken(flags);
            NextStep(c, open, at, State(m, flags)) ==
            if !Admitted(open) || (live && m.stack == []) then Fail
            else WithFlags(CheckBound(if live then m.(stack := Drop(m.stack, 1)) else m),
                           flags + [(live && CastBool(Top(m.stack, 1))) != (open.code == NOTIF)])
  {
    hide CastBool;
  }

  lemma CloseStep(c: Context, op: Operation, at: nat, m: Machine, flags: Flags, last: bool)
    requires op.code == ENDIF || op.code == ELSE
    ensures NextStep(c, op, at, State(m, flags + [last])) ==
            if !Admitted(op) then Fail
            else WithFlags(CheckBound(m), if op.code == ENDIF then flags else flags + [!last])
  {
    TakenAppend(flags, last);
  }

  lemma FlatStep(c: Context, op: Operation, rest: Script, at: nat, s: State)
    ensures RunFlat(c, [op] + rest, at, s) ==
            match NextStep(c, op, at, s)
            case Done(next) => RunFlat(c, rest, at + 1, next)
            case Fail => Fail
            case Undefined => Undefined
  {
    hide NextStep;
    assert ([op] + rest)[1..] == rest;
  }

  lemma CondShape(code: Code, tail: Script)
    requires code.Cond?
    ensures Flatten(code) + tail
            == [code.open] + (FlattenBranches(code.body) + ([code.close] + (Flatten(code.rest) + tail)))
    ensures |Flatten(code)| == 2 + |FlattenBranches(code.body)| + |Flatten(code.rest)|
  {
    var body, rest := FlattenBranches(code.body), Flatten(code.rest);
    assert Flatten(code) == [code.open] + (body + ([code.close] + rest));
    hide *;
    RegroupCond([code.open], body, [code.close], rest, tail);
  }

  lemma RegroupCond(open: Script, body: Script, close: Script, rest: Script, tail: Script)
    ensures (open + (body + (close + rest))) + tail == open + (body + (close + (rest + tail)))
  {
  }

  /** The machine with which the branches of a conditional are entered, and whether the first is taken. */
  function Entered(m: Machine, live: bool): Machine
    requires live ==> m.stack != []
  {
    if live then m.(stack := Drop(m.stack, 1)) else m
  }

  function Taken(m: Machine, live: bool, open: Operation): bool
    requires live ==> m.stack != []
  {
    (live && CastBool(Top(m.stack, 1))) != (open.code == NOTIF)
  }

  lemma CondRuns(c: Context, code: Code, at: nat, m: Machine, live: bool)
    requires code.Cond?
    ensures RunCode(c, code, at, m, live) ==
            if !Admitted(code.open) || (live && m.stack == []) || !Bounded(Entered(m, live)) then Fail
            else
              match RunBranches(c, code.body, at + 1, Entered(m, live), live, Taken(m, live, code.open))
              case Done(next) =>
                if !Admitted(code.close) || !Bounded(next) then Fail
                else RunCode(c, code.rest, at + 2 + |FlattenBranches(code.body)|, next, live)
              case Fail => Fail
              case Undefined => Undefined
  {
    hide RunBranches;
    hide FlattenBranches;
    hide CastBool;
    hide Admitted;
    hide Bounded;
  }

  lemma {:induction false} FlatCond(c: Context, code: Code, tail: Script, at: nat, m: Machine, flags: Flags)
    requires code.Cond? && Proper(code)
    ensures RunFlat(c, Flatten(code) + tail, at, State(m, flags))
            == Continue(c, RunCode(c, code, at, m, AllTaken(flags)), tail, at + |Flatten(code)|, flags)
    decreases code, 1
  {
    var live := AllTaken(flags);
    var inner := [code.close] + (Flatten(code.rest) + tail);
    assert ProperBranches(code.body);
    OpenStep(c, code.open, at, m, flags);
    CondRuns(c, code, at, m, live);
    CondShape(code, tail);
    hide NextStep;
    hide RunFlat;
    hide RunCode;
    hide RunBranches;
    hide Flatten;
    hide FlattenBranches;
    hide Admitted;
    hide AllTaken;
    hide CastBool;
    hide Proper;
    FlatStep(c, code.open, FlattenBranches(code.body) + inner, at, State(m, flags));
    if Admitted(code.open) && !(live && m.stack == []) && Bounded(Entered(m, live)) {
      var taken, entered := Taken(m, live, code.open), Entered(m, live);
      FlatBranches(c, code.body, inner, at + 1, entered, flags, taken);
      var run := RunBranches(c, code.body, at + 1, entered, live, taken);
      if run.Done? {
        FlatClose(c, code, tail, at, run.value, flags, FinalFlag(code.body, taken));
      }
    }
  }

  /** The closing operation drops the flag of its conditional, whatever its value. */
  lemma {:induction false} FlatClose(c: Context, code: Code, tail: Script, at: nat, m: Machine, flags: Flags, last: bool)
    requires code.Cond? && Proper(code)
    ensures RunFlat(c, [code.close] + (Flatten(code.rest) + tail), at + 1 + |FlattenBranches(code.body)|, State(m, flags + [last]))
            == if !Admitted(code.close) || !Bounded(m) then Fail
               else Continue(c, RunCode(c, code.rest, at + 2 + |FlattenBranches(code.body)|, m, AllTaken(flags)),
                             tail, at + |Flatten(code)|, flags)
    decreases code, 0
  {
    hide NextStep;
    hide RunFlat;
    hide RunCode;
    hide Flatten;
    hide FlattenBranches;
    hide Admitted;
    CondShape(code, tail);
    var here := at + 1 + |FlattenBranches(code.body)|;
    FlatStep(c, code.close, Flatten(code.rest) + tail, here, State(m, flags + [last]));
    CloseStep(c, code.close, here, m, flags, last);
    if Admitted(code.close) && Bounded(m) {
      FlatCode(c, code.rest, tail, here + 1, m, flags);
    }
  }

  /** The separator flips the flag, live or not. */
  lemma {:induction false} FlatSeparator(c: Context, branches: Branches, tail: Script, at: nat, m: Machine, flags: Flags, taken: bool)
    requires branches.Alternative? && ProperBranches(branches)
    ensures RunFlat(c, [branches.separator] + (FlattenBranches(branches.more) + tail), at, State(m, flags + [taken]))
            == if !Admitted(branches.separator) || !Bounded(m) then Fail
               else Continue(c, RunBranches(c, branches.more, at + 1, m, AllTaken(flags), !taken), tail,
                             at + 1 + |FlattenBranches(branches.more)|, flags + [FinalFlag(branches.more, !taken)])
    decreases branches, 0
  {
    hide RunBranches;
    var ops := [branches.separator] + (FlattenBranches(branches.more) + tail);
    assert ops[0] == branches.separator && ops[1..] == FlattenBranches(branches.more) + tail;
    CloseStep(c, branches.separator, at, m, flags, taken);
    hide NextStep;
    if Admitted(branches.separator) && Bounded(m) {
      FlatBranches(c, branches.more, tail, at + 1, m, flags, !taken);
    }
  }

  lemma {:induction false} FlatBranches(c: Context, branches: Branches, tail: Script, at: nat, m: Machine, flags: Flags, taken: bool)
    requires ProperBranches(branches)
    ensures RunFlat(c, FlattenBranches(branches) + tail, at, State(m, flags + [taken]))
            == Continue(c, RunBranches(c, branches, at, m, AllTaken(flags), taken), tail,
                        at + |FlattenBranches(branches)|, flags + [FinalFlag(branches, taken)])
    decreases branches, 1
  {
    hide Execute;
    hide RunFlat;
    hide RunCode;
    TakenAppend(flags, taken);
    match branches
    case Last(code) =>
      FlatCode(c, code, tail, at, m, flags + [taken]);
    case Alternative(code, separator, more) =>
      var rest := [separator] + (FlattenBranches(more) + tail);
      assert FlattenBranches(branches) + tail == Flatten(code) + rest;
      FlatCode(c, code, rest, at, m, flags + [taken]);
      var run := RunCode(c, code, at, m, AllTaken(flags) && taken);
      if run.Done? {
        FlatSeparator(c, branches, tail, at + |Flatten(code)|, run.value, flags, taken);
      }
  }

  // ---- which scripts have a nested reading

  /** Every else and endif has an open conditional, and none is left open. */
  predicate Balanced(ops: Script, depth: nat) {
    if ops == [] then depth == 0
    else if ops[0].code == IF || ops[0].code == NOTIF then Balanced(ops[1..], depth + 1)
    else if ops[0].code == ENDIF then depth > 0 && Balanced(ops[1..], depth - 1)
    else if ops[0].code == ELSE then depth > 0 && Balanced(ops[1..], depth)
    else Balanced(ops[1..], depth)
  }

  datatype Parsed = Parsed(code: Code, rest: Script) | Unclosed
  datatype ParsedBranches = ParsedBranches(branches: Branches, close: Operation, rest: Script) | UnclosedBranches

  lemma JoinCond(ops: Script, body: Branches, close: Operation, code: Code, rest: Script)
    requires ops != [] && ops[1..] == FlattenBranches(body) + ([close] + (Flatten(code) + rest))
    ensures ops == Flatten(Cond(ops[0], body, close, code)) + rest
  {
    assert Flatten(Cond(ops[0], body, close, code)) == [ops[0]] + (FlattenBranches(body) + ([close] + Flatten(code)));
    hide Flatten;
    hide FlattenBranches;
    assert ops == [ops[0]] + ops[1..];
  }

  lemma JoinNil(ops: Script)
    ensures ops == Flatten(Nil) + ops
  {
  }

  lemma JoinPlain(ops: Script, code: Code, rest: Script)
    requires ops != [] && ops[1..] == Flatten(code) + rest
    ensures ops == Flatten(Plain(ops[0], code)) + rest
  {
    assert Flatten(Plain(ops[0], code)) == [ops[0]] + Flatten(code);
    hide Flatten;
    assert ops == [ops[0]] + ops[1..];
  }

  lemma JoinLast(code: Code, rest: Script)
    requires rest != []
    ensures Flatten(code) + rest == FlattenBranches(Last(code)) + ([rest[0]] + rest[1..])
  {
    assert rest == [rest[0]] + rest[1..];
  }

  /** The longest nested code at the front; what is left starts with an else or endif of an outer level. */
  function ParseCode(ops: Script): (p: Parsed)
    ensures p.Parsed? ==> Proper(p.code) && ops == Flatten(p.code) + p.rest
    decreases |ops|, 0
  {
    hide Flatten;
    hide FlattenBranches;
    if ops == [] || ops[0].code == ELSE || ops[0].code == ENDIF then JoinNil(ops); Parsed(Nil, ops)
    else if !IsCondition(ops[0].code) then
      match ParseCode(ops[1..])
      case Parsed(code, rest) => JoinPlain(ops, code, rest); Parsed(Plain(ops[0], code), rest)
      case Unclosed => Unclosed
    else
      match ParseBranches(ops[1..])
      case UnclosedBranches => Unclosed
      case ParsedBranches(body, close, after) =>
        match ParseCode(after)
        case Parsed(code, rest) => JoinCond(ops, body, close, code, rest); Parsed(Cond(ops[0], body, close, code), rest)
        case Unclosed => Unclosed
  }

  lemma JoinAlternative(code: Code, rest: Script, more: Branches, close: Operation, after: Script)
    requires rest != [] && rest[1..] == FlattenBranches(more) + ([close] + after)
    ensures Flatten(code) + rest == FlattenBranches(Alternative(code, rest[0], more)) + ([close] + after)
  {
    var whole := FlattenBranches(Alternative(code, rest[0], more));
    assert whole == Flatten(code) + ([rest[0]] + FlattenBranches(more));
    hide FlattenBranches;
    hide Flatten;
    assert rest == [rest[0]] + rest[1..];
  }

  function ParseBranches(ops: Script): (p: ParsedBranches)
    ensures p.ParsedBranches? ==>
              ProperBranches(p.branches) && p.close.code == ENDIF
              && ops == FlattenBranches(p.branches) + ([p.close] + p.rest)
    decreases |ops|, 1
  {
    hide Flatten;
    hide FlattenBranches;
    match ParseCode(ops)
    case Unclosed => UnclosedBranches
    case Parsed(code, rest) =>
      if rest == [] || (rest[0].code != ENDIF && rest[0].code != ELSE) then UnclosedBranches
      else if rest[0].code == ENDIF then
        JoinLast(code, rest);
        ParsedBranches(Last(code), rest[0], rest[1..])
      else
        match ParseBranches(rest[1..])
        case UnclosedBranches => UnclosedBranches
        case ParsedBranches(more, close, after) =>
          JoinAlternative(code, rest, more, close, after);
          ParsedBranches(Alternative(code, rest[0], more), close, after)
  }

  lemma {:induction false} BalancedParses(ops: Script, depth: nat)
    requires Balanced(ops, depth)
    ensures ParseCode(ops).Parsed?
    ensures var rest := ParseCode(ops).rest;
            if depth == 0 then rest == []
            else rest != [] && (rest[0].code == ELSE || rest[0].code == ENDIF) && Balanced(rest, depth)
    decreases |ops|, 0
  {
    if ops != [] && ops[0].code != ELSE && ops[0].code != ENDIF {
      if !IsCondition(ops[0].code) {
        BalancedParses(ops[1..], depth);
      } else {
        BalancedBranches(ops[1..], depth);
        BalancedParses(ParseBranches(ops[1..]).rest, depth);
      }
    }
  }

  lemma {:induction false} BalancedBranches(ops: Script, depth: nat)
    requires Balanced(ops, depth + 1)
    ensures ParseBranches(ops).ParsedBranches? && Balanced(ParseBranches(ops).rest, depth)
    decreases |ops|, 1
  {
    BalancedParses(ops, depth + 1);
    var rest := ParseCode(ops).rest;
    if rest[0].code == ELSE {
      BalancedBranches(rest[1..], depth);
    }
  }

  lemma {:induction false} FlattenBalanced(code: Code, tail: Script, depth: nat)
    requires Proper(code)
    ensures Balanced(Flatten(code) + tail, depth) == Balanced(tail, depth)
    decreases code
  {
    match code
    case Nil => assert [] + tail == tail;
    case Plain(op, rest) =>
      HeadTail(op, Flatten(rest), tail);
      FlattenBalanced(rest, tail, depth);
    case Cond(open, body, close, rest) =>
      var inner := [close] + (Flatten(rest) + tail);
      HeadTail(open, FlattenBranches(body) + ([close] + Flatten(rest)), tail);
      assert (FlattenBranches(body) + ([close] + Flatten(rest))) + tail == FlattenBranches(body) + inner;
      FlattenBranchesBalanced(body, inner, depth);
      assert inner[1..] == Flatten(rest) + tail;
      FlattenBalanced(rest, tail, depth);
  }

  lemma {:induction false} FlattenBranchesBalanced(branches: Branches, tail: Script, depth: nat)
    requires ProperBranches(branches)
    ensures Balanced(FlattenBranches(branches) + tail, depth + 1) == Balanced(tail, depth + 1)
    decreases branches
  {
    match branches
    case Last(code) => FlattenBalanced(code, tail, depth + 1);
    case Alternative(code, separator, more) =>
      var rest := [separator] + (FlattenBranches(more) + tail);
      assert FlattenBranches(branches) + tail == Flatten(code) + rest;
      FlattenBalanced(code, rest, depth + 1);
      assert rest[1..] == FlattenBranches(more) + tail;
      FlattenBranchesBalanced(more, tail, depth);
  }

  /** A script has a nested reading exactly when it is balanced. */
  lemma NestedExactlyBalanced(ops: Script)
    ensures Balanced(ops, 0) <==> exists code :: Proper(code) && Flatten(code) == ops
  {
    if Balanced(ops, 0) {
      BalancedParses(ops, 0);
      var code := ParseCode(ops).code;
      assert Flatten(code) + [] == Flatten(code);
      assert Proper(code) && Flatten(code) == ops;
    }
    forall code | Proper(code) && Flatten(code) == ops
      ensures Balanced(ops, 0)
    {
      FlattenBalanced(code, [], 0);
      assert ops + [] == ops;
    }
  }

  /** A run that closes every branch was balanced from where it started. */
  lemma {:induction false} ClosedRunIsBalanced(c: Context, ops: Script, at: nat, s: State)
    requires RunFlat(c, ops, at, s).Done? && RunFlat(c, ops, at, s).value.flags == []
    ensures Balanced(ops, |s.flags|)
  {
    hide Execute;
    if ops != [] {
      ClosedRunIsBalanced(c, ops[1..], at + 1, NextStep(c, ops[0], at, s).value);
    }
  }

  /** The nested meaning of a whole script. */
  function RunNested(c: Context, code: Code, stack: Stack): Outcome<Stack> {
    match RunCode(c, code, 0, Machine(stack, [], 0), true)
    case Done(m) => Done(m.stack)
    case Fail => Fail
    case Undefined => Undefined
  }

  /** The flat run of a script within limits is its nested meaning; an unbalanced script never succeeds. */
  lemma FlatIsNested(c: Context, stack: Stack, code: Code)
    requires WithinLimits(c.ops) && Proper(code) && Flatten(code) == c.ops
    ensures RunScript(c, stack) == RunNested(c, code, stack)
  {
    hide RunCode;
    hide Execute;
    hide NextStep;
    hide WithinLimits;
    hide Flatten;
    var m := Machine(stack, [], 0);
    FlatCode(c, code, [], 0, m, []);
    assert c.ops + [] == c.ops;
    var run := RunCode(c, code, 0, m, true);
    if run.Done? {
      assert RunFlat(c, [], |c.ops|, State(run.value, [])) == Done(State(run.value, []));
    }
  }

  lemma UnbalancedNeverSucceeds(c: Context, stack: Stack)
    requires !Balanced(c.ops, 0)
    ensures !RunScript(c, stack).Done?
  {
    var start := State(Machine(stack, [], 0), []);
    if RunFlat(c, c.ops, 0, start).Done? && RunFlat(c, c.ops, 0, start).value.flags == [] {
      ClosedRunIsBalanced(c, c.ops, 0, start);
    }
  }

  // ---- what no successful script contains

  /** Allowed anywhere in a script, run or skipped. */
  predicate Allowed(op: Operation) {
    && |op.data| <= 520
    && op.code !in {101, 102, 126, 127, 128, 129, 131, 132, 133, 134, 141, 142, 149, 150, 151, 152, 153}
  }

  lemma {:induction false} RunAllowed(c: Context, ops: Script, at: nat, s: State, k: nat)
    requires RunFlat(c, ops, at, s).Done? && k < |ops|
    ensures Allowed(ops[k])
  {
    if k > 0 {
      hide Execute;
      RunAllowed(c, ops[1..], at + 1, NextStep(c, ops[0], at, s).value, k - 1);
    } else {
      hide Execute;
      hide ConditionStep;
    }
  }

  lemma StepBounded(c: Context, op: Operation, at: nat, s: State)
    requires NextStep(c, op, at, s).Done? && |s.machine.stack| + |s.machine.alternate| <= 1000
    ensures var m := NextStep(c, op, at, s).value.machine;
            |m.stack| + |m.alternate| <= 1000
  {
    hide RunOperation;
    hide CastBool;
  }

  lemma {:induction false} RunBounded(c: Context, ops: Script, at: nat, s: State)
    requires RunFlat(c, ops, at, s).Done? && |s.machine.stack| + |s.machine.alternate| <= 1000
    ensures |RunFlat(c, ops, at, s).value.machine.stack| <= 1000
  {
    if ops != [] {
      StepBounded(c, ops[0], at, s);
      hide NextStep;
      RunBounded(c, ops[1..], at + 1, NextStep(c, ops[0], at, s).value);
    }
  }

  lemma {:induction false} CountOthers(ops: Script)
    ensures CountNonPush(ops) == |Others(ops)|
  {
    if ops != [] { CountOthers(ops[1..]); }
  }

  /** The operations that are not pushes: neither data, nor a number from minus one to sixteen. */
  function Others(ops: Script): Script {
    if ops == [] then []
    else if ops[0].code in {0, 1, 76, 77, 78, 79} || 81 <= ops[0].code <= 96 then Others(ops[1..])
    else [ops[0]] + Others(ops[1..])
  }

  /** A script that succeeds is at most 10000 bytes long, has at most 201 operations that are not pushes, no
      disabled one and no push over 520 bytes even where it is skipped, is balanced, and leaves at most
      1000 items. */
  lemma SuccessLimits(c: Context, stack: Stack)
    requires RunScript(c, stack).Done? && |stack| <= 1000
    ensures |SaveScript(c.ops)| <= 10_000 && |Others(c.ops)| <= 201
    ensures forall k | 0 <= k < |c.ops| :: Allowed(c.ops[k])
    ensures Balanced(c.ops, 0) && |RunScript(c, stack).value| <= 1000
  {
    var start := State(Machine(stack, [], 0), []);
    CountOthers(c.ops);
    RunBounded(c, c.ops, 0, start);
    ClosedRunIsBalanced(c, c.ops, 0, start);
    hide RunFlat;
    forall k | 0 <= k < |c.ops|
      ensures Allowed(c.ops[k])
    {
      RunAllowed(c, c.ops, 0, start, k);
    }
  }
}
