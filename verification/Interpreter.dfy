/** The stack machine of `script.cpp`, without its conditionals. */
module Interpreter {
  import opened Types
  import opened ScriptCodec
  import opened BigNumber
  import opened SignatureHash

  const IF: byte := 99
  const NOTIF: byte := 100
  const ELSE: byte := 103
  const ENDIF: byte := 104
  const CODESEPARATOR: byte := 171
  const MAX_PUSH: nat := 520
  const MAX_STACK: nat := 1000

  type Stack = seq<Bytes>

  /** The two data stacks and the operation after which signatures start to cover the script. */
  datatype Machine = Machine(stack: Stack, alternate: Stack, codehash: nat)

  /** What a run is about: the script, and the input it unlocks. */
  datatype Context = Context(e: Env, ops: Script, tx: Transaction, index: nat)

  function CastBool(values: Bytes): bool { SetData(values) != 0 }

  /** Numbers longer than four bytes are refused. */
  function Number(raw: Bytes): Outcome<int> {
    if |raw| > 4 then Fail else Done(SetData(raw))
  }

  const TRUE_VALUE: Bytes := [1]
  const FALSE_VALUE: Bytes := []

  function Truth(b: bool): Bytes { if b then TRUE_VALUE else FALSE_VALUE }

  function Top(s: Stack, k: nat): Bytes
    requires 1 <= k <= |s|
  {
    s[|s| - k]
  }

  function Drop(s: Stack, k: nat): Stack
    requires k <= |s|
  {
    s[..|s| - k]
  }

  predicate IsPush(code: byte) {
    code == ZERO || code == SPECIAL || PUSHDATA1 <= code <= 79 || 81 <= code <= 96
  }

  predicate IsDisabled(code: byte) {
    || 126 <= code <= 129 || 131 <= code <= 134 || code == 141 || code == 142
    || 149 <= code <= 153 || code == 101 || code == 102
  }

  predicate IsCondition(code: byte) {
    code == IF || code == NOTIF || code == ELSE || code == ENDIF
  }

  // ---- operations on the data stack alone

  /** Stack shuffles; `Fail` when too few items are there. */
  function Shuffle(code: byte, s: Stack): Outcome<Stack> {
    match code
    case 109 => if |s| < 2 then Fail else Done(Drop(s, 2))
    case 110 => if |s| < 2 then Fail else Done(s + [Top(s, 2), Top(s, 1)])
    case 111 => if |s| < 3 then Fail else Done(s + [Top(s, 3), Top(s, 2), Top(s, 1)])
    case 112 => if |s| < 4 then Fail else Done(s + [Top(s, 4), Top(s, 3)])
    case 113 => if |s| < 6 then Fail
                else Done(Drop(s, 6) + [Top(s, 4), Top(s, 3), Top(s, 2), Top(s, 1), Top(s, 6), Top(s, 5)])
    case 114 => if |s| < 4 then Fail else Done(Drop(s, 4) + [Top(s, 2), Top(s, 1), Top(s, 4), Top(s, 3)])
    case 115 => if |s| < 1 then Fail else Done(if CastBool(Top(s, 1)) then s + [Top(s, 1)] else s)
    case 116 => Done(s + [Data(|s|)])
    case 117 => if |s| < 1 then Fail else Done(Drop(s, 1))
    case 118 => if |s| < 1 then Fail else Done(s + [Top(s, 1)])
    case 119 => if |s| < 2 then Fail else Done(Drop(s, 2) + [Top(s, 1)])
    case 120 => if |s| < 2 then Fail else Done(s + [Top(s, 2)])
    case 121 => PickOrRoll(s, false)
    case 122 => PickOrRoll(s, true)
    case 123 => if |s| < 3 then Fail else Done(Drop(s, 3) + [Top(s, 2), Top(s, 1), Top(s, 3)])
    case 124 => if |s| < 2 then Fail else Done(Drop(s, 2) + [Top(s, 1), Top(s, 2)])
    case 125 => if |s| < 2 then Fail else Done(Drop(s, 2) + [Top(s, 1), Top(s, 2), Top(s, 1)])
    case 130 => if |s| < 1 then Fail else Done(s + [Data(|Top(s, 1)|)])
    case 135 => if |s| < 2 then Fail else Done(Drop(s, 2) + [Truth(Top(s, 1) == Top(s, 2))])
    case 136 => if |s| < 2 || Top(s, 1) != Top(s, 2) then Fail else Done(Drop(s, 2))
    case _ => Fail
  }

  /** The index is the absolute value of the top number. */
  function PickOrRoll(s: Stack, roll: bool): Outcome<Stack> {
    if |s| < 2 then Fail else
      match Number(Top(s, 1))
      case Done(n) =>
        var rest, k := Drop(s, 1), Abs(n);
        if k >= |rest| then Fail
        else
          var at := |rest| - k - 1;
          Done((if roll then rest[..at] + rest[at + 1..] else rest) + [rest[at]])
      case _ => Fail
  }

  function Unary(code: byte, n: int): int {
    match code
    case 139 => n + 1
    case 140 => n - 1
    case 143 => -n
    case 144 => Abs(n)
    case 145 => if n == 0 then 1 else 0
    case _ => if n != 0 then 1 else 0
  }

  function Flag(b: bool): int { if b then 1 else 0 }

  function Binary(code: byte, a: int, b: int): int {
    match code
    case 147 => a + b
    case 148 => a - b
    case 154 => Flag(a != 0 && b != 0)
    case 155 => Flag(a != 0 || b != 0)
    case 156 => Flag(a == b)
    case 158 => Flag(a != b)
    case 159 => Flag(a < b)
    case 160 => Flag(a > b)
    case 161 => Flag(a <= b)
    case 162 => Flag(a >= b)
    case 163 => if a < b then a else b
    case _ => if a < b then b else a
  }

  predicate IsUnary(code: byte) { code in {139, 140, 143, 144, 145, 146} }
  predicate IsBinary(code: byte) { code in {147, 148, 154, 155, 156, 158, 159, 160, 161, 162, 163, 164} }

  function Arithmetic(code: byte, s: Stack): Outcome<Stack> {
    if IsUnary(code) then
      if |s| < 1 || !Number(Top(s, 1)).Done? then Fail
      else Done(Drop(s, 1) + [Data(Unary(code, Number(Top(s, 1)).value))])
    else if |s| < 2 || !Number(Top(s, 1)).Done? || !Number(Top(s, 2)).Done? then Fail
    else
      var a, b := Number(Top(s, 2)).value, Number(Top(s, 1)).value;
      if code == 157 then (if a == b then Done(Drop(s, 2)) else Fail)
      else Done(Drop(s, 2) + [Data(Binary(code, a, b))])
  }

  /** `op_within` pops without looking: an empty stack is read. */
  function Within(s: Stack): Outcome<Stack> {
    if |s| == 0 then Undefined
    else if !Number(Top(s, 1)).Done? then Fail
    else if |s| == 1 then Undefined
    else if !Number(Top(s, 2)).Done? then Fail
    else if |s| == 2 then Undefined
    else if !Number(Top(s, 3)).Done? then Fail
    else
      var upper, lower, value := Number(Top(s, 1)).value, Number(Top(s, 2)).value, Number(Top(s, 3)).value;
      Done(Drop(s, 3) + [Truth(lower <= value < upper)])
  }

  function HashOp(e: Env, code: byte, s: Stack): Outcome<Stack> {
    if |s| < 1 then Fail else
      var data := Top(s, 1);
      var hash := if code == 169 then e.hash160(data)
                  else if code == 170 then Reversed(e.sha256(data))
                  else e.digest(code, data);
      Done(Drop(s, 1) + [hash])
  }

  // ---- signatures

  /** The operations a signature covers: from the last separator on, without separators and without
      the operations whose data is one of the signatures. */
  function ScriptCode(ops: Script, signatures: seq<Bytes>): Script {
    if ops == [] then []
    else if ops[0].code == CODESEPARATOR || ops[0].data in signatures then ScriptCode(ops[1..], signatures)
    else [ops[0]] + ScriptCode(ops[1..], signatures)
  }

  /** The last byte of a signature is its hash type; an empty signature has none to read. */
  function CheckSignature(c: Context, signature: Bytes, pubkey: Bytes, code: Script): Outcome<bool> {
    if !c.e.publicKeyValid(pubkey) then Done(false)
    else if signature == [] then Undefined
    else
      var k := |signature| - 1;
      var digest := SignatureDigest(c.e, c.tx, c.index, code, signature[k]);
      Done(digest != NULL_HASH && c.e.signatureValid(pubkey, signature[..k], digest))
  }

  /** The verdict, and the stack after what was popped on the way to it. */
  function CheckSig(c: Context, m: Machine): Outcome<(bool, Stack)> {
    var s := m.stack;
    if |s| < 2 then Done((false, s)) else
      var code := ScriptCode(if m.codehash <= |c.ops| then c.ops[m.codehash..] else [], [Top(s, 2)]);
      match CheckSignature(c, Top(s, 2), Top(s, 1), code)
      case Done(ok) => Done((ok, Drop(s, 2)))
      case _ => Undefined
  }

  /** A counted section of the stack, popped item by item; the count is an absolute value. */
  function ReadSection(s: Stack): (bool, Stack, seq<Bytes>) {
    if s == [] then (false, s, [])
    else
      var rest := Drop(s, 1);
      match Number(Top(s, 1))
      case Done(n) =>
        if |rest| < Abs(n) then (false, rest, [])
        else (true, Drop(rest, Abs(n)), Reversed(rest[|rest| - Abs(n)..]))
      case _ => (false, rest, [])
  }

  /** Each signature tries the keys from the last match on; a match does not use its key up. */
  function MatchSignatures(c: Context, signatures: seq<Bytes>, keys: seq<Bytes>, from: nat, code: Script): Outcome<bool>
    decreases |signatures|, |keys| - from
  {
    if signatures == [] then Done(true)
    else if from >= |keys| then (if keys == [] then Undefined else Done(false))
    else
      match CheckSignature(c, signatures[0], keys[from], code)
      case Done(true) => MatchSignatures(c, signatures[1..], keys, from, code)
      case Done(false) => MatchSignatures(c, signatures, keys, from + 1, code)
      case _ => Undefined
  }

  function CheckMultisig(c: Context, m: Machine): Outcome<(bool, Stack)> {
    var (okKeys, afterKeys, keys) := ReadSection(m.stack);
    if !okKeys then Done((false, afterKeys)) else
      var (okSigs, rest, signatures) := ReadSection(afterKeys);
      if !okSigs then Done((false, rest)) else
        var code := ScriptCode(if m.codehash <= |c.ops| then c.ops[m.codehash..] else [], signatures);
        match MatchSignatures(c, signatures, keys, 0, code)
        case Done(ok) => Done((ok, rest))
        case _ => Undefined
  }

  /** The plain form pushes the verdict, the verify form fails on a negative one. */
  function SignatureOp(c: Context, code: byte, m: Machine): Outcome<Machine> {
    var verify := code == 173 || code == 175;
    match (if code <= 173 then CheckSig(c, m) else CheckMultisig(c, m))
    case Done((ok, rest)) =>
      if !verify then Done(m.(stack := rest + [Truth(ok)]))
      else if ok then Done(m.(stack := rest)) else Fail
    case _ => Undefined
  }

  // ---- dispatch

  function WithStack(m: Machine, s: Outcome<Stack>): Outcome<Machine> {
    match s
    case Done(stack) => Done(m.(stack := stack))
    case Fail => Fail
    case Undefined => Undefined
  }

  /** `run_operation` on everything but the four conditionals. */
  function RunOperation(c: Context, op: Operation, m: Machine): Outcome<Machine> {
    var code, s := op.code, m.stack;
    if code == 79 then Done(m.(stack := s + [Data(-1)]))
    else if 81 <= code <= 96 then Done(m.(stack := s + [Data(code - 80)]))
    else if code == 97 || 176 <= code <= 185 then Done(m)
    else if code == 105 then (if |s| < 1 || !CastBool(Top(s, 1)) then Fail else Done(m.(stack := Drop(s, 1))))
    else if code == 107 then
      (if |s| < 1 then Fail else Done(m.(stack := Drop(s, 1), alternate := m.alternate + [Top(s, 1)])))
    else if code == 108 then
      (if |m.alternate| < 1 then Fail
       else Done(m.(stack := s + [Top(m.alternate, 1)], alternate := Drop(m.alternate, 1))))
    else if 109 <= code <= 125 || code == 130 || code == 135 || code == 136 then WithStack(m, Shuffle(code, s))
    else if IsUnary(code) || IsBinary(code) || code == 157 then WithStack(m, Arithmetic(code, s))
    else if code == 165 then WithStack(m, Within(s))
    else if 166 <= code <= 170 then WithStack(m, HashOp(c.e, code, s))
    else if 172 <= code <= 175 then SignatureOp(c, code, m)
    else Fail
  }

  predicate Bounded(m: Machine) {
    |m.stack| + |m.alternate| <= MAX_STACK
  }

  function CheckBound(m: Machine): Outcome<Machine> {
    if Bounded(m) then Done(m) else Fail
  }

  /** One executed operation at position `at`, followed by the size check. */
  function Execute(c: Context, op: Operation, at: nat, m: Machine): Outcome<Machine> {
    if op.code == ZERO then CheckBound(m.(stack := m.stack + [[]]))
    else if op.code == SPECIAL || PUSHDATA1 <= op.code <= PUSHDATA4 then CheckBound(m.(stack := m.stack + [op.data]))
    else if op.code == CODESEPARATOR then CheckBound(m.(codehash := at))
    else
      match RunOperation(c, op, m)
      case Done(next) => CheckBound(next)
      case Fail => Fail
      case Undefined => Undefined
  }
}
