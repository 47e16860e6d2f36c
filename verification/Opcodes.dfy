/** What the number operations and the counted sections of a multisignature compute, on stacks written out. */
module Opcodes {
  import opened Types
  import opened Numerals
  import opened BigNumber
  import opened Interpreter
  import opened PayToPubkeyHash

  /** A number that four bytes hold. */
  predicate Short(n: int) { |Data(n)| <= 4 }

  function Operate(c: Context, code: byte, m: Machine): Outcome<Machine> { RunOperation(c, Operation(code, []), m) }

  lemma ShortNumber(n: int)
    requires Short(n)
    ensures Number(Data(n)) == Done(n)
  {
    hide Data;
    hide SetData;
    DataRoundTrip(n);
  }

  lemma Dispatch(c: Context, code: byte, m: Machine)
    ensures IsUnary(code) || IsBinary(code) ==> Operate(c, code, m) == WithStack(m, Arithmetic(code, m.stack))
    ensures code == 165 ==> Operate(c, code, m) == WithStack(m, Within(m.stack))
  {
    hide Shuffle;
    hide Arithmetic;
    hide Within;
    hide HashOp;
    hide SignatureOp;
    hide CastBool;
    hide Data;
  }

  lemma OnStack(m: Machine, stack: Stack)
    ensures WithStack(m, Done(stack)) == Done(m.(stack := stack))
  {
  }

  lemma UnaryStack(code: byte, s: Stack, n: int)
    requires IsUnary(code) && Short(n)
    ensures Arithmetic(code, s + [Data(n)]) == Done(s + [Data(Unary(code, n))])
  {
    ShortNumber(n);
    hide Data;
    hide Number;
    hide Unary;
    hide Short;
    var stack := s + [Data(n)];
    assert Top(stack, 1) == Data(n) && Drop(stack, 1) == s;
  }

  lemma UnaryStep(c: Context, code: byte, m: Machine, s: Stack, n: int)
    requires IsUnary(code) && m.stack == s + [Data(n)] && Short(n)
    ensures Operate(c, code, m) == Done(m.(stack := s + [Data(Unary(code, n))]))
  {
    hide *;
    Dispatch(c, code, m);
    UnaryStack(code, s, n);
    OnStack(m, s + [Data(Unary(code, n))]);
  }

  lemma BinaryStack(code: byte, s: Stack, a: int, b: int)
    requires IsBinary(code) && Short(a) && Short(b)
    ensures Arithmetic(code, s + [Data(a), Data(b)]) == Done(s + [Data(Binary(code, a, b))])
  {
    ShortNumber(a);
    ShortNumber(b);
    hide Data;
    hide Number;
    hide Binary;
    hide Short;
    var stack := s + [Data(a), Data(b)];
    assert Top(stack, 1) == Data(b) && Top(stack, 2) == Data(a) && Drop(stack, 2) == s;
  }

  lemma BinaryStep(c: Context, code: byte, m: Machine, s: Stack, a: int, b: int)
    requires IsBinary(code) && m.stack == s + [Data(a), Data(b)] && Short(a) && Short(b)
    ensures Operate(c, code, m) == Done(m.(stack := s + [Data(Binary(code, a, b))]))
  {
    hide *;
    Dispatch(c, code, m);
    BinaryStack(code, s, a, b);
    OnStack(m, s + [Data(Binary(code, a, b))]);
  }

  /** Add one, subtract one, negate, absolute value, not, and whether it is not zero. */
  lemma UnaryOperations(c: Context, m: Machine, s: Stack, n: int)
    requires m.stack == s + [Data(n)] && Short(n)
    ensures Operate(c, 139, m) == Done(m.(stack := s + [Data(n + 1)]))
    ensures Operate(c, 140, m) == Done(m.(stack := s + [Data(n - 1)]))
    ensures Operate(c, 143, m) == Done(m.(stack := s + [Data(-n)]))
    ensures Operate(c, 144, m) == Done(m.(stack := s + [Data(if n < 0 then -n else n)]))
    ensures Operate(c, 145, m) == Done(m.(stack := s + [Data(if n == 0 then 1 else 0)]))
    ensures Operate(c, 146, m) == Done(m.(stack := s + [Data(if n == 0 then 0 else 1)]))
  {
    UnaryStep(c, 139, m, s, n);
    UnaryStep(c, 140, m, s, n);
    UnaryStep(c, 143, m, s, n);
    UnaryStep(c, 144, m, s, n);
    UnaryStep(c, 145, m, s, n);
    UnaryStep(c, 146, m, s, n);
    hide Operate;
    hide Data;
  }

  /** Sum, difference, and, or, the six comparisons, least and greatest, the upper item second. */
  lemma BinaryOperations(c: Context, m: Machine, s: Stack, a: int, b: int)
    requires m.stack == s + [Data(a), Data(b)] && Short(a) && Short(b)
    ensures Operate(c, 147, m) == Done(m.(stack := s + [Data(a + b)]))
    ensures Operate(c, 148, m) == Done(m.(stack := s + [Data(a - b)]))
    ensures Operate(c, 154, m) == Done(m.(stack := s + [Data(if a != 0 && b != 0 then 1 else 0)]))
    ensures Operate(c, 155, m) == Done(m.(stack := s + [Data(if a != 0 || b != 0 then 1 else 0)]))
    ensures Operate(c, 156, m) == Done(m.(stack := s + [Data(if a == b then 1 else 0)]))
    ensures Operate(c, 158, m) == Done(m.(stack := s + [Data(if a == b then 0 else 1)]))
    ensures Operate(c, 159, m) == Done(m.(stack := s + [Data(if a < b then 1 else 0)]))
    ensures Operate(c, 160, m) == Done(m.(stack := s + [Data(if b < a then 1 else 0)]))
    ensures Operate(c, 161, m) == Done(m.(stack := s + [Data(if b < a then 0 else 1)]))
    ensures Operate(c, 162, m) == Done(m.(stack := s + [Data(if a < b then 0 else 1)]))
    ensures Operate(c, 163, m) == Done(m.(stack := s + [Data(if b < a then b else a)]))
    ensures Operate(c, 164, m) == Done(m.(stack := s + [Data(if b < a then a else b)]))
  {
    BinaryStep(c, 147, m, s, a, b);
    BinaryStep(c, 148, m, s, a, b);
    BinaryStep(c, 154, m, s, a, b);
    BinaryStep(c, 155, m, s, a, b);
    BinaryStep(c, 156, m, s, a, b);
    BinaryStep(c, 158, m, s, a, b);
    BinaryStep(c, 159, m, s, a, b);
    BinaryStep(c, 160, m, s, a, b);
    BinaryStep(c, 161, m, s, a, b);
    BinaryStep(c, 162, m, s, a, b);
    BinaryStep(c, 163, m, s, a, b);
    BinaryStep(c, 164, m, s, a, b);
    hide Operate;
    hide Data;
    hide Short;
  }

  /** The value between its lower bound and, excluded, its upper one. */
  lemma WithinOperation(c: Context, m: Machine, s: Stack, value: int, lower: int, upper: int)
    requires m.stack == s + [Data(value), Data(lower), Data(upper)] && Short(value) && Short(lower) && Short(upper)
    ensures Operate(c, 165, m) == Done(m.(stack := s + [if lower <= value < upper then [1] else []]))
  {
    hide *;
    Dispatch(c, 165, m);
    WithinStack(s, value, lower, upper);
    OnStack(m, s + [if lower <= value < upper then [1] else []]);
  }

  lemma WithinStack(s: Stack, value: int, lower: int, upper: int)
    requires Short(value) && Short(lower) && Short(upper)
    ensures Within(s + [Data(value), Data(lower), Data(upper)]) == Done(s + [if lower <= value < upper then [1] else []])
  {
    ShortNumber(value);
    ShortNumber(lower);
    ShortNumber(upper);
    hide Data;
    hide Number;
    hide Short;
    var stack := s + [Data(value), Data(lower), Data(upper)];
    assert Drop(stack, 3) == s;
    assert Top(stack, 1) == Data(upper) && Top(stack, 2) == Data(lower) && Top(stack, 3) == Data(value);
    hide Top;
    hide Drop;
  }

  // ---- moving items

  lemma Moves(c: Context, code: byte, m: Machine)
    requires 109 <= code <= 125 || code == 130 || code == 135 || code == 136
    ensures Operate(c, code, m) == WithStack(m, Shuffle(code, m.stack))
  {
    hide Shuffle;
    hide CastBool;
    hide Data;
  }

  /** Copies: one, two, three items, the second, the pair below the top pair, the top one under the second. */
  lemma CopyOperations(s: Stack, a: Bytes, b: Bytes, c: Bytes, d: Bytes)
    ensures Shuffle(118, s + [a]) == Done(s + [a, a])
    ensures Shuffle(110, s + [a, b]) == Done(s + [a, b, a, b])
    ensures Shuffle(111, s + [a, b, c]) == Done(s + [a, b, c, a, b, c])
    ensures Shuffle(120, s + [a, b]) == Done(s + [a, b, a])
    ensures Shuffle(112, s + [a, b, c, d]) == Done(s + [a, b, c, d, a, b])
    ensures Shuffle(125, s + [a, b]) == Done(s + [b, a, b])
  {
    assert Drop(s + [a, b], 2) == s;
    assert s + [a] + [a] == s + [a, a];
    assert s + [a, b] + [a, b] == s + [a, b, a, b];
    assert s + [a, b, c] + [a, b, c] == s + [a, b, c, a, b, c];
    assert s + [a, b] + [a] == s + [a, b, a];
    assert s + [a, b, c, d] + [a, b] == s + [a, b, c, d, a, b];
  }

  /** Drops and exchanges: two items, one, the second, two swapped, three and six turned, two pairs swapped. */
  lemma TurnOperations(s: Stack, a: Bytes, b: Bytes, c: Bytes, d: Bytes, e: Bytes, f: Bytes)
    ensures Shuffle(109, s + [a, b]) == Done(s)
    ensures Shuffle(117, s + [a]) == Done(s)
    ensures Shuffle(119, s + [a, b]) == Done(s + [b])
    ensures Shuffle(124, s + [a, b]) == Done(s + [b, a])
    ensures Shuffle(123, s + [a, b, c]) == Done(s + [b, c, a])
    ensures Shuffle(114, s + [a, b, c, d]) == Done(s + [c, d, a, b])
    ensures Shuffle(113, s + [a, b, c, d, e, f]) == Done(s + [c, d, e, f, a, b])
  {
    assert Drop(s + [a], 1) == s && Drop(s + [a, b], 2) == s && Drop(s + [a, b, c], 3) == s;
    assert Drop(s + [a, b, c, d], 4) == s && Drop(s + [a, b, c, d, e, f], 6) == s;
  }

  /** Comparison, sizes, and a copy of a top item that is not zero. */
  lemma TestOperations(s: Stack, a: Bytes, b: Bytes)
    ensures Shuffle(135, s + [a, b]) == Done(s + [if a == b then [1] else []])
    ensures Shuffle(136, s + [a, b]) == if a == b then Done(s) else Fail
    ensures Shuffle(116, s) == Done(s + [Data(|s|)])
    ensures Shuffle(130, s + [a]) == Done(s + [a, Data(|a|)])
    ensures Shuffle(115, s + [a]) == Done(if SetData(a) != 0 then s + [a, a] else s + [a])
  {
    hide SetData;
    hide Data;
    assert Drop(s + [a, b], 2) == s;
    assert s + [a] + [Data(|a|)] == s + [a, Data(|a|)] && s + [a] + [a] == s + [a, a];
  }

  /** Copying and moving the item below a counted number of others. */
  lemma PickAndRoll(s: Stack, item: Bytes, above: Stack)
    requires |above| <= 1000
    ensures Shuffle(121, s + [item] + above + [Data(|above|)]) == Done(s + [item] + above + [item])
    ensures Shuffle(122, s + [item] + above + [Data(|above|)]) == Done(s + above + [item])
  {
    hide Data;
    TakenItem(s, item, above, false);
    TakenItem(s, item, above, true);
    hide PickOrRoll;
  }

  lemma TakenItem(s: Stack, item: Bytes, above: Stack, roll: bool)
    requires |above| <= 1000
    ensures PickOrRoll(s + [item] + above + [Data(|above|)], roll)
            == Done((if roll then s + above else s + [item] + above) + [item])
  {
    CountIsShort(|above|);
    ShortNumber(|above|);
    hide Data;
    hide Number;
    hide Short;
    var rest := s + [item] + above;
    var stack := rest + [Data(|above|)];
    assert Top(stack, 1) == Data(|above|) && Drop(stack, 1) == rest && rest[|s|] == item;
    assert rest[..|s|] == s && rest[|s| + 1..] == above;
    hide Top;
    hide Drop;
  }

  /** Numbers are pushed by value, verification wants a top item that is not zero, the other stack keeps an
      item until it is asked for, and the hash operations replace the top item. */
  lemma OtherOperations(c: Context, m: Machine, s: Stack, a: Bytes, n: nat)
    requires m.stack == s + [a] && 1 <= n <= 16
    ensures Operate(c, 79, m) == Done(m.(stack := m.stack + [Data(-1)]))
    ensures Operate(c, 80 + n, m) == Done(m.(stack := m.stack + [Data(n)]))
    ensures Operate(c, 97, m) == Done(m)
    ensures Operate(c, 105, m) == if SetData(a) != 0 then Done(m.(stack := s)) else Fail
    ensures Operate(c, 107, m) == Done(m.(stack := s, alternate := m.alternate + [a]))
    ensures m.alternate != [] ==>
              var k := |m.alternate| - 1;
              Operate(c, 108, m) == Done(m.(stack := m.stack + [m.alternate[k]], alternate := m.alternate[..k]))
    ensures Operate(c, 169, m) == Done(m.(stack := s + [c.e.hash160(a)]))
    ensures Operate(c, 170, m) == Done(m.(stack := s + [Reversed(c.e.sha256(a))]))
    ensures forall code | 166 <= code <= 168 :: Operate(c, code, m) == Done(m.(stack := s + [c.e.digest(code, a)]))
  {
    hide SetData;
    hide Data;
    hide Reversed;
    assert Drop(m.stack, 1) == s;
  }

  // ---- multisignatures

  lemma CountIsShort(n: nat)
    requires n <= 1000
    ensures Short(n)
  {
    hide Data;
    if |Data(n)| >= 2 {
      DataLowerBound(n);
      LargePower(|Data(n)| - 2);
    }
  }

  lemma LargePower(k: nat)
    ensures k >= 3 ==> Power(256, k) >= 0x1_0000
  {
    if k >= 3 {
      PowerGrows(2, k);
      assert Power(256, 2) == 256 * Power(256, 1) == 0x1_0000;
    }
  }

  lemma SectionRead(s: Stack, items: seq<Bytes>)
    requires |items| <= 1000
    ensures ReadSection(s + items + [Data(|items|)]) == (true, s, Reversed(items))
  {
    CountIsShort(|items|);
    ShortNumber(|items|);
    hide Data;
    hide Number;
    hide Short;
    var whole := s + items + [Data(|items|)];
    assert Drop(whole, 1) == s + items;
    assert Drop(s + items, |items|) == s && (s + items)[|s|..] == items;
  }

  /** On signatures with their count and keys with theirs, the last ones first: the verdict is whether the
      keys can be assigned to the signatures in order, and all of it leaves the stack. */
  lemma MultisigVerdict(c: Context, m: Machine, s: Stack, signatures: seq<Bytes>, keys: seq<Bytes>)
    requires m.stack == s + signatures + [Data(|signatures|)] + keys + [Data(|keys|)]
    requires |signatures| <= 1000 && 0 < |keys| <= 1000 && m.codehash <= |c.ops|
    requires forall i | 0 <= i < |Reversed(signatures)| :: Reversed(signatures)[i] != []
    ensures CheckMultisig(c, m) == Done((
              Assignable(c, Reversed(signatures), Reversed(keys), 0, ScriptCode(c.ops[m.codehash..], Reversed(signatures))), s))
  {
    SectionRead(s + signatures + [Data(|signatures|)], keys);
    SectionRead(s, signatures);
    SearchIsExact(c, Reversed(signatures), Reversed(keys), 0, ScriptCode(c.ops[m.codehash..], Reversed(signatures)));
    hide ReadSection;
    hide MatchSignatures;
    hide Assignable;
    hide ScriptCode;
    hide Data;
    hide Reversed;
  }
}
