/** When signatures unlock an output: pay-to-public-key-hash from end to end, and what the key search of a
    multisignature decides. */
module PayToPubkeyHash {
  import opened Types
  import opened ScriptCodec
  import opened SignatureHash
  import opened Interpreter
  import opened Conditionals
  import P2SH = PayToScriptHash

  // ---- one signature

  /** The signature without its last byte verifies, under a key that can be loaded, the digest of the
      transaction signed at the input being run with the type that byte gives. */
  predicate Signs(e: Env, tx: Transaction, index: nat, code: Script, signature: Bytes, key: Bytes)
    requires signature != []
  {
    var k := |signature| - 1;
    var hashType := signature[k];
    && e.publicKeyValid(key)
    && index < |tx.inputs| && (hashType % 32 == 3 ==> index < |tx.outputs|)
    && var digest := e.sha256(Preimage(SignedTransaction(tx, index, code, hashType).value, hashType));
       digest != NULL_HASH && e.signatureValid(key, signature[..k], digest)
  }

  lemma SignatureSigns(c: Context, signature: Bytes, key: Bytes, code: Script)
    requires signature != []
    ensures CheckSignature(c, signature, key, code) == Done(Signs(c.e, c.tx, c.index, code, signature, key))
  {
    hide Preimage;
  }

  // ---- running the two scripts

  predicate PushOp(op: Operation) {
    op.code in {1, 76, 77, 78} && WellFormedOp(op)
  }

  /** Duplicate, hash, push twenty bytes, compare, check a signature. */
  predicate PaysToKeyHash(ops: Script) {
    && |ops| == 5 && ops[0] == Operation(118, []) && ops[1] == Operation(169, [])
    && ops[2].code == 1 && |ops[2].data| == 20
    && ops[3] == Operation(136, []) && ops[4] == Operation(172, [])
  }

  lemma OpSize(op: Operation)
    requires PushOp(op)
    ensures |OpBytes(op)| <= 5 + |op.data|
  {
  }

  lemma TwoPushesFit(a: Operation, b: Operation)
    requires PushOp(a) && PushOp(b) && |a.data| <= 520 && |b.data| <= 520
    ensures WithinLimits([a, b])
  {
    OpSize(a);
    OpSize(b);
    hide OpBytes;
    assert [a, b][1..] == [b] && [b][1..] == [];
    assert OpsBytes([b]) == OpBytes(b) + OpsBytes([]);
    assert OpsBytes([a, b]) == OpBytes(a) + OpsBytes([b]);
    assert CountNonPush([b]) == 0;
  }

  lemma PushStep(c: Context, op: Operation, at: nat, stack: Stack)
    requires PushOp(op) && |stack| < MAX_STACK
    ensures NextStep(c, op, at, State(Machine(stack, [], 0), []))
            == if |op.data| > 520 then Fail else Done(State(Machine(stack + [op.data], [], 0), []))
  {
  }

  /** Two pushes leave their items, unless one is too long. */
  lemma TwoPushes(c: Context)
    requires |c.ops| == 2 && PushOp(c.ops[0]) && PushOp(c.ops[1])
    ensures var a, b := c.ops[0].data, c.ops[1].data;
            RunScript(c, []) == if |a| <= 520 && |b| <= 520 then Done([a, b]) else Fail
  {
    var first, second := c.ops[0], c.ops[1];
    assert c.ops == [first, second] && c.ops[1..] == [second] && [second][1..] == [];
    if |first.data| <= 520 && |second.data| <= 520 { TwoPushesFit(first, second); }
    PushStep(c, first, 0, []);
    PushStep(c, second, 1, [first.data]);
    assert [] + [first.data] == [first.data] && [first.data] + [second.data] == [first.data, second.data];
    hide NextStep;
    hide WithinLimits;
    var start := State(Machine([], [], 0), []);
    var middle, end := State(Machine([first.data], [], 0), []), State(Machine([first.data, second.data], [], 0), []);
    assert RunFlat(c, [], 2, end) == Done(end);
    assert RunFlat(c, [second], 1, middle) == if |second.data| > 520 then Fail else Done(end);
    assert RunFlat(c, c.ops, 0, start) == if |first.data| > 520 then Fail else RunFlat(c, [second], 1, middle);
  }

  lemma KeyHashLimits(ops: Script)
    requires PaysToKeyHash(ops)
    ensures WithinLimits(ops)
  {
    assert |OpBytes(ops[0])| == 1 && |OpBytes(ops[1])| == 1 && |OpBytes(ops[2])| == 21
        && |OpBytes(ops[3])| == 1 && |OpBytes(ops[4])| == 1;
    hide OpBytes;
    assert ops[1..][1..] == ops[2..] && ops[2..][1..] == ops[3..] && ops[3..][1..] == ops[4..] && ops[4..][1..] == [];
    assert |OpsBytes(ops[4..])| == 1 && CountNonPush(ops[4..]) == 1;
    assert |OpsBytes(ops[3..])| == 2 && CountNonPush(ops[3..]) == 2;
    assert |OpsBytes(ops[2..])| == 23 && CountNonPush(ops[2..]) == 2;
    assert |OpsBytes(ops[1..])| == 24 && CountNonPush(ops[1..]) == 3;
  }

  /** A signature that is not itself pushed by the script leaves nothing out of it. */
  lemma CoversWhole(ops: Script, signature: Bytes)
    requires PaysToKeyHash(ops) && signature != [] && signature != ops[2].data
    ensures ScriptCode(ops, [signature]) == ops
  {
    assert ops[1..][1..] == ops[2..] && ops[2..][1..] == ops[3..] && ops[3..][1..] == ops[4..] && ops[4..][1..] == [];
    assert ScriptCode([], [signature]) == [];
    assert ScriptCode(ops[4..], [signature]) == ops[4..];
    assert ScriptCode(ops[3..], [signature]) == ops[3..];
    assert ScriptCode(ops[2..], [signature]) == ops[2..];
    assert ScriptCode(ops[1..], [signature]) == ops[1..];
    assert [ops[0]] + ops[1..] == ops;
  }

  lemma DupStep(c: Context, stack: Stack, top: Bytes)
    requires |stack| < 900
    ensures NextStep(c, Operation(118, []), 0, State(Machine(stack + [top], [], 0), []))
            == Done(State(Machine(stack + [top, top], [], 0), []))
  {
    assert (stack + [top]) + [top] == stack + [top, top];
  }

  lemma HashStep(c: Context, stack: Stack, top: Bytes)
    requires |stack| < 900
    ensures NextStep(c, Operation(169, []), 1, State(Machine(stack + [top], [], 0), []))
            == Done(State(Machine(stack + [c.e.hash160(top)], [], 0), []))
  {
    assert Drop(stack + [top], 1) == stack;
  }

  lemma CompareStep(c: Context, stack: Stack, a: Bytes, b: Bytes)
    requires |stack| < 900
    ensures NextStep(c, Operation(136, []), 3, State(Machine(stack + [a, b], [], 0), []))
            == if a == b then Done(State(Machine(stack, [], 0), [])) else Fail
  {
    assert Drop(stack + [a, b], 2) == stack;
  }

  lemma CheckStep(c: Context, signature: Bytes, key: Bytes)
    requires PaysToKeyHash(c.ops) && signature != [] && signature != c.ops[2].data
    ensures NextStep(c, Operation(172, []), 4, State(Machine([signature, key], [], 0), []))
            == Done(State(Machine([Truth(Signs(c.e, c.tx, c.index, c.ops, signature, key))], [], 0), []))
  {
    CoversWhole(c.ops, signature);
    SignatureSigns(c, signature, key, c.ops);
    hide ScriptCode;
    hide Signs;
    hide CheckSignature;
    assert c.ops[0..] == c.ops;
    var m := Machine([signature, key], [], 0);
    var ok := Signs(c.e, c.tx, c.index, c.ops, signature, key);
    assert CheckSig(c, m) == Done((ok, [])) by { assert Drop([signature, key], 2) == []; }
    hide CheckSig;
    assert SignatureOp(c, 172, m) == Done(m.(stack := [] + [Truth(ok)]));
    assert [] + [Truth(ok)] == [Truth(ok)];
    hide SignatureOp;
    assert RunOperation(c, Operation(172, []), m) == Done(m.(stack := [Truth(ok)]));
  }

  /** The output script on a signature and a key. */
  lemma KeyHashRun(c: Context, signature: Bytes, key: Bytes)
    requires PaysToKeyHash(c.ops) && signature != [] && signature != c.ops[2].data
    ensures RunScript(c, [signature, key]) ==
            if c.e.hash160(key) != c.ops[2].data then Fail
            else Done([Truth(Signs(c.e, c.tx, c.index, c.ops, signature, key))])
  {
    var ops, h := c.ops, c.ops[2].data;
    KeyHashLimits(ops);
    DupStep(c, [signature], key);
    HashStep(c, [signature, key], key);
    PushStep(c, ops[2], 2, [signature, key, c.e.hash160(key)]);
    CompareStep(c, [signature, key], c.e.hash160(key), h);
    CheckStep(c, signature, key);
    hide NextStep;
    hide WithinLimits;
    hide Signs;
    assert ops[1..][1..] == ops[2..] && ops[2..][1..] == ops[3..] && ops[3..][1..] == ops[4..] && ops[4..][1..] == [];
    assert [signature] + [key] == [signature, key] && [signature] + [key, key] == [signature, key] + [key];
    assert [signature, key] + [c.e.hash160(key)] == [signature, key, c.e.hash160(key)];
    assert [signature, key, c.e.hash160(key)] + [h] == [signature, key] + [c.e.hash160(key), h];
    FlatFive(c, State(Machine([signature, key], [], 0), []),
             State(Machine([signature, key] + [key], [], 0), []),
             State(Machine([signature, key, c.e.hash160(key)], [], 0), []),
             State(Machine([signature, key] + [c.e.hash160(key), h], [], 0), []),
             State(Machine([signature, key], [], 0), []),
             State(Machine([Truth(Signs(c.e, c.tx, c.index, c.ops, signature, key))], [], 0), []),
             c.e.hash160(key) == h);
  }

  /** Five steps of which the fourth may fail. */
  lemma FlatFive(c: Context, s0: State, s1: State, s2: State, s3: State, s4: State, s5: State, equal: bool)
    requires |c.ops| == 5
    requires NextStep(c, c.ops[0], 0, s0) == Done(s1) && NextStep(c, c.ops[1], 1, s1) == Done(s2)
    requires NextStep(c, c.ops[2], 2, s2) == Done(s3) && NextStep(c, c.ops[4], 4, s4) == Done(s5)
    requires NextStep(c, c.ops[3], 3, s3) == if equal then Done(s4) else Fail
    ensures RunFlat(c, c.ops, 0, s0) == if equal then Done(s5) else Fail
  {
    hide NextStep;
    var ops := c.ops;
    assert ops[0..] == ops && ops[1..][1..] == ops[2..] && ops[2..][1..] == ops[3..];
    assert ops[3..][1..] == ops[4..] && ops[4..][1..] == [];
    assert RunFlat(c, [], 5, s5) == Done(s5);
    assert equal ==> RunFlat(c, ops[4..], 4, s4) == Done(s5);
    assert RunFlat(c, ops[3..], 3, s3) == if equal then Done(s5) else Fail;
    assert RunFlat(c, ops[2..], 2, s2) == RunFlat(c, ops[3..], 3, s3);
    assert RunFlat(c, ops[1..], 1, s1) == RunFlat(c, ops[2..], 2, s2);
  }

  /** A pay-to-public-key-hash output is spent by a pushed signature and key exactly when both are short
      enough to push, the key has the committed hash, and the signature signs this input. */
  lemma KeyHashSpent(e: Env, output: Script, input: Script, tx: Transaction, index: nat, bip16: bool)
    requires PaysToKeyHash(output) && |input| == 2 && PushOp(input[0]) && PushOp(input[1])
    requires input[0].data != [] && input[0].data != output[2].data
    ensures var signature, key := input[0].data, input[1].data;
            P2SH.RunScripts(e, output, input, tx, index, bip16) == Done(true) <==>
            && |signature| <= 520 && |key| <= 520
            && e.hash160(key) == output[2].data && Signs(e, tx, index, output, signature, key)
  {
    var signature, key := input[0].data, input[1].data;
    TwoPushes(Context(e, input, tx, index));
    KeyHashRun(Context(e, output, tx, index), signature, key);
    P2SH.TruthCasts();
    hide RunScript;
    hide Signs;
    hide CastBool;
  }

  // ---- several signatures

  /** Keys can be assigned to the signatures in order, never going back, so that each one signs. */
  ghost predicate Assignable(c: Context, signatures: seq<Bytes>, keys: seq<Bytes>, from: nat, code: Script)
    requires forall i | 0 <= i < |signatures| :: signatures[i] != []
  {
    exists at: seq<nat> :: Assigns(c, signatures, keys, from, code, at)
  }

  predicate Assigns(c: Context, signatures: seq<Bytes>, keys: seq<Bytes>, from: nat, code: Script, at: seq<nat>)
    requires forall i | 0 <= i < |signatures| :: signatures[i] != []
  {
    && |at| == |signatures|
    && (forall i | 0 <= i < |at| :: from <= at[i] < |keys| && Signs(c.e, c.tx, c.index, code, signatures[i], keys[at[i]]))
    && (forall i, j | 0 <= i < j < |at| :: at[i] <= at[j])
  }

  /** The search that keeps the last matching key finds such an assignment whenever there is one; nothing
      keeps two signatures from sharing a key. */
  lemma {:induction false} SearchIsExact(c: Context, signatures: seq<Bytes>, keys: seq<Bytes>, from: nat, code: Script)
    requires (forall i | 0 <= i < |signatures| :: signatures[i] != []) && keys != []
    ensures MatchSignatures(c, signatures, keys, from, code) == Done(Assignable(c, signatures, keys, from, code))
    decreases |signatures|, |keys| - from
  {
    hide Signs;
    if signatures == [] {
      assert Assigns(c, signatures, keys, from, code, []);
    } else if from >= |keys| {
      NoneLeft(c, signatures, keys, from, code);
    } else {
      SignatureSigns(c, signatures[0], keys[from], code);
      hide CheckSignature;
      if Signs(c.e, c.tx, c.index, code, signatures[0], keys[from]) {
        SearchIsExact(c, signatures[1..], keys, from, code);
        TakeKey(c, signatures, keys, from, code);
      } else {
        SearchIsExact(c, signatures, keys, from + 1, code);
        SkipKey(c, signatures, keys, from, code);
      }
    }
  }

  lemma NoneLeft(c: Context, signatures: seq<Bytes>, keys: seq<Bytes>, from: nat, code: Script)
    requires (forall i | 0 <= i < |signatures| :: signatures[i] != []) && signatures != [] && from >= |keys|
    ensures !Assignable(c, signatures, keys, from, code)
  {
    hide Signs;
    forall at: seq<nat>
      ensures !Assigns(c, signatures, keys, from, code, at)
    {
      if |at| == |signatures| {
        var first := at[0];
        assert !(from <= first < |keys|);
      }
    }
  }

  /** Taking the first key that matches loses nothing. */
  lemma TakeKey(c: Context, signatures: seq<Bytes>, keys: seq<Bytes>, from: nat, code: Script)
    requires (forall i | 0 <= i < |signatures| :: signatures[i] != []) && signatures != [] && from < |keys|
    requires Signs(c.e, c.tx, c.index, code, signatures[0], keys[from])
    ensures Assignable(c, signatures, keys, from, code) <==> Assignable(c, signatures[1..], keys, from, code)
  {
    hide Signs;
    if Assignable(c, signatures, keys, from, code) {
      var at :| Assigns(c, signatures, keys, from, code, at);
      assert Assigns(c, signatures[1..], keys, from, code, at[1..]);
    }
    if Assignable(c, signatures[1..], keys, from, code) {
      var at :| Assigns(c, signatures[1..], keys, from, code, at);
      var all := [from] + at;
      forall i | 0 <= i < |all|
        ensures from <= all[i] < |keys| && Signs(c.e, c.tx, c.index, code, signatures[i], keys[all[i]])
      {
        if i > 0 { assert signatures[1..][i - 1] == signatures[i]; }
      }
      assert Assigns(c, signatures, keys, from, code, all);
    }
  }

  lemma SkipKey(c: Context, signatures: seq<Bytes>, keys: seq<Bytes>, from: nat, code: Script)
    requires (forall i | 0 <= i < |signatures| :: signatures[i] != []) && signatures != [] && from < |keys|
    requires !Signs(c.e, c.tx, c.index, code, signatures[0], keys[from])
    ensures Assignable(c, signatures, keys, from, code) <==> Assignable(c, signatures, keys, from + 1, code)
  {
    hide Signs;
    if Assignable(c, signatures, keys, from, code) {
      var at :| Assigns(c, signatures, keys, from, code, at);
      assert at[0] != from;
      assert Assigns(c, signatures, keys, from + 1, code, at);
    }
    if Assignable(c, signatures, keys, from + 1, code) {
      var at :| Assigns(c, signatures, keys, from + 1, code, at);
      assert Assigns(c, signatures, keys, from, code, at);
    }
  }
}
