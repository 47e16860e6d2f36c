/** `generate_signature_hash`: which fields of a transaction a signature covers. */
module SignatureHash {
  import opened Types
  import opened Numerals
  import opened ScriptCodec
  import opened Wire

  datatype Base = All | None | Single

  function BaseOf(hashType: uint32): Base {
    if hashType % 32 == 2 then None else if hashType % 32 == 3 then Single else All
  }

  predicate AnyoneCanPay(hashType: uint32) { hashType / 128 % 2 == 1 }

  /** Scripts are blanked except for the signed input, whose script is replaced by the code being run. */
  function BlankInput(input: Input, own: bool, code: Script, keepSequence: bool): Input {
    Input(input.previous, if own then code else [], if own || keepSequence then input.sequence else 0)
  }

  function BlankInputs(inputs: seq<Input>, index: nat, code: Script, keepSequence: bool): (r: seq<Input>)
    ensures |r| == |inputs|
    ensures forall i | 0 <= i < |r| :: r[i] == BlankInput(inputs[i], i == index, code, keepSequence)
  {
    seq(|inputs|, i requires 0 <= i < |inputs| => BlankInput(inputs[i], i == index, code, keepSequence))
  }

  const BLANK_OUTPUT: Output := Output(UINT64_MAX, [])

  function SingleOutputs(outputs: seq<Output>, index: nat): (r: seq<Output>)
    requires index < |outputs|
    ensures |r| == index + 1 && r[index] == outputs[index]
    ensures forall i | 0 <= i < index :: r[i] == BLANK_OUTPUT
  {
    seq(index, _ => BLANK_OUTPUT) + [outputs[index]]
  }

  /** The transaction whose bytes are signed; none when an index is out of range. */
  function SignedTransaction(tx: Transaction, index: nat, code: Script, hashType: uint32): Outcome<Transaction> {
    var base := BaseOf(hashType);
    if index >= |tx.inputs| || (base.Single? && index >= |tx.outputs|) then Fail else
      var blank := BlankInputs(tx.inputs, index, code, base.All?);
      var inputs := if AnyoneCanPay(hashType) then [blank[index]] else blank;
      var outputs := match base
        case All => tx.outputs
        case None => []
        case Single => SingleOutputs(tx.outputs, index);
      Done(Transaction(tx.version, tx.locktime, inputs, outputs))
  }

  function Preimage(signed: Transaction, hashType: uint32): Bytes {
    TransactionBytes(ToRaw(signed)) + LittleEndian(hashType, 4)
  }

  /** The null hash reports an index out of range. */
  function SignatureDigest(e: Env, tx: Transaction, index: nat, code: Script, hashType: uint32): Digest {
    match SignedTransaction(tx, index, code, hashType)
    case Done(signed) => e.sha256(Preimage(signed, hashType))
    case _ => NULL_HASH
  }

  method NullifySequences(inputs: seq<Input>, except: nat) returns (r: seq<Input>)
    ensures |r| == |inputs|
    ensures forall i | 0 <= i < |r| :: r[i] == if i == except then inputs[i] else inputs[i].(sequence := 0)
  {
    r := inputs;
    for i := 0 to |inputs|
      invariant |r| == |inputs|
      invariant forall j | 0 <= j < i :: r[j] == if j == except then inputs[j] else inputs[j].(sequence := 0)
      invariant forall j | i <= j < |r| :: r[j] == inputs[j]
    {
      if i != except {
        r := r[i := r[i].(sequence := 0)];
      }
    }
  }

  /** The step-by-step rewriting of a copy of the transaction. */
  method GenerateSignatureHash(e: Env, tx: Transaction, index: nat, code: Script, hashType: uint32)
    returns (digest: Digest)
    ensures digest == SignatureDigest(e, tx, index, code, hashType)
  {
    if index >= |tx.inputs| { return NULL_HASH; }
    var inputs, outputs := tx.inputs, tx.outputs;
    for i := 0 to |inputs|
      invariant |inputs| == |tx.inputs|
      invariant forall j | 0 <= j < i :: inputs[j] == tx.inputs[j].(script := [])
      invariant forall j | i <= j < |inputs| :: inputs[j] == tx.inputs[j]
    {
      inputs := inputs[i := inputs[i].(script := [])];
    }
    inputs := inputs[index := inputs[index].(script := code)];
    if hashType % 32 == 2 {
      outputs := [];
      inputs := NullifySequences(inputs, index);
    } else if hashType % 32 == 3 {
      if index >= |outputs| { return NULL_HASH; }
      outputs := outputs[..index + 1];
      for i := 0 to index
        invariant |outputs| == index + 1 && outputs[index] == tx.outputs[index]
        invariant forall j | 0 <= j < i :: outputs[j] == BLANK_OUTPUT
      {
        outputs := outputs[i := BLANK_OUTPUT];
      }
      assert outputs == SingleOutputs(tx.outputs, index);
      inputs := NullifySequences(inputs, index);
    }
    assert inputs == BlankInputs(tx.inputs, index, code, BaseOf(hashType).All?);
    if hashType / 128 % 2 == 1 {
      inputs := inputs[0 := inputs[index]];
      inputs := inputs[..1];
      assert inputs == [BlankInputs(tx.inputs, index, code, BaseOf(hashType).All?)[index]];
    }
    return e.sha256(Preimage(Transaction(tx.version, tx.locktime, inputs, outputs), hashType));
  }

  // ---- exactness

  /** What two signed input lists must share. Without anyone_can_pay the place of the signed input shows
      only in its script and, unless sequences are kept, in its sequence. */
  ghost predicate InputsAgree(a: seq<Input>, codeA: Script, i: nat, b: seq<Input>, codeB: Script, j: nat, hashType: uint32)
    requires i < |a| && j < |b|
  {
    if AnyoneCanPay(hashType) then
      a[i].previous == b[j].previous && a[i].sequence == b[j].sequence && SaveScript(codeA) == SaveScript(codeB)
    else BlanksAgree(a, codeA, i, b, codeB, j, BaseOf(hashType).All?)
  }

  ghost predicate BlanksAgree(a: seq<Input>, codeA: Script, i: nat, b: seq<Input>, codeB: Script, j: nat, keep: bool)
    requires i < |a| && j < |b|
  {
    && |a| == |b| && (forall k | 0 <= k < |a| :: a[k].previous == b[k].previous)
    && (if keep then forall k | 0 <= k < |a| :: a[k].sequence == b[k].sequence
        else if i == j then a[i].sequence == b[j].sequence
        else a[i].sequence == 0 && b[j].sequence == 0)
    && (if i == j then SaveScript(codeA) == SaveScript(codeB) else SaveScript(codeA) == [] && SaveScript(codeB) == [])
  }

  /** What two signed output lists must share; a single output is signed together with its place. */
  ghost predicate OutputsAgree(a: seq<Output>, i: nat, b: seq<Output>, j: nat, base: Base)
    requires base.Single? ==> i < |a| && j < |b|
  {
    match base
    case All => RawOutputs(a) == RawOutputs(b)
    case None => true
    case Single => i == j && RawOutputs(a)[i] == RawOutputs(b)[j]
  }

  /** The fields a hash type commits to, stated one by one. */
  ghost predicate Agree(a: Transaction, codeA: Script, i: nat, b: Transaction, codeB: Script, j: nat, hashType: uint32)
    requires i < |a.inputs| && j < |b.inputs|
    requires BaseOf(hashType).Single? ==> i < |a.outputs| && j < |b.outputs|
  {
    && a.version == b.version && a.locktime == b.locktime
    && InputsAgree(a.inputs, codeA, i, b.inputs, codeB, j, hashType)
    && OutputsAgree(a.outputs, i, b.outputs, j, BaseOf(hashType))
  }

  /** The raw form of one blanked input. */
  lemma RawBlank(a: seq<Input>, code: Script, i: nat, keep: bool, k: nat)
    requires k < |a|
    ensures RawInputs(BlankInputs(a, i, code, keep))[k]
            == RawInput(a[k].previous, if k == i then SaveScript(code) else [], if k == i || keep then a[k].sequence else 0)
  {
    assert SaveScript([]) == [];
    hide SaveScript;
  }

  lemma SameInputs(a: seq<Input>, codeA: Script, i: nat, b: seq<Input>, codeB: Script, j: nat, keep: bool)
    requires i < |a| && j < |b|
    ensures RawInputs(BlankInputs(a, i, codeA, keep)) == RawInputs(BlankInputs(b, j, codeB, keep))
            <==> BlanksAgree(a, codeA, i, b, codeB, j, keep)
  {
    hide SaveScript;
    var ra, rb := RawInputs(BlankInputs(a, i, codeA, keep)), RawInputs(BlankInputs(b, j, codeB, keep));
    assert |ra| == |a| && |rb| == |b|;
    if |a| == |b| {
      forall k | 0 <= k < |a|
        ensures ra[k] == RawInput(a[k].previous, if k == i then SaveScript(codeA) else [], if k == i || keep then a[k].sequence else 0)
        ensures rb[k] == RawInput(b[k].previous, if k == j then SaveScript(codeB) else [], if k == j || keep then b[k].sequence else 0)
      {
        RawBlank(a, codeA, i, keep, k);
        RawBlank(b, codeB, j, keep, k);
      }
      hide RawInputs;
      hide BlankInputs;
      if ra == rb {
        assert ra[i] == rb[i] && ra[j] == rb[j];
        assert forall k | 0 <= k < |a| :: ra[k] == rb[k];
      }
    }
  }

  lemma SameOwnInput(a: Input, codeA: Script, b: Input, codeB: Script, keep: bool)
    ensures RawInputs([BlankInput(a, true, codeA, keep)]) == RawInputs([BlankInput(b, true, codeB, keep)])
            <==> SaveScript(codeA) == SaveScript(codeB) && a.previous == b.previous && a.sequence == b.sequence
  {
    hide SaveScript;
    var ra := RawInputs([BlankInput(a, true, codeA, keep)]);
    var rb := RawInputs([BlankInput(b, true, codeB, keep)]);
    assert ra == rb <==> ra[0] == rb[0];
  }

  lemma SameSingleOutputs(a: seq<Output>, i: nat, b: seq<Output>, j: nat)
    requires i < |a| && j < |b|
    ensures RawOutputs(SingleOutputs(a, i)) == RawOutputs(SingleOutputs(b, j))
            <==> i == j && RawOutputs(a)[i] == RawOutputs(b)[j]
  {
    hide SaveScript;
    var ra, rb := RawOutputs(SingleOutputs(a, i)), RawOutputs(SingleOutputs(b, j));
    assert |ra| == i + 1 && |rb| == j + 1;
    assert ra[i] == RawOutputs(a)[i] && rb[j] == RawOutputs(b)[j];
  }

  lemma SameRaw(a: Transaction, codeA: Script, i: nat, b: Transaction, codeB: Script, j: nat, hashType: uint32)
    requires i < |a.inputs| && j < |b.inputs|
    requires BaseOf(hashType).Single? ==> i < |a.outputs| && j < |b.outputs|
    ensures ToRaw(SignedTransaction(a, i, codeA, hashType).value)
            == ToRaw(SignedTransaction(b, j, codeB, hashType).value)
            <==> Agree(a, codeA, i, b, codeB, j, hashType)
  {
    hide SaveScript;
    var keep := BaseOf(hashType).All?;
    SameInputs(a.inputs, codeA, i, b.inputs, codeB, j, keep);
    SameOwnInput(a.inputs[i], codeA, b.inputs[j], codeB, keep);
    hide BlanksAgree;
    if BaseOf(hashType).Single? {
      SameSingleOutputs(a.outputs, i, b.outputs, j);
    }
  }

  /** Two signed inputs have the same bytes exactly when they are signed with one hash type and agree on
      what it commits to: nothing more is covered, nothing less. */
  lemma PreimageExact(a: Transaction, codeA: Script, i: nat, typeA: uint32,
                      b: Transaction, codeB: Script, j: nat, typeB: uint32)
    requires i < |a.inputs| && (BaseOf(typeA).Single? ==> i < |a.outputs|)
    requires j < |b.inputs| && (BaseOf(typeB).Single? ==> j < |b.outputs|)
    requires Fits(ToRaw(SignedTransaction(a, i, codeA, typeA).value))
    requires Fits(ToRaw(SignedTransaction(b, j, codeB, typeB).value))
    ensures Preimage(SignedTransaction(a, i, codeA, typeA).value, typeA)
            == Preimage(SignedTransaction(b, j, codeB, typeB).value, typeB)
            <==> typeA == typeB && Agree(a, codeA, i, b, codeB, j, typeA)
  {
    hide Agree;
    hide ToRaw;
    hide TransactionBytes;
    var sa, sb := SignedTransaction(a, i, codeA, typeA).value, SignedTransaction(b, j, codeB, typeB).value;
    if Preimage(sa, typeA) == Preimage(sb, typeB) {
      TransactionBytesInjective(ToRaw(sa), ToRaw(sb), LittleEndian(typeA, 4), LittleEndian(typeB, 4));
      TypesTell(typeA, typeB);
    }
    if typeA == typeB { SameRaw(a, codeA, i, b, codeB, j, typeA); }
  }

  lemma TypesTell(a: uint32, b: uint32)
    requires LittleEndian(a, 4) == LittleEndian(b, 4)
    ensures a == b
  {
    PowersOf256();
    hide Power;
    LittleEndianValue(a, 4);
    LittleEndianValue(b, 4);
  }

  // ---- the six hash types in numbers

  /** What two inputs signed with one of the six types must share. */
  ghost predicate Shares(a: Transaction, codeA: Script, i: nat, b: Transaction, codeB: Script, j: nat, t: uint32)
    requires t in {1, 2, 3, 0x81, 0x82, 0x83} && i < |a.inputs| && j < |b.inputs|
    requires t in {3, 0x83} ==> i < |a.outputs| && j < |b.outputs|
  {
    && a.version == b.version && a.locktime == b.locktime
    && (t in {0x81, 0x82, 0x83} ==>
          && a.inputs[i].previous == b.inputs[j].previous && a.inputs[i].sequence == b.inputs[j].sequence
          && SaveScript(codeA) == SaveScript(codeB))
    && (t == 1 ==> BlanksAgree(a.inputs, codeA, i, b.inputs, codeB, j, true))
    && (t in {2, 3} ==> BlanksAgree(a.inputs, codeA, i, b.inputs, codeB, j, false))
    && (t in {1, 0x81} ==> RawOutputs(a.outputs) == RawOutputs(b.outputs))
    && (t in {3, 0x83} ==> i == j && RawOutputs(a.outputs)[i] == RawOutputs(b.outputs)[j])
  }

  /** Type 1 covers everything, 2 no output, 3 the output at the place of the input; 0x80 added leaves the
      other inputs out. */
  lemma TypesCommit(a: Transaction, codeA: Script, i: nat, b: Transaction, codeB: Script, j: nat, t: uint32)
    requires t in {1, 2, 3, 0x81, 0x82, 0x83} && i < |a.inputs| && j < |b.inputs|
    requires t in {3, 0x83} ==> i < |a.outputs| && j < |b.outputs|
    requires SignedTransaction(a, i, codeA, t).Done? && Fits(ToRaw(SignedTransaction(a, i, codeA, t).value))
    requires SignedTransaction(b, j, codeB, t).Done? && Fits(ToRaw(SignedTransaction(b, j, codeB, t).value))
    ensures Preimage(SignedTransaction(a, i, codeA, t).value, t) == Preimage(SignedTransaction(b, j, codeB, t).value, t)
            <==> Shares(a, codeA, i, b, codeB, j, t)
  {
    hide Preimage;
    hide ToRaw;
    hide Fits;
    hide BlanksAgree;
    hide SaveScript;
    PreimageExact(a, codeA, i, t, b, codeB, j, t);
  }

  /** The signed transaction field by field: the code stands in place of the signed input's script, every
      other script is empty, and what the type does not cover is dropped or blanked. */
  lemma SignedFields(tx: Transaction, index: nat, code: Script, t: uint32)
    requires t in {1, 2, 3, 0x81, 0x82, 0x83}
    ensures SignedTransaction(tx, index, code, t).Done?
            <==> index < |tx.inputs| && (t in {3, 0x83} ==> index < |tx.outputs|)
    ensures SignedTransaction(tx, index, code, t).Done? ==>
              var signed := SignedTransaction(tx, index, code, t).value;
              && signed.version == tx.version && signed.locktime == tx.locktime
              && (t in {1, 2, 3} ==>
                    && |signed.inputs| == |tx.inputs| && signed.inputs[index] == tx.inputs[index].(script := code)
                    && forall k | 0 <= k < |tx.inputs| && k != index ::
                         signed.inputs[k] == Input(tx.inputs[k].previous, [], if t == 1 then tx.inputs[k].sequence else 0))
              && (t in {0x81, 0x82, 0x83} ==> signed.inputs == [tx.inputs[index].(script := code)])
              && (t in {1, 0x81} ==> signed.outputs == tx.outputs)
              && (t in {2, 0x82} ==> signed.outputs == [])
              && (t in {3, 0x83} ==>
                    && |signed.outputs| == index + 1 && signed.outputs[index] == tx.outputs[index]
                    && forall k | 0 <= k < index :: signed.outputs[k] == Output(0xffff_ffff_ffff_ffff, []))
  {
  }

  /** The preimage ends in the type, in four bytes. */
  lemma PreimageEnds(signed: Transaction, t: uint32)
    ensures var bytes := Preimage(signed, t);
            |bytes| >= 4 && Value(bytes[|bytes| - 4..], 256) == t
            && bytes[..|bytes| - 4] == TransactionBytes(ToRaw(signed))
  {
    hide TransactionBytes;
    hide ToRaw;
    PowersOf256();
    hide Power;
    LittleEndianValue(t, 4);
    var bytes := Preimage(signed, t);
    assert bytes[|bytes| - 4..] == LittleEndian(t, 4);
  }
}
