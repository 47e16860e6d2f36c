/** `serializer` and `deserializer`, and the message readers and writers that drive them. */
module WireStream {
  import opened Types
  import opened Numerals
  import opened ScriptCodec
  import opened Wire

  lemma Regroup(a: Bytes, b: Bytes, c: Bytes)
    ensures (a + b) + c == a + (b + c)
  {
  }

  class Serializer {
    var data: Bytes

    constructor ()
      ensures data == []
    {
      data := [];
    }

    method WriteByte(v: byte)
      modifies this
      ensures data == old(data) + [v]
    {
      data := data + [v];
    }

    method WriteUint(v: nat, width: nat)
      modifies this
      ensures data == old(data) + LittleEndian(v, width)
    {
      data := data + LittleEndian(v, width);
    }

    method WriteVariableUint(v: uint64)
      modifies this
      ensures data == old(data) + VariableUint(v)
    {
      if v < 0xfd {
        WriteByte(v);
      } else if v <= 0xffff {
        WriteByte(0xfd);
        WriteUint(v, 2);
        Regroup(old(data), [0xfd], LittleEndian(v, 2));
      } else if v <= 0xffff_ffff {
        WriteByte(0xfe);
        WriteUint(v, 4);
        Regroup(old(data), [0xfe], LittleEndian(v, 4));
      } else {
        WriteByte(0xff);
        WriteUint(v, 8);
        Regroup(old(data), [0xff], LittleEndian(v, 8));
      }
    }

    method WriteData(other: Bytes)
      modifies this
      ensures data == old(data) + other
    {
      data := data + other;
    }

    method WriteHash(hash: Digest)
      modifies this
      ensures data == old(data) + Reversed(hash)
    {
      data := data + Reversed(hash);
    }
  }

  lemma {:induction false} ConcatAppend<T>(encode: T -> Bytes, items: seq<T>, last: T)
    ensures Concat(encode, items + [last]) == Concat(encode, items) + encode(last)
  {
    if items == [] {
      assert Concat(encode, [last]) == encode(last);
      assert items + [last] == [last];
    } else {
      ConcatAppend(encode, items[1..], last);
      assert (items + [last])[1..] == items[1..] + [last];
    }
  }

  lemma ConcatStep<T>(encode: T -> Bytes, items: seq<T>, i: nat)
    requires i < |items|
    ensures Concat(encode, items[..i + 1]) == Concat(encode, items[..i]) + encode(items[i])
  {
    assert items[..i + 1] == items[..i] + [items[i]];
    ConcatAppend(encode, items[..i], items[i]);
  }

  lemma RegroupInput(a: Bytes, b: Bytes, c: Bytes, d: Bytes, e: Bytes, f: Bytes)
    ensures ((((a + b) + c) + d) + e) + f == a + (b + (c + ((d + e) + f)))
  {
  }

  lemma RegroupOutput(a: Bytes, b: Bytes, c: Bytes, d: Bytes)
    ensures ((a + b) + c) + d == a + (b + (c + d))
  {
  }

  lemma RegroupTransaction(a: Bytes, b: Bytes, c: Bytes, d: Bytes, e: Bytes, f: Bytes, g: Bytes)
    ensures (((((a + b) + c) + d) + e) + f) + g == a + (b + (c + (d + (e + (f + g)))))
  {
  }

  method WriteInput(serial: Serializer, input: Input)
    requires FitsInput(RawInput(input.previous, SaveScript(input.script), input.sequence))
    modifies serial
    ensures serial.data == old(serial.data)
              + InputBytes(RawInput(input.previous, SaveScript(input.script), input.sequence))
  {
    serial.WriteHash(input.previous.hash);
    serial.WriteUint(input.previous.index, 4);
    var raw := Save(input.script);
    serial.WriteVariableUint(|raw|);
    serial.WriteData(raw);
    serial.WriteUint(input.sequence, 4);
    RegroupInput(old(serial.data), Reversed(input.previous.hash), LittleEndian(input.previous.index, 4),
                 VariableUint(|raw|), raw, LittleEndian(input.sequence, 4));
  }

  method WriteOutput(serial: Serializer, output: Output)
    requires FitsOutput(RawOutput(output.value, SaveScript(output.script)))
    modifies serial
    ensures serial.data == old(serial.data)
              + OutputBytes(RawOutput(output.value, SaveScript(output.script)))
  {
    serial.WriteUint(output.value, 8);
    var raw := Save(output.script);
    serial.WriteVariableUint(|raw|);
    serial.WriteData(raw);
    RegroupOutput(old(serial.data), LittleEndian(output.value, 8), VariableUint(|raw|), raw);
  }

  method WriteInputs(serial: Serializer, inputs: seq<Input>)
    requires forall i | 0 <= i < |inputs| :: FitsInput(RawInputs(inputs)[i])
    modifies serial
    ensures serial.data == old(serial.data) + Concat(InputBytes, RawInputs(inputs))
  {
    hide InputBytes;
    ghost var raws := RawInputs(inputs);
    for i := 0 to |inputs|
      invariant serial.data == old(serial.data) + Concat(InputBytes, raws[..i])
    {
      assert FitsInput(raws[i]);
      WriteInput(serial, inputs[i]);
      ConcatStep(InputBytes, raws, i);
    }
    assert raws[..|inputs|] == raws;
  }

  method WriteOutputs(serial: Serializer, outputs: seq<Output>)
    requires forall i | 0 <= i < |outputs| :: FitsOutput(RawOutputs(outputs)[i])
    modifies serial
    ensures serial.data == old(serial.data) + Concat(OutputBytes, RawOutputs(outputs))
  {
    hide OutputBytes;
    ghost var raws := RawOutputs(outputs);
    for i := 0 to |outputs|
      invariant serial.data == old(serial.data) + Concat(OutputBytes, raws[..i])
    {
      assert FitsOutput(raws[i]);
      WriteOutput(serial, outputs[i]);
      ConcatStep(OutputBytes, raws, i);
    }
    assert raws[..|outputs|] == raws;
  }

  method SaveTransaction(serial: Serializer, tx: Transaction)
    requires Fits(ToRaw(tx))
    modifies serial
    ensures serial.data == old(serial.data) + TransactionBytes(ToRaw(tx))
  {
    serial.WriteUint(tx.version, 4);
    serial.WriteVariableUint(|tx.inputs|);
    WriteInputs(serial, tx.inputs);
    serial.WriteVariableUint(|tx.outputs|);
    WriteOutputs(serial, tx.outputs);
    serial.WriteUint(tx.locktime, 4);
    RegroupTransaction(old(serial.data), LittleEndian(tx.version, 4), VariableUint(|tx.inputs|),
                       Concat(InputBytes, RawInputs(tx.inputs)), VariableUint(|tx.outputs|),
                       Concat(OutputBytes, RawOutputs(tx.outputs)), LittleEndian(tx.locktime, 4));
  }

  // ---- sizes

  method VariableUintSize(v: uint64) returns (size: nat)
    ensures size == |VariableUint(v)|
  {
    if v < 0xfd { return 1; }
    if v <= 0xffff { return 3; }
    if v <= 0xffff_ffff { return 5; }
    return 9;
  }

  /** The size announced for a transaction is the number of bytes written for it. */
  method TransactionRawSize(tx: Transaction) returns (size: nat)
    requires Fits(ToRaw(tx))
    ensures size == |TransactionBytes(ToRaw(tx))|
  {
    var raw := ToRaw(tx);
    size := 8;
    var count := VariableUintSize(|tx.inputs|);
    size := size + count;
    for i := 0 to |tx.inputs|
      invariant size == 8 + |VariableUint(|tx.inputs|)| + |Concat(InputBytes, raw.inputs[..i])|
    {
      assert FitsInput(raw.inputs[i]);
      var length := VariableUintSize(|SaveScript(tx.inputs[i].script)|);
      size := size + (40 + length + |SaveScript(tx.inputs[i].script)|);
      ConcatStep(InputBytes, raw.inputs, i);
    }
    assert raw.inputs[..|tx.inputs|] == raw.inputs;
    count := VariableUintSize(|tx.outputs|);
    size := size + count;
    ghost var before := size;
    for i := 0 to |tx.outputs|
      invariant size == before + |Concat(OutputBytes, raw.outputs[..i])|
    {
      assert FitsOutput(raw.outputs[i]);
      var length := VariableUintSize(|SaveScript(tx.outputs[i].script)|);
      size := size + (8 + length + |SaveScript(tx.outputs[i].script)|);
      ConcatStep(OutputBytes, raw.outputs, i);
    }
    assert raw.outputs[..|tx.outputs|] == raw.outputs;
  }

  // ---- reading

  /** `cast_chunk`: the bytes from the least significant one up, as many as the target type has. */
  method CastChunk(chunk: Bytes, width: nat, reverse: bool) returns (value: nat)
    ensures var bytes := if reverse then Reversed(chunk) else chunk;
            value == Value(bytes[..if |chunk| < width then |chunk| else width], 256)
    ensures value < Power(256, width)
  {
    var bytes := if reverse then Reversed(chunk) else chunk;
    value := 0;
    var shift: nat := 1;
    ghost var digits: seq<nat> := bytes;
    var i := 0;
    while i < width && i < |bytes|
      invariant i <= width && i <= |bytes|
      invariant value == Value(digits[..i], 256)
      invariant shift == Power(256, i)
    {
      assert digits[..i + 1] == digits[..i] + [digits[i]];
      ValueAppend(digits[..i], [digits[i]], 256);
      assert Value([digits[i]], 256) == digits[i];
      value := value + bytes[i] * shift;
      shift := 256 * shift;
      i := i + 1;
    }
    ValueBound(digits[..i], 256);
    PowerGrows(i, width);
  }

  class Deserializer {
    const stream: Bytes
    var begin: nat

    ghost predicate Valid()
      reads this
    {
      begin <= |stream|
    }

    function Remaining(): Bytes
      requires Valid()
      reads this
    {
      stream[begin..]
    }

    constructor (stream: Bytes)
      ensures Valid() && Remaining() == stream && this.stream == stream
    {
      this.stream := stream;
      begin := 0;
    }

    method ReadBytes(count: nat) returns (r: Outcome<Bytes>)
      requires Valid()
      modifies this
      ensures Valid()
      ensures match TakeBytes(old(Remaining()), count)
              case Got(bytes, rest) => r == Done(bytes) && Remaining() == rest
              case EndOfStream => r == Fail && Remaining() == old(Remaining())
    {
      if |stream| - begin < count { return Fail; }
      r := Done(stream[begin..begin + count]);
      assert stream[begin..][..count] == stream[begin..begin + count];
      begin := begin + count;
    }

    method ReadUint(width: nat) returns (r: Outcome<nat>)
      requires Valid()
      modifies this
      ensures Valid()
      ensures match TakeUint(old(Remaining()), width)
              case Got(n, rest) => r == Done(n) && Remaining() == rest
              case EndOfStream => r == Fail
    {
      var bytes := ReadBytes(width);
      if !bytes.Done? { return Fail; }
      var value := CastChunk(bytes.value, width, false);
      assert bytes.value[..width] == bytes.value;
      return Done(value);
    }

    method ReadVariableUint() returns (r: Outcome<nat>)
      requires Valid()
      modifies this
      ensures Valid()
      ensures match TakeVariableUint(old(Remaining()))
              case Got(n, rest) => r == Done(n) && Remaining() == rest
              case EndOfStream => r == Fail
    {
      var length := ReadBytes(1);
      if !length.Done? { return Fail; }
      var first := length.value[0];
      if first < 0xfd { return Done(first); }
      r := ReadUint(if first == 0xfd then 2 else if first == 0xfe then 4 else 8);
    }

    method ReadHash() returns (r: Outcome<Digest>)
      requires Valid()
      modifies this
      ensures Valid()
      ensures match TakeHash(old(Remaining()))
              case Got(hash, rest) => r == Done(hash) && Remaining() == rest
              case EndOfStream => r == Fail
    {
      var bytes := ReadBytes(32);
      if !bytes.Done? { return Fail; }
      return Done(Reversed(bytes.value));
    }

    method ReadSizedBytes() returns (r: Outcome<Bytes>)
      requires Valid()
      modifies this
      ensures Valid()
      ensures match TakeSizedBytes(old(Remaining()))
              case Got(bytes, rest) => r == Done(bytes) && Remaining() == rest
              case EndOfStream => r == Fail
    {
      var count := ReadVariableUint();
      if !count.Done? { return Fail; }
      r := ReadBytes(count.value);
    }

    method ReadUint32() returns (r: Outcome<uint32>)
      requires Valid()
      modifies this
      ensures Valid()
      ensures match TakeUint32(old(Remaining()))
              case Got(n, rest) => r == Done(n) && Remaining() == rest
              case EndOfStream => r == Fail
    {
      ghost var before := Remaining();
      var n := ReadUint(4);
      if !n.Done? { return Fail; }
      Uint32Bound(before);
      return Done(n.value);
    }

    method ReadUint64() returns (r: Outcome<uint64>)
      requires Valid()
      modifies this
      ensures Valid()
      ensures match TakeUint64(old(Remaining()))
              case Got(n, rest) => r == Done(n) && Remaining() == rest
              case EndOfStream => r == Fail
    {
      ghost var before := Remaining();
      var n := ReadUint(8);
      if !n.Done? { return Fail; }
      Uint64Bound(before);
      return Done(n.value);
    }
  }

  /** What one pass over the bytes may return: the parsed value of what was taken, or a failure. */
  ghost predicate Loaded<R, T>(taken: Read<R>, parsed: R -> Outcome<T>, r: Outcome<T>, rest: Bytes) {
    match taken
    case Got(raw, after) => r == parsed(raw) && (r.Done? ==> rest == after)
    case EndOfStream => !r.Done?
  }

  method ReadInput(deserial: Deserializer) returns (r: Outcome<Input>)
    requires deserial.Valid()
    modifies deserial
    ensures deserial.Valid()
    ensures Loaded(TakeInput(old(deserial.Remaining())), InputFromRaw, r, deserial.Remaining())
  {
    var hash := deserial.ReadHash();
    if !hash.Done? { return Fail; }
    var index := deserial.ReadUint32();
    if !index.Done? { return Fail; }
    var previous := OutPoint(hash.value, index.value);
    var raw := deserial.ReadSizedBytes();
    if !raw.Done? { return Fail; }
    var script;
    if PreviousOutputIsNull(previous) {
      script := Done(CoinbaseScript(raw.value));
    } else {
      script := Parse(raw.value);
    }
    if !script.Done? { return Undefined; }
    var sequence := deserial.ReadUint32();
    if !sequence.Done? { return Fail; }
    return Done(Input(previous, script.value, sequence.value));
  }

  method ReadOutput(deserial: Deserializer) returns (r: Outcome<Output>)
    requires deserial.Valid()
    modifies deserial
    ensures deserial.Valid()
    ensures Loaded(TakeOutput(old(deserial.Remaining())), OutputFromRaw, r, deserial.Remaining())
  {
    var value := deserial.ReadUint64();
    if !value.Done? { return Fail; }
    var raw := deserial.ReadSizedBytes();
    if !raw.Done? { return Fail; }
    var script := Parse(raw.value);
    if !script.Done? { return Undefined; }
    return Done(Output(value.value, script.value));
  }

  // ---- counted lists

  lemma {:induction false} TakeManySnoc<T>(take: Bytes -> Read<T>, n: nat, bytes: Bytes)
    ensures TakeMany(take, n + 1, bytes) ==
            match TakeMany(take, n, bytes)
            case EndOfStream => EndOfStream
            case Got(items, after) =>
              match take(after)
              case EndOfStream => EndOfStream
              case Got(last, rest) => Got(items + [last], rest)
  {
    if n == 0 {
      if take(bytes).Got? {
        assert TakeMany(take, 0, take(bytes).rest) == Got([], take(bytes).rest);
        assert [take(bytes).value] + [] == [] + [take(bytes).value];
      }
    } else if take(bytes).Got? {
      var after := take(bytes).rest;
      TakeManySnoc(take, n - 1, after);
      if TakeMany(take, n - 1, after).Got? && take(TakeMany(take, n - 1, after).rest).Got? {
        var items, last := TakeMany(take, n - 1, after).value, take(TakeMany(take, n - 1, after).rest).value;
        assert [take(bytes).value] + (items + [last]) == ([take(bytes).value] + items) + [last];
      }
    }
  }

  /** A longer list that can be taken starts with the shorter one. */
  lemma {:induction false} TakeManyPrefix<T>(take: Bytes -> Read<T>, n: nat, m: nat, bytes: Bytes)
    requires n <= m && TakeMany(take, m, bytes).Got?
    ensures |TakeMany(take, m, bytes).value| == m
    ensures TakeMany(take, n, bytes).Got?
    ensures TakeMany(take, n, bytes).value == TakeMany(take, m, bytes).value[..n]
    decreases m
  {
    if m > 0 {
      TakeManySnoc(take, m - 1, bytes);
      if n < m {
        TakeManyPrefix(take, n, m - 1, bytes);
      } else {
        TakeManyPrefix(take, m - 1, m - 1, bytes);
      }
    }
  }

  lemma {:induction false} ParseAllStuck<R, T>(parse: R -> Outcome<T>, raws: seq<R>, n: nat)
    requires n < |raws| && !parse(raws[n]).Done?
    ensures ParseAll(parse, raws) == Undefined
  {
    var m := |raws| - 1;
    if n < m {
      ParseAllStuck(parse, raws[..m], n);
    }
  }

  /** Why a list whose item `n` cannot be read or parsed cannot be loaded. */
  lemma LoadedStuck<R, T>(take: Bytes -> Read<R>, parse: R -> Outcome<T>, n: nat, count: nat,
                          bytes: Bytes, raws: seq<R>, after: Bytes, r: Outcome<T>)
    requires n < count && TakeMany(take, n, bytes) == Got(raws, after)
    requires !r.Done? && Loaded(take(after), parse, r, after)
    requires take(after).Got? ==> parse(take(after).value) != Fail
    ensures TakeMany(take, count, bytes).EndOfStream?
            || (r.Undefined? && ParseAll(parse, TakeMany(take, count, bytes).value) == Undefined)
  {
    if TakeMany(take, count, bytes).Got? {
      var all := TakeMany(take, count, bytes).value;
      TakeManyPrefix(take, n + 1, count, bytes);
      TakeManySnoc(take, n, bytes);
      TakeManyPrefix(take, n, n, bytes);
      assert take(after).Got?;
      assert all[n] == all[..n + 1][n] == take(after).value;
      ParseAllStuck(parse, all, n);
    }
  }

  method ReadInputs(deserial: Deserializer, count: nat) returns (r: Outcome<seq<Input>>)
    requires deserial.Valid()
    modifies deserial
    ensures deserial.Valid()
    ensures Loaded(TakeMany(TakeInput, count, old(deserial.Remaining())),
                   raws => ParseAll(InputFromRaw, raws), r, deserial.Remaining())
  {
    hide TakeInput;
    ghost var bytes := deserial.Remaining();
    ghost var raws: seq<RawInput> := [];
    var inputs: seq<Input> := [];
    for i := 0 to count
      invariant deserial.Valid()
      invariant TakeMany(TakeInput, i, bytes) == Got(raws, deserial.Remaining())
      invariant ParseAll(InputFromRaw, raws) == Done(inputs)
    {
      ghost var before := deserial.Remaining();
      var input := ReadInput(deserial);
      if !input.Done? {
        LoadedStuck(TakeInput, InputFromRaw, i, count, bytes, raws, before, input);
        return if input.Fail? then Fail else Undefined;
      }
      TakeManySnoc(TakeInput, i, bytes);
      raws := raws + [TakeInput(before).value];
      assert raws[..|raws| - 1] + [raws[|raws| - 1]] == raws;
      inputs := inputs + [input.value];
    }
    return Done(inputs);
  }

  method ReadOutputs(deserial: Deserializer, count: nat) returns (r: Outcome<seq<Output>>)
    requires deserial.Valid()
    modifies deserial
    ensures deserial.Valid()
    ensures Loaded(TakeMany(TakeOutput, count, old(deserial.Remaining())),
                   raws => ParseAll(OutputFromRaw, raws), r, deserial.Remaining())
  {
    hide TakeOutput;
    ghost var bytes := deserial.Remaining();
    ghost var raws: seq<RawOutput> := [];
    var outputs: seq<Output> := [];
    for i := 0 to count
      invariant deserial.Valid()
      invariant TakeMany(TakeOutput, i, bytes) == Got(raws, deserial.Remaining())
      invariant ParseAll(OutputFromRaw, raws) == Done(outputs)
    {
      ghost var before := deserial.Remaining();
      var output := ReadOutput(deserial);
      if !output.Done? {
        LoadedStuck(TakeOutput, OutputFromRaw, i, count, bytes, raws, before, output);
        return if output.Fail? then Fail else Undefined;
      }
      TakeManySnoc(TakeOutput, i, bytes);
      raws := raws + [TakeOutput(before).value];
      assert raws[..|raws| - 1] + [raws[|raws| - 1]] == raws;
      outputs := outputs + [output.value];
    }
    return Done(outputs);
  }

  method ReadTransaction(deserial: Deserializer) returns (r: Outcome<Transaction>)
    requires deserial.Valid()
    modifies deserial
    ensures deserial.Valid()
    ensures Loaded(TakeTransaction(old(deserial.Remaining())), FromRaw, r, deserial.Remaining())
  {
    hide TakeInput;
    hide TakeOutput;
    hide TakeUint32;
    hide TakeVariableUint;
    var version := deserial.ReadUint32();
    if !version.Done? { return Fail; }
    var inputCount := deserial.ReadVariableUint();
    if !inputCount.Done? { return Fail; }
    var inputs := ReadInputs(deserial, inputCount.value);
    if !inputs.Done? { return if inputs.Fail? then Fail else Undefined; }
    var outputCount := deserial.ReadVariableUint();
    if !outputCount.Done? { return Fail; }
    var outputs := ReadOutputs(deserial, outputCount.value);
    if !outputs.Done? { return if outputs.Fail? then Fail else Undefined; }
    var locktime := deserial.ReadUint32();
    if !locktime.Done? { return Fail; }
    return Done(Transaction(version.value, locktime.value, inputs.value, outputs.value));
  }

  method ReadTransactions(deserial: Deserializer, count: nat) returns (r: Outcome<seq<Transaction>>)
    requires deserial.Valid()
    modifies deserial
    ensures deserial.Valid()
    ensures Loaded(TakeMany(TakeTransaction, count, old(deserial.Remaining())),
                   raws => ParseAll(FromRaw, raws), r, deserial.Remaining())
  {
    hide TakeTransaction;
    hide FromRaw;
    ghost var bytes := deserial.Remaining();
    ghost var raws: seq<RawTransaction> := [];
    var txs: seq<Transaction> := [];
    for i := 0 to count
      invariant deserial.Valid()
      invariant TakeMany(TakeTransaction, i, bytes) == Got(raws, deserial.Remaining())
      invariant ParseAll(FromRaw, raws) == Done(txs)
    {
      ghost var before := deserial.Remaining();
      var tx := ReadTransaction(deserial);
      if !tx.Done? {
        LoadedStuck(TakeTransaction, FromRaw, i, count, bytes, raws, before, tx);
        return if tx.Fail? then Fail else Undefined;
      }
      TakeManySnoc(TakeTransaction, i, bytes);
      raws := raws + [TakeTransaction(before).value];
      assert raws[..|raws| - 1] + [raws[|raws| - 1]] == raws;
      txs := txs + [tx.value];
    }
    return Done(txs);
  }

  method ReadHeader(deserial: Deserializer) returns (r: Outcome<Header>)
    requires deserial.Valid()
    modifies deserial
    ensures deserial.Valid()
    ensures match TakeHeader(old(deserial.Remaining()))
            case Got(header, rest) => r == Done(header) && deserial.Remaining() == rest
            case EndOfStream => r == Fail
  {
    hide TakeUint32;
    hide TakeHash;
    var version := deserial.ReadUint32();
    if !version.Done? { return Fail; }
    var previous := deserial.ReadHash();
    if !previous.Done? { return Fail; }
    var merkle := deserial.ReadHash();
    if !merkle.Done? { return Fail; }
    var timestamp := deserial.ReadUint32();
    if !timestamp.Done? { return Fail; }
    var bits := deserial.ReadUint32();
    if !bits.Done? { return Fail; }
    var nonce := deserial.ReadUint32();
    if !nonce.Done? { return Fail; }
    return Done(Header(version.value, previous.value, merkle.value, timestamp.value, bits.value, nonce.value));
  }

  method ReadBlock(deserial: Deserializer) returns (r: Outcome<Block>)
    requires deserial.Valid()
    modifies deserial
    ensures deserial.Valid()
    ensures Loaded(TakeBlock(old(deserial.Remaining())), FromRawBlock, r, deserial.Remaining())
  {
    hide TakeHeader;
    hide TakeTransaction;
    hide TakeVariableUint;
    hide FromRaw;
    hide TakeMany;
    hide ParseAll;
    var header := ReadHeader(deserial);
    if !header.Done? { return Fail; }
    var count := deserial.ReadVariableUint();
    if !count.Done? { return Fail; }
    var txs := ReadTransactions(deserial, count.value);
    if !txs.Done? { return if txs.Fail? then Fail else Undefined; }
    return Done(WithTransactions(header.value, txs.value));
  }

  method SaveBlock(b: Block) returns (bytes: Bytes)
    requires FitsBlock(ToRawBlock(b))
    ensures bytes == BlockBytes(ToRawBlock(b))
  {
    hide TransactionBytes;
    hide HeaderBytes;
    hide VariableUint;
    ghost var raw := ToRawBlock(b);
    var serial := new Serializer();
    WriteHeader(serial, b);
    assert [] + HeaderBytes(HeaderOf(b)) == HeaderBytes(raw.header);
    serial.WriteVariableUint(|b.transactions|);
    WriteTransactions(serial, b.transactions);
    Regroup(HeaderBytes(raw.header), VariableUint(|b.transactions|), Concat(TransactionBytes, raw.transactions));
    bytes := serial.data;
  }

  method WriteHeader(serial: Serializer, b: Block)
    modifies serial
    ensures serial.data == old(serial.data) + HeaderBytes(HeaderOf(b))
  {
    ghost var front := serial.data;
    serial.WriteUint(b.version, 4);
    serial.WriteHash(b.previous);
    serial.WriteHash(b.merkle);
    serial.WriteUint(b.timestamp, 4);
    serial.WriteUint(b.bits, 4);
    serial.WriteUint(b.nonce, 4);
    RegroupTransaction(front, LittleEndian(b.version, 4), Reversed(b.previous), Reversed(b.merkle),
                       LittleEndian(b.timestamp, 4), LittleEndian(b.bits, 4), LittleEndian(b.nonce, 4));
  }

  method WriteTransactions(serial: Serializer, txs: seq<Transaction>)
    requires |txs| <= UINT64_MAX && forall i | 0 <= i < |txs| :: Fits(ToRaw(txs[i]))
    modifies serial
    ensures serial.data == old(serial.data) + Concat(TransactionBytes, RawTransactions(txs))
  {
    hide TransactionBytes;
    hide Fits;
    hide ToRaw;
    ghost var raws := RawTransactions(txs);
    for i := 0 to |txs|
      invariant serial.data == old(serial.data) + Concat(TransactionBytes, raws[..i])
    {
      SaveTransaction(serial, txs[i]);
      ConcatStep(TransactionBytes, raws, i);
      Regroup(old(serial.data), Concat(TransactionBytes, raws[..i]), TransactionBytes(raws[i]));
    }
    assert raws[..|txs|] == raws;
  }

  /** The size announced for a block is the number of bytes written for it. */
  method BlockRawSize(b: Block) returns (size: nat)
    requires FitsBlock(ToRawBlock(b))
    ensures size == |BlockBytes(ToRawBlock(b))|
  {
    hide TransactionBytes;
    hide VariableUint;
    ghost var raw := ToRawBlock(b);
    var count := VariableUintSize(|b.transactions|);
    size := 80 + count;
    for i := 0 to |b.transactions|
      invariant size == 80 + |VariableUint(|b.transactions|)| + |Concat(TransactionBytes, raw.transactions[..i])|
    {
      assert Fits(raw.transactions[i]);
      var one := TransactionRawSize(b.transactions[i]);
      size := size + one;
      ConcatStep(TransactionBytes, raw.transactions, i);
    }
    assert raw.transactions[..|b.transactions|] == raw.transactions;
  }
}
