/** The wire form of transactions and blocks, over a growing buffer and an advancing cursor. */
module Wire {
  import opened Types
  import opened Numerals
  import opened ScriptCodec

  // ---- transactions with their scripts still in bytes; also the record kept by the transaction table

  datatype RawInput = RawInput(previous: OutPoint, script: Bytes, sequence: uint32)
  datatype RawOutput = RawOutput(value: uint64, script: Bytes)
  datatype RawTransaction =
    RawTransaction(version: uint32, locktime: uint32, inputs: seq<RawInput>, outputs: seq<RawOutput>)

  function RawInputs(inputs: seq<Input>): (r: seq<RawInput>)
    ensures |r| == |inputs|
    ensures forall i | 0 <= i < |r| ::
              r[i] == RawInput(inputs[i].previous, SaveScript(inputs[i].script), inputs[i].sequence)
  {
    seq(|inputs|, i requires 0 <= i < |inputs| =>
      RawInput(inputs[i].previous, SaveScript(inputs[i].script), inputs[i].sequence))
  }

  function RawOutputs(outputs: seq<Output>): (r: seq<RawOutput>)
    ensures |r| == |outputs|
    ensures forall i | 0 <= i < |r| :: r[i] == RawOutput(outputs[i].value, SaveScript(outputs[i].script))
  {
    seq(|outputs|, i requires 0 <= i < |outputs| =>
      RawOutput(outputs[i].value, SaveScript(outputs[i].script)))
  }

  function ToRaw(tx: Transaction): RawTransaction {
    RawTransaction(tx.version, tx.locktime, RawInputs(tx.inputs), RawOutputs(tx.outputs))
  }

  function CoinbaseScript(raw: Bytes): Script {
    [Operation(RAW_DATA, raw)]
  }

  /** A null previous output marks a coinbase, whose script is never parsed. */
  function ScriptOfInput(previous: OutPoint, raw: Bytes): Outcome<Script> {
    if PreviousOutputIsNull(previous) then Done(CoinbaseScript(raw)) else ParseScript(raw)
  }

  function InputFromRaw(raw: RawInput): (r: Outcome<Input>)
    ensures r != Fail
  {
    match ScriptOfInput(raw.previous, raw.script)
    case Done(script) => Done(Input(raw.previous, script, raw.sequence))
    case _ => Undefined
  }

  function OutputFromRaw(raw: RawOutput): (r: Outcome<Output>)
    ensures r != Fail
  {
    match ParseScript(raw.script)
    case Done(script) => Done(Output(raw.value, script))
    case _ => Undefined
  }

  function ParseAll<R, T>(parse: R -> Outcome<T>, raws: seq<R>): (r: Outcome<seq<T>>)
    ensures r != Fail
  {
    if raws == [] then Done([]) else
      match (ParseAll(parse, raws[..|raws| - 1]), parse(raws[|raws| - 1]))
      case (Done(before), Done(item)) => Done(before + [item])
      case _ => Undefined
  }

  function FromRaw(raw: RawTransaction): (r: Outcome<Transaction>)
    ensures r != Fail
  {
    match (ParseAll(InputFromRaw, raw.inputs), ParseAll(OutputFromRaw, raw.outputs))
    case (Done(inputs), Done(outputs)) => Done(Transaction(raw.version, raw.locktime, inputs, outputs))
    case _ => Undefined
  }

  /** Scripts in the form the readers produce. */
  predicate WellFormedInput(input: Input) {
    if PreviousOutputIsNull(input.previous)
    then |input.script| == 1 && input.script[0].code == RAW_DATA
    else WellFormedScript(input.script)
  }

  predicate WellFormedTransaction(tx: Transaction) {
    && (forall i | 0 <= i < |tx.inputs| :: WellFormedInput(tx.inputs[i]))
    && (forall i | 0 <= i < |tx.outputs| :: WellFormedScript(tx.outputs[i].script))
  }

  lemma InputScriptRoundTrip(input: Input)
    requires WellFormedInput(input)
    ensures ScriptOfInput(input.previous, SaveScript(input.script)) == Done(input.script)
  {
    if PreviousOutputIsNull(input.previous) {
      assert input.script == CoinbaseScript(input.script[0].data);
    } else {
      ParseOfSave(input.script);
    }
  }

  lemma {:induction false} ParseAllDone<R, T>(parse: R -> Outcome<T>, raws: seq<R>, items: seq<T>)
    requires |raws| == |items|
    requires forall i | 0 <= i < |raws| :: parse(raws[i]) == Done(items[i])
    ensures ParseAll(parse, raws) == Done(items)
  {
    if raws != [] {
      var n := |raws| - 1;
      ParseAllDone(parse, raws[..n], items[..n]);
      assert items == items[..n] + [items[n]];
    }
  }

  /** The record kept by the transaction table gives the transaction back. */
  lemma RecordRoundTrip(tx: Transaction)
    requires WellFormedTransaction(tx)
    ensures FromRaw(ToRaw(tx)) == Done(tx)
  {
    forall i | 0 <= i < |tx.inputs|
      ensures InputFromRaw(RawInputs(tx.inputs)[i]) == Done(tx.inputs[i])
    {
      InputScriptRoundTrip(tx.inputs[i]);
    }
    forall i | 0 <= i < |tx.outputs|
      ensures OutputFromRaw(RawOutputs(tx.outputs)[i]) == Done(tx.outputs[i])
    {
      ParseOfSave(tx.outputs[i].script);
    }
    ParseAllDone(InputFromRaw, RawInputs(tx.inputs), tx.inputs);
    ParseAllDone(OutputFromRaw, RawOutputs(tx.outputs), tx.outputs);
  }

  // ---- bytes

  function VariableUint(n: nat): Bytes {
    if n < 0xfd then [n]
    else if n <= 0xffff then [0xfd] + LittleEndian(n, 2)
    else if n <= 0xffff_ffff then [0xfe] + LittleEndian(n, 4)
    else [0xff] + LittleEndian(n, 8)
  }

  function SizedBytes(data: Bytes): Bytes {
    VariableUint(|data|) + data
  }

  predicate FitsInput(input: RawInput) { |input.script| <= UINT64_MAX }
  predicate FitsOutput(output: RawOutput) { |output.script| <= UINT64_MAX }

  /** Every count fits the 64-bit size field in front of it. */
  predicate Fits(tx: RawTransaction) {
    && |tx.inputs| <= UINT64_MAX && |tx.outputs| <= UINT64_MAX
    && (forall i | 0 <= i < |tx.inputs| :: FitsInput(tx.inputs[i]))
    && (forall i | 0 <= i < |tx.outputs| :: FitsOutput(tx.outputs[i]))
  }

  function InputBytes(input: RawInput): Bytes {
    Reversed(input.previous.hash) + (LittleEndian(input.previous.index, 4)
      + (SizedBytes(input.script) + LittleEndian(input.sequence, 4)))
  }

  function OutputBytes(output: RawOutput): Bytes {
    LittleEndian(output.value, 8) + SizedBytes(output.script)
  }

  function Concat<T>(encode: T -> Bytes, items: seq<T>): Bytes {
    if items == [] then [] else encode(items[0]) + Concat(encode, items[1..])
  }

  function TransactionBytes(tx: RawTransaction): Bytes {
    LittleEndian(tx.version, 4)
      + (VariableUint(|tx.inputs|) + (Concat(InputBytes, tx.inputs)
      + (VariableUint(|tx.outputs|) + (Concat(OutputBytes, tx.outputs) + LittleEndian(tx.locktime, 4)))))
  }

  // ---- reading

  /** A value and the bytes after it, or the end-of-stream exception. */
  datatype Read<+T> = Got(value: T, rest: Bytes) | EndOfStream

  function TakeUint(bytes: Bytes, width: nat): Read<nat> {
    if |bytes| < width then EndOfStream else Got(Value(bytes[..width], 256), bytes[width..])
  }

  function TakeVariableUint(bytes: Bytes): Read<nat> {
    if bytes == [] then EndOfStream
    else if bytes[0] < 0xfd then Got(bytes[0], bytes[1..])
    else TakeUint(bytes[1..], if bytes[0] == 0xfd then 2 else if bytes[0] == 0xfe then 4 else 8)
  }

  function TakeBytes(bytes: Bytes, count: nat): Read<Bytes> {
    if |bytes| < count then EndOfStream else Got(bytes[..count], bytes[count..])
  }

  function TakeHash(bytes: Bytes): Read<Digest> {
    if |bytes| < 32 then EndOfStream else Got(Reversed(bytes[..32]), bytes[32..])
  }

  function TakeSizedBytes(bytes: Bytes): Read<Bytes> {
    match TakeVariableUint(bytes)
    case Got(count, rest) => TakeBytes(rest, count)
    case EndOfStream => EndOfStream
  }

  function TakeUint32(bytes: Bytes): Read<uint32> {
    match TakeUint(bytes, 4)
    case Got(n, rest) => Uint32Bound(bytes); Got(n, rest)
    case EndOfStream => EndOfStream
  }

  lemma Uint32Bound(bytes: Bytes)
    requires |bytes| >= 4
    ensures Value(bytes[..4], 256) <= UINT32_MAX
  {
    ValueBound(bytes[..4], 256);
    PowersOf256();
  }

  function TakeUint64(bytes: Bytes): Read<uint64> {
    match TakeUint(bytes, 8)
    case Got(n, rest) => Uint64Bound(bytes); Got(n, rest)
    case EndOfStream => EndOfStream
  }

  lemma Uint64Bound(bytes: Bytes)
    requires |bytes| >= 8
    ensures Value(bytes[..8], 256) <= UINT64_MAX
  {
    ValueBound(bytes[..8], 256);
    PowersOf256();
  }

  function TakeInput(bytes: Bytes): Read<RawInput> {
    match TakeHash(bytes)
    case EndOfStream => EndOfStream
    case Got(hash, afterHash) =>
      match TakeUint32(afterHash)
      case EndOfStream => EndOfStream
      case Got(index, afterIndex) =>
        match TakeSizedBytes(afterIndex)
        case EndOfStream => EndOfStream
        case Got(script, afterScript) =>
          match TakeUint32(afterScript)
          case EndOfStream => EndOfStream
          case Got(sequence, rest) => Got(RawInput(OutPoint(hash, index), script, sequence), rest)
  }

  function TakeOutput(bytes: Bytes): Read<RawOutput> {
    match TakeUint64(bytes)
    case EndOfStream => EndOfStream
    case Got(value, afterValue) =>
      match TakeSizedBytes(afterValue)
      case EndOfStream => EndOfStream
      case Got(script, rest) => Got(RawOutput(value, script), rest)
  }

  function TakeMany<T>(take: Bytes -> Read<T>, count: nat, bytes: Bytes): Read<seq<T>> {
    if count == 0 then Got([], bytes) else
      match take(bytes)
      case EndOfStream => EndOfStream
      case Got(first, after) =>
        match TakeMany(take, count - 1, after)
        case EndOfStream => EndOfStream
        case Got(others, rest) => Got([first] + others, rest)
  }

  function TakeTransaction(bytes: Bytes): Read<RawTransaction> {
    match TakeUint32(bytes)
    case EndOfStream => EndOfStream
    case Got(version, b1) =>
      match TakeVariableUint(b1)
      case EndOfStream => EndOfStream
      case Got(inputCount, b2) =>
        match TakeMany(TakeInput, inputCount, b2)
        case EndOfStream => EndOfStream
        case Got(inputs, b3) =>
          match TakeVariableUint(b3)
          case EndOfStream => EndOfStream
          case Got(outputCount, b4) =>
            match TakeMany(TakeOutput, outputCount, b4)
            case EndOfStream => EndOfStream
            case Got(outputs, b5) =>
              match TakeUint32(b5)
              case EndOfStream => EndOfStream
              case Got(locktime, rest) => Got(RawTransaction(version, locktime, inputs, outputs), rest)
  }

  // ---- the round trip, field by field

  lemma TakeUintOf(n: nat, width: nat, rest: Bytes)
    requires n < Power(256, width)
    ensures TakeUint(LittleEndian(n, width) + rest, width) == Got(n, rest)
  {
    LittleEndianValue(n, width);
    var bytes := LittleEndian(n, width) + rest;
    assert bytes[..width] == LittleEndian(n, width) && bytes[width..] == rest;
  }

  lemma TakeUint32Of(n: uint32, rest: Bytes)
    ensures TakeUint32(LittleEndian(n, 4) + rest) == Got(n, rest)
  {
    PowersOf256();
    TakeUintOf(n, 4, rest);
  }

  lemma TakeUint64Of(n: uint64, rest: Bytes)
    ensures TakeUint64(LittleEndian(n, 8) + rest) == Got(n, rest)
  {
    PowersOf256();
    TakeUintOf(n, 8, rest);
  }

  lemma TakeVariableUintOf(n: uint64, rest: Bytes)
    ensures TakeVariableUint(VariableUint(n) + rest) == Got(n, rest)
  {
    if n < 0xfd {
      assert ([n] + rest)[1..] == rest;
    } else {
      var width := if n <= 0xffff then 2 else if n <= 0xffff_ffff then 4 else 8;
      PowersOf256();
      hide Power;
      TakeUintOf(n, width, rest);
      hide TakeUint;
      hide LittleEndian;
      MarkerFirst(if n <= 0xffff then 0xfd else if n <= 0xffff_ffff then 0xfe else 0xff, LittleEndian(n, width), rest);
    }
  }

  lemma MarkerFirst(marker: byte, bytes: Bytes, rest: Bytes)
    ensures var all := ([marker] + bytes) + rest;
            all[0] == marker && all[1..] == bytes + rest
  {
  }

  lemma TakeSizedBytesOf(data: Bytes, rest: Bytes)
    requires |data| <= UINT64_MAX
    ensures TakeSizedBytes(SizedBytes(data) + rest) == Got(data, rest)
  {
    assert SizedBytes(data) + rest == VariableUint(|data|) + (data + rest);
    TakeVariableUintOf(|data|, data + rest);
    assert (data + rest)[..|data|] == data && (data + rest)[|data|..] == rest;
  }

  lemma TakeHashOf(hash: Digest, rest: Bytes)
    ensures TakeHash(Reversed(hash) + rest) == Got(hash, rest)
  {
    var bytes := Reversed(hash) + rest;
    assert bytes[..32] == Reversed(hash) && bytes[32..] == rest;
    ReversedTwice(hash);
  }

  lemma TakeInputOf(input: RawInput, rest: Bytes)
    requires FitsInput(input)
    ensures TakeInput(InputBytes(input) + rest) == Got(input, rest)
  {
    var b3 := LittleEndian(input.sequence, 4) + rest;
    var b2 := SizedBytes(input.script) + b3;
    var b1 := LittleEndian(input.previous.index, 4) + b2;
    assert InputBytes(input) + rest == Reversed(input.previous.hash) + b1;
    TakeHashOf(input.previous.hash, b1);
    TakeUint32Of(input.previous.index, b2);
    TakeSizedBytesOf(input.script, b3);
    TakeUint32Of(input.sequence, rest);
  }

  lemma TakeOutputOf(output: RawOutput, rest: Bytes)
    requires FitsOutput(output)
    ensures TakeOutput(OutputBytes(output) + rest) == Got(output, rest)
  {
    assert OutputBytes(output) + rest == LittleEndian(output.value, 8) + (SizedBytes(output.script) + rest);
    TakeUint64Of(output.value, SizedBytes(output.script) + rest);
    TakeSizedBytesOf(output.script, rest);
  }

  lemma {:induction false} TakeManyOf<T(!new)>(encode: T -> Bytes, take: Bytes -> Read<T>,
                                               items: seq<T>, rest: Bytes)
    requires forall i, tail | 0 <= i < |items| :: take(encode(items[i]) + tail) == Got(items[i], tail)
    ensures TakeMany(take, |items|, Concat(encode, items) + rest) == Got(items, rest)
  {
    if items == [] {
      assert Concat(encode, items) + rest == rest;
    } else {
      var others := items[1..];
      var tail := Concat(encode, others) + rest;
      assert forall i, t | 0 <= i < |others| ::
          others[i] == items[i + 1] && take(encode(others[i]) + t) == Got(others[i], t);
      TakeManyOf(encode, take, others, rest);
      assert Concat(encode, items) + rest == encode(items[0]) + tail;
      assert items == [items[0]] + others;
    }
  }

  /** Reading what was written, whatever follows it, gives the value back and leaves what follows. */
  lemma TakeTransactionOf(tx: RawTransaction, rest: Bytes)
    requires Fits(tx)
    ensures TakeTransaction(TransactionBytes(tx) + rest) == Got(tx, rest)
  {
    var b5 := LittleEndian(tx.locktime, 4) + rest;
    var b4 := Concat(OutputBytes, tx.outputs) + b5;
    var b3 := VariableUint(|tx.outputs|) + b4;
    var b2 := Concat(InputBytes, tx.inputs) + b3;
    var b1 := VariableUint(|tx.inputs|) + b2;
    assert TransactionBytes(tx) + rest == LittleEndian(tx.version, 4) + b1;
    TakeUint32Of(tx.version, b1);
    TakeVariableUintOf(|tx.inputs|, b2);
    forall i, tail | 0 <= i < |tx.inputs|
      ensures TakeInput(InputBytes(tx.inputs[i]) + tail) == Got(tx.inputs[i], tail)
    {
      TakeInputOf(tx.inputs[i], tail);
    }
    TakeManyOf(InputBytes, TakeInput, tx.inputs, b3);
    TakeVariableUintOf(|tx.outputs|, b4);
    forall i, tail | 0 <= i < |tx.outputs|
      ensures TakeOutput(OutputBytes(tx.outputs[i]) + tail) == Got(tx.outputs[i], tail)
    {
      TakeOutputOf(tx.outputs[i], tail);
    }
    TakeManyOf(OutputBytes, TakeOutput, tx.outputs, b5);
    TakeUint32Of(tx.locktime, rest);
  }

  /** The wire form is self-delimiting: no encoding is a proper prefix of another. */
  lemma TransactionBytesInjective(a: RawTransaction, b: RawTransaction, restA: Bytes, restB: Bytes)
    requires Fits(a) && Fits(b)
    requires TransactionBytes(a) + restA == TransactionBytes(b) + restB
    ensures a == b && restA == restB
  {
    TakeTransactionOf(a, restA);
    TakeTransactionOf(b, restB);
  }

  // ---- blocks

  datatype RawBlock = RawBlock(header: Header, transactions: seq<RawTransaction>)

  predicate FitsBlock(block: RawBlock) {
    && |block.transactions| <= UINT64_MAX
    && (forall i | 0 <= i < |block.transactions| :: Fits(block.transactions[i]))
  }

  function HeaderBytes(h: Header): (bytes: Bytes)
    ensures |bytes| == 80
  {
    LittleEndian(h.version, 4) + (Reversed(h.previous) + (Reversed(h.merkle)
      + (LittleEndian(h.timestamp, 4) + (LittleEndian(h.bits, 4) + LittleEndian(h.nonce, 4)))))
  }

  function BlockBytes(block: RawBlock): Bytes {
    HeaderBytes(block.header) + (VariableUint(|block.transactions|) + Concat(TransactionBytes, block.transactions))
  }

  function TakeHeader(bytes: Bytes): Read<Header> {
    match TakeUint32(bytes)
    case EndOfStream => EndOfStream
    case Got(version, b1) =>
      match TakeHash(b1)
      case EndOfStream => EndOfStream
      case Got(previous, b2) =>
        match TakeHash(b2)
        case EndOfStream => EndOfStream
        case Got(merkle, b3) =>
          match TakeUint32(b3)
          case EndOfStream => EndOfStream
          case Got(timestamp, b4) =>
            match TakeUint32(b4)
            case EndOfStream => EndOfStream
            case Got(bits, b5) =>
              match TakeUint32(b5)
              case EndOfStream => EndOfStream
              case Got(nonce, rest) => Got(Header(version, previous, merkle, timestamp, bits, nonce), rest)
  }

  function TakeBlock(bytes: Bytes): Read<RawBlock> {
    match TakeHeader(bytes)
    case EndOfStream => EndOfStream
    case Got(header, b1) =>
      match TakeVariableUint(b1)
      case EndOfStream => EndOfStream
      case Got(count, b2) =>
        match TakeMany(TakeTransaction, count, b2)
        case EndOfStream => EndOfStream
        case Got(txs, rest) => Got(RawBlock(header, txs), rest)
  }

  lemma TakeHeaderOf(h: Header, rest: Bytes)
    ensures TakeHeader(HeaderBytes(h) + rest) == Got(h, rest)
  {
    var b5 := LittleEndian(h.nonce, 4) + rest;
    var b4 := LittleEndian(h.bits, 4) + b5;
    var b3 := LittleEndian(h.timestamp, 4) + b4;
    var b2 := Reversed(h.merkle) + b3;
    var b1 := Reversed(h.previous) + b2;
    assert HeaderBytes(h) + rest == LittleEndian(h.version, 4) + b1;
    TakeUint32Of(h.version, b1);
    TakeHashOf(h.previous, b2);
    TakeHashOf(h.merkle, b3);
    TakeUint32Of(h.timestamp, b4);
    TakeUint32Of(h.bits, b5);
    TakeUint32Of(h.nonce, rest);
  }

  lemma TakeBlockOf(block: RawBlock, rest: Bytes)
    requires FitsBlock(block)
    ensures TakeBlock(BlockBytes(block) + rest) == Got(block, rest)
  {
    var b2 := Concat(TransactionBytes, block.transactions) + rest;
    var b1 := VariableUint(|block.transactions|) + b2;
    assert BlockBytes(block) + rest == HeaderBytes(block.header) + b1;
    TakeHeaderOf(block.header, b1);
    TakeVariableUintOf(|block.transactions|, b2);
    forall i, tail | 0 <= i < |block.transactions|
      ensures TakeTransaction(TransactionBytes(block.transactions[i]) + tail) == Got(block.transactions[i], tail)
    {
      TakeTransactionOf(block.transactions[i], tail);
    }
    TakeManyOf(TransactionBytes, TakeTransaction, block.transactions, rest);
  }

  function RawTransactions(txs: seq<Transaction>): (r: seq<RawTransaction>)
    ensures |r| == |txs|
    ensures forall i | 0 <= i < |r| :: r[i] == ToRaw(txs[i])
  {
    seq(|txs|, i requires 0 <= i < |txs| => ToRaw(txs[i]))
  }

  function ToRawBlock(b: Block): RawBlock {
    RawBlock(HeaderOf(b), RawTransactions(b.transactions))
  }

  function FromRawBlock(raw: RawBlock): (r: Outcome<Block>)
    ensures r != Fail
  {
    match ParseAll(FromRaw, raw.transactions)
    case Done(txs) => Done(WithTransactions(raw.header, txs))
    case _ => Undefined
  }

  predicate WellFormedBlock(b: Block) {
    forall i | 0 <= i < |b.transactions| :: WellFormedTransaction(b.transactions[i])
  }

  /** A transaction survives the wire, whatever bytes follow it there. */
  lemma TransactionRoundTrip(tx: Transaction, rest: Bytes)
    requires WellFormedTransaction(tx) && Fits(ToRaw(tx))
    ensures var taken := TakeTransaction(TransactionBytes(ToRaw(tx)) + rest);
            taken.Got? && taken.rest == rest && FromRaw(taken.value) == Done(tx)
  {
    TakeTransactionOf(ToRaw(tx), rest);
    RecordRoundTrip(tx);
  }

  lemma BlockRoundTrip(b: Block, rest: Bytes)
    requires WellFormedBlock(b) && FitsBlock(ToRawBlock(b))
    ensures var taken := TakeBlock(BlockBytes(ToRawBlock(b)) + rest);
            taken.Got? && taken.rest == rest && FromRawBlock(taken.value) == Done(b)
  {
    hide TakeBlock;
    TakeBlockOf(ToRawBlock(b), rest);
    forall i | 0 <= i < |b.transactions|
      ensures FromRaw(RawTransactions(b.transactions)[i]) == Done(b.transactions[i])
    {
      RecordRoundTrip(b.transactions[i]);
    }
    ParseAllDone(FromRaw, RawTransactions(b.transactions), b.transactions);
  }

  // ---- where the fields lie

  lemma FourBytes(bytes: Bytes, at: nat, n: uint32)
    requires at + 4 <= |bytes| && bytes[at..at + 4] == LittleEndian(n, 4)
    ensures Value(bytes[at..at + 4], 256) == n
  {
    PowersOf256();
    hide Power;
    LittleEndianValue(n, 4);
  }

  /** The eighty bytes of a header: numbers with the least significant byte first, hashes reversed. */
  lemma HeaderLayout(h: Header)
    ensures var bytes := HeaderBytes(h);
            && |bytes| == 80
            && Value(bytes[0..4], 256) == h.version
            && bytes[4..36] == Reversed(h.previous) && bytes[36..68] == Reversed(h.merkle)
            && Value(bytes[68..72], 256) == h.timestamp
            && Value(bytes[72..76], 256) == h.bits && Value(bytes[76..80], 256) == h.nonce
  {
    var bytes := HeaderBytes(h);
    HeaderPieces(h);
    hide HeaderBytes;
    FourBytes(bytes, 0, h.version);
    FourBytes(bytes, 68, h.timestamp);
    FourBytes(bytes, 72, h.bits);
    FourBytes(bytes, 76, h.nonce);
  }

  lemma HeaderPieces(h: Header)
    ensures var bytes := HeaderBytes(h);
            && bytes[0..4] == LittleEndian(h.version, 4)
            && bytes[4..36] == Reversed(h.previous) && bytes[36..68] == Reversed(h.merkle)
            && bytes[68..72] == LittleEndian(h.timestamp, 4)
            && bytes[72..76] == LittleEndian(h.bits, 4) && bytes[76..80] == LittleEndian(h.nonce, 4)
  {
    hide LittleEndian;
    hide Reversed;
  }

  /** One byte below 253, else a marker and two, four or eight bytes. */
  lemma VariableUintLayout(n: uint64)
    ensures var bytes := VariableUint(n);
            if n < 253 then bytes == [n]
            else if n < 0x1_0000 then |bytes| == 3 && bytes[0] == 253 && Value(bytes[1..], 256) == n
            else if n < 0x1_0000_0000 then |bytes| == 5 && bytes[0] == 254 && Value(bytes[1..], 256) == n
            else |bytes| == 9 && bytes[0] == 255 && Value(bytes[1..], 256) == n
  {
    PowersOf256();
    hide Power;
    if n >= 253 {
      var width := if n < 0x1_0000 then 2 else if n < 0x1_0000_0000 then 4 else 8;
      LittleEndianValue(n, width);
      assert VariableUint(n)[1..] == LittleEndian(n, width);
    }
  }

  /** An input: reversed hash, index, sized script, sequence. */
  lemma InputLayout(input: RawInput)
    ensures var bytes, n := InputBytes(input), |VariableUint(|input.script|)|;
            && |bytes| == 40 + n + |input.script|
            && bytes[0..32] == Reversed(input.previous.hash) && Value(bytes[32..36], 256) == input.previous.index
            && bytes[36..36 + n] == VariableUint(|input.script|) && bytes[36 + n..36 + n + |input.script|] == input.script
            && Value(bytes[|bytes| - 4..], 256) == input.sequence
  {
    hide VariableUint;
    var bytes := InputBytes(input);
    InputPieces(Reversed(input.previous.hash), LittleEndian(input.previous.index, 4), VariableUint(|input.script|),
                input.script, LittleEndian(input.sequence, 4));
    hide InputBytes;
    assert bytes[|bytes| - 4..|bytes| - 4 + 4] == bytes[|bytes| - 4..];
    FourBytes(bytes, 32, input.previous.index);
    FourBytes(bytes, |bytes| - 4, input.sequence);
  }

  lemma InputPieces(a: Bytes, b: Bytes, c: Bytes, d: Bytes, e: Bytes)
    requires |a| == 32 && |b| == 4 && |e| == 4
    ensures var bytes := a + (b + ((c + d) + e));
            && |bytes| == 40 + |c| + |d| && bytes[0..32] == a && bytes[32..36] == b
            && bytes[36..36 + |c|] == c && bytes[36 + |c|..36 + |c| + |d|] == d && bytes[|bytes| - 4..] == e
  {
  }

  /** An output: value, sized script. */
  lemma OutputLayout(output: RawOutput)
    ensures var bytes, n := OutputBytes(output), |VariableUint(|output.script|)|;
            && |bytes| == 8 + n + |output.script| && Value(bytes[0..8], 256) == output.value
            && bytes[8..8 + n] == VariableUint(|output.script|) && bytes[8 + n..] == output.script
  {
    hide VariableUint;
    PowersOf256();
    hide Power;
    LittleEndianValue(output.value, 8);
    assert OutputBytes(output)[0..8] == LittleEndian(output.value, 8);
  }

  /** A transaction: version, counted inputs, counted outputs, lock time. */
  lemma TransactionLayout(tx: RawTransaction)
    ensures var bytes := TransactionBytes(tx);
            var ins, outs := Concat(InputBytes, tx.inputs), Concat(OutputBytes, tx.outputs);
            var n, m := |VariableUint(|tx.inputs|)|, |VariableUint(|tx.outputs|)|;
            && |bytes| == 8 + n + |ins| + m + |outs|
            && Value(bytes[0..4], 256) == tx.version && Value(bytes[|bytes| - 4..], 256) == tx.locktime
            && bytes[4..4 + n] == VariableUint(|tx.inputs|) && bytes[4 + n..4 + n + |ins|] == ins
            && bytes[4 + n + |ins|..4 + n + |ins| + m] == VariableUint(|tx.outputs|)
            && bytes[4 + n + |ins| + m..|bytes| - 4] == outs
  {
    hide VariableUint;
    hide Concat;
    var bytes := TransactionBytes(tx);
    SixPieces(LittleEndian(tx.version, 4), VariableUint(|tx.inputs|), Concat(InputBytes, tx.inputs),
              VariableUint(|tx.outputs|), Concat(OutputBytes, tx.outputs), LittleEndian(tx.locktime, 4));
    hide TransactionBytes;
    assert bytes[|bytes| - 4..|bytes| - 4 + 4] == bytes[|bytes| - 4..];
    FourBytes(bytes, 0, tx.version);
    FourBytes(bytes, |bytes| - 4, tx.locktime);
  }

  lemma SixPieces(a: Bytes, b: Bytes, c: Bytes, d: Bytes, e: Bytes, f: Bytes)
    requires |a| == 4 && |f| == 4
    ensures var bytes := a + (b + (c + (d + (e + f))));
            && |bytes| == 8 + |b| + |c| + |d| + |e|
            && bytes[0..4] == a && bytes[|bytes| - 4..] == f
            && bytes[4..4 + |b|] == b && bytes[4 + |b|..4 + |b| + |c|] == c
            && bytes[4 + |b| + |c|..4 + |b| + |c| + |d|] == d
            && bytes[4 + |b| + |c| + |d|..|bytes| - 4] == e
  {
  }
}
