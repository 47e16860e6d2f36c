/** Scripts as bytes: `parse_script`, `save_script` and `script_size`. */
module ScriptCodec {
  import opened Types
  import opened Numerals

  const ZERO: byte := 0
  const SPECIAL: byte := 1
  const PUSHDATA1: byte := 76
  const PUSHDATA2: byte := 77
  const PUSHDATA4: byte := 78
  const RAW_DATA: byte := 187

  /** `width` little-endian bytes; higher bytes are cut off, as a C++ integer cast does. */
  function LittleEndian(n: nat, width: nat): (bytes: Bytes)
    ensures |bytes| == width
  {
    if width == 0 then [] else [n % 256] + LittleEndian(n / 256, width - 1)
  }

  lemma {:induction false} LittleEndianValue(n: nat, width: nat)
    requires n < Power(256, width)
    ensures Value(LittleEndian(n, width), 256) == n
  {
    if width > 0 {
      LittleEndianValue(n / 256, width - 1);
      assert LittleEndian(n, width)[1..] == LittleEndian(n / 256, width - 1);
    }
  }

  lemma {:induction false} LittleEndianOfValue(bytes: Bytes)
    ensures LittleEndian(Value(bytes, 256), |bytes|) == bytes
  {
    if bytes != [] {
      LittleEndianOfValue(bytes[1..]);
      assert bytes == [bytes[0]] + bytes[1..];
    }
  }

  lemma PowersOf256()
    ensures Power(256, 1) == 0x100 && Power(256, 2) == 0x1_0000
    ensures Power(256, 4) == 0x1_0000_0000 && Power(256, 8) == 0x1_0000_0000_0000_0000
  {
    assert Power(256, 2) == 256 * Power(256, 1);
    assert Power(256, 4) == 256 * Power(256, 3) == 256 * (256 * Power(256, 2));
    assert Power(256, 6) == 256 * Power(256, 5) == 256 * (256 * Power(256, 4));
    assert Power(256, 8) == 256 * Power(256, 7) == 256 * (256 * Power(256, 6));
  }

  // ---- reading

  /** Bytes taken by the opcode and its length field, and the number of data bytes that follow. */
  datatype PushHeader = PushHeader(size: nat, length: nat) | Truncated

  /** The width of the length field that follows an opcode. */
  function LengthWidth(code: byte): (w: nat) {
    if code == PUSHDATA1 then 1 else if code == PUSHDATA2 then 2 else if code == PUSHDATA4 then 4 else 0
  }

  function ReadHeader(raw: Bytes): (h: PushHeader)
    requires raw != []
    ensures h.PushHeader? ==> 1 <= h.size <= |raw|
  {
    var w := LengthWidth(raw[0]);
    if |raw| < 1 + w then Truncated
    else if raw[0] <= 75 then PushHeader(1, raw[0])
    else PushHeader(1 + w, Value(raw[1..1 + w], 256))
  }

  function OpcodeOf(raw: byte): byte {
    if 0 < raw <= 75 then SPECIAL else raw
  }

  datatype ParseState = Ops(ops: Script) | Premature | Overrun

  /** One operation at a time, stopping at the first push that the bytes do not complete. */
  function ParseOps(raw: Bytes): ParseState {
    if raw == [] then Ops([]) else
      var h := ReadHeader(raw);
      if h.Truncated? then Overrun
      else if |raw| < h.size + h.length then Premature
      else Prepend([Operation(OpcodeOf(raw[0]), raw[h.size..h.size + h.length])],
                   ParseOps(raw[h.size + h.length..]))
  }

  function Prepend(done: Script, rest: ParseState): ParseState {
    if rest.Ops? then Ops(done + rest.ops) else rest
  }

  /** A premature end gives the empty script; a truncated length field is read past the buffer. */
  function ParseScript(raw: Bytes): Outcome<Script> {
    match ParseOps(raw)
    case Ops(ops) => Done(ops)
    case Premature => Done([])
    case Overrun => Undefined
  }

  method ReadPushData(raw: Bytes, start: nat, count: nat) returns (ok: bool, data: Bytes)
    requires start <= |raw|
    ensures ok == (start + count <= |raw|)
    ensures ok ==> data == raw[start..start + count]
  {
    data := [];
    var i := 0;
    while i < count
      invariant i <= count && start + i <= |raw|
      invariant data == raw[start..start + i]
    {
      if start + i == |raw| { return false, data; }
      data := data + [raw[start + i]];
      i := i + 1;
    }
    return true, data;
  }

  /** The operation at a position of the buffer. */
  lemma ParseStep(raw: Bytes, it: nat)
    requires it < |raw|
    ensures var h := ReadHeader(raw[it..]);
            ParseOps(raw[it..]) ==
            if h.Truncated? then Overrun
            else if |raw| < it + h.size + h.length then Premature
            else Prepend([Operation(OpcodeOf(raw[it]), raw[it + h.size..it + h.size + h.length])],
                         ParseOps(raw[it + h.size + h.length..]))
  {
    var h := ReadHeader(raw[it..]);
    hide ReadHeader;
    hide Prepend;
    if h.PushHeader? && it + h.size + h.length <= |raw| {
      assert raw[it..][h.size..h.size + h.length] == raw[it + h.size..it + h.size + h.length];
      assert raw[it..][h.size + h.length..] == raw[it + h.size + h.length..];
    }
  }

  lemma PrependTwice(a: Script, b: Script, rest: ParseState)
    ensures Prepend(a, Prepend(b, rest)) == Prepend(a + b, rest)
    ensures Prepend([], rest) == rest && (!rest.Ops? ==> Prepend(a, rest) == rest) && Prepend(a, Ops([])) == Ops(a)
  {
    if rest.Ops? { assert a + (b + rest.ops) == (a + b) + rest.ops; }
  }

  method Parse(raw: Bytes) returns (r: Outcome<Script>)
    ensures r == ParseScript(raw)
  {
    ParseEnds(raw);
    hide *;
    PrependTwice([], [], ParseOps(raw));
    var ops: Script := [];
    var it := 0;
    assert raw[0..] == raw;
    while it < |raw|
      invariant it <= |raw|
      invariant Prepend(ops, ParseOps(raw[it..])) == ParseOps(raw)
    {
      ParseStep(raw, it);
      PrependTwice(ops, [], ParseOps(raw[it..]));
      var h := ReadHeader(raw[it..]);
      if h.Truncated? { return Undefined; }
      var ok, data := ReadPushData(raw, it + h.size, h.length);
      if !ok { return Done([]); }
      PrependTwice(ops, [Operation(OpcodeOf(raw[it]), data)], ParseOps(raw[it + h.size + h.length..]));
      ops := ops + [Operation(OpcodeOf(raw[it]), data)];
      it := it + h.size + h.length;
    }
    assert raw[it..] == [];
    PrependTwice(ops, [], ParseOps(raw));
    return Done(ops);
  }

  lemma ParseEnds(raw: Bytes)
    ensures ParseOps([]) == Ops([])
    ensures ParseScript(raw) == match ParseOps(raw) case Ops(ops) => Done(ops) case Premature => Done([]) case Overrun => Undefined
  {
  }

  // ---- writing

  function OpBytes(op: Operation): Bytes {
    [if op.code == SPECIAL then |op.data| % 256 else op.code]
      + LittleEndian(|op.data|, LengthWidth(op.code)) + op.data
  }

  function OpsBytes(ops: Script): Bytes {
    if ops == [] then [] else OpBytes(ops[0]) + OpsBytes(ops[1..])
  }

  /** A script that starts with raw data is that data and nothing else. */
  function SaveScript(ops: Script): Bytes {
    if ops != [] && ops[0].code == RAW_DATA then ops[0].data else OpsBytes(ops)
  }

  lemma {:induction false} OpsBytesAppend(a: Script, b: Script)
    ensures OpsBytes(a + b) == OpsBytes(a) + OpsBytes(b)
  {
    if a == [] {
      assert a + b == b;
    } else {
      assert (a + b)[1..] == a[1..] + b;
      OpsBytesAppend(a[1..], b);
    }
  }

  method Save(ops: Script) returns (raw: Bytes)
    ensures raw == SaveScript(ops)
  {
    if ops == [] { return []; }
    if ops[0].code == RAW_DATA { return ops[0].data; }
    raw := [];
    for i := 0 to |ops|
      invariant raw == OpsBytes(ops[..i])
    {
      var first: byte := if ops[i].code == SPECIAL then |ops[i].data| % 256 else ops[i].code;
      raw := raw + [first];
      raw := raw + LittleEndian(|ops[i].data|, LengthWidth(ops[i].code));
      raw := raw + ops[i].data;
      assert ops[..i + 1] == ops[..i] + [ops[i]];
      OpsBytesAppend(ops[..i], [ops[i]]);
      assert OpsBytes([ops[i]]) == OpBytes(ops[i]);
    }
    assert ops[..|ops|] == ops;
  }

  /** The size function agrees with the writer on every script. */
  method ScriptSize(ops: Script) returns (size: nat)
    ensures size == |SaveScript(ops)|
  {
    if ops == [] { return 0; }
    if ops[0].code == RAW_DATA { return |ops[0].data|; }
    size := 0;
    for i := 0 to |ops|
      invariant size == |OpsBytes(ops[..i])|
    {
      size := size + 1;
      if ops[i].code == PUSHDATA1 {
        size := size + 1;
      } else if ops[i].code == PUSHDATA2 {
        size := size + 2;
      } else if ops[i].code == PUSHDATA4 {
        size := size + 4;
      }
      size := size + |ops[i].data|;
      assert ops[..i + 1] == ops[..i] + [ops[i]];
      OpsBytesAppend(ops[..i], [ops[i]]);
      assert OpsBytes([ops[i]]) == OpBytes(ops[i]);
    }
    assert ops[..|ops|] == ops;
  }

  // ---- the two round trips

  /** Every length field and every push fits in the bytes that are there. */
  predicate Complete(raw: Bytes) {
    raw == [] ||
    var h := ReadHeader(raw);
    h.PushHeader? && h.size + h.length <= |raw| && Complete(raw[h.size + h.length..])
  }

  /** An operation the reader can produce. */
  predicate WellFormedOp(op: Operation) {
    match op.code
    case 1 => 1 <= |op.data| <= 75
    case 76 => |op.data| < 0x100
    case 77 => |op.data| < 0x1_0000
    case 78 => |op.data| < 0x1_0000_0000
    case _ => op.data == [] && !(2 <= op.code <= 75)
  }

  predicate WellFormedOps(ops: Script) {
    forall i | 0 <= i < |ops| :: WellFormedOp(ops[i])
  }

  predicate WellFormedScript(ops: Script) {
    WellFormedOps(ops) && (ops == [] || ops[0].code != RAW_DATA)
  }

  lemma ReadHeaderOfOp(op: Operation, tail: Bytes)
    requires WellFormedOp(op)
    ensures var raw := OpBytes(op) + tail;
            var w := LengthWidth(op.code);
            && 1 + w + |op.data| <= |raw| && ReadHeader(raw) == PushHeader(1 + w, |op.data|)
            && OpcodeOf(raw[0]) == op.code
            && raw[1 + w..1 + w + |op.data|] == op.data
            && raw[1 + w + |op.data|..] == tail
  {
    var w := LengthWidth(op.code);
    var raw := OpBytes(op) + tail;
    assert raw[1..1 + w] == LittleEndian(|op.data|, w);
    PowersOf256();
    if w != 0 { LittleEndianValue(|op.data|, w); }
  }

  lemma {:induction false} ParseOfOpsBytes(ops: Script)
    requires WellFormedOps(ops)
    ensures ParseOps(OpsBytes(ops)) == Ops(ops)
  {
    if ops != [] {
      var raw := OpBytes(ops[0]) + OpsBytes(ops[1..]);
      assert OpsBytes(ops) == raw && raw[0..] == raw;
      hide ParseOps;
      hide OpsBytes;
      hide OpBytes;
      hide ReadHeader;
      hide WellFormedOp;
      ParseOfOpsBytes(ops[1..]);
      ReadHeaderOfOp(ops[0], OpsBytes(ops[1..]));
      ParseStep(raw, 0);
      assert ops == [ops[0]] + ops[1..];
    }
  }

  /** Writing back what was read: the operations reproduce every completely pushed byte string. */
  lemma {:induction false} OpsBytesOfParse(raw: Bytes)
    ensures ParseOps(raw).Ops? <==> Complete(raw)
    ensures ParseOps(raw).Ops? ==> OpsBytes(ParseOps(raw).ops) == raw && WellFormedOps(ParseOps(raw).ops)
    ensures raw != [] && ParseOps(raw).Ops? ==>
              ParseOps(raw).ops != [] && ParseOps(raw).ops[0].code == OpcodeOf(raw[0])
    decreases |raw|
  {
    if raw != [] {
      var h := ReadHeader(raw);
      if h.PushHeader? && h.size + h.length <= |raw| {
        var data, tail := raw[h.size..h.size + h.length], raw[h.size + h.length..];
        OpsBytesOfParse(tail);
        HeadOpBytes(raw, h);
        assert raw == OpBytes(Operation(OpcodeOf(raw[0]), data)) + tail;
      }
    }
  }

  lemma HeadOpBytes(raw: Bytes, h: PushHeader)
    requires raw != [] && h == ReadHeader(raw) && h.PushHeader? && h.size + h.length <= |raw|
    ensures var op := Operation(OpcodeOf(raw[0]), raw[h.size..h.size + h.length]);
            OpBytes(op) == raw[..h.size + h.length] && WellFormedOp(op)
  {
    var w := LengthWidth(raw[0]);
    if w > 0 {
      LittleEndianOfValue(raw[1..1 + w]);
      ValueBound(raw[1..1 + w], 256);
      PowersOf256();
      hide Value;
      hide Power;
      hide LittleEndian;
      ThreePieces(raw, w, h.length);
    } else {
      assert raw[1..1] == [] && Value([], 256) == 0;
      assert LittleEndian(h.length, 0) == [];
      hide Value;
      hide LittleEndian;
      ThreePieces(raw, 0, h.length);
    }
  }

  lemma ThreePieces(raw: Bytes, w: nat, n: nat)
    requires 1 + w + n <= |raw|
    ensures raw[..1 + w + n] == [raw[0]] + raw[1..1 + w] + raw[1 + w..1 + w + n]
  {
  }

  /** Reading and writing back restores the bytes exactly when the pushes are complete and the
      first byte is not 187, which the writer mistakes for its raw-data marker. */
  lemma SaveOfParse(raw: Bytes)
    requires ParseScript(raw).Done?
    ensures SaveScript(ParseScript(raw).value) == raw
            <==> Complete(raw) && (raw == [] || raw[0] != RAW_DATA)
  {
    OpsBytesOfParse(raw);
  }

  /** Writing and reading back restores the script exactly when it is well formed. */
  lemma ParseOfSave(ops: Script)
    ensures ParseScript(SaveScript(ops)) == Done(ops) <==> WellFormedScript(ops)
  {
    if WellFormedScript(ops) {
      ParseOfOpsBytes(ops);
    } else if ParseScript(SaveScript(ops)) == Done(ops) {
      OpsBytesOfParse(SaveScript(ops));
      assert false;
    }
  }

  /** The aliasing that the side condition of `SaveOfParse` shuts out. */
  lemma RawDataAlias()
    ensures ParseScript([187]) == Done([Operation(RAW_DATA, [])])
    ensures SaveScript([Operation(RAW_DATA, [])]) == []
  {
    var raw: Bytes := [187];
    assert raw[1..] == [] && raw[1..1] == [];
    assert ReadHeader(raw) == PushHeader(1, 0);
    assert ParseOps(raw[1..]) == Ops([]);
    assert raw[1..1 + 0] == [];
    assert [Operation(RAW_DATA, [])] + [] == [Operation(RAW_DATA, [])];
  }

  /** How operations are written: short pushes by their length, longer ones by a marker and a length of one,
      two or four bytes, everything else by its code; a leading raw-data operation by its data alone. */
  lemma ScriptLayout(op: Operation, rest: Script)
    requires WellFormedOp(op)
    ensures op.code == 1 ==> OpBytes(op) == [|op.data|] + op.data
    ensures op.code == 76 ==> OpBytes(op) == [76, |op.data|] + op.data
    ensures op.code == 77 ==> OpBytes(op) == [77, |op.data| % 256, |op.data| / 256] + op.data
    ensures op.code == 78 ==>
              && |OpBytes(op)| == 5 + |op.data| && OpBytes(op)[0] == 78 && OpBytes(op)[5..] == op.data
              && Value(OpBytes(op)[1..5], 256) == |op.data|
    ensures op.code !in {1, 76, 77, 78} ==> OpBytes(op) == [op.code]
    ensures op.code != 187 ==> SaveScript([op] + rest) == OpBytes(op) + OpsBytes(rest)
    ensures SaveScript([]) == []
  {
    var n := |op.data|;
    if op.code == 76 { OneByte(n); }
    if op.code == 77 { TwoBytes(n); }
    if op.code == 78 {
      PowersOf256();
      LittleEndianValue(n, 4);
      assert OpBytes(op)[1..5] == LittleEndian(n, 4);
    }
    assert ([op] + rest)[1..] == rest;
  }

  lemma OneByte(n: nat)
    requires n < 0x100
    ensures LittleEndian(n, 1) == [n]
  {
    assert LittleEndian(n / 256, 0) == [];
  }

  lemma TwoBytes(n: nat)
    requires n < 0x1_0000
    ensures LittleEndian(n, 2) == [n % 256, n / 256]
  {
    OneByte(n / 256);
  }
}
