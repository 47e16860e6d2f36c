/** The records of the message format, and the foreign functions the node calls. */
module Types {

  type byte = n: nat | n < 0x100
  type uint32 = n: nat | n < 0x1_0000_0000
  type uint64 = n: nat | n < 0x1_0000_0000_0000_0000
  type Bytes = seq<byte>
  type Digest = d: Bytes | |d| == 32 witness seq(32, _ => 0)
  type ShortHash = d: Bytes | |d| == 20 witness seq(20, _ => 0)

  const NULL_HASH: Digest :=
    [0, 0, 0, 0, 0, 0, 0, 0, 0, 0, 0, 0, 0, 0, 0, 0, 0, 0, 0, 0, 0, 0, 0, 0, 0, 0, 0, 0, 0, 0, 0, 0]
  const UINT32_MAX: uint32 := 0xffff_ffff
  const UINT64_MAX: uint64 := 0xffff_ffff_ffff_ffff

  /** An opcode is kept as its byte; every byte from 1 to 75 is read as `SPECIAL`. */
  datatype Operation = Operation(code: byte, data: Bytes)
  type Script = seq<Operation>

  datatype OutPoint = OutPoint(hash: Digest, index: uint32)
  datatype Input = Input(previous: OutPoint, script: Script, sequence: uint32)
  datatype Output = Output(value: uint64, script: Script)
  datatype Transaction =
    Transaction(version: uint32, locktime: uint32, inputs: seq<Input>, outputs: seq<Output>)
  datatype Block =
    Block(version: uint32, previous: Digest, merkle: Digest, timestamp: uint32,
          bits: uint32, nonce: uint32, transactions: seq<Transaction>)

  /** The fields two blocks are compared by, and the fields a block hash covers. */
  datatype Header =
    Header(version: uint32, previous: Digest, merkle: Digest, timestamp: uint32, bits: uint32, nonce: uint32)

  function HeaderOf(b: Block): Header {
    Header(b.version, b.previous, b.merkle, b.timestamp, b.bits, b.nonce)
  }

  function WithTransactions(h: Header, txs: seq<Transaction>): Block {
    Block(h.version, h.previous, h.merkle, h.timestamp, h.bits, h.nonce, txs)
  }

  /** Code outside the repository: hash functions, signature checks and the checkpoint table. */
  datatype Env = Env(
    sha256: Bytes -> Digest,
    hash160: Bytes -> ShortHash,
    digest: (byte, Bytes) -> Bytes,
    publicKeyValid: Bytes -> bool,
    signatureValid: (Bytes, Bytes, Digest) -> bool,
    checkpoint: (nat, Digest) -> bool)

  /** What an operation of the node ends in. `Undefined` stands for a read that C++ leaves undefined. */
  datatype Outcome<+T> = Done(value: T) | Fail | Undefined

  function Reversed<T>(s: seq<T>): (r: seq<T>)
    ensures |r| == |s|
    ensures forall i | 0 <= i < |r| :: r[i] == s[|s| - 1 - i]
  {
    if s == [] then [] else Reversed(s[1..]) + [s[0]]
  }

  lemma ReversedTwice<T>(s: seq<T>)
    ensures Reversed(Reversed(s)) == s
  {
  }

  lemma {:induction false} ReversedPush<T>(s: seq<T>, x: T)
    ensures Reversed(s + [x]) == [x] + Reversed(s)
  {
    if s != [] {
      ReversedPush(s[1..], x);
      assert (s + [x])[1..] == s[1..] + [x];
    }
  }

  /** No item occurs twice. */
  predicate Distinct<T(==)>(s: seq<T>) {
    forall i, j | 0 <= i < j < |s| :: s[i] != s[j]
  }

  function Members<T>(s: seq<T>): set<T> { set x | x in s }

  lemma MembersAppend<T>(s: seq<T>, x: T)
    ensures Members(s + [x]) == Members(s) + {x}
  {
  }

  predicate PreviousOutputIsNull(point: OutPoint) {
    point.index == UINT32_MAX && point.hash == NULL_HASH
  }

  predicate IsCoinbase(tx: Transaction) {
    |tx.inputs| == 1 && PreviousOutputIsNull(tx.inputs[0].previous)
  }
}
