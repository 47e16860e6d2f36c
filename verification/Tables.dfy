/** The stored form of a chain: the rows of each block, and the four tables they make up. */
module Tables {
  import opened Types
  import opened Wire
  import opened Consensus

  datatype Point = Point(hash: Digest, index: nat)
  datatype BlockRow = BlockRow(header: Header, hashes: seq<Digest>)
  datatype TxRow = TxRow(raw: RawTransaction, parents: seq<(nat, nat)>)

  /** Rows in the order in which they are written; an address has any number of outputs, in no order. */
  datatype Rows = Rows(
    blocks: seq<(nat, BlockRow)>,
    txs: seq<(Digest, TxRow)>,
    spends: seq<(OutPoint, Point)>,
    addresses: multiset<(Bytes, Point)>)

  /** The tables: one value per key, except for addresses. */
  datatype Store = Store(
    blocks: map<nat, BlockRow>,
    txs: map<Digest, TxRow>,
    spends: map<OutPoint, Point>,
    addresses: multiset<(Bytes, Point)>)

  const NO_ROWS: Rows := Rows([], [], [], multiset{})

  function Join(a: Rows, b: Rows): Rows {
    Rows(a.blocks + b.blocks, a.txs + b.txs, a.spends + b.spends, a.addresses + b.addresses)
  }

  // ---- the rows of a block

  /** One row per input; a coinbase has none. */
  function SpendRows(r: Rules, tx: Transaction): (rows: seq<(OutPoint, Point)>)
    ensures |rows| == if IsCoinbase(tx) then 0 else |tx.inputs|
    ensures forall k | 0 <= k < |rows| :: rows[k] == (tx.inputs[k].previous, Point(r.txHash(tx), k))
  {
    if IsCoinbase(tx) then []
    else seq(|tx.inputs|, k requires 0 <= k < |tx.inputs| => (tx.inputs[k].previous, Point(r.txHash(tx), k)))
  }

  /** Only outputs that pay to an address are indexed. */
  function AddressRows(r: Rules, tx: Transaction, count: nat): multiset<(Bytes, Point)>
    requires count <= |tx.outputs|
  {
    if count == 0 then multiset{} else
      var key := r.addressKey(tx.outputs[count - 1].script);
      AddressRows(r, tx, count - 1) + if key == [] then multiset{} else multiset{(key, Point(r.txHash(tx), count - 1))}
  }

  function TxRows(r: Rules, depth: nat, index: nat, tx: Transaction): Rows {
    Rows([], [(r.txHash(tx), TxRow(ToRaw(tx), [(depth, index)]))],
         SpendRows(r, tx), AddressRows(r, tx, |tx.outputs|))
  }

  /** The rows of consecutive transactions of a block, the first one at index `base`. */
  function TxsRows(r: Rules, depth: nat, base: nat, txs: seq<Transaction>): Rows {
    if txs == [] then NO_ROWS else
      var n := |txs| - 1;
      Join(TxsRows(r, depth, base, txs[..n]), TxRows(r, depth, base + n, txs[n]))
  }

  function HeaderRow(r: Rules, depth: nat, b: Block): Rows {
    Rows([(depth, BlockRow(HeaderOf(b), TxHashes(r, b.transactions)))], [], [], multiset{})
  }

  function BlockRows(r: Rules, depth: nat, b: Block): Rows {
    Join(TxsRows(r, depth, 0, b.transactions), HeaderRow(r, depth, b))
  }

  /** The rows of consecutive blocks, the first one at depth `base`. */
  function ChainRows(r: Rules, base: nat, blocks: seq<Block>): Rows {
    if blocks == [] then NO_ROWS else
      var n := |blocks| - 1;
      Join(ChainRows(r, base, blocks[..n]), BlockRows(r, base + n, blocks[n]))
  }

  // ---- rows to tables

  function MapOf<K, V>(rows: seq<(K, V)>): map<K, V> {
    if rows == [] then map[] else MapOf(rows[..|rows| - 1])[rows[|rows| - 1].0 := rows[|rows| - 1].1]
  }

  function StoreOf(rows: Rows): Store {
    Store(MapOf(rows.blocks), MapOf(rows.txs), MapOf(rows.spends), rows.addresses)
  }

  /** The tables computed from a block list. */
  function StoreOfChain(r: Rules, chain: seq<Block>): Store {
    StoreOf(ChainRows(r, 0, chain))
  }

  predicate DistinctKeys<K(==), V>(rows: seq<(K, V)>) {
    forall i, j | 0 <= i < j < |rows| :: rows[i].0 != rows[j].0
  }

  predicate Clean(rows: Rows) {
    DistinctKeys(rows.blocks) && DistinctKeys(rows.txs) && DistinctKeys(rows.spends)
  }

  lemma {:induction false} MapOfKeys<K, V>(rows: seq<(K, V)>, key: K)
    ensures key in MapOf(rows) <==> exists i | 0 <= i < |rows| :: rows[i].0 == key
  {
    if rows != [] {
      var n := |rows| - 1;
      MapOfKeys(rows[..n], key);
      if exists i | 0 <= i < |rows| :: rows[i].0 == key {
        var i :| 0 <= i < |rows| && rows[i].0 == key;
        assert i < n ==> rows[..n][i].0 == key;
      }
      if exists i | 0 <= i < n :: rows[..n][i].0 == key {
        var i :| 0 <= i < n && rows[..n][i].0 == key;
        assert rows[i].0 == key;
      }
    }
  }

  lemma {:induction false} MapOfAt<K, V>(rows: seq<(K, V)>, i: nat)
    requires DistinctKeys(rows) && i < |rows|
    ensures rows[i].0 in MapOf(rows) && MapOf(rows)[rows[i].0] == rows[i].1
  {
    var n := |rows| - 1;
    if i < n {
      MapOfAt(rows[..n], i);
      assert rows[i].0 != rows[n].0;
    }
  }

  lemma MapOfAppend<K, V>(rows: seq<(K, V)>, last: (K, V))
    ensures MapOf(rows + [last]) == MapOf(rows)[last.0 := last.1]
  {
    assert (rows + [last])[..|rows|] == rows;
  }

  lemma DistinctWithout<K, V>(a: seq<(K, V)>, row: (K, V), c: seq<(K, V)>)
    requires DistinctKeys(a + [row] + c)
    ensures DistinctKeys(a + c)
    ensures forall i | 0 <= i < |a + c| :: (a + c)[i].0 != row.0
  {
    var all, rest := a + [row] + c, a + c;
    assert all[|a|] == row;
    assert forall i | 0 <= i < |rest| :: rest[i] == all[if i < |a| then i else i + 1];
  }

  /** Deleting the key of a row in the middle leaves the tables of the other rows. */
  lemma MapOfRemove<K, V>(a: seq<(K, V)>, row: (K, V), c: seq<(K, V)>)
    requires DistinctKeys(a + [row] + c)
    ensures MapOf(a + [row] + c) - {row.0} == MapOf(a + c)
    ensures DistinctKeys(a + c)
  {
    DistinctWithout(a, row, c);
    var all, rest := a + [row] + c, a + c;
    assert all[|a|] == row;
    var cut := MapOf(all) - {row.0};
    forall k | k in MapOf(rest)
      ensures k in cut && cut[k] == MapOf(rest)[k]
    {
      MapOfKeys(rest, k);
      var i :| 0 <= i < |rest| && rest[i].0 == k;
      var j := if i < |a| then i else i + 1;
      assert all[j] == rest[i];
      MapOfAt(rest, i);
      MapOfAt(all, j);
    }
    forall k | k in cut
      ensures k in MapOf(rest)
    {
      MapOfKeys(all, k);
      MapOfKeys(rest, k);
      var i :| 0 <= i < |all| && all[i].0 == k;
      assert rest[if i < |a| then i else i - 1].0 == k;
    }
    assert cut.Keys == MapOf(rest).Keys;
  }

  function KeySet<K, V>(rows: seq<(K, V)>): set<K> {
    set i | 0 <= i < |rows| :: rows[i].0
  }

  lemma {:induction false} MapOfRemoveAll<K, V>(a: seq<(K, V)>, b: seq<(K, V)>, c: seq<(K, V)>)
    requires DistinctKeys(a + b + c)
    ensures MapOf(a + b + c) - KeySet(b) == MapOf(a + c)
    ensures DistinctKeys(a + c)
    decreases |b|
  {
    if b == [] {
      assert a + b + c == a + c && KeySet(b) == {};
    } else {
      var n := |b| - 1;
      assert a + b + c == (a + b[..n]) + [b[n]] + c;
      MapOfRemove(a + b[..n], b[n], c);
      MapOfRemoveAll(a, b[..n], c);
      assert KeySet(b) == KeySet(b[..n]) + {b[n].0} by {
        assert forall i | 0 <= i < n :: b[i] == b[..n][i];
      }
    }
  }

  lemma {:induction false} MapOfJoin<K, V>(a: seq<(K, V)>, b: seq<(K, V)>)
    ensures MapOf(a + b) == MapOf(a) + MapOf(b)
  {
    if b == [] {
      assert a + b == a;
    } else {
      var n := |b| - 1;
      MapOfJoin(a, b[..n]);
      assert (a + b)[..|a + b| - 1] == a + b[..n];
    }
  }

  lemma JoinAssociative(a: Rows, b: Rows, c: Rows)
    ensures Join(Join(a, b), c) == Join(a, Join(b, c))
  {
  }

  lemma CleanPrefix(a: Rows, b: Rows)
    requires Clean(Join(a, b))
    ensures Clean(a)
  {
    var all := Join(a, b);
    assert all.blocks[..|a.blocks|] == a.blocks && all.txs[..|a.txs|] == a.txs && all.spends[..|a.spends|] == a.spends;
  }

  lemma JoinEmpty(a: Rows)
    ensures Join(NO_ROWS, a) == a && Join(a, NO_ROWS) == a
  {
  }

  lemma {:induction false} ChainRowsFront(r: Rules, base: nat, blocks: seq<Block>)
    requires blocks != []
    ensures ChainRows(r, base, blocks) == Join(BlockRows(r, base, blocks[0]), ChainRows(r, base + 1, blocks[1..]))
  {
    hide BlockRows;
    hide Join;
    var n := |blocks| - 1;
    var last := BlockRows(r, base + n, blocks[n]);
    if n == 0 {
      assert blocks[..0] == [] && blocks[1..] == [];
      JoinEmpty(last);
    } else {
      var middle := blocks[1..][..n - 1];
      assert blocks[..n][1..] == middle && blocks[1..][n - 1] == blocks[n];
      ChainRowsFront(r, base, blocks[..n]);
      JoinAssociative(BlockRows(r, base, blocks[0]), ChainRows(r, base + 1, middle), last);
    }
  }

  lemma {:induction false} TxsRowsFront(r: Rules, depth: nat, base: nat, txs: seq<Transaction>)
    requires txs != []
    ensures TxsRows(r, depth, base, txs)
            == Join(TxRows(r, depth, base, txs[0]), TxsRows(r, depth, base + 1, txs[1..]))
  {
    hide TxRows;
    hide Join;
    var n := |txs| - 1;
    var last := TxRows(r, depth, base + n, txs[n]);
    if n == 0 {
      assert txs[..0] == [] && txs[1..] == [];
      JoinEmpty(last);
    } else {
      var middle := txs[1..][..n - 1];
      assert txs[..n][1..] == middle && txs[1..][n - 1] == txs[n];
      TxsRowsFront(r, depth, base, txs[..n]);
      JoinAssociative(TxRows(r, depth, base, txs[0]), TxsRows(r, depth, base + 1, middle), last);
    }
  }

  lemma {:induction false} ChainRowsSplit(r: Rules, base: nat, blocks: seq<Block>, m: nat)
    requires m <= |blocks|
    ensures ChainRows(r, base, blocks) == Join(ChainRows(r, base, blocks[..m]), ChainRows(r, base + m, blocks[m..]))
    decreases m
  {
    hide BlockRows;
    hide Join;
    if m == 0 {
      assert blocks[..0] == [] && blocks[0..] == blocks;
      JoinEmpty(ChainRows(r, base, blocks));
    } else {
      var one := BlockRows(r, base + m - 1, blocks[m - 1]);
      ChainRowsSplit(r, base, blocks, m - 1);
      ChainRowsFront(r, base + m - 1, blocks[m - 1..]);
      assert blocks[m - 1..][1..] == blocks[m..];
      assert blocks[..m][..m - 1] == blocks[..m - 1];
      JoinAssociative(ChainRows(r, base, blocks[..m - 1]), one, ChainRows(r, base + m, blocks[m..]));
    }
  }
}
