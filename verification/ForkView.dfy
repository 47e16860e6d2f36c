/** What the stored tables answer about the chain cut at a fork point, against a scan of the blocks. */
module ForkView {
  import opened Types
  import opened Wire
  import opened Consensus
  import opened Tables

  lemma MapOfMember<K, V>(rows: seq<(K, V)>, key: K)
    requires DistinctKeys(rows)
    ensures forall value :: (key, value) in rows <==> key in MapOf(rows) && MapOf(rows)[key] == value
  {
    MapOfKeys(rows, key);
    forall value
      ensures (key, value) in rows <==> key in MapOf(rows) && MapOf(rows)[key] == value
    {
      if (key, value) in rows {
        var i :| 0 <= i < |rows| && rows[i] == (key, value);
        MapOfAt(rows, i);
      }
      if key in MapOf(rows) {
        var i :| 0 <= i < |rows| && rows[i].0 == key;
        MapOfAt(rows, i);
        assert rows[i] == (key, MapOf(rows)[key]);
      }
    }
  }

  lemma TxTableMember(r: Rules, chain: seq<Block>, hash: Digest, row: TxRow)
    requires Clean(ChainRows(r, 0, chain))
    ensures (hash, row) in ChainRows(r, 0, chain).txs
            <==> hash in StoreOfChain(r, chain).txs && StoreOfChain(r, chain).txs[hash] == row
  {
    hide ChainRows;
    MapOfMember(ChainRows(r, 0, chain).txs, hash);
  }

  lemma SpendTableMember(r: Rules, chain: seq<Block>, output: OutPoint, point: Point)
    requires Clean(ChainRows(r, 0, chain))
    ensures (output, point) in ChainRows(r, 0, chain).spends
            <==> output in StoreOfChain(r, chain).spends && StoreOfChain(r, chain).spends[output] == point
  {
    hide ChainRows;
    MapOfMember(ChainRows(r, 0, chain).spends, output);
  }

  // ---- the transaction table

  /** The row of transaction `i` of block `d`. */
  predicate IsTxRow(r: Rules, base: nat, blocks: seq<Block>, d: nat, i: nat, hash: Digest, row: TxRow) {
    && d < |blocks| && i < |blocks[d].transactions|
    && hash == r.txHash(blocks[d].transactions[i])
    && row == TxRow(ToRaw(blocks[d].transactions[i]), [(base + d, i)])
  }

  lemma {:induction false} TxsMember(r: Rules, depth: nat, txs: seq<Transaction>, hash: Digest, row: TxRow)
    ensures (hash, row) in TxsRows(r, depth, 0, txs).txs
            <==> exists i | 0 <= i < |txs| :: hash == r.txHash(txs[i]) && row == TxRow(ToRaw(txs[i]), [(depth, i)])
  {
    hide ToRaw;
    hide SpendRows;
    hide AddressRows;
    if txs != [] {
      var n := |txs| - 1;
      TxsMember(r, depth, txs[..n], hash, row);
      if exists i | 0 <= i < |txs| :: hash == r.txHash(txs[i]) && row == TxRow(ToRaw(txs[i]), [(depth, i)]) {
        var i :| 0 <= i < |txs| && hash == r.txHash(txs[i]) && row == TxRow(ToRaw(txs[i]), [(depth, i)]);
        if i < n { assert txs[..n][i] == txs[i]; }
      }
      if exists i | 0 <= i < n :: hash == r.txHash(txs[..n][i]) && row == TxRow(ToRaw(txs[..n][i]), [(depth, i)]) {
        var i :| 0 <= i < n && hash == r.txHash(txs[..n][i]) && row == TxRow(ToRaw(txs[..n][i]), [(depth, i)]);
        assert txs[..n][i] == txs[i];
      }
    }
  }

  lemma LastBlockTxs(r: Rules, base: nat, blocks: seq<Block>)
    requires blocks != []
    ensures var n := |blocks| - 1;
            ChainRows(r, base, blocks).txs
            == ChainRows(r, base, blocks[..n]).txs + TxsRows(r, base + n, 0, blocks[n].transactions).txs
  {
    hide TxsRows;
  }

  /** Every transaction of the chain has its row. */
  lemma {:induction false} TxRowPresent(r: Rules, base: nat, blocks: seq<Block>, d: nat, i: nat, hash: Digest, row: TxRow)
    requires IsTxRow(r, base, blocks, d, i, hash, row)
    ensures (hash, row) in ChainRows(r, base, blocks).txs
  {
    hide ToRaw;
    hide ChainRows;
    hide TxsRows;
    var n := |blocks| - 1;
    LastBlockTxs(r, base, blocks);
    if d < n {
      assert IsTxRow(r, base, blocks[..n], d, i, hash, row);
      TxRowPresent(r, base, blocks[..n], d, i, hash, row);
    } else {
      TxsMember(r, base + n, blocks[n].transactions, hash, row);
    }
  }

  lemma NoBlocksNoRows(r: Rules, base: nat)
    ensures ChainRows(r, base, []).txs == [] && ChainRows(r, base, []).spends == []
  {
  }

  lemma IsTxRowHere(r: Rules, base: nat, blocks: seq<Block>, i: nat)
    requires blocks != [] && i < |blocks[|blocks| - 1].transactions|
    ensures var n := |blocks| - 1;
            var tx := blocks[n].transactions[i];
            IsTxRow(r, base, blocks, n, i, r.txHash(tx), TxRow(ToRaw(tx), [(base + n, i)]))
  {
  }

  lemma IsTxRowGrows(r: Rules, base: nat, blocks: seq<Block>, d: nat, i: nat, hash: Digest, row: TxRow)
    requires blocks != [] && IsTxRow(r, base, blocks[..|blocks| - 1], d, i, hash, row)
    ensures IsTxRow(r, base, blocks, d, i, hash, row)
  {
    hide ToRaw;
  }

  /** Every row belongs to a transaction of the chain. */
  lemma {:induction false} TxRowOrigin(r: Rules, base: nat, blocks: seq<Block>, hash: Digest, row: TxRow) returns (d: nat, i: nat)
    requires (hash, row) in ChainRows(r, base, blocks).txs
    ensures IsTxRow(r, base, blocks, d, i, hash, row)
  {
    hide *;
    NoBlocksNoRows(r, base);
    var n := |blocks| - 1;
    LastBlockTxs(r, base, blocks);
    if (hash, row) in ChainRows(r, base, blocks[..n]).txs {
      d, i := TxRowOrigin(r, base, blocks[..n], hash, row);
      IsTxRowGrows(r, base, blocks, d, i, hash, row);
    } else {
      var txs := blocks[n].transactions;
      TxsMember(r, base + n, txs, hash, row);
      d := n;
      i :| 0 <= i < |txs| && hash == r.txHash(txs[i]) && row == TxRow(ToRaw(txs[i]), [(base + n, i)]);
      IsTxRowHere(r, base, blocks, i);
    }
  }

  /** The scan finds a transaction where it stands. */
  lemma {:induction false} FindTxAt(r: Rules, chain: seq<Block>, hash: Digest) returns (i: nat)
    requires FindTx(r, chain, hash).Found?
    ensures var found := FindTx(r, chain, hash);
            && found.depth < |chain| && i < |chain[found.depth].transactions|
            && found.tx == chain[found.depth].transactions[i] && r.txHash(found.tx) == hash
  {
    var n := |chain| - 1;
    if FindTx(r, chain[..n], hash).Found? {
      i := FindTxAt(r, chain[..n], hash);
    } else {
      i := FirstWithHash(r, chain[n].transactions, hash);
    }
  }

  lemma {:induction false} FindTxMissing(r: Rules, chain: seq<Block>, hash: Digest, d: nat, i: nat)
    requires d < |chain| && i < |chain[d].transactions| && r.txHash(chain[d].transactions[i]) == hash
    ensures FindTx(r, chain, hash).Found?
  {
    var n := |chain| - 1;
    if d < n { FindTxMissing(r, chain[..n], hash, d, i); }
  }

  lemma {:induction false} FindTxAppend(r: Rules, a: seq<Block>, b: seq<Block>, hash: Digest)
    ensures FindTx(r, a + b, hash) ==
            var first := FindTx(r, a, hash);
            if first.Found? then first else
              match FindTx(r, b, hash)
              case Found(tx, d) => Found(tx, |a| + d)
              case Missing => Missing
  {
    if b == [] {
      assert a + b == a;
    } else {
      var n := |b| - 1;
      FindTxAppend(r, a, b[..n], hash);
      assert (a + b)[..|a + b| - 1] == a + b[..n];
    }
  }

  predicate AfterFork(row: TxRow, fork: nat) {
    exists p | 0 <= p < |row.parents| :: row.parents[p].0 > fork
  }

  /** Asking the table for a hash and looking at the parent depth is scanning the chain up to the fork. */
  lemma TxTableAnswers(r: Rules, chain: seq<Block>, fork: nat, hash: Digest)
    requires Clean(ChainRows(r, 0, chain)) && fork < |chain|
    requires forall d | 0 <= d < |chain| :: WellFormedBlock(chain[d])
    ensures var m := StoreOfChain(r, chain).txs;
            var found := FindTx(r, chain[..fork + 1], hash);
            if hash in m && !AfterFork(m[hash], fork)
            then |m[hash].parents| == 1 && found.Found? && m[hash].parents[0].0 == found.depth
                 && FromRaw(m[hash].raw) == Done(found.tx)
            else found.Missing?
  {
    hide FromRaw;
    hide ToRaw;
    hide StoreOfChain;
    hide Clean;
    hide ChainRows;
    var m := StoreOfChain(r, chain).txs;
    if FindTx(r, chain[..fork + 1], hash).Found? {
      var i := FindTxAt(r, chain[..fork + 1], hash);
      TableHasFound(r, chain, fork, hash, i);
    } else if hash in m {
      TxTableMember(r, chain, hash, m[hash]);
      var d, i := TxRowOrigin(r, 0, chain, hash, m[hash]);
      assert m[hash].parents[0].0 == d;
      if d <= fork { FindTxMissing(r, chain[..fork + 1], hash, d, i); }
    }
  }

  lemma TableHasFound(r: Rules, chain: seq<Block>, fork: nat, hash: Digest, i: nat)
    requires Clean(ChainRows(r, 0, chain)) && fork < |chain|
    requires forall d | 0 <= d < |chain| :: WellFormedBlock(chain[d])
    requires FindTx(r, chain[..fork + 1], hash).Found?
    requires var found := FindTx(r, chain[..fork + 1], hash);
             && found.depth <= fork && i < |chain[found.depth].transactions|
             && found.tx == chain[found.depth].transactions[i] && r.txHash(found.tx) == hash
    ensures var m := StoreOfChain(r, chain).txs;
            var found := FindTx(r, chain[..fork + 1], hash);
            && hash in m && m[hash].parents == [(found.depth, i)] && FromRaw(m[hash].raw) == Done(found.tx)
  {
    hide FromRaw;
    hide ToRaw;
    var found := FindTx(r, chain[..fork + 1], hash);
    var row := TxRow(ToRaw(found.tx), [(found.depth, i)]);
    assert IsTxRow(r, 0, chain, found.depth, i, hash, row);
    TxRowPresent(r, 0, chain, found.depth, i, hash, row);
    TxTableMember(r, chain, hash, row);
    assert WellFormedTransaction(chain[found.depth].transactions[i]);
    RecordRoundTrip(found.tx);
  }

  // ---- the spend table

  /** The row of input `k` of transaction `i` of block `d`. */
  predicate IsSpendRow(r: Rules, blocks: seq<Block>, d: nat, i: nat, k: nat, row: (OutPoint, Point)) {
    && Names(blocks, d, i, k, row.0) && !IsCoinbase(blocks[d].transactions[i])
    && row.1 == Point(r.txHash(blocks[d].transactions[i]), k)
  }

  lemma LastTxSpends(r: Rules, depth: nat, txs: seq<Transaction>)
    requires txs != []
    ensures var n := |txs| - 1;
            TxsRows(r, depth, 0, txs).spends == TxsRows(r, depth, 0, txs[..n]).spends + SpendRows(r, txs[n])
  {
    hide SpendRows;
    hide AddressRows;
    hide ToRaw;
  }

  lemma {:induction false} TxsSpendPresent(r: Rules, depth: nat, txs: seq<Transaction>, i: nat, k: nat)
    requires i < |txs| && k < |SpendRows(r, txs[i])|
    ensures SpendRows(r, txs[i])[k] in TxsRows(r, depth, 0, txs).spends
  {
    hide SpendRows;
    hide TxsRows;
    var n := |txs| - 1;
    LastTxSpends(r, depth, txs);
    if i < n {
      assert txs[..n][i] == txs[i];
      TxsSpendPresent(r, depth, txs[..n], i, k);
    }
  }

  lemma NoTxsNoSpends(r: Rules, depth: nat)
    ensures TxsRows(r, depth, 0, []).spends == []
  {
  }

  lemma {:induction false} TxsSpendOrigin(r: Rules, depth: nat, txs: seq<Transaction>, row: (OutPoint, Point)) returns (i: nat, k: nat)
    requires row in TxsRows(r, depth, 0, txs).spends
    ensures i < |txs| && k < |SpendRows(r, txs[i])| && row == SpendRows(r, txs[i])[k]
  {
    hide SpendRows;
    hide TxsRows;
    NoTxsNoSpends(r, depth);
    var n := |txs| - 1;
    LastTxSpends(r, depth, txs);
    if row in TxsRows(r, depth, 0, txs[..n]).spends {
      i, k := TxsSpendOrigin(r, depth, txs[..n], row);
    } else {
      i := n;
      k :| 0 <= k < |SpendRows(r, txs[n])| && SpendRows(r, txs[n])[k] == row;
    }
  }

  lemma LastBlockSpends(r: Rules, base: nat, blocks: seq<Block>)
    requires blocks != []
    ensures var n := |blocks| - 1;
            ChainRows(r, base, blocks).spends
            == ChainRows(r, base, blocks[..n]).spends + TxsRows(r, base + n, 0, blocks[n].transactions).spends
  {
    hide TxsRows;
  }

  lemma {:induction false} SpendRowPresent(r: Rules, base: nat, blocks: seq<Block>, d: nat, i: nat, k: nat, row: (OutPoint, Point))
    requires IsSpendRow(r, blocks, d, i, k, row)
    ensures row in ChainRows(r, base, blocks).spends
  {
    hide ChainRows;
    hide TxsRows;
    var n := |blocks| - 1;
    LastBlockSpends(r, base, blocks);
    if d < n {
      assert IsSpendRow(r, blocks[..n], d, i, k, row);
      SpendRowPresent(r, base, blocks[..n], d, i, k, row);
    } else {
      assert SpendRows(r, blocks[n].transactions[i])[k] == row;
      TxsSpendPresent(r, base + n, blocks[n].transactions, i, k);
    }
  }

  lemma {:induction false} SpendRowOrigin(r: Rules, base: nat, blocks: seq<Block>, row: (OutPoint, Point)) returns (d: nat, i: nat, k: nat)
    requires row in ChainRows(r, base, blocks).spends
    ensures IsSpendRow(r, blocks, d, i, k, row)
  {
    hide ChainRows;
    hide TxsRows;
    NoBlocksNoRows(r, base);
    var n := |blocks| - 1;
    LastBlockSpends(r, base, blocks);
    if row in ChainRows(r, base, blocks[..n]).spends {
      d, i, k := SpendRowOrigin(r, base, blocks[..n], row);
    } else {
      d := n;
      i, k := TxsSpendOrigin(r, base + n, blocks[n].transactions, row);
    }
  }

  /** The stored part of the double-spend search: the spending transaction must not lie past the fork. */
  predicate StoredSpent(s: Store, fork: nat, output: OutPoint) {
    output in s.spends && s.spends[output].hash in s.txs && !AfterFork(s.txs[s.spends[output].hash], fork)
  }

  /** Some input of the blocks names the output. */
  ghost predicate NamedIn(chain: seq<Block>, output: OutPoint) {
    exists d: nat, i: nat, k: nat :: Names(chain, d, i, k, output)
  }

  /** The row of a transaction tells its depth. */
  lemma TxRowDepth(r: Rules, chain: seq<Block>, d: nat, i: nat)
    requires Clean(ChainRows(r, 0, chain)) && d < |chain| && i < |chain[d].transactions|
    ensures var m, hash := StoreOfChain(r, chain).txs, r.txHash(chain[d].transactions[i]);
            hash in m && m[hash].parents == [(d, i)]
  {
    hide ToRaw;
    var hash := r.txHash(chain[d].transactions[i]);
    var row := TxRow(ToRaw(chain[d].transactions[i]), [(d, i)]);
    assert IsTxRow(r, 0, chain, d, i, hash, row);
    TxRowPresent(r, 0, chain, d, i, hash, row);
    TxTableMember(r, chain, hash, row);
  }

  /** The spend table, cut at the fork, answers what a scan of the stored chain up to the fork answers. */
  lemma SpendTableAnswers(r: Rules, chain: seq<Block>, fork: nat, output: OutPoint)
    requires Clean(ChainRows(r, 0, chain)) && fork < |chain| && !PreviousOutputIsNull(output)
    ensures StoredSpent(StoreOfChain(r, chain), fork, output) <==> NamedIn(chain[..fork + 1], output)
    ensures output in StoreOfChain(r, chain).spends ==>
              StoreOfChain(r, chain).spends[output].hash in StoreOfChain(r, chain).txs
  {
    hide StoreOfChain;
    hide Clean;
    hide ChainRows;
    var s := StoreOfChain(r, chain);
    if output in s.spends {
      SpendTableMember(r, chain, output, s.spends[output]);
      var d, i, k := SpendRowOrigin(r, 0, chain, (output, s.spends[output]));
      TxRowDepth(r, chain, d, i);
      var row := s.txs[s.spends[output].hash];
      assert row.parents[0].0 == d;
      if d <= fork { assert Names(chain[..fork + 1], d, i, k, output); }
    }
    if NamedIn(chain[..fork + 1], output) {
      var d: nat, i: nat, k: nat :| Names(chain[..fork + 1], d, i, k, output);
      var row := (output, Point(r.txHash(chain[d].transactions[i]), k));
      assert IsSpendRow(r, chain, d, i, k, row);
      SpendRowPresent(r, 0, chain, d, i, k, row);
      SpendTableMember(r, chain, output, row.1);
      TxRowDepth(r, chain, d, i);
    }
  }

  // ---- the address table

  /** Output `j` of transaction `i` of block `d` pays to the address and is the given point. */
  predicate PaysAt(r: Rules, blocks: seq<Block>, d: nat, i: nat, j: nat, key: Bytes, point: Point) {
    && d < |blocks| && i < |blocks[d].transactions| && j < |blocks[d].transactions[i].outputs|
    && r.addressKey(blocks[d].transactions[i].outputs[j].script) == key
    && point == Point(r.txHash(blocks[d].transactions[i]), j)
  }

  lemma {:induction false} TxAddress(r: Rules, tx: Transaction, count: nat, key: Bytes, point: Point)
    requires count <= |tx.outputs|
    ensures (key, point) in AddressRows(r, tx, count)
            <==> key != [] && exists j | 0 <= j < count :: r.addressKey(tx.outputs[j].script) == key && point == Point(r.txHash(tx), j)
  {
    if count > 0 {
      TxAddress(r, tx, count - 1, key, point);
      assert r.addressKey(tx.outputs[count - 1].script) == key && point == Point(r.txHash(tx), count - 1) ==>
          exists j | 0 <= j < count :: r.addressKey(tx.outputs[j].script) == key && point == Point(r.txHash(tx), j);
    }
  }

  lemma LastTxAddresses(r: Rules, depth: nat, txs: seq<Transaction>)
    requires txs != []
    ensures var n := |txs| - 1;
            TxsRows(r, depth, 0, txs).addresses
            == TxsRows(r, depth, 0, txs[..n]).addresses + AddressRows(r, txs[n], |txs[n].outputs|)
  {
    hide SpendRows;
    hide AddressRows;
    hide ToRaw;
  }

  lemma LastBlockAddresses(r: Rules, base: nat, blocks: seq<Block>)
    requires blocks != []
    ensures var n := |blocks| - 1;
            ChainRows(r, base, blocks).addresses
            == ChainRows(r, base, blocks[..n]).addresses + TxsRows(r, base + n, 0, blocks[n].transactions).addresses
  {
    hide TxsRows;
  }

  lemma NoAddresses(r: Rules, base: nat)
    ensures ChainRows(r, base, []).addresses == multiset{} && TxsRows(r, base, 0, []).addresses == multiset{}
  {
  }

  lemma {:induction false} TxsAddress(r: Rules, depth: nat, txs: seq<Transaction>, key: Bytes, point: Point)
    ensures (key, point) in TxsRows(r, depth, 0, txs).addresses
            <==> exists i | 0 <= i < |txs| :: (key, point) in AddressRows(r, txs[i], |txs[i].outputs|)
  {
    hide TxsRows;
    hide AddressRows;
    NoAddresses(r, depth);
    if txs != [] {
      var n := |txs| - 1;
      LastTxAddresses(r, depth, txs);
      TxsAddress(r, depth, txs[..n], key, point);
      if exists i | 0 <= i < |txs| :: (key, point) in AddressRows(r, txs[i], |txs[i].outputs|) {
        var i :| 0 <= i < |txs| && (key, point) in AddressRows(r, txs[i], |txs[i].outputs|);
        if i < n { assert txs[..n][i] == txs[i]; }
      }
      if exists i | 0 <= i < n :: (key, point) in AddressRows(r, txs[..n][i], |txs[..n][i].outputs|) {
        var i :| 0 <= i < n && (key, point) in AddressRows(r, txs[..n][i], |txs[..n][i].outputs|);
        assert txs[..n][i] == txs[i];
      }
    }
  }

  lemma {:induction false} ChainAddress(r: Rules, base: nat, blocks: seq<Block>, key: Bytes, point: Point)
    ensures (key, point) in ChainRows(r, base, blocks).addresses
            <==> exists d, i | 0 <= d < |blocks| && 0 <= i < |blocks[d].transactions| ::
                   (key, point) in AddressRows(r, blocks[d].transactions[i], |blocks[d].transactions[i].outputs|)
  {
    hide ChainRows;
    hide TxsRows;
    hide AddressRows;
    NoAddresses(r, base);
    if blocks != [] {
      var n := |blocks| - 1;
      var txs := blocks[n].transactions;
      LastBlockAddresses(r, base, blocks);
      ChainAddress(r, base, blocks[..n], key, point);
      TxsAddress(r, base + n, txs, key, point);
      if exists d, i | 0 <= d < n && 0 <= i < |blocks[..n][d].transactions| ::
           (key, point) in AddressRows(r, blocks[..n][d].transactions[i], |blocks[..n][d].transactions[i].outputs|) {
        var d, i :| 0 <= d < n && 0 <= i < |blocks[..n][d].transactions|
          && (key, point) in AddressRows(r, blocks[..n][d].transactions[i], |blocks[..n][d].transactions[i].outputs|);
        assert blocks[d] == blocks[..n][d];
      }
      if exists d, i | 0 <= d < |blocks| && 0 <= i < |blocks[d].transactions| ::
           (key, point) in AddressRows(r, blocks[d].transactions[i], |blocks[d].transactions[i].outputs|) {
        var d, i :| 0 <= d < |blocks| && 0 <= i < |blocks[d].transactions|
          && (key, point) in AddressRows(r, blocks[d].transactions[i], |blocks[d].transactions[i].outputs|);
        if d < n { assert blocks[d] == blocks[..n][d]; }
      }
    }
  }

  /** The address table lists an output under a key exactly when an output of the chain pays to it. */
  lemma AddressTableAnswers(r: Rules, chain: seq<Block>, key: Bytes, point: Point)
    ensures (key, point) in StoreOfChain(r, chain).addresses
            <==> key != [] && exists d: nat, i: nat, j: nat :: PaysAt(r, chain, d, i, j, key, point)
  {
    ChainAddress(r, 0, chain, key, point);
    assert StoreOfChain(r, chain).addresses == ChainRows(r, 0, chain).addresses;
    hide StoreOfChain;
    hide ChainRows;
    forall d, i | 0 <= d < |chain| && 0 <= i < |chain[d].transactions|
      ensures (key, point) in AddressRows(r, chain[d].transactions[i], |chain[d].transactions[i].outputs|)
              <==> key != [] && exists j: nat :: PaysAt(r, chain, d, i, j, key, point)
    {
      var tx := chain[d].transactions[i];
      TxAddress(r, tx, |tx.outputs|, key, point);
      hide AddressRows;
      if key != [] && exists j | 0 <= j < |tx.outputs| :: r.addressKey(tx.outputs[j].script) == key && point == Point(r.txHash(tx), j) {
        var j :| 0 <= j < |tx.outputs| && r.addressKey(tx.outputs[j].script) == key && point == Point(r.txHash(tx), j);
        assert PaysAt(r, chain, d, i, j, key, point);
      }
    }
  }
}
