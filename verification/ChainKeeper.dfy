/** `bdb_common` and `bdb_chain_keeper`: the tables, changed row by row. */
module ChainKeepers {
  import opened Types
  import opened BigNumber
  import opened Wire
  import opened Consensus
  import opened Tables

  function TotalWork(blocks: seq<Block>): nat {
    if blocks == [] then 0 else TotalWork(blocks[..|blocks| - 1]) + BlockWork(blocks[|blocks| - 1].bits)
  }

  /** None of the rows of the transaction is in the tables yet. */
  predicate FreshFor(r: Rules, s: Store, tx: Transaction) {
    r.txHash(tx) !in s.txs && SpendsFresh(SpendRows(r, tx), s.spends)
  }

  predicate SpendsFresh(rows: seq<(OutPoint, Point)>, spends: map<OutPoint, Point>) {
    DistinctKeys(rows) && KeySet(rows) !! spends.Keys
  }

  /** The tables with the rows of one more transaction. */
  function WithTransaction(r: Rules, s: Store, depth: nat, index: nat, tx: Transaction): Store {
    Store(s.blocks, s.txs[r.txHash(tx) := TxRow(ToRaw(tx), [(depth, index)])],
          s.spends + MapOf(SpendRows(r, tx)), s.addresses + AddressRows(r, tx, |tx.outputs|))
  }

  class ChainKeeper {
    const r: Rules
    var blocks: map<nat, BlockRow>
    var txs: map<Digest, TxRow>
    var spends: map<OutPoint, Point>
    var addresses: multiset<(Bytes, Point)>

    function Contents(): Store
      reads this
    {
      Store(blocks, txs, spends, addresses)
    }

    constructor (r: Rules)
      ensures this.r == r && Contents() == StoreOf(NO_ROWS)
    {
      this.r := r;
      blocks, txs, spends, addresses := map[], map[], map[], multiset{};
    }

    // ---- writing

    /** `dupli_save`: a second block with the same transaction is added to its parents. */
    method DupliSave(hash: Digest, depth: nat, index: nat) returns (saved: bool)
      requires hash in txs ==> Bip30Exempt(depth)
      modifies this`txs
      ensures saved == (hash in old(txs))
      ensures txs == if saved then old(txs)[hash := old(txs)[hash].(parents := old(txs)[hash].parents + [(depth, index)])]
                     else old(txs)
    {
      if hash !in txs { return false; }
      txs := txs[hash := txs[hash].(parents := txs[hash].parents + [(depth, index)])];
      return true;
    }

    /** `mark_spent_outputs` refuses to overwrite a spend. */
    method MarkSpent(output: OutPoint, input: Point) returns (ok: bool)
      modifies this`spends
      ensures ok == (output !in old(spends))
      ensures spends == if ok then old(spends)[output := input] else old(spends)
    {
      if output in spends { return false; }
      spends := spends[output := input];
      return true;
    }

    /** The inputs of a transaction one by one, unless it is a coinbase. */
    method MarkSpends(tx: Transaction) returns (ok: bool)
      modifies this`spends
      ensures SpendsFresh(SpendRows(r, tx), old(spends)) ==>
                ok && spends == old(spends) + MapOf(SpendRows(r, tx))
    {
      if IsCoinbase(tx) { return true; }
      ghost var rows := SpendRows(r, tx);
      for k := 0 to |tx.inputs|
        invariant SpendsFresh(rows, old(spends)) ==> spends == old(spends) + MapOf(rows[..k])
      {
        assert rows[..k + 1] == rows[..k] + [rows[k]];
        MapOfAppend(rows[..k], rows[k]);
        MapOfKeys(rows[..k], rows[k].0);
        assert rows[k].0 in KeySet(rows);
        var marked := MarkSpent(tx.inputs[k].previous, Point(r.txHash(tx), k));
        if !marked { return false; }
      }
      assert rows[..|rows|] == rows;
      return true;
    }

    method AddAddresses(tx: Transaction)
      modifies this`addresses
      ensures addresses == old(addresses) + AddressRows(r, tx, |tx.outputs|)
    {
      for j := 0 to |tx.outputs|
        invariant addresses == old(addresses) + AddressRows(r, tx, j)
      {
        var key := r.addressKey(tx.outputs[j].script);
        if key != [] {
          addresses := addresses + multiset{(key, Point(r.txHash(tx), j))};
        }
      }
    }

    method SaveTransaction(depth: nat, index: nat, tx: Transaction) returns (ok: bool)
      requires r.txHash(tx) in txs ==> Bip30Exempt(depth)
      modifies this`txs, this`spends, this`addresses
      ensures r.txHash(tx) in old(txs) ==>
                && ok && spends == old(spends) && addresses == old(addresses)
                && var row := old(txs)[r.txHash(tx)];
                   txs == old(txs)[r.txHash(tx) := row.(parents := row.parents + [(depth, index)])]
      ensures FreshFor(r, old(Contents()), tx) ==>
                ok && Contents() == WithTransaction(r, old(Contents()), depth, index, tx)
    {
      hide ToRaw;
      hide SpendRows;
      hide AddressRows;
      hide MapOf;
      hide SpendsFresh;
      var hash := r.txHash(tx);
      var saved := DupliSave(hash, depth, index);
      if saved { return true; }
      txs := txs[hash := TxRow(ToRaw(tx), [(depth, index)])];
      ok := MarkSpends(tx);
      if ok { AddAddresses(tx); }
    }

    method SaveTransactions(depth: nat, txList: seq<Transaction>, ghost rows: Rows) returns (ok: bool)
      requires Contents() == StoreOf(rows) && Clean(Join(rows, TxsRows(r, depth, 0, txList)))
      modifies this`txs, this`spends, this`addresses
      ensures ok && Contents() == StoreOf(Join(rows, TxsRows(r, depth, 0, txList)))
    {
      assert Join(rows, TxsRows(r, depth, 0, txList[..0])) == rows;
      hide TxsRows;
      hide StoreOf;
      hide Join;
      hide Clean;
      hide WithTransaction;
      for i := 0 to |txList|
        invariant Contents() == StoreOf(Join(rows, TxsRows(r, depth, 0, txList[..i])))
      {
        SaveStep(r, depth, txList, i, rows);
        var saved := SaveTransaction(depth, i, txList[i]);
        if !saved { return false; }
      }
      assert txList[..|txList|] == txList;
      return true;
    }

    /** `save_block`: the rows of every transaction, then the block row. */
    method SaveBlock(depth: nat, b: Block, ghost rows: Rows) returns (ok: bool)
      requires Contents() == StoreOf(rows) && Clean(Join(rows, BlockRows(r, depth, b)))
      modifies this`blocks, this`txs, this`spends, this`addresses
      ensures ok && Contents() == StoreOf(Join(rows, BlockRows(r, depth, b)))
    {
      ghost var front, header := TxsRows(r, depth, 0, b.transactions), HeaderRow(r, depth, b);
      JoinAssociative(rows, front, header);
      CleanPrefix(Join(rows, front), header);
      hide TxsRows;
      hide Clean;
      hide Join;
      var saved := SaveTransactions(depth, b.transactions, rows);
      if !saved { return false; }
      SaveHeader(r, depth, b, Join(rows, front));
      blocks := blocks[depth := BlockRow(HeaderOf(b), TxHashes(r, b.transactions))];
      return true;
    }

    // ---- removing

    /** The spend rows of a transaction, of which a coinbase has none. */
    method RemoveSpends(tx: Transaction)
      modifies this`spends
      ensures spends == old(spends) - KeySet(SpendRows(r, tx))
    {
      if IsCoinbase(tx) { return; }
      ghost var rows := SpendRows(r, tx);
      for k := 0 to |tx.inputs|
        invariant spends == old(spends) - KeySet(rows[..k])
      {
        spends := spends - {tx.inputs[k].previous};
        assert KeySet(rows[..k + 1]) == KeySet(rows[..k]) + {rows[k].0} by {
          assert forall i | 0 <= i < k :: rows[..k][i] == rows[..k + 1][i];
          assert rows[..k + 1][k] == rows[k];
        }
      }
      assert rows[..|rows|] == rows;
    }

    /** `remove_address` for every output; a row that is missing stops the removal. */
    method RemoveAddresses(tx: Transaction) returns (ok: bool)
      modifies this`addresses
      ensures HoldsAddresses(r, old(addresses), tx) ==>
                ok && addresses == old(addresses) - AddressRows(r, tx, |tx.outputs|)
    {
      ghost var held := HoldsAddresses(r, addresses, tx);
      hide *;
      AllThere(r, tx, addresses);
      for j := 0 to |tx.outputs|
        invariant held ==> Gone(r, tx, j, old(addresses), addresses)
      {
        ghost var before := addresses;
        ok := RemoveAddress(tx.outputs[j].script, Point(r.txHash(tx), j));
        if held { NextGone(r, tx, j, old(addresses), before, addresses, ok); }
        if !ok { return; }
      }
      if held { AllGone(r, tx, old(addresses), addresses); }
      return true;
    }

    /** `remove_address`: one entry of the address, if the script pays to one. */
    method RemoveAddress(script: Script, point: Point) returns (ok: bool)
      modifies this`addresses
      ensures EntryRemoved(r.addressKey(script), point, old(addresses), addresses, ok)
    {
      var key := r.addressKey(script);
      if key == [] { return true; }
      ok := (key, point) in addresses;
      addresses := addresses - multiset{(key, point)};
    }

    method ClearTransactionData(tx: Transaction) returns (ok: bool)
      modifies this`txs, this`spends, this`addresses
      ensures HoldsTransaction(r, old(Contents()), tx) ==>
                ok && Contents() == WithoutTransaction(r, old(Contents()), tx)
    {
      hide SpendRows;
      hide AddressRows;
      hide KeySet;
      if r.txHash(tx) !in txs { return false; }
      txs := txs - {r.txHash(tx)};
      RemoveSpends(tx);
      ok := RemoveAddresses(tx);
    }

    method ClearTransactions(ghost depth: nat, txList: seq<Transaction>, ghost before: Rows, ghost after: Rows) returns (ok: bool)
      requires Contents() == StoreOf(Join(before, Join(TxsRows(r, depth, 0, txList), after)))
      requires Clean(Join(before, Join(TxsRows(r, depth, 0, txList), after)))
      modifies this`txs, this`spends, this`addresses
      ensures ok && Contents() == StoreOf(Join(before, after)) && Clean(Join(before, after))
    {
      assert txList[0..] == txList && txList[|txList|..] == [];
      JoinEmpty(after);
      assert TxsRows(r, depth, |txList|, []) == NO_ROWS;
      hide StoreOf;
      hide Clean;
      hide Join;
      hide TxsRows;
      hide HoldsTransaction;
      hide WithoutTransaction;
      for i := 0 to |txList|
        invariant Contents() == StoreOf(Join(before, Join(TxsRows(r, depth, i, txList[i..]), after)))
        invariant Clean(Join(before, Join(TxsRows(r, depth, i, txList[i..]), after)))
      {
        ClearStep(r, depth, txList, i, before, after);
        var cleared := ClearTransactionData(txList[i]);
        if !cleared { return false; }
      }
      return true;
    }

    /** `reconstruct_block`: the header, and the transactions its hashes lead to. */
    method ReconstructBlock(row: BlockRow, ghost b: Block) returns (result: Outcome<Block>)
      requires row == BlockRow(HeaderOf(b), TxHashes(r, b.transactions)) && WellFormedBlock(b)
      requires forall i | 0 <= i < |b.transactions| ::
                 r.txHash(b.transactions[i]) in txs && txs[r.txHash(b.transactions[i])].raw == ToRaw(b.transactions[i])
      ensures result == Done(b)
    {
      hide ToRaw;
      hide FromRaw;
      var list: seq<Transaction> := [];
      for i := 0 to |row.hashes|
        invariant list == b.transactions[..i]
      {
        if row.hashes[i] !in txs { return Fail; }
        RecordRoundTrip(b.transactions[i]);
        var tx := FromRaw(txs[row.hashes[i]].raw);
        if !tx.Done? { return Undefined; }
        list := list + [tx.value];
      }
      assert list == b.transactions;
      return Done(WithTransactions(row.header, list));
    }

    /** One turn of the slicing loop: read the block at a depth back and delete its rows. */
    method SliceBlock(depth: nat, ghost b: Block, ghost before: Rows, ghost after: Rows) returns (result: Outcome<Block>)
      requires Contents() == StoreOf(Join(before, Join(BlockRows(r, depth, b), after)))
      requires Clean(Join(before, Join(BlockRows(r, depth, b), after))) && WellFormedBlock(b)
      modifies this`blocks, this`txs, this`spends, this`addresses
      ensures result == Done(b)
      ensures Contents() == StoreOf(Join(before, after)) && Clean(Join(before, after))
    {
      ghost var rows := Join(before, Join(BlockRows(r, depth, b), after));
      SliceFacts(r, depth, b, before, after);
      SliceHeader(r, depth, b, before, after);
      hide StoreOf;
      hide BlockRows;
      hide Join;
      hide Clean;
      if depth !in blocks { return Fail; }
      result := ReconstructBlock(blocks[depth], b);
      if !result.Done? { return; }
      blocks := blocks - {depth};
      var ok := ClearTransactions(depth, result.value.transactions, before, after);
      if !ok { return Fail; }
    }

    // ---- the chain as a whole

    /** The tables are those of the chain, and its rows do not overwrite one another. */
    ghost predicate Keeps(chain: seq<Block>)
      reads this
    {
      Contents() == StoreOfChain(r, chain) && Clean(ChainRows(r, 0, chain))
    }

    /** `find_last_block_depth`: the largest key, or the largest 32-bit number when there is none. */
    method FindLastBlockDepth(ghost chain: seq<Block>) returns (depth: uint32)
      requires Keeps(chain) && |chain| <= UINT32_MAX
      ensures depth == if chain == [] then UINT32_MAX else |chain| - 1
    {
      ChainBlockTable(r, chain);
      hide StoreOfChain;
      hide Clean;
      if blocks == map[] {
        assert 0 !in blocks;
        return UINT32_MAX;
      }
      var some :| some in blocks;
      assert |chain| - 1 in blocks;
      var last :| last in blocks && forall k | k in blocks :: k <= last;
      return last;
    }

    /** `add`: the block goes one above the last one. */
    method Add(b: Block, ghost chain: seq<Block>) returns (ok: bool)
      requires Keeps(chain) && |chain| < UINT32_MAX && Clean(ChainRows(r, 0, chain + [b]))
      modifies this`blocks, this`txs, this`spends, this`addresses
      ensures ok && Keeps(chain + [b])
    {
      ghost var longer := chain + [b];
      assert longer[..|chain|] == chain && longer[|chain|] == b;
      assert ChainRows(r, 0, longer) == Join(ChainRows(r, 0, chain), BlockRows(r, |chain|, b));
      hide ChainRows;
      hide BlockRows;
      hide Clean;
      hide StoreOf;
      hide Join;
      var last: nat := FindLastBlockDepth(chain);
      var next: nat := if last == UINT32_MAX then 0 else last + 1;
      ok := SaveBlock(next, b, ChainRows(r, 0, chain));
    }

    /** `find_index`: the depth of a block with the hash, or -1. */
    method FindIndex(hash: Digest, ghost chain: seq<Block>) returns (index: int)
      requires Keeps(chain)
      ensures -1 <= index < |chain|
      ensures index >= 0 ==> BlockHash(r, chain[index]) == hash
      ensures index == -1 ==> forall d | 0 <= d < |chain| :: BlockHash(r, chain[d]) != hash
    {
      ChainBlockTable(r, chain);
      hide StoreOfChain;
      hide Clean;
      hide TxHashes;
      if d :| d in blocks && r.headerHash(blocks[d].header) == hash {
        return d;
      }
      forall d | 0 <= d < |chain|
        ensures BlockHash(r, chain[d]) != hash
      {
        assert d in blocks;
      }
      return -1;
    }

    /** `end_slice_difficulty`: the work of the blocks from a depth on. */
    method EndSliceDifficulty(begin: nat, ghost chain: seq<Block>) returns (work: nat)
      requires Keeps(chain) && begin <= |chain|
      ensures work == TotalWork(chain[begin..])
    {
      hide *;
      KeepsParts(this, chain);
      work := 0;
      var d := begin;
      WorkSlice(chain, begin, d);
      TableStep(r, chain, d, blocks);
      while d in blocks
        invariant begin <= d <= |chain| && (d in blocks <==> d < |chain|)
        invariant work == TotalWork(chain[begin..d])
        decreases |chain| - d
      {
        TableStep(r, chain, d, blocks);
        WorkSlice(chain, begin, d);
        work := work + BlockWork(blocks[d].header.bits);
        d := d + 1;
        TableStep(r, chain, d, blocks);
      }
      assert chain[begin..d] == chain[begin..];
    }

    /** `end_slice`: the blocks from a depth on, in order; the tables are left as if they had never
        been there. */
    method EndSlice(begin: nat, ghost chain: seq<Block>) returns (ok: bool, sliced: seq<Block>)
      requires Keeps(chain) && begin <= |chain|
      requires forall d | 0 <= d < |chain| :: WellFormedBlock(chain[d])
      modifies this`blocks, this`txs, this`spends, this`addresses
      ensures ok && sliced == chain[begin..] && Keeps(chain[..begin])
    {
      hide StoreOf;
      hide Clean;
      hide Join;
      hide WellFormedBlock;
      hide BlockRows;
      ghost var front := ChainRows(r, 0, chain[..begin]);
      ChainRowsSplit(r, 0, chain, begin);
      sliced := [];
      var d := begin;
      HoleKeys(r, chain, begin, d);
      while d in blocks
        invariant begin <= d <= |chain| && sliced == chain[begin..d]
        invariant d in blocks <==> d < |chain|
        invariant Contents() == StoreOf(Join(front, ChainRows(r, d, chain[d..])))
        invariant Clean(Join(front, ChainRows(r, d, chain[d..])))
        decreases |chain| - d
      {
        ChainRowsFront(r, d, chain[d..]);
        assert chain[d..][1..] == chain[d + 1..];
        var one := SliceBlock(d, chain[d], front, ChainRows(r, d + 1, chain[d + 1..]));
        if !one.Done? { return false, sliced; }
        sliced := sliced + [one.value];
        d := d + 1;
        HoleKeys(r, chain, begin, d);
      }
      JoinEmpty(front);
      assert chain[d..] == [];
      return true, sliced;
    }
  }

  predicate EntryRemoved(key: Bytes, point: Point, before: multiset<(Bytes, Point)>, after: multiset<(Bytes, Point)>, ok: bool) {
    if key == [] then ok && after == before
    else ok == ((key, point) in before) && after == before - multiset{(key, point)}
  }

  /** The rows of the first outputs have been taken away. */
  predicate Gone(r: Rules, tx: Transaction, j: nat, all: multiset<(Bytes, Point)>, now: multiset<(Bytes, Point)>)
    requires j <= |tx.outputs|
  {
    now == all - AddressRows(r, tx, j)
  }

  lemma AllThere(r: Rules, tx: Transaction, all: multiset<(Bytes, Point)>)
    ensures Gone(r, tx, 0, all, all)
  {
  }

  lemma AllGone(r: Rules, tx: Transaction, all: multiset<(Bytes, Point)>, now: multiset<(Bytes, Point)>)
    requires Gone(r, tx, |tx.outputs|, all, now)
    ensures now == all - AddressRows(r, tx, |tx.outputs|)
  {
    hide AddressRows;
  }

  lemma NextGone(r: Rules, tx: Transaction, j: nat, all: multiset<(Bytes, Point)>,
                 before: multiset<(Bytes, Point)>, after: multiset<(Bytes, Point)>, ok: bool)
    requires j < |tx.outputs| && HoldsAddresses(r, all, tx) && Gone(r, tx, j, all, before)
    requires EntryRemoved(r.addressKey(tx.outputs[j].script), Point(r.txHash(tx), j), before, after, ok)
    ensures ok && Gone(r, tx, j + 1, all, after)
  {
    hide AddressRows;
    NextAddress(r, tx, j, all);
  }

  /** The next output takes its own row away, or none. */
  lemma NextAddress(r: Rules, tx: Transaction, j: nat, all: multiset<(Bytes, Point)>)
    requires j < |tx.outputs| && HoldsAddresses(r, all, tx)
    ensures var key := r.addressKey(tx.outputs[j].script);
            var row, rest := (key, Point(r.txHash(tx), j)), all - AddressRows(r, tx, j);
            if key == [] then AddressRows(r, tx, j + 1) == AddressRows(r, tx, j)
            else row in rest && rest - multiset{row} == all - AddressRows(r, tx, j + 1)
  {
    var key := r.addressKey(tx.outputs[j].script);
    AddressRowsGrow(r, tx, j + 1, |tx.outputs|);
    if key != [] {
      var row, done := (key, Point(r.txHash(tx), j)), AddressRows(r, tx, j);
      assert AddressRows(r, tx, j + 1) == done + multiset{row};
      hide AddressRows;
      TakeAway(all, done, row);
    }
  }

  /** A slice undoes its adds: adding the sliced blocks again restores every table. */
  method SliceAndRestore(keeper: ChainKeeper, begin: nat, ghost chain: seq<Block>)
    requires keeper.Keeps(chain) && begin <= |chain| <= UINT32_MAX
    requires forall d | 0 <= d < |chain| :: WellFormedBlock(chain[d])
    modifies keeper
    ensures keeper.Contents() == old(keeper.Contents())
  {
    hide *;
    KeepsParts(keeper, chain);
    var _, sliced := keeper.EndSlice(begin, chain);
    var i := 0;
    while i < |sliced|
      invariant i <= |sliced| && keeper.Keeps(chain[..begin + i])
    {
      NextBlock(keeper.r, chain, begin + i);
      var _ := keeper.Add(sliced[i], chain[..begin + i]);
      i := i + 1;
    }
    assert chain[..begin + i] == chain;
    KeepsParts(keeper, chain);
  }

  lemma NextBlock(r: Rules, chain: seq<Block>, d: nat)
    requires d < |chain| && Clean(ChainRows(r, 0, chain))
    ensures chain[..d] + [chain[d]] == chain[..d + 1] && Clean(ChainRows(r, 0, chain[..d + 1]))
  {
    hide Clean;
    hide ChainRows;
    CleanFront(r, chain, d + 1);
  }

  lemma WorkSlice(chain: seq<Block>, begin: nat, d: nat)
    requires begin <= d <= |chain|
    ensures TotalWork(chain[begin..begin]) == 0
    ensures d < |chain| ==> TotalWork(chain[begin..d + 1]) == TotalWork(chain[begin..d]) + BlockWork(chain[d].bits)
  {
    hide BlockWork;
    if d < |chain| { assert chain[begin..d + 1][..d - begin] == chain[begin..d]; }
  }

  lemma TableStep(r: Rules, chain: seq<Block>, d: nat, m: map<nat, BlockRow>)
    requires m == StoreOfChain(r, chain).blocks
    ensures d in m <==> d < |chain|
    ensures d < |chain| ==> m[d].header.bits == chain[d].bits
  {
    ChainBlockTable(r, chain);
    hide StoreOfChain;
    hide TxHashes;
  }

  lemma KeepsParts(keeper: ChainKeeper, chain: seq<Block>)
    requires keeper.Keeps(chain)
    ensures keeper.Contents() == StoreOfChain(keeper.r, chain) && keeper.blocks == StoreOfChain(keeper.r, chain).blocks
    ensures Clean(ChainRows(keeper.r, 0, chain))
  {
    hide StoreOfChain;
    hide Clean;
  }

  lemma CleanFront(r: Rules, chain: seq<Block>, n: nat)
    requires n <= |chain| && Clean(ChainRows(r, 0, chain))
    ensures Clean(ChainRows(r, 0, chain[..n]))
  {
    hide Clean;
    hide ChainRows;
    ChainRowsSplit(r, 0, chain, n);
    CleanPrefix(ChainRows(r, 0, chain[..n]), ChainRows(r, n, chain[n..]));
  }

  function HeaderRows(r: Rules, base: nat, blocks: seq<Block>): (rows: seq<(nat, BlockRow)>)
    ensures |rows| == |blocks|
    ensures forall i | 0 <= i < |blocks| ::
              rows[i] == (base + i, BlockRow(HeaderOf(blocks[i]), TxHashes(r, blocks[i].transactions)))
  {
    seq(|blocks|, i requires 0 <= i < |blocks| =>
      (base + i, BlockRow(HeaderOf(blocks[i]), TxHashes(r, blocks[i].transactions))))
  }

  lemma OneHeader(r: Rules, depth: nat, b: Block)
    ensures BlockRows(r, depth, b).blocks == [(depth, BlockRow(HeaderOf(b), TxHashes(r, b.transactions)))]
  {
    TxsRowsShape(r, depth, 0, b.transactions);
    hide TxsRows;
  }

  lemma {:induction false} ChainBlockRows(r: Rules, base: nat, blocks: seq<Block>)
    ensures ChainRows(r, base, blocks).blocks == HeaderRows(r, base, blocks)
  {
    hide BlockRows;
    hide TxHashes;
    if blocks != [] {
      var n := |blocks| - 1;
      ChainBlockRows(r, base, blocks[..n]);
      OneHeader(r, base + n, blocks[n]);
      assert HeaderRows(r, base, blocks) == HeaderRows(r, base, blocks[..n])
          + [(base + n, BlockRow(HeaderOf(blocks[n]), TxHashes(r, blocks[n].transactions)))];
    }
  }

  lemma HeaderRowKeys(r: Rules, base: nat, blocks: seq<Block>, d: nat)
    ensures d in MapOf(HeaderRows(r, base, blocks)) <==> base <= d < base + |blocks|
    ensures base <= d < base + |blocks| ==>
              MapOf(HeaderRows(r, base, blocks))[d]
              == BlockRow(HeaderOf(blocks[d - base]), TxHashes(r, blocks[d - base].transactions))
  {
    hide TxHashes;
    hide MapOf;
    var rows := HeaderRows(r, base, blocks);
    MapOfKeys(rows, d);
    if base <= d < base + |blocks| {
      assert rows[d - base].0 == d;
      MapOfAt(rows, d - base);
    }
  }

  /** The block table holds exactly the depths of the chain, each with its own header. */
  ghost predicate BlockTableOf(r: Rules, m: map<nat, BlockRow>, chain: seq<Block>) {
    && (forall d: nat {:trigger d in m} :: d in m <==> d < |chain|)
    && (forall d: nat {:trigger m[d]} | d < |chain| ::
          m[d] == BlockRow(HeaderOf(chain[d]), TxHashes(r, chain[d].transactions)))
  }

  lemma ChainBlockTable(r: Rules, chain: seq<Block>)
    ensures BlockTableOf(r, StoreOfChain(r, chain).blocks, chain)
  {
    ChainBlockRows(r, 0, chain);
    HeaderTable(r, chain);
    hide BlockTableOf;
    hide ChainRows;
    hide HeaderRows;
  }

  lemma HeaderTable(r: Rules, chain: seq<Block>)
    ensures BlockTableOf(r, MapOf(HeaderRows(r, 0, chain)), chain)
  {
    hide HeaderRows;
    hide MapOf;
    hide TxHashes;
    forall d: nat
      ensures d in MapOf(HeaderRows(r, 0, chain)) <==> d < |chain|
      ensures d < |chain| ==>
                MapOf(HeaderRows(r, 0, chain))[d] == BlockRow(HeaderOf(chain[d]), TxHashes(r, chain[d].transactions))
    {
      HeaderRowKeys(r, 0, chain, d);
    }
  }

  /** While a slice is taken off, the next depth is in the table exactly when a block is left. */
  lemma HoleKeys(r: Rules, chain: seq<Block>, begin: nat, d: nat)
    requires begin <= d <= |chain|
    ensures d in StoreOf(Join(ChainRows(r, 0, chain[..begin]), ChainRows(r, d, chain[d..]))).blocks <==> d < |chain|
  {
    ChainBlockRows(r, 0, chain[..begin]);
    ChainBlockRows(r, d, chain[d..]);
    hide ChainRows;
    hide MapOf;
    MapOfJoin(HeaderRows(r, 0, chain[..begin]), HeaderRows(r, d, chain[d..]));
    HeaderRowKeys(r, 0, chain[..begin], d);
    HeaderRowKeys(r, d, chain[d..], d);
  }

  predicate HoldsTransaction(r: Rules, s: Store, tx: Transaction) {
    r.txHash(tx) in s.txs && HoldsAddresses(r, s.addresses, tx)
  }

  /** Every addressed output of the transaction has its own entry. */
  predicate HoldsAddresses(r: Rules, addresses: multiset<(Bytes, Point)>, tx: Transaction) {
    AddressRows(r, tx, |tx.outputs|) <= addresses
  }

  /** The tables without the rows of one transaction. */
  function WithoutTransaction(r: Rules, s: Store, tx: Transaction): Store {
    Store(s.blocks, s.txs - {r.txHash(tx)}, s.spends - KeySet(SpendRows(r, tx)),
          s.addresses - AddressRows(r, tx, |tx.outputs|))
  }

  lemma TakeAway<T>(all: multiset<T>, done: multiset<T>, row: T)
    requires done + multiset{row} <= all
    ensures row in all - done && (all - done) - multiset{row} == all - (done + multiset{row})
  {
    assert (done + multiset{row})[row] <= all[row];
  }

  lemma {:induction false} AddressRowsGrow(r: Rules, tx: Transaction, j: nat, n: nat)
    requires j <= n <= |tx.outputs|
    ensures AddressRows(r, tx, j) <= AddressRows(r, tx, n)
    decreases n
  {
    if j < n { AddressRowsGrow(r, tx, j, n - 1); }
  }

  /** Taking one transaction out of the middle of clean rows. */
  lemma RemoveMiddle(r: Rules, before: Rows, depth: nat, index: nat, tx: Transaction, after: Rows)
    requires Clean(Join(before, Join(TxRows(r, depth, index, tx), after)))
    ensures var s := StoreOf(Join(before, Join(TxRows(r, depth, index, tx), after)));
            && HoldsTransaction(r, s, tx)
            && WithoutTransaction(r, s, tx) == StoreOf(Join(before, after))
    ensures Clean(Join(before, after))
  {
    hide ToRaw;
    hide AddressRows;
    var one := TxRows(r, depth, index, tx);
    var all := Join(before, Join(one, after));
    assert all.blocks == before.blocks + after.blocks;
    assert all.txs == before.txs + [one.txs[0]] + after.txs;
    MapOfRemove(before.txs, one.txs[0], after.txs);
    assert all.txs[|before.txs|] == one.txs[0];
    MapOfAt(all.txs, |before.txs|);
    assert all.spends == before.spends + one.spends + after.spends;
    MapOfRemoveAll(before.spends, one.spends, after.spends);
  }

  lemma ClearStep(r: Rules, depth: nat, txs: seq<Transaction>, i: nat, before: Rows, after: Rows)
    requires i < |txs| && Clean(Join(before, Join(TxsRows(r, depth, i, txs[i..]), after)))
    ensures var s := StoreOf(Join(before, Join(TxsRows(r, depth, i, txs[i..]), after)));
            var rest := Join(before, Join(TxsRows(r, depth, i + 1, txs[i + 1..]), after));
            && HoldsTransaction(r, s, txs[i]) && WithoutTransaction(r, s, txs[i]) == StoreOf(rest)
            && Clean(rest)
  {
    TxsRowsFront(r, depth, i, txs[i..]);
    assert txs[i..][1..] == txs[i + 1..];
    var tail := TxsRows(r, depth, i + 1, txs[i + 1..]);
    JoinAssociative(TxRows(r, depth, i, txs[i]), tail, after);
    hide *;
    RemoveMiddle(r, before, depth, i, txs[i], Join(tail, after));
  }

  lemma {:induction false} TxsRowsShape(r: Rules, depth: nat, base: nat, txs: seq<Transaction>)
    ensures TxsRows(r, depth, base, txs).blocks == [] && |TxsRows(r, depth, base, txs).txs| == |txs|
    ensures forall i | 0 <= i < |txs| ::
              TxsRows(r, depth, base, txs).txs[i] == (r.txHash(txs[i]), TxRow(ToRaw(txs[i]), [(depth, base + i)]))
  {
    hide ToRaw;
    hide SpendRows;
    hide AddressRows;
    if txs != [] { TxsRowsShape(r, depth, base, txs[..|txs| - 1]); }
  }

  lemma MiddleRow<K, V>(a: seq<(K, V)>, b: seq<(K, V)>, c: seq<(K, V)>, i: nat)
    requires DistinctKeys(a + (b + c)) && i < |b|
    ensures b[i].0 in MapOf(a + (b + c)) && MapOf(a + (b + c))[b[i].0] == b[i].1
  {
    assert (a + (b + c))[|a| + i] == b[i];
    MapOfAt(a + (b + c), |a| + i);
  }

  /** What the tables say about a block in their middle. */
  lemma SliceFacts(r: Rules, depth: nat, b: Block, before: Rows, after: Rows)
    requires Clean(Join(before, Join(BlockRows(r, depth, b), after)))
    ensures var s := StoreOf(Join(before, Join(BlockRows(r, depth, b), after)));
            && depth in s.blocks && s.blocks[depth] == BlockRow(HeaderOf(b), TxHashes(r, b.transactions))
            && (forall i | 0 <= i < |b.transactions| ::
                  r.txHash(b.transactions[i]) in s.txs && s.txs[r.txHash(b.transactions[i])].raw == ToRaw(b.transactions[i]))
  {
    hide ToRaw;
    hide MapOf;
    TxsRowsShape(r, depth, 0, b.transactions);
    hide TxsRows;
    hide DistinctKeys;
    var rows := BlockRows(r, depth, b);
    assert rows.txs == TxsRows(r, depth, 0, b.transactions).txs;
    MiddleRow(before.blocks, rows.blocks, after.blocks, 0);
    forall i | 0 <= i < |b.transactions|
      ensures rows.txs[i].0 in MapOf(before.txs + (rows.txs + after.txs))
      ensures MapOf(before.txs + (rows.txs + after.txs))[rows.txs[i].0] == rows.txs[i].1
    {
      MiddleRow(before.txs, rows.txs, after.txs, i);
    }
  }

  lemma HeaderOut(before: Rows, front: Rows, header: (nat, BlockRow), after: Rows)
    requires front.blocks == []
    requires Clean(Join(before, Join(Join(front, Rows([header], [], [], multiset{})), after)))
    ensures var s := StoreOf(Join(before, Join(Join(front, Rows([header], [], [], multiset{})), after)));
            var rest := Join(before, Join(front, after));
            s.(blocks := s.blocks - {header.0}) == StoreOf(rest) && Clean(rest)
  {
    var all, rest := Join(before, Join(Join(front, Rows([header], [], [], multiset{})), after)), Join(before, Join(front, after));
    assert all.blocks == before.blocks + [header] + after.blocks;
    MapOfRemove(before.blocks, header, after.blocks);
    hide MapOf;
    assert rest.blocks == before.blocks + after.blocks;
    assert all.txs == rest.txs && all.spends == rest.spends && all.addresses == rest.addresses;
  }

  /** What is left of the tables without the header of a block in their middle. */
  lemma SliceHeader(r: Rules, depth: nat, b: Block, before: Rows, after: Rows)
    requires Clean(Join(before, Join(BlockRows(r, depth, b), after)))
    ensures var s := StoreOf(Join(before, Join(BlockRows(r, depth, b), after)));
            var rest := Join(before, Join(TxsRows(r, depth, 0, b.transactions), after));
            s.(blocks := s.blocks - {depth}) == StoreOf(rest) && Clean(rest)
  {
    var front, header := TxsRows(r, depth, 0, b.transactions), HeaderRow(r, depth, b).blocks[0];
    TxsRowsShape(r, depth, 0, b.transactions);
    hide TxsRows;
    HeaderOut(before, front, header, after);
  }

  // ---- how saving extends clean rows

  lemma JoinTransaction(r: Rules, done: Rows, depth: nat, index: nat, tx: Transaction)
    requires Clean(Join(done, TxRows(r, depth, index, tx)))
    ensures FreshFor(r, StoreOf(done), tx)
    ensures StoreOf(Join(done, TxRows(r, depth, index, tx))) == WithTransaction(r, StoreOf(done), depth, index, tx)
  {
    hide ToRaw;
    hide AddressRows;
    var one := TxRows(r, depth, index, tx);
    FreshKeys(done.txs, one.txs);
    FreshKeys(done.spends, one.spends);
    hide DistinctKeys;
    MapOfAppend(done.txs, one.txs[0]);
    MapOfJoin(done.spends, one.spends);
    assert done.blocks + [] == done.blocks;
    assert one.txs[0].0 in KeySet(one.txs);
  }

  /** What saving one more transaction does to the tables of clean rows. */
  lemma SaveStep(r: Rules, depth: nat, txs: seq<Transaction>, i: nat, rows: Rows)
    requires i < |txs| && Clean(Join(rows, TxsRows(r, depth, 0, txs)))
    ensures var before := StoreOf(Join(rows, TxsRows(r, depth, 0, txs[..i])));
            && FreshFor(r, before, txs[i])
            && StoreOf(Join(rows, TxsRows(r, depth, 0, txs[..i + 1]))) == WithTransaction(r, before, depth, i, txs[i])
  {
    CleanUpTo(r, depth, txs, i + 1, rows);
    assert txs[..i + 1][..i] == txs[..i];
    JoinAssociative(rows, TxsRows(r, depth, 0, txs[..i]), TxRows(r, depth, i, txs[i]));
    hide TxRows;
    assert TxsRows(r, depth, 0, txs[..i + 1]) == Join(TxsRows(r, depth, 0, txs[..i]), TxRows(r, depth, i, txs[i]));
    hide *;
    JoinTransaction(r, Join(rows, TxsRows(r, depth, 0, txs[..i])), depth, i, txs[i]);
  }

  lemma FreshKeys<K, V>(a: seq<(K, V)>, b: seq<(K, V)>)
    requires DistinctKeys(a + b)
    ensures DistinctKeys(b) && KeySet(b) !! MapOf(a).Keys
  {
    assert (a + b)[|a|..] == b;
    forall key | key in MapOf(a)
      ensures key !in KeySet(b)
    {
      MapOfKeys(a, key);
      var i :| 0 <= i < |a| && a[i].0 == key;
      assert forall j | 0 <= j < |b| :: (a + b)[i] == a[i] && (a + b)[|a| + j] == b[j];
    }
  }

  lemma {:induction false} CleanUpTo(r: Rules, depth: nat, txs: seq<Transaction>, i: nat, rows: Rows)
    requires i <= |txs| && Clean(Join(rows, TxsRows(r, depth, 0, txs)))
    ensures Clean(Join(rows, TxsRows(r, depth, 0, txs[..i])))
    decreases |txs|
  {
    hide TxRows;
    hide Clean;
    if i == |txs| {
      assert txs[..i] == txs;
    } else {
      var n := |txs| - 1;
      JoinAssociative(rows, TxsRows(r, depth, 0, txs[..n]), TxRows(r, depth, n, txs[n]));
      CleanPrefix(Join(rows, TxsRows(r, depth, 0, txs[..n])), TxRows(r, depth, n, txs[n]));
      CleanUpTo(r, depth, txs[..n], i, rows);
      assert txs[..n][..i] == txs[..i];
    }
  }

  lemma SaveHeader(r: Rules, depth: nat, b: Block, rows: Rows)
    ensures var before := StoreOf(rows);
            StoreOf(Join(rows, HeaderRow(r, depth, b)))
            == before.(blocks := before.blocks[depth := BlockRow(HeaderOf(b), TxHashes(r, b.transactions))])
  {
    MapOfAppend(rows.blocks, HeaderRow(r, depth, b).blocks[0]);
    assert rows.txs + [] == rows.txs && rows.spends + [] == rows.spends && rows.addresses + multiset{} == rows.addresses;
  }
}
