/** `block_detail` and `orphans_pool`: blocks that are not in the main chain, in a buffer that drops its
    oldest entry when it is full. */
module OrphansPools {
  import opened Types
  import opened Consensus
  import opened Reorganization

  datatype Status = Orphan | Confirmed | Rejected
  datatype Info = Info(status: Status, depth: nat)

  class BlockDetail {
    const actual: Block
    const hash: Digest
    var processed: bool
    var info: Info
    var errc: Verdict

    constructor (r: Rules, actual: Block)
      ensures this.actual == actual && hash == BlockHash(r, actual)
      ensures !processed && info == Info(Orphan, 0) && errc == Ok
    {
      this.actual, this.hash := actual, BlockHash(r, actual);
      processed, info, errc := false, Info(Orphan, 0), Ok;
    }

    method MarkProcessed()
      modifies this`processed
      ensures processed
    {
      processed := true;
    }
  }

  function Actuals(details: seq<BlockDetail>): (blocks: seq<Block>)
    ensures |blocks| == |details|
    ensures forall i | 0 <= i < |blocks| :: blocks[i] == details[i].actual
  {
    seq(|details|, i requires 0 <= i < |details| => details[i].actual)
  }

  predicate Hashed(r: Rules, details: seq<BlockDetail>) {
    forall i | 0 <= i < |details| :: details[i].hash == BlockHash(r, details[i].actual)
  }

  /** The details still to be processed, in order. */
  ghost function Pending(details: seq<BlockDetail>): seq<BlockDetail>
    reads details
  {
    if details == [] then []
    else Pending(details[..|details| - 1]) + if details[|details| - 1].processed then [] else [details[|details| - 1]]
  }

  lemma {:induction false} PendingMember(details: seq<BlockDetail>, d: BlockDetail)
    ensures d in Pending(details) <==> d in details && !d.processed
  {
    if details != [] { PendingMember(details[..|details| - 1], d); }
  }

  lemma PendingNone(details: seq<BlockDetail>)
    requires forall d | d in details :: d.processed
    ensures Pending(details) == []
  {
    if Pending(details) != [] { PendingMember(details, Pending(details)[0]); }
  }

  lemma PendingNewest(details: seq<BlockDetail>, detail: BlockDetail, capacity: nat)
    requires capacity > 0 && !detail.processed && forall d | d in details :: d.processed
    ensures Pending(PushBack(details, detail, capacity)) == [detail]
  {
    var all := PushBack(details, detail, capacity);
    var n := |all| - 1;
    assert all[n] == detail && forall d | d in all[..n] :: d in details;
    PendingNone(all[..n]);
  }

  class OrphansPool {
    const capacity: nat
    var pool: seq<BlockDetail>

    constructor (capacity: nat)
      ensures this.capacity == capacity && pool == []
    {
      this.capacity := capacity;
      pool := [];
    }

    /** Blocks are compared by header. */
    method Add(incoming: BlockDetail) returns (added: bool)
      modifies this
      ensures added <==> !HasHeader(Actuals(old(pool)), HeaderOf(incoming.actual))
      ensures pool == if added then PushBack(old(pool), incoming, capacity) else old(pool)
      ensures Actuals(pool) == AddTo(Actuals(old(pool)), incoming.actual, capacity)
    {
      for i := 0 to |pool|
        invariant forall j | 0 <= j < i :: HeaderOf(pool[j].actual) != HeaderOf(incoming.actual)
      {
        if HeaderOf(pool[i].actual) == HeaderOf(incoming.actual) {
          assert HeaderOf(Actuals(pool)[i]) == HeaderOf(incoming.actual);
          return false;
        }
      }
      pool := PushBack(pool, incoming, capacity);
      return true;
    }

    method FindByHash(hash: Digest) returns (i: nat)
      ensures i <= |pool| && (i < |pool| ==> pool[i].hash == hash)
      ensures i == |pool| ==> forall j | 0 <= j < |pool| :: pool[j].hash != hash
    {
      i := 0;
      while i < |pool| && pool[i].hash != hash
        invariant i <= |pool| && forall j | 0 <= j < i :: pool[j].hash != hash
      {
        i := i + 1;
      }
    }

    /** `trace`: follows previous hashes down through the pool; it ends because hashes have no cycle. */
    method Trace(end: BlockDetail, ghost s: Setting) returns (traced: seq<BlockDetail>)
      requires Hashed(s.r, pool) && Known(s, Actuals(pool)) && Acyclic(s) && end.actual in s.universe
      ensures traced != [] && traced[|traced| - 1] == end
      ensures forall j | 0 <= j < |traced| - 1 :: traced[j] in pool
      ensures Traced(s.r, Actuals(pool), end.actual, Actuals(traced))
    {
      var back := [end];
      var i: nat := FindByHash(end.actual.previous);
      while i < |pool|
        invariant back != [] && back[0] == end && back[|back| - 1].actual in s.universe
        invariant forall j | 1 <= j < |back| :: back[j] in pool
        invariant Linked(s.r, Actuals(Reversed(back)))
        invariant i <= |pool| && (i < |pool| ==> pool[i].hash == back[|back| - 1].actual.previous)
        invariant i == |pool| ==> forall j | 0 <= j < |pool| :: pool[j].hash != back[|back| - 1].actual.previous
        decreases s.rank(back[|back| - 1].actual.previous), |pool| - i
      {
        assert Actuals(pool)[i] in s.universe;
        LinkedBack(s.r, back, pool[i]);
        back := back + [pool[i]];
        i := FindByHash(back[|back| - 1].actual.previous);
      }
      traced := Reversed(back);
      TracedBack(s.r, pool, back);
    }

    method Unprocessed() returns (list: seq<BlockDetail>)
      ensures list == Reversed(Pending(pool))
    {
      list := [];
      for i := 0 to |pool|
        invariant list == Pending(pool[..i])
      {
        assert pool[..i + 1][..i] == pool[..i];
        if !pool[i].processed { list := list + [pool[i]]; }
      }
      assert pool[..|pool|] == pool;
      list := Reversed(list);
    }

    /** The node never asks for a block that is not there. */
    method Remove(detail: BlockDetail, ghost r: Rules)
      requires detail in pool && DistinctHashes(r, Actuals(pool))
      modifies this
      ensures Actuals(pool) == Without(Actuals(old(pool)), [detail.actual])
      ensures DistinctHashes(r, Actuals(pool))
      ensures forall d :: d in pool <==> d in old(pool) && d != detail
    {
      ghost var before := pool;
      var at := 0;
      while pool[at] != detail
        invariant at < |pool| && detail in pool[at..]
        decreases |pool| - at
      {
        at := at + 1;
      }
      pool := pool[..at] + pool[at + 1..];
      TakenOut(r, before, at);
    }
  }

  lemma TakenOut(r: Rules, details: seq<BlockDetail>, at: nat)
    requires at < |details| && DistinctHashes(r, Actuals(details))
    ensures var rest := details[..at] + details[at + 1..];
            && Actuals(rest) == Without(Actuals(details), [details[at].actual])
            && DistinctHashes(r, Actuals(rest))
            && forall d :: d in rest <==> d in details && d != details[at]
  {
    var rest, blocks := details[..at] + details[at + 1..], Actuals(details);
    WithoutOne(r, blocks, at);
    WithoutDistinct(r, blocks, [blocks[at]]);
    hide Without;
    assert Actuals(rest) == blocks[..at] + blocks[at + 1..];
    OthersStay(r, details, at);
  }

  lemma OthersStay(r: Rules, details: seq<BlockDetail>, at: nat)
    requires at < |details| && DistinctHashes(r, Actuals(details))
    ensures forall d :: d in details[..at] + details[at + 1..] <==> d in details && d != details[at]
  {
    hide BlockHash;
    var rest, blocks := details[..at] + details[at + 1..], Actuals(details);
    forall d
      ensures d in rest <==> d in details && d != details[at]
    {
      if d in details && d != details[at] {
        var i :| 0 <= i < |details| && details[i] == d;
        assert rest[if i < at then i else i - 1] == d;
      }
      if d in rest {
        var i :| 0 <= i < |rest| && rest[i] == d;
        var k := if i < at then i else i + 1;
        assert details[k] == d;
        assert BlockHash(r, blocks[k]) != BlockHash(r, blocks[at]);
      }
    }
  }

  lemma ActualIn(details: seq<BlockDetail>, d: BlockDetail)
    requires d in details
    ensures d.actual in Actuals(details)
  {
    var p :| 0 <= p < |details| && details[p] == d;
    assert Actuals(details)[p] == d.actual;
  }

  lemma LinkedFront(r: Rules, b: Block, blocks: seq<Block>)
    requires blocks != [] && Linked(r, blocks) && blocks[0].previous == BlockHash(r, b)
    ensures Linked(r, [b] + blocks)
  {
    hide BlockHash;
    var all := [b] + blocks;
    forall j | 0 < j < |all|
      ensures all[j].previous == BlockHash(r, all[j - 1])
    {
      assert all[j] == blocks[j - 1];
      if j > 1 { assert all[j - 1] == blocks[j - 2] && blocks[j - 1].previous == BlockHash(r, blocks[j - 2]); }
    }
  }

  lemma ActualsFront(d: BlockDetail, details: seq<BlockDetail>)
    ensures Actuals([d] + details) == [d.actual] + Actuals(details)
  {
  }

  lemma ActualsReversed(back: seq<BlockDetail>)
    requires back != []
    ensures Actuals(Reversed(back))[0] == back[|back| - 1].actual
  {
    hide Reversed;
  }

  /** One more block at the bottom of a branch. */
  lemma LinkedBack(r: Rules, back: seq<BlockDetail>, d: BlockDetail)
    requires back != [] && Linked(r, Actuals(Reversed(back)))
    requires back[|back| - 1].actual.previous == BlockHash(r, d.actual)
    ensures Linked(r, Actuals(Reversed(back + [d])))
  {
    hide *;
    ReversedPush(back, d);
    ActualsFront(d, Reversed(back));
    ActualsReversed(back);
    LinkedFront(r, d.actual, Actuals(Reversed(back)));
  }

  lemma TracedBack(r: Rules, pool: seq<BlockDetail>, back: seq<BlockDetail>)
    requires back != [] && Hashed(r, pool)
    requires forall j | 1 <= j < |back| :: back[j] in pool
    requires Linked(r, Actuals(Reversed(back)))
    requires forall j | 0 <= j < |pool| :: pool[j].hash != back[|back| - 1].actual.previous
    ensures forall j | 0 <= j < |back| - 1 :: Reversed(back)[j] in pool
    ensures Traced(r, Actuals(pool), back[0].actual, Actuals(Reversed(back)))
  {
    hide *;
    var traced := Reversed(back);
    forall j | 0 <= j < |back| - 1
      ensures traced[j] in pool && Actuals(traced)[j] in Actuals(pool)
    {
      assert traced[j] == back[|back| - 1 - j];
      ActualIn(pool, traced[j]);
    }
    TracedParts(r, pool, traced);
  }

  lemma TracedParts(r: Rules, pool: seq<BlockDetail>, traced: seq<BlockDetail>)
    requires traced != [] && Hashed(r, pool) && Linked(r, Actuals(traced))
    requires forall j | 0 <= j < |traced| - 1 :: Actuals(traced)[j] in Actuals(pool)
    requires forall j | 0 <= j < |pool| :: pool[j].hash != traced[0].actual.previous
    ensures Traced(r, Actuals(pool), traced[|traced| - 1].actual, Actuals(traced))
  {
    hide Linked;
  }

  // ---- taking entries out

  lemma {:induction false} WithoutAbsent(pool: seq<Block>, b: Block)
    requires b !in pool
    ensures Without(pool, [b]) == pool
  {
    if pool != [] { WithoutAbsent(pool[1..], b); }
  }

  lemma WithoutStep(pool: seq<Block>, blocks: seq<Block>)
    requires pool != []
    ensures Without(pool, blocks) == (if pool[0] in blocks then [] else [pool[0]]) + Without(pool[1..], blocks)
  {
  }

  lemma TailDistinct(r: Rules, pool: seq<Block>)
    requires pool != [] && DistinctHashes(r, pool)
    ensures DistinctHashes(r, pool[1..]) && pool[0] !in pool[1..]
  {
    hide BlockHash;
    forall j | 0 <= j < |pool[1..]|
      ensures pool[1..][j] != pool[0]
    {
      assert BlockHash(r, pool[0]) != BlockHash(r, pool[j + 1]);
    }
  }

  lemma {:induction false} WithoutOne(r: Rules, pool: seq<Block>, i: nat)
    requires DistinctHashes(r, pool) && i < |pool|
    ensures Without(pool, [pool[i]]) == pool[..i] + pool[i + 1..]
  {
    hide *;
    WithoutStep(pool, [pool[i]]);
    TailDistinct(r, pool);
    if i == 0 {
      WithoutAbsent(pool[1..], pool[0]);
    } else {
      WithoutOne(r, pool[1..], i - 1);
      assert pool[1..][i - 1] == pool[i] && pool[i] in pool[1..];
      assert pool[..i] == [pool[0]] + pool[1..][..i - 1] && pool[1..][i..] == pool[i + 1..];
    }
  }

  lemma {:induction false} WithoutTwice(pool: seq<Block>, a: seq<Block>, b: seq<Block>)
    ensures Without(Without(pool, a), b) == Without(pool, a + b)
  {
    if pool != [] {
      var rest := Without(pool[1..], a);
      WithoutTwice(pool[1..], a, b);
      if pool[0] !in a {
        assert Without(pool, a) == [pool[0]] + rest && ([pool[0]] + rest)[1..] == rest;
      } else {
        assert Without(pool, a) == rest;
      }
    }
  }

  lemma {:induction false} WithoutNothing(pool: seq<Block>)
    ensures Without(pool, []) == pool
  {
    if pool != [] { WithoutNothing(pool[1..]); }
  }
}
