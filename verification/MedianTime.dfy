/** `median_time_past` over the last eleven timestamps. */
module MedianTime {

  function Insert(x: nat, sorted: seq<nat>): (r: seq<nat>)
    ensures |r| == |sorted| + 1
  {
    if sorted == [] || x <= sorted[0] then [x] + sorted else [sorted[0]] + Insert(x, sorted[1..])
  }

  /** The library sort the node calls. */
  function Sort(times: seq<nat>): (r: seq<nat>)
    ensures |r| == |times|
  {
    if times == [] then [] else Insert(times[0], Sort(times[1..]))
  }

  predicate Sorted(s: seq<nat>) {
    forall i, j | 0 <= i < j < |s| :: s[i] <= s[j]
  }

  function CountBelow(s: seq<nat>, m: nat): (n: nat)
    ensures n <= |s|
  {
    if s == [] then 0 else (if s[0] < m then 1 else 0) + CountBelow(s[1..], m)
  }

  lemma {:induction false} InsertSorted(x: nat, sorted: seq<nat>, low: nat)
    requires Sorted(sorted) && low <= x && (forall i | 0 <= i < |sorted| :: low <= sorted[i])
    ensures Sorted(Insert(x, sorted))
    ensures forall i | 0 <= i < |Insert(x, sorted)| :: low <= Insert(x, sorted)[i]
  {
    if sorted != [] && x > sorted[0] {
      InsertSorted(x, sorted[1..], sorted[0]);
    }
  }

  lemma {:induction false} InsertKeeps(x: nat, sorted: seq<nat>, m: nat)
    ensures CountBelow(Insert(x, sorted), m) == (if x < m then 1 else 0) + CountBelow(sorted, m)
    ensures multiset(Insert(x, sorted)) == multiset(sorted) + multiset{x}
  {
    if sorted == [] || x <= sorted[0] {
      assert ([x] + sorted)[1..] == sorted;
    } else {
      var rest := Insert(x, sorted[1..]);
      InsertKeeps(x, sorted[1..], m);
      assert ([sorted[0]] + rest)[1..] == rest;
      assert sorted == [sorted[0]] + sorted[1..];
    }
  }

  lemma {:induction false} SortKeeps(times: seq<nat>, m: nat)
    ensures Sorted(Sort(times))
    ensures CountBelow(Sort(times), m) == CountBelow(times, m)
    ensures multiset(Sort(times)) == multiset(times)
  {
    if times != [] {
      SortKeeps(times[1..], m);
      InsertSorted(times[0], Sort(times[1..]), 0);
      InsertKeeps(times[0], Sort(times[1..]), m);
      assert times == [times[0]] + times[1..];
    }
  }

  /** In a sorted list an entry is below a bound exactly when enough entries are. */
  lemma {:induction false} SortedEntry(s: seq<nat>, k: nat, m: nat)
    requires Sorted(s) && k < |s|
    ensures s[k] < m <==> k < CountBelow(s, m)
  {
    if k > 0 {
      SortedEntry(s[1..], k - 1, m);
    } else if s[0] >= m {
      NoneBelow(s, m);
    }
  }

  lemma {:induction false} NoneBelow(s: seq<nat>, m: nat)
    requires forall i | 0 <= i < |s| :: s[i] >= m
    ensures CountBelow(s, m) == 0
  {
    if s != [] { NoneBelow(s[1..], m); }
  }

  /** The middle entry, the upper one of two. */
  function Median(times: seq<nat>): nat
    requires times != []
  {
    Sort(times)[|times| / 2]
  }

  /** The most recent timestamps of a chain, newest first, at most eleven. */
  function Recent(timestamps: seq<nat>, limit: nat): (r: seq<nat>)
    ensures |r| == if |timestamps| < limit then |timestamps| else limit
  {
    if timestamps == [] || limit == 0 then []
    else [timestamps[|timestamps| - 1]] + Recent(timestamps[..|timestamps| - 1], limit - 1)
  }

  /** The times collected so far, newest first, and those still to come are the recent ones. */
  predicate Collecting(timestamps: seq<nat>, i: nat, times: seq<nat>) {
    && i <= |timestamps| && |times| == |timestamps| - i <= 11
    && times + Recent(timestamps[..i], 11 - |times|) == Recent(timestamps, 11)
  }

  lemma CollectNone(timestamps: seq<nat>)
    ensures Collecting(timestamps, |timestamps|, [])
  {
    assert timestamps[..|timestamps|] == timestamps && [] + Recent(timestamps, 11) == Recent(timestamps, 11);
  }

  lemma CollectOne(timestamps: seq<nat>, i: nat, times: seq<nat>)
    requires i > 0 && |times| < 11 && Collecting(timestamps, i, times)
    ensures Collecting(timestamps, i - 1, times + [timestamps[i - 1]])
  {
    assert timestamps[..i][..i - 1] == timestamps[..i - 1];
    assert times + ([timestamps[i - 1]] + Recent(timestamps[..i - 1], 10 - |times|))
        == times + [timestamps[i - 1]] + Recent(timestamps[..i - 1], 10 - |times|);
  }

  lemma CollectAll(timestamps: seq<nat>, i: nat, times: seq<nat>)
    requires timestamps != [] && Collecting(timestamps, i, times) && (i == 0 || |times| == 11)
    ensures times != [] && Sort(times)[|times| / 2] == MedianTimePast(timestamps)
  {
    assert timestamps[..0] == [];
    assert Recent(timestamps[..i], 11 - |times|) == [];
    assert times == Recent(timestamps, 11);
  }

  function MedianTimePast(timestamps: seq<nat>): nat
    requires timestamps != []
  {
    Median(Recent(timestamps, 11))
  }

  lemma {:induction false} RecentShorter(timestamps: seq<nat>, limit: nat, m: nat)
    requires limit > 0
    ensures CountBelow(Recent(timestamps, limit - 1), m) <= CountBelow(Recent(timestamps, limit), m)
  {
    if timestamps != [] && limit > 1 {
      var before := timestamps[..|timestamps| - 1];
      RecentShorter(before, limit - 1, m);
      assert Recent(timestamps, limit)[1..] == Recent(before, limit - 1);
      assert Recent(timestamps, limit - 1)[1..] == Recent(before, limit - 2);
    }
  }

  /** A block later than the median of its past cannot lower the median, whether the window is
      still growing, of even length, or full. */
  lemma MedianNeverDecreases(timestamps: seq<nat>, next: nat)
    requires timestamps != [] && next > MedianTimePast(timestamps)
    ensures MedianTimePast(timestamps + [next]) >= MedianTimePast(timestamps)
  {
    var m := MedianTimePast(timestamps);
    var before, after := Recent(timestamps, 11), Recent(timestamps + [next], 11);
    assert (timestamps + [next])[..|timestamps|] == timestamps;
    assert after[1..] == Recent(timestamps, 10);
    RecentShorter(timestamps, 11, m);
    SortKeeps(before, m);
    SortKeeps(after, m);
    SortedEntry(Sort(before), |before| / 2, m);
    SortedEntry(Sort(after), |after| / 2, m);
  }

  /** The recent times are the last ones, newest first. */
  lemma {:induction false} RecentAre(timestamps: seq<nat>, limit: nat, k: nat)
    requires k < |timestamps| && k < limit
    ensures Recent(timestamps, limit)[k] == timestamps[|timestamps| - 1 - k]
  {
    if k > 0 { RecentAre(timestamps[..|timestamps| - 1], limit - 1, k - 1); }
  }

  /** The median is one of the times, with at most half of them below it and more than half of them no
      greater. */
  lemma {:induction false} MedianIsMiddle(times: seq<nat>)
    requires times != []
    ensures var m := Median(times);
            && m in times
            && CountBelow(times, m) <= |times| / 2 < CountBelow(times, m + 1)
  {
    hide Sort;
    hide CountBelow;
    hide Sorted;
    var m, k := Median(times), |times| / 2;
    SortMember(times, k);
    SortKeeps(times, m);
    SortKeeps(times, m + 1);
    SortedEntry(Sort(times), k, m);
    SortedEntry(Sort(times), k, m + 1);
  }

  lemma {:induction false} SortMember(times: seq<nat>, k: nat)
    requires k < |times|
    ensures Sort(times)[k] in times
  {
    SortKeeps(times, 0);
    hide Sort;
    hide CountBelow;
    assert Sort(times)[k] in multiset(Sort(times));
  }
}
