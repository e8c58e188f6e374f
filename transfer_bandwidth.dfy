/** Per-bucket bandwidth distributions of the memory copies the query selects (copyKind = 2)
    (memcpy_DtoH_bw.py). The fetched (start, end, bytes) rows are the input sequence. */
module TransferBandwidth {
  import opened TransferHistogram

  /** One fetched row of the memory-copy table, in the column order of the query. */
  datatype Transfer = Transfer(start: int, end: int, bytes: int)

  /** Factor that turns bytes per nanosecond into MB/s, as written in the source. */
  const MBPerSecondFactor: real := 953.674

  /** The bandwidth expression divides by the duration; a zero duration is a
      `ZeroDivisionError` that the database-error handler does not catch. */
  predicate Timed(t: Transfer)
  {
    t.end != t.start
  }

  predicate AllTimed(transfers: seq<Transfer>)
  {
    forall i :: 0 <= i < |transfers| ==> Timed(transfers[i])
  }

  /** `bytes * 953.674 / (end - start)`, over the reals. */
  function Bandwidth(t: Transfer): (bw: real)
    requires Timed(t)
    ensures bw * (t.end - t.start) as real == t.bytes as real * MBPerSecondFactor
  {
    (t.bytes as real * MBPerSecondFactor) / (t.end - t.start) as real
  }

  /** The if/elif chain of the routing loop, with its limits written as multiples of 1024. */
  function ListIndex(bytes: int): (k: nat)
    ensures k < BucketCount
    ensures InBucket(bytes, k)
  {
    if bytes <= 4 * 1024 then 0
    else if bytes <= 8 * 1024 then 1
    else if bytes <= 16 * 1024 then 2
    else if bytes <= 32 * 1024 then 3
    else if bytes <= 64 * 1024 then 4
    else if bytes <= 128 * 1024 then 5
    else if bytes <= 256 * 1024 then 6
    else if bytes <= 512 * 1024 then 7
    else if bytes <= 1024 * 1024 then 8
    else 9
  }

  /** The routing chain uses the same right-closed partition as the frequency histogram. */
  lemma SameBoundaries(bytes: int)
    ensures ListIndex(bytes) == Bucket(bytes)
  {
    BucketExclusive(bytes, ListIndex(bytes));
  }

  /** The bandwidths of the transfers routed to list k, in the order the rows were read. */
  function BandwidthsIn(transfers: seq<Transfer>, k: nat): seq<real>
    requires AllTimed(transfers)
  {
    if transfers == [] then []
    else
      var last := transfers[|transfers| - 1];
      BandwidthsIn(transfers[..|transfers| - 1], k) + (if ListIndex(last.bytes) == k then [Bandwidth(last)] else [])
  }

  /** The byte sizes of the rows, the column the frequency histogram reads. */
  function Sizes(transfers: seq<Transfer>): (sizes: seq<int>)
    ensures |sizes| == |transfers|
    ensures forall i :: 0 <= i < |transfers| ==> sizes[i] == transfers[i].bytes
  {
    if transfers == [] then [] else Sizes(transfers[..|transfers| - 1]) + [transfers[|transfers| - 1].bytes]
  }

  /** Order preservation: reading more rows only appends to the end of each list. */
  lemma {:induction false} BandwidthsAppend(a: seq<Transfer>, b: seq<Transfer>, k: nat)
    requires AllTimed(a) && AllTimed(b)
    ensures AllTimed(a + b)
    ensures BandwidthsIn(a + b, k) == BandwidthsIn(a, k) + BandwidthsIn(b, k)
  {
    assert AllTimed(a + b) by {
      forall i | 0 <= i < |a + b| ensures Timed((a + b)[i]) {
        if i >= |a| { assert (a + b)[i] == b[i - |a|]; }
      }
    }
    if b == [] {
      assert a + b == a;
    } else {
      var init := b[..|b| - 1];
      assert (a + b)[..|a + b| - 1] == a + init;
      assert AllTimed(init) by {
        forall i | 0 <= i < |init| ensures Timed(init[i]) { assert init[i] == b[i]; }
      }
      BandwidthsAppend(a, init, k);
    }
  }

  /** Row t is routed to list k, with bandwidth x. */
  predicate RoutedTo(t: Transfer, k: nat, x: real)
    requires Timed(t)
  {
    ListIndex(t.bytes) == k && Bandwidth(t) == x
  }

  /** Membership in both directions: list k holds exactly the bandwidths of the rows
      whose size the routing chain sends to k. */
  lemma {:induction false} BandwidthsMembers(transfers: seq<Transfer>, k: nat, x: real)
    requires AllTimed(transfers)
    ensures x in BandwidthsIn(transfers, k) <==>
            exists i :: 0 <= i < |transfers| && RoutedTo(transfers[i], k, x)
  {
    if transfers != [] {
      var n := |transfers| - 1;
      var init, last := transfers[..n], transfers[n];
      var tail := if ListIndex(last.bytes) == k then [Bandwidth(last)] else [];
      assert BandwidthsIn(transfers, k) == BandwidthsIn(init, k) + tail;
      BandwidthsMembers(init, k, x);
      if x in tail {
        assert RoutedTo(transfers[n], k, x);
      }
      if exists i :: 0 <= i < |transfers| && RoutedTo(transfers[i], k, x) {
        var i :| 0 <= i < |transfers| && RoutedTo(transfers[i], k, x);
        if i < n {
          assert init[i] == transfers[i];
        } else {
          assert x in tail;
        }
      }
    }
  }

  /** Exactly one list per row: list k has as many entries as bin k of the frequency
      histogram has records, for the same rows. */
  lemma {:induction false} BandwidthCountsMatchHistogram(transfers: seq<Transfer>, k: nat)
    requires AllTimed(transfers)
    ensures |BandwidthsIn(transfers, k)| == CountInBucket(Sizes(transfers), k)
  {
    if transfers != [] {
      var init := transfers[..|transfers| - 1];
      BandwidthCountsMatchHistogram(init, k);
      assert Sizes(transfers)[..|transfers| - 1] == Sizes(init);
      SameBoundaries(transfers[|transfers| - 1].bytes);
    }
  }

  /** What a list looks like after the padding loop: a list that received no row is
      exactly [0], any other is left as it was. */
  function Padded(list: seq<real>): (p: seq<real>)
    ensures p != []
    ensures list == [] ==> p == [0.0]
    ensures list != [] ==> p == list
  {
    if |list| == 0 then [0.0] else list
  }

  /** The bandwidth distribution reported for bucket k. */
  function Distribution(transfers: seq<Transfer>, k: nat): seq<real>
    requires AllTimed(transfers)
  {
    Padded(BandwidthsIn(transfers, k))
  }

  /** The routing loop: every row's bandwidth is appended to the one list its size selects. */
  method RouteBandwidths(transfers: seq<Transfer>) returns (lists: array<seq<real>>)
    requires AllTimed(transfers)
    ensures fresh(lists) && lists.Length == BucketCount
    ensures forall k :: 0 <= k < BucketCount ==> lists[k] == BandwidthsIn(transfers, k)
  {
    lists := new seq<real>[BucketCount](_ => []);
    for i := 0 to |transfers|
      invariant forall k :: 0 <= k < BucketCount ==> lists[k] == BandwidthsIn(transfers[..i], k)
    {
      assert transfers[..i + 1][..i] == transfers[..i];
      var t := transfers[i];
      var k := ListIndex(t.bytes);
      lists[k] := lists[k] + [Bandwidth(t)];
    }
    assert transfers[..|transfers|] == transfers;
  }

  /** The padding loop: patches every empty list in place with a single 0. */
  method PadEmpty(lists: array<seq<real>>)
    modifies lists
    ensures forall k :: 0 <= k < lists.Length ==> lists[k] == Padded(old(lists[k]))
  {
    for k := 0 to lists.Length
      invariant forall j :: 0 <= j < k ==> lists[j] == Padded(old(lists[j]))
      invariant forall j :: k <= j < lists.Length ==> lists[j] == old(lists[j])
    {
      if |lists[k]| == 0 {
        lists[k] := [0.0];
      }
    }
  }

  /** The ten bandwidth distributions handed to the plot, index-aligned with the ten
      size labels: never empty, [0] for a bucket without records, and otherwise the
      bandwidths of exactly the records the frequency histogram counts in that bucket. */
  method BandwidthDistributions(transfers: seq<Transfer>) returns (dists: seq<seq<real>>)
    requires AllTimed(transfers)
    ensures |dists| == BucketCount == |Labels|
    ensures forall k :: 0 <= k < BucketCount ==> dists[k] == Distribution(transfers, k)
    ensures forall k :: 0 <= k < BucketCount ==> dists[k] != []
    ensures forall k :: 0 <= k < BucketCount && CountInBucket(Sizes(transfers), k) == 0 ==> dists[k] == [0.0]
    ensures forall k :: 0 <= k < BucketCount && CountInBucket(Sizes(transfers), k) > 0 ==>
              dists[k] == BandwidthsIn(transfers, k) && |dists[k]| == CountInBucket(Sizes(transfers), k)
  {
    var lists := RouteBandwidths(transfers);
    PadEmpty(lists);
    dists := lists[..];
    forall k | 0 <= k < BucketCount
      ensures |BandwidthsIn(transfers, k)| == CountInBucket(Sizes(transfers), k)
    {
      BandwidthCountsMatchHistogram(transfers, k);
    }
  }

  /** The ten labels the distributions are aligned with. */
  const Labels: seq<string> := ["4KB", "8KB", "16KB", "32KB", "64KB", "128KB", "256KB", "512KB", "1MB", "1MB+"]
}
