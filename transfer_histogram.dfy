/** Frequency histogram of the memory copies the query selects (copyKind = 2) by byte size
    (memcpy_DtoH.py). The fetched `bytes` column is the input sequence. */
module TransferHistogram {

  /** Number of size buckets: nine right-closed ranges and one open-ended range. */
  const BucketCount: nat := 10

  function Pow2(k: nat): (p: nat)
    ensures p >= 1
  {
    if k == 0 then 1 else 2 * Pow2(k - 1)
  }

  /** Inclusive upper limit of bucket k, for the nine bounded buckets: 4096 * 2^k bytes. */
  function UpperLimit(k: nat): (u: int)
    requires k < BucketCount - 1
    ensures u >= 4096
  {
    4096 * Pow2(k)
  }

  /** Reference definition of the partition: bucket 0 is (-inf, 4096], bucket k for
      0 < k < 9 is (UpperLimit(k-1), UpperLimit(k)], bucket 9 is (1048576, +inf). */
  predicate InBucket(size: int, k: nat)
    requires k < BucketCount
  {
    (k == 0 || size > UpperLimit(k - 1)) && (k == BucketCount - 1 || size <= UpperLimit(k))
  }

  /** The if/elif chain that picks the slot of `bin_array` a transfer size increments. */
  function Bucket(size: int): (b: nat)
    ensures b < BucketCount
    ensures InBucket(size, b)
  {
    if size <= 4096 then 0
    else if size <= 8192 then 1
    else if size <= 16384 then 2
    else if size <= 32768 then 3
    else if size <= 65536 then 4
    else if size <= 131072 then 5
    else if size <= 262144 then 6
    else if size <= 524288 then 7
    else if size <= 1048576 then 8
    else 9
  }

  lemma UpperLimitIncreasing(j: nat, k: nat)
    requires j < k < BucketCount - 1
    ensures UpperLimit(j) < UpperLimit(k)
  {
    if j + 1 < k {
      UpperLimitIncreasing(j, k - 1);
    }
  }

  /** Exclusivity: a size lies in no bucket other than the one Bucket picks. */
  lemma BucketExclusive(size: int, k: nat)
    requires k < BucketCount
    requires InBucket(size, k)
    ensures k == Bucket(size)
  {
    var b := Bucket(size);
    if k < b {
      UpperLimitIncreasing(k, b - 1);
    } else if b < k {
      UpperLimitIncreasing(b, k - 1);
    }
  }

  /** Right-closed boundaries: each limit 4096, 8192, ..., 1048576 belongs to the lower
      bucket and the next byte to the bucket above it. */
  lemma BucketBoundaries(k: nat)
    requires k < BucketCount - 1
    ensures Bucket(UpperLimit(k)) == k
    ensures Bucket(UpperLimit(k) + 1) == k + 1
  {
    assert InBucket(UpperLimit(k), k);
    BucketExclusive(UpperLimit(k), k);
    if k + 1 < BucketCount - 1 {
      UpperLimitIncreasing(k, k + 1);
    }
    assert InBucket(UpperLimit(k) + 1, k + 1);
    BucketExclusive(UpperLimit(k) + 1, k + 1);
  }

  /** Everything above one mebibyte lands in the open-ended last bucket. */
  lemma LargeTransfersInLastBucket(size: int)
    requires size > 1048576
    ensures Bucket(size) == BucketCount - 1
  {
  }

  /** The bucket index never decreases as the size grows. */
  lemma BucketMonotone(a: int, b: int)
    requires a <= b
    ensures Bucket(a) <= Bucket(b)
  {
  }

  /** Number of sizes in `sizes` that fall into bucket k. */
  function CountInBucket(sizes: seq<int>, k: nat): nat
  {
    if sizes == [] then 0
    else CountInBucket(sizes[..|sizes| - 1], k) + (if Bucket(sizes[|sizes| - 1]) == k then 1 else 0)
  }

  /** The ten bin counts for a sequence of transfer sizes. */
  function Histogram(sizes: seq<int>): (h: seq<nat>)
    ensures |h| == BucketCount
  {
    seq(BucketCount, k requires 0 <= k => CountInBucket(sizes, k))
  }

  function Sum(s: seq<nat>): nat
  {
    if s == [] then 0 else s[0] + Sum(s[1..])
  }

  /** Bins start at zero. */
  lemma HistogramEmpty()
    ensures Histogram([]) == seq(BucketCount, _ => 0)
  {
  }

  /** One more record increments exactly its own bin by one and leaves the other nine. */
  lemma HistogramStep(sizes: seq<int>, size: int)
    ensures Histogram(sizes + [size])
         == Histogram(sizes)[Bucket(size) := Histogram(sizes)[Bucket(size)] + 1]
  {
    assert (sizes + [size])[..|sizes|] == sizes;
  }

  lemma {:induction false} SumIncrement(s: seq<nat>, k: nat)
    requires k < |s|
    ensures Sum(s[k := s[k] + 1]) == Sum(s) + 1
  {
    if k > 0 {
      assert s[k := s[k] + 1][1..] == s[1..][k - 1 := s[k] + 1];
      SumIncrement(s[1..], k - 1);
    }
  }

  lemma {:induction false} SumZeros(n: nat)
    ensures Sum(seq(n, _ => 0)) == 0
  {
    if n > 0 {
      assert seq(n, _ => 0)[1..] == seq(n - 1, _ => 0);
      SumZeros(n - 1);
    }
  }

  /** Conservation: the ten bins together count every transfer exactly once. */
  lemma {:induction false} HistogramTotal(sizes: seq<int>)
    ensures Sum(Histogram(sizes)) == |sizes|
  {
    if sizes == [] {
      SumZeros(BucketCount);
      assert Histogram(sizes) == seq(BucketCount, _ => 0);
    } else {
      var init, last := sizes[..|sizes| - 1], sizes[|sizes| - 1];
      assert init + [last] == sizes;
      HistogramTotal(init);
      HistogramStep(init, last);
      SumIncrement(Histogram(init), Bucket(last));
    }
  }

  /** Fills a zero-initialised ten-slot counter array, one increment per transfer,
      and returns its contents. */
  method CountTransferSizes(sizes: seq<int>) returns (counts: seq<nat>)
    ensures counts == Histogram(sizes)
    ensures Sum(counts) == |sizes|
  {
    var bins := new nat[BucketCount](_ => 0);
    for i := 0 to |sizes|
      invariant forall k :: 0 <= k < BucketCount ==> bins[k] == CountInBucket(sizes[..i], k)
    {
      assert sizes[..i + 1][..i] == sizes[..i];
      var b := Bucket(sizes[i]);
      bins[b] := bins[b] + 1;
    }
    assert sizes[..|sizes|] == sizes;
    counts := bins[..];
    HistogramTotal(sizes);
  }

  /** All transfers of exactly 4096 bytes land in the first bin; the other nine stay 0. */
  lemma {:induction false} AllPageSized(sizes: seq<int>)
    requires forall i :: 0 <= i < |sizes| ==> sizes[i] == 4096
    ensures CountInBucket(sizes, 0) == |sizes|
    ensures forall k :: 0 < k < BucketCount ==> CountInBucket(sizes, k) == 0
  {
    if sizes != [] {
      AllPageSized(sizes[..|sizes| - 1]);
    }
  }
}
