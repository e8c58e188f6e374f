/** The statistics kernel_metrics.py takes from numpy: the median of a sample
    (`calculate_median`), the default linear-interpolation percentile, and the
    interquartile-range outlier filter (`remove_outliers`). Samples are reals. */
module SampleStats {

  predicate Sorted(s: seq<real>)
  {
    forall i, j :: 0 <= i < j < |s| ==> s[i] <= s[j]
  }

  function Insert(x: real, s: seq<real>): (r: seq<real>)
    requires Sorted(s)
    ensures Sorted(r)
    ensures multiset(r) == multiset(s) + multiset{x}
  {
    if s == [] || x <= s[0] then
      [x] + s
    else
      assert s == [s[0]] + s[1..];
      assert Sorted(s[1..]);
      var rest := Insert(x, s[1..]);
      BoundedBelow(rest, s[1..], x, s[0]);
      ConsSorted(s[0], rest);
      [s[0]] + rest
  }

  lemma ConsSorted(h: real, t: seq<real>)
    requires Sorted(t) && forall k :: 0 <= k < |t| ==> h <= t[k]
    ensures Sorted([h] + t)
  {
  }

  /** A rearrangement of s + [x] is bounded below by any bound of s and x. */
  lemma BoundedBelow(r: seq<real>, s: seq<real>, x: real, bound: real)
    requires multiset(r) == multiset(s) + multiset{x}
    requires bound <= x && forall k :: 0 <= k < |s| ==> bound <= s[k]
    ensures forall k :: 0 <= k < |r| ==> bound <= r[k]
  {
    forall k | 0 <= k < |r| ensures bound <= r[k] {
      assert r[k] in multiset(r);
      if r[k] != x {
        assert r[k] in multiset(s);
      }
    }
  }

  /** The ascending rearrangement of a sample; numpy sorts before it picks middles. */
  function Sort(s: seq<real>): (r: seq<real>)
    ensures Sorted(r)
    ensures multiset(r) == multiset(s)
    ensures |r| == |s|
  {
    if s == [] then []
    else
      assert s == [s[0]] + s[1..];
      Insert(s[0], Sort(s[1..]))
  }

  lemma SortedHeadIsLeast(a: seq<real>, x: real)
    requires Sorted(a) && x in multiset(a)
    ensures a != [] && a[0] <= x
  {
    var i :| 0 <= i < |a| && a[i] == x;
  }

  lemma SortedTail(a: seq<real>)
    requires Sorted(a) && a != []
    ensures Sorted(a[1..])
    ensures multiset(a[1..]) == multiset(a) - multiset{a[0]}
  {
    assert a == [a[0]] + a[1..];
  }

  /** A sorted rearrangement is unique. */
  lemma {:induction false} SortedUnique(a: seq<real>, b: seq<real>)
    requires Sorted(a) && Sorted(b) && multiset(a) == multiset(b)
    ensures a == b
  {
    if a != [] {
      assert a[0] in multiset(a);
      SortedHeadIsLeast(b, a[0]);
      assert b[0] in multiset(b);
      SortedHeadIsLeast(a, b[0]);
      assert a[0] == b[0];
      SortedTail(a);
      SortedTail(b);
      assert multiset(a[1..]) == multiset(b[1..]);
      SortedUnique(a[1..], b[1..]);
      assert a == [a[0]] + a[1..];
      assert b == [b[0]] + b[1..];
    } else {
      assert |multiset(b)| == 0;
    }
  }

  lemma SortPermutationInvariant(a: seq<real>, b: seq<real>)
    requires multiset(a) == multiset(b)
    ensures Sort(a) == Sort(b)
  {
    SortedUnique(Sort(a), Sort(b));
  }

  /** An element of the sorted sample is an element of the sample. */
  lemma SortedElement(s: seq<real>, k: nat)
    requires k < |s|
    ensures exists i :: 0 <= i < |s| && s[i] == Sort(s)[k]
  {
    var t := Sort(s);
    assert t[k] in multiset(t);
    assert t[k] in multiset(s);
  }

  /** The middle of a sorted sample: its middle element, or the mean of the two
      middle elements when the length is even. */
  function Middle(t: seq<real>): real
    requires |t| > 0
  {
    var h := |t| / 2;
    if |t| % 2 == 1 then t[h] else (t[h - 1] + t[h]) / 2.0
  }

  /** `np.median`: the middle of the sorted sample. */
  function Median(s: seq<real>): real
    requires |s| > 0
  {
    Middle(Sort(s))
  }

  /** The median lies between the smallest and the largest element of the sample,
      and is one of its elements when the length is odd. */
  lemma MedianWithinSample(s: seq<real>)
    requires |s| > 0
    ensures exists i :: 0 <= i < |s| && s[i] <= Median(s)
    ensures exists j :: 0 <= j < |s| && Median(s) <= s[j]
    ensures |s| % 2 == 1 ==> Median(s) in s
  {
    var t := Sort(s);
    var h := |t| / 2;
    SortedElement(s, h);
    if |t| % 2 == 0 {
      SortedElement(s, h - 1);
      assert t[h - 1] <= t[h];
    }
  }

  /** Sorting a sample that is already sorted leaves it as it is. */
  lemma SortOfSorted(s: seq<real>)
    requires Sorted(s)
    ensures Sort(s) == s
  {
    SortedUnique(Sort(s), s);
  }

  /** On a sample that is already sorted the median is read off directly. */
  lemma MedianOfSorted(s: seq<real>)
    requires |s| > 0 && Sorted(s)
    ensures Median(s) == Middle(s)
  {
    SortOfSorted(s);
  }

  /** The median depends only on the values, not on the order they were fetched in. */
  lemma MedianPermutationInvariant(a: seq<real>, b: seq<real>)
    requires |a| > 0 && multiset(a) == multiset(b)
    ensures |b| > 0 && Median(a) == Median(b)
  {
    assert |a| == |multiset(a)| == |multiset(b)| == |b|;
    SortPermutationInvariant(a, b);
  }

  /** A sample of strictly positive values has a strictly positive median; one of
      non-negative values a non-negative median. */
  lemma MedianSign(s: seq<real>)
    requires |s| > 0
    ensures (forall i :: 0 <= i < |s| ==> s[i] > 0.0) ==> Median(s) > 0.0
    ensures (forall i :: 0 <= i < |s| ==> s[i] >= 0.0) ==> Median(s) >= 0.0
  {
    MedianWithinSample(s);
    var i :| 0 <= i < |s| && s[i] <= Median(s);
  }

  /** numpy's default ("linear") percentile, read at the virtual index h4 / 4 of the
      sorted sample t: the element there, or the linear interpolation between the two
      neighbouring elements. */
  function Interpolate(t: seq<real>, h4: nat): real
    requires |t| > 0 && h4 <= 4 * (|t| - 1)
  {
    var lo := h4 / 4;
    if h4 % 4 == 0 then t[lo]
    else if h4 % 4 == 1 then t[lo] + (t[lo + 1] - t[lo]) / 4.0
    else if h4 % 4 == 2 then t[lo] + (t[lo + 1] - t[lo]) / 2.0
    else t[lo] + 3.0 * (t[lo + 1] - t[lo]) / 4.0
  }

  /** An interpolated value lies between the two neighbours it is read from. */
  lemma InterpolateBetween(t: seq<real>, h4: nat)
    requires Sorted(t) && |t| > 0 && h4 <= 4 * (|t| - 1)
    ensures t[h4 / 4] <= Interpolate(t, h4)
    ensures h4 % 4 != 0 ==> Interpolate(t, h4) <= t[h4 / 4 + 1]
  {
    if h4 % 4 != 0 {
      assert t[h4 / 4] <= t[h4 / 4 + 1];
    }
  }

  /** Reading further along a sorted sample never yields a smaller percentile. */
  lemma InterpolateMonotone(t: seq<real>, a: nat, b: nat)
    requires Sorted(t) && |t| > 0 && a <= b <= 4 * (|t| - 1)
    ensures Interpolate(t, a) <= Interpolate(t, b)
  {
    InterpolateBetween(t, a);
    InterpolateBetween(t, b);
    if a / 4 < b / 4 {
      if a % 4 != 0 {
        assert t[a / 4 + 1] <= t[b / 4];
      } else {
        assert t[a / 4] <= t[b / 4];
      }
    } else if a % 4 != 0 {
      assert t[a / 4] <= t[a / 4 + 1];
    }
  }

  /** `np.percentile(data, 25)`: the virtual index of the first quartile is (n - 1) / 4. */
  function Q1(data: seq<real>): real
    requires |data| > 0
  {
    Interpolate(Sort(data), |data| - 1)
  }

  /** `np.percentile(data, 75)`: the virtual index of the third quartile is 3 (n - 1) / 4. */
  function Q3(data: seq<real>): real
    requires |data| > 0
  {
    Interpolate(Sort(data), 3 * (|data| - 1))
  }

  /** The first quartile never exceeds the third, so the interquartile range is
      non-negative and the fences enclose [Q1, Q3]. */
  lemma QuartilesOrdered(data: seq<real>)
    requires |data| > 0
    ensures Q1(data) <= Q3(data)
  {
    InterpolateMonotone(Sort(data), |data| - 1, 3 * (|data| - 1));
  }

  function LowerFence(data: seq<real>): real
    requires |data| > 0
  {
    Q1(data) - 1.5 * (Q3(data) - Q1(data))
  }

  function UpperFence(data: seq<real>): real
    requires |data| > 0
  {
    Q3(data) + 1.5 * (Q3(data) - Q1(data))
  }

  /** Order-preserving embedding: `sub` is `s` with some elements deleted. */
  predicate IsSubsequence(sub: seq<real>, s: seq<real>)
  {
    if sub == [] then true
    else if s == [] then false
    else if sub[0] == s[0] then IsSubsequence(sub[1..], s[1..])
    else IsSubsequence(sub, s[1..])
  }

  lemma {:induction false} SubsequenceOfTail(sub: seq<real>, s: seq<real>)
    requires s != [] && IsSubsequence(sub, s[1..])
    ensures IsSubsequence(sub, s)
  {
    if sub != [] && sub[0] == s[0] {
      // sub[1..] embeds in s[1..] as well: drop sub's first match in s[1..]
      SubsequenceDropHead(sub, s[1..]);
    }
  }

  lemma {:induction false} SubsequenceDropHead(sub: seq<real>, s: seq<real>)
    requires sub != [] && IsSubsequence(sub, s)
    ensures IsSubsequence(sub[1..], s)
  {
    if sub[0] == s[0] {
      if s[1..] != [] {
        SubsequenceOfTail(sub[1..], s);
      } else {
        assert sub[1..] == [];
      }
    } else {
      SubsequenceDropHead(sub, s[1..]);
      SubsequenceOfTail(sub[1..], s);
    }
  }

  /** The list comprehension of `remove_outliers`, for any bounds: keeps, in their
      original order, exactly the elements x with lo <= x <= hi. */
  function KeepWithin(data: seq<real>, lo: real, hi: real): (r: seq<real>)
    ensures IsSubsequence(r, data)
    ensures forall x :: multiset(r)[x] == if lo <= x <= hi then multiset(data)[x] else 0
    ensures forall i :: 0 <= i < |r| ==> lo <= r[i] <= hi
  {
    if data == [] then []
    else
      assert data == [data[0]] + data[1..];
      var rest := KeepWithin(data[1..], lo, hi);
      assert multiset(data) == multiset{data[0]} + multiset(data[1..]);
      if lo <= data[0] <= hi then
        assert multiset([data[0]] + rest) == multiset{data[0]} + multiset(rest);
        [data[0]] + rest
      else
        SubsequenceOfTail(rest, data);
        rest
  }

  /** With three or more elements, the element at index ceil((n - 1) / 4) lies
      between the first and the third quartile. */
  lemma QuartilesBracketElement(t: seq<real>)
    requires Sorted(t) && |t| >= 3
    ensures var k := (|t| + 2) / 4;
            k < |t| && Interpolate(t, |t| - 1) <= t[k] <= Interpolate(t, 3 * (|t| - 1))
  {
    var n := |t|;
    var k := (n + 2) / 4;
    assert n - 1 <= 4 * k <= 3 * (n - 1);
    InterpolateMonotone(t, n - 1, 4 * k);
    InterpolateMonotone(t, 4 * k, 3 * (n - 1));
  }

  /** Some element of a sorted sample lies between the fences built from its quartiles. */
  lemma SortedFencesHoldAnElement(t: seq<real>)
    requires Sorted(t) && |t| > 0
    ensures var q1, q3 := Interpolate(t, |t| - 1), Interpolate(t, 3 * (|t| - 1));
            exists k :: 0 <= k < |t| && q1 - 1.5 * (q3 - q1) <= t[k] <= q3 + 1.5 * (q3 - q1)
  {
    var n := |t|;
    var q1, q3 := Interpolate(t, n - 1), Interpolate(t, 3 * (n - 1));
    InterpolateMonotone(t, n - 1, 3 * (n - 1));
    if n >= 3 {
      QuartilesBracketElement(t);
      var k := (n + 2) / 4;
      assert q1 <= t[k] <= q3;
    } else if n == 2 {
      var d := t[1] - t[0];
      assert d >= 0.0;
      assert q1 == t[0] + d / 4.0;
      assert q3 == t[0] + 3.0 * d / 4.0;
      assert q1 - 1.5 * (q3 - q1) <= t[0] <= q3;
    } else {
      assert q1 == t[0] == q3;
    }
  }

  lemma FencesHoldAnElement(data: seq<real>)
    requires |data| > 0
    ensures exists i :: 0 <= i < |data| && LowerFence(data) <= data[i] <= UpperFence(data)
  {
    var t := Sort(data);
    SortedFencesHoldAnElement(t);
    var k :| 0 <= k < |t| && LowerFence(data) <= t[k] <= UpperFence(data);
    SortedElement(data, k);
  }

  /** `remove_outliers`: the interquartile-range filter. The result is an in-order
      subsequence of the input that keeps every element within the fences, with its
      multiplicity, drops every element outside them, and is never empty. */
  function RemoveOutliers(data: seq<real>): (clean: seq<real>)
    requires |data| > 0
    ensures IsSubsequence(clean, data)
    ensures forall x :: multiset(clean)[x] ==
              if LowerFence(data) <= x <= UpperFence(data) then multiset(data)[x] else 0
    ensures forall i :: 0 <= i < |clean| ==> LowerFence(data) <= clean[i] <= UpperFence(data)
    ensures clean != []
  {
    var r := KeepWithin(data, LowerFence(data), UpperFence(data));
    FencesHoldAnElement(data);
    var i :| 0 <= i < |data| && LowerFence(data) <= data[i] <= UpperFence(data);
    assert data[i] in multiset(data);
    assert multiset(r)[data[i]] > 0;
    r
  }

  /** Every element of a non-empty all-positive sample that survives the filter is
      positive, so the median taken afterwards is positive as well. */
  lemma RemoveOutliersKeepsSign(data: seq<real>)
    requires |data| > 0
    requires forall i :: 0 <= i < |data| ==> data[i] > 0.0
    ensures forall i :: 0 <= i < |RemoveOutliers(data)| ==> RemoveOutliers(data)[i] > 0.0
    ensures Median(RemoveOutliers(data)) > 0.0
  {
    var clean := RemoveOutliers(data);
    forall i | 0 <= i < |clean| ensures clean[i] > 0.0 {
      assert clean[i] in multiset(clean);
      assert clean[i] in multiset(data);
    }
    MedianSign(clean);
  }

  /** On a sample that is already sorted the quartiles are read off directly. */
  lemma QuartilesOfSorted(s: seq<real>)
    requires |s| > 0 && Sorted(s)
    ensures Q1(s) == Interpolate(s, |s| - 1)
    ensures Q3(s) == Interpolate(s, 3 * (|s| - 1))
  {
    SortOfSorted(s);
  }

  /** The filter applied to 10, 20, 30, 1000 with fences that separate 30 from 1000. */
  lemma KeepWithinExample(s: seq<real>, lo: real, hi: real)
    requires s == [10.0, 20.0, 30.0, 1000.0]
    requires lo <= 10.0 && 30.0 <= hi < 1000.0
    ensures KeepWithin(s, lo, hi) == s[..3]
  {
    var t1, t2, t3 := s[1..], s[2..], s[3..];
    assert t3 == [1000.0] && t3[1..] == [];
    assert KeepWithin(t3, lo, hi) == KeepWithin(t3[1..], lo, hi) == [];
    assert t2 == [30.0, 1000.0] && t2[1..] == t3;
    assert KeepWithin(t2, lo, hi) == [30.0] + KeepWithin(t3, lo, hi);
    assert t1 == [20.0, 30.0, 1000.0] && t1[1..] == t2;
    assert KeepWithin(t1, lo, hi) == [20.0] + KeepWithin(t2, lo, hi);
    assert s[1..] == t1;
    assert KeepWithin(s, lo, hi) == [10.0] + KeepWithin(t1, lo, hi);
  }

  /** The quartiles of 10, 20, 30, 1000, read from the sample (already sorted). */
  lemma FourSampleQuartiles(s: seq<real>)
    requires s == [10.0, 20.0, 30.0, 1000.0]
    ensures Interpolate(s, 3) == 17.5 && Interpolate(s, 9) == 272.5
  {
  }

  lemma FourSampleSorted(s: seq<real>)
    requires s == [10.0, 20.0, 30.0, 1000.0]
    ensures Sorted(s) && Sorted(s[..3])
  {
  }

  /** A worked launch-overhead (or slack) sample 10, 20, 30, 1000 in microseconds:
      numpy's linear percentiles give Q1 = 17.5 and Q3 = 272.5, so the fences are
      -365 and 655 and `remove_outliers` drops 1000; the median is 25 before the
      filter and 20 after it. */
  lemma FourSampleExample(s: seq<real>)
    requires s == [10.0, 20.0, 30.0, 1000.0]
    ensures Q1(s) == 17.5 && Q3(s) == 272.5
    ensures LowerFence(s) == -365.0 && UpperFence(s) == 655.0
    ensures RemoveOutliers(s) == s[..3]
    ensures Median(s) == 25.0
    ensures Median(RemoveOutliers(s)) == 20.0
  {
    FourSampleSorted(s);
    QuartilesOfSorted(s);
    FourSampleQuartiles(s);
    KeepWithinExample(s, LowerFence(s), UpperFence(s));
    MedianOfSorted(s);
    MedianOfSorted(s[..3]);
    FourSampleMiddles(s);
  }

  lemma FourSampleMiddles(s: seq<real>)
    requires s == [10.0, 20.0, 30.0, 1000.0]
    ensures Middle(s) == 25.0 && Middle(s[..3]) == 20.0
  {
    assert s[..3] == [10.0, 20.0, 30.0];
  }
}
