/** Per-kernel metrics of `extract_metrics` (kernel_metrics.py, lines 142-196). The rows
    each query fetches for a signature are the input sequences; `math.log10` is kept
    symbolic: an entry records the argument the source passes to it. */
module KernelMetrics {
  import opened SampleStats
  import opened DominanceRanking

  /** A distinct kernel: the short name and the launch geometry, as the first query returns it. */
  datatype Signature = Signature(name: string, gridX: int, gridY: int, gridZ: int,
                                 blockX: int, blockY: int, blockZ: int)

  /** The rows the three per-signature queries fetch: kernel execution times (`ket`),
      launch overheads (`klo`) and slacks, in nanoseconds, in the order fetched. */
  datatype KernelRows = KernelRows(ket: seq<int>, klo: seq<int>, slack: seq<int>)

  /** A reported value: exactly 0, or `math.log10(arg)`. Python raises a domain error
      for a non-positive argument. */
  datatype Log10Entry = Zero | Log10Of(arg: real)

  predicate Defined(e: Log10Entry)
  {
    e.Zero? || e.arg > 0.0
  }

  // ---------------------------------------------------------------- labels

  predicate IsDigit(c: char)
  {
    '0' <= c <= '9'
  }

  /** The value 0-9 a decimal digit stands for. */
  function DigitValue(c: char): nat
    requires IsDigit(c)
  {
    c as int - '0' as int
  }

  function DigitChar(d: nat): (c: char)
    requires d < 10
    ensures IsDigit(c) && DigitValue(c) == d
  {
    ('0' as int + d) as char
  }

  /** The number a string of decimal digits spells, most significant digit first. */
  function DigitsValue(s: string): nat
    requires forall i :: 0 <= i < |s| ==> IsDigit(s[i])
  {
    if s == [] then 0 else 10 * DigitsValue(s[..|s| - 1]) + DigitValue(s[|s| - 1])
  }

  /** Python's `str` of a natural number. */
  function NatText(n: nat): (s: string)
    ensures |s| >= 1
    ensures forall i :: 0 <= i < |s| ==> IsDigit(s[i])
  {
    if n < 10 then [DigitChar(n)] else NatText(n / 10) + [DigitChar(n % 10)]
  }

  /** `str(n)` is the decimal numeral of n: its digits spell n, and it has no
      leading zero (it starts with '0' only for 0 itself, which is "0"). */
  lemma {:induction false} NatTextSpells(n: nat)
    ensures DigitsValue(NatText(n)) == n
    ensures NatText(n)[0] == '0' <==> n == 0
    ensures |NatText(n)| > 1 ==> NatText(n)[0] != '0'
  {
    var s := NatText(n);
    if n >= 10 {
      var prefix := NatText(n / 10);
      NatTextSpells(n / 10);
      assert s == prefix + [DigitChar(n % 10)];
      assert s[..|s| - 1] == prefix;
    }
  }

  /** Python's `str` of an integer: a minus sign before the digits of a negative one. */
  function IntText(n: int): (s: string)
    ensures |s| >= 1
  {
    if n < 0 then "-" + NatText(-n) else NatText(n)
  }

  /** `str(n)` of an integer is its decimal numeral: the digits spell n, after a
      minus sign when n is negative. */
  lemma IntTextSpells(n: int)
    ensures n >= 0 ==> (forall i :: 0 <= i < |IntText(n)| ==> IsDigit(IntText(n)[i]))
                       && DigitsValue(IntText(n)) == n
    ensures n < 0 ==> IntText(n)[0] == '-' && IntText(n)[1..] == NatText(-n)
                      && DigitsValue(IntText(n)[1..]) == -n
  {
    if n < 0 {
      NatTextSpells(-n);
      assert IntText(n)[1..] == NatText(-n);
    } else {
      NatTextSpells(n);
    }
  }

  /** The seven fields joined with commas. */
  function SignatureText(sig: Signature): string
  {
    sig.name + "," + IntText(sig.gridX) + "," + IntText(sig.gridY) + "," + IntText(sig.gridZ)
      + "," + IntText(sig.blockX) + "," + IntText(sig.blockY) + "," + IntText(sig.blockZ)
  }

  /** Width of a display label. */
  const LabelWidth: nat := 9

  /** `label_tmp[0:min(9, len(label_tmp))]`: the display label is the longest
      prefix of the joined signature text that is at most nine characters long. */
  function Label(sig: Signature): (l: string)
    ensures l <= SignatureText(sig)
    ensures |l| <= LabelWidth
    ensures |l| < LabelWidth ==> l == SignatureText(sig)
  {
    var text := SignatureText(sig);
    text[..if |text| < LabelWidth then |text| else LabelWidth]
  }

  /** Labels ignore the geometry of kernels with long names: two launches of such a
      kernel with different grids share a label though they are distinct signatures. */
  lemma LongNameLabel(sig: Signature)
    requires |sig.name| >= LabelWidth
    ensures Label(sig) == sig.name[..LabelWidth]
  {
    var text := SignatureText(sig);
    assert text[..|sig.name|] == sig.name;
    assert text[..LabelWidth] == text[..|sig.name|][..LabelWidth];
  }

  /** The joined text has at least twelve characters (six commas and six numbers),
      so every label is exactly nine characters long. */
  lemma LabelIsFullWidth(sig: Signature)
    ensures |Label(sig)| == LabelWidth
  {
    assert |SignatureText(sig)| >= 12;
  }

  // ---------------------------------------------------------------- sample filter

  predicate HasPositive(raw: seq<int>)
  {
    exists i :: 0 <= i < |raw| && raw[i] > 0
  }

  /** The raw values above 0, in microseconds, in the order fetched. */
  function Positives(raw: seq<int>): seq<real>
  {
    if raw == [] then []
    else
      var last := raw[|raw| - 1];
      Positives(raw[..|raw| - 1]) + (if last > 0 then [last as real / 1000.0] else [])
  }

  /** Membership in both directions: the kept values are exactly the positive raw
      values divided by 1000. */
  lemma {:induction false} PositivesMembers(raw: seq<int>, x: real)
    ensures x in Positives(raw) <==> exists i :: 0 <= i < |raw| && raw[i] > 0 && x == raw[i] as real / 1000.0
  {
    if raw != [] {
      var init := raw[..|raw| - 1];
      PositivesMembers(init, x);
      if exists i :: 0 <= i < |raw| && raw[i] > 0 && x == raw[i] as real / 1000.0 {
        var i :| 0 <= i < |raw| && raw[i] > 0 && x == raw[i] as real / 1000.0;
        if i < |init| {
          assert init[i] == raw[i];
        }
      }
      if x in Positives(init) {
        var i :| 0 <= i < |init| && init[i] > 0 && x == init[i] as real / 1000.0;
        assert raw[i] == init[i];
      }
    }
  }

  /** Every kept value is positive, and nothing is kept exactly when no raw value is positive. */
  lemma {:induction false} PositivesSign(raw: seq<int>)
    ensures forall k :: 0 <= k < |Positives(raw)| ==> Positives(raw)[k] > 0.0
    ensures Positives(raw) == [] <==> !HasPositive(raw)
  {
    if raw != [] {
      var init := raw[..|raw| - 1];
      PositivesSign(init);
      if HasPositive(raw) && raw[|raw| - 1] <= 0 {
        var i :| 0 <= i < |raw| && raw[i] > 0;
        assert init[i] == raw[i];
      }
    }
  }

  /** The filter works row by row in the order fetched: the kept values of two
      consecutive runs of rows are those of the first run followed by those of the
      second. With `PositivesOne` this fixes the order and the multiplicity of what
      is kept. */
  lemma {:induction false} PositivesAppend(a: seq<int>, b: seq<int>)
    ensures Positives(a + b) == Positives(a) + Positives(b)
  {
    if b == [] {
      assert a + b == a;
    } else {
      var init := b[..|b| - 1];
      PositivesAppend(a, init);
      assert (a + b)[..|a + b| - 1] == a + init;
    }
  }

  /** A single row is kept, divided by 1000, exactly when it is positive. */
  lemma PositivesOne(v: int)
    ensures Positives([v]) == if v > 0 then [v as real / 1000.0] else []
  {
    assert [v][..0] == [];
  }

  /** The filtered sample: the positive values, or the single synthetic 0 when there are none. */
  function Cleaned(raw: seq<int>): seq<real>
  {
    var kept := Positives(raw);
    if |kept| == 0 then [0.0] else kept
  }

  /** The sample filter never yields an empty list; it is [0] exactly when no raw
      value is positive, and otherwise holds positive values only. */
  lemma CleanedShape(raw: seq<int>)
    ensures Cleaned(raw) != []
    ensures Cleaned(raw) == [0.0] <==> !HasPositive(raw)
    ensures HasPositive(raw) ==> forall k :: 0 <= k < |Cleaned(raw)| ==> Cleaned(raw)[k] > 0.0
    ensures forall k :: 0 <= k < |Cleaned(raw)| ==> Cleaned(raw)[k] >= 0.0
  {
    PositivesSign(raw);
    if HasPositive(raw) {
      assert Cleaned(raw)[0] > 0.0;
    }
  }

  /** The median of a filtered sample is never negative, and positive exactly when
      some raw value was. */
  lemma CleanedMedian(raw: seq<int>)
    ensures Cleaned(raw) != []
    ensures Median(Cleaned(raw)) >= 0.0
    ensures Median(Cleaned(raw)) > 0.0 <==> HasPositive(raw)
  {
    var s := Cleaned(raw);
    CleanedShape(raw);
    MedianSign(s);
    if !HasPositive(raw) {
      MedianWithinSample(s);
      var m := Median(s);
      var j :| 0 <= j < |s| && m <= s[j];
      assert s[j] == 0.0;
    }
  }

  /** The loop that keeps positive values divided by 1000, then substitutes [0]
      for an empty result (its shape is stated by CleanedShape). */
  method FilterSamples(raw: seq<int>) returns (samples: seq<real>)
    ensures samples == Cleaned(raw)
  {
    samples := [];
    for i := 0 to |raw|
      invariant samples == Positives(raw[..i])
    {
      assert raw[..i + 1][..i] == raw[..i];
      if raw[i] > 0 {
        samples := samples + [raw[i] as real / 1000.0];
      }
    }
    assert raw[..|raw|] == raw;
    if |samples| == 0 {
      samples := samples + [0.0];
    }
  }

  // ---------------------------------------------------------------- per-kernel entries

  /** The duration bar: log10 of the median duration; no outlier filter. Its argument
      is 0, the source's domain error, exactly when no duration was positive. */
  function DurationEntry(rows: KernelRows): (e: Log10Entry)
    ensures e.Log10Of?
    ensures e.arg >= 0.0
    ensures Defined(e) <==> HasPositive(rows.ket)
  {
    var ket := Cleaned(rows.ket);
    CleanedMedian(rows.ket);
    Log10Of(Median(ket))
  }

  /** The launch-overhead bar: log10 of the median after the outlier filter. Its
      argument is 0 exactly when no overhead was positive. */
  function OverheadEntry(rows: KernelRows): (e: Log10Entry)
    ensures e.Log10Of?
    ensures e.arg >= 0.0
    ensures Defined(e) <==> HasPositive(rows.klo)
  {
    var klo := Cleaned(rows.klo);
    OverheadMedianSign(rows.klo);
    Log10Of(Median(RemoveOutliers(klo)))
  }

  /** The median after the outlier filter is positive when some raw value is, and
      0 when the filter is handed the synthetic [0]. */
  lemma OverheadMedianSign(raw: seq<int>)
    ensures Cleaned(raw) != []
    ensures HasPositive(raw) ==> Median(RemoveOutliers(Cleaned(raw))) > 0.0
    ensures !HasPositive(raw) ==> RemoveOutliers(Cleaned(raw)) == [0.0] && Median(RemoveOutliers(Cleaned(raw))) == 0.0
  {
    var klo := Cleaned(raw);
    CleanedShape(raw);
    if HasPositive(raw) {
      RemoveOutliersKeepsSign(klo);
    } else {
      OnlyZeroSurvives(RemoveOutliers(klo));
      SortOfSorted([0.0]);
    }
  }

  /** Filtering [0] leaves [0]: a non-empty subsequence of [0] is [0]. */
  lemma OnlyZeroSurvives(clean: seq<real>)
    requires clean != [] && IsSubsequence(clean, [0.0])
    ensures clean == [0.0]
  {
    assert [0.0][1..] == [];
  }

  /** The slack bar: exactly 0, skipping the outlier filter and the log, when the
      filtered slack sample is [0]; otherwise log10 of a positive median. */
  function SlackEntry(rows: KernelRows): (e: Log10Entry)
    ensures e.Zero? <==> !HasPositive(rows.slack)
    ensures Defined(e)
  {
    var slack := Cleaned(rows.slack);
    CleanedShape(rows.slack);
    if |slack| == 1 && slack[0] == 0.0 then
      Zero
    else
      RemoveOutliersKeepsSign(slack);
      Log10Of(Median(RemoveOutliers(slack)))
  }

  /** The rows 10000, 20000, 30000, 1000000 ns become the sample 10, 20, 30, 1000 µs. */
  lemma FourRowsCleaned(raw: seq<int>)
    requires raw == [10000, 20000, 30000, 1000000]
    ensures Cleaned(raw) == [10.0, 20.0, 30.0, 1000.0]
  {
    var r1, r2, r3 := raw[..1], raw[..2], raw[..3];
    assert r2 == r1 + [20000] && r3 == r2 + [30000] && raw == r3 + [1000000];
    PositivesAppend(r1, [20000]);
    PositivesAppend(r2, [30000]);
    PositivesAppend(r3, [1000000]);
    PositivesOne(raw[0]);
    PositivesOne(20000);
    PositivesOne(30000);
    PositivesOne(1000000);
    assert r1 == [raw[0]];
  }

  /** A kernel whose durations, overheads and slacks are all 10, 20, 30, 1000 µs:
      the durations are not filtered, so 1000 stays and the median is 25; the
      overheads and slacks lose 1000 to `remove_outliers`, leaving median 20. */
  lemma FourSampleEntries(rows: KernelRows)
    requires rows.ket == [10000, 20000, 30000, 1000000]
    requires rows.klo == rows.ket && rows.slack == rows.ket
    ensures DurationEntry(rows) == Log10Of(25.0)
    ensures OverheadEntry(rows) == Log10Of(20.0)
    ensures SlackEntry(rows) == Log10Of(20.0)
  {
    FourRowsCleaned(rows.ket);
    FourSampleExample(Cleaned(rows.ket));
  }

  /** `len(ket) * median(ket)`: the total time of `count` launches of the given median length. */
  function TotalTime(count: nat, median: real): real
  {
    count as real * median
  }

  /** A total time over at least one launch has the sign of the median. */
  lemma TotalTimeSign(count: nat, median: real)
    requires count >= 1 && median >= 0.0
    ensures TotalTime(count, median) >= 0.0
    ensures TotalTime(count, median) > 0.0 <==> median > 0.0
  {
  }

  /** The dominance score of a kernel, used for ranking: the total time of its
      filtered durations. */
  function DominanceScore(rows: KernelRows): real
  {
    var ket := Cleaned(rows.ket);
    CleanedShape(rows.ket);
    TotalTime(|ket|, Median(ket))
  }

  /** The score is never negative, and positive exactly when some duration was:
      at least one sample always enters it and its median is never negative. */
  lemma DominanceScoreSign(rows: KernelRows)
    ensures DominanceScore(rows) >= 0.0
    ensures DominanceScore(rows) > 0.0 <==> HasPositive(rows.ket)
  {
    CleanedMedian(rows.ket);
    TotalTimeSign(|Cleaned(rows.ket)|, Median(Cleaned(rows.ket)));
  }

  // ---------------------------------------------------------------- the extraction

  /** The four index-aligned series handed to the bar plots. */
  datatype Series = Series(ket: seq<Log10Entry>, klo: seq<Log10Entry>, slack: seq<Log10Entry>,
                           labels: seq<string>)

  predicate Aligned(s: Series, n: nat)
  {
    |s.ket| == n && |s.klo| == n && |s.slack| == n && |s.labels| == n
  }

  /** The reported series: all of them unchanged when at most 50 signatures exist;
      otherwise the entries of the 50 most dominant, all four picked with the same
      index list. */
  function SelectDominant(full: Series, dominant: seq<real>): (bars: Series)
    requires Aligned(full, |dominant|)
    ensures |dominant| <= DominanceLimit ==> bars == full
    ensures |dominant| > DominanceLimit ==> Aligned(bars, DominanceLimit)
    ensures var idx := ChosenIndices(dominant, DominanceLimit);
            Aligned(bars, |idx|) &&
            forall j :: 0 <= j < |idx| ==>
              bars.ket[j] == full.ket[idx[j]] && bars.klo[j] == full.klo[idx[j]] &&
              bars.slack[j] == full.slack[idx[j]] && bars.labels[j] == full.labels[idx[j]]
  {
    if |dominant| > DominanceLimit then
      var idx := NLargest(DominanceLimit, dominant);
      Series(Pick(full.ket, idx), Pick(full.klo, idx), Pick(full.slack, idx), Pick(full.labels, idx))
    else
      full
  }

  /** The loop over the signature query's rows that fills `labels`. */
  method BuildLabels(signatures: seq<Signature>) returns (labels: seq<string>)
    ensures |labels| == |signatures|
    ensures forall k :: 0 <= k < |signatures| ==> labels[k] == Label(signatures[k])
  {
    labels := [];
    for i := 0 to |signatures|
      invariant |labels| == i
      invariant forall k :: 0 <= k < i ==> labels[k] == Label(signatures[k])
    {
      labels := labels + [Label(signatures[i])];
    }
  }

  /** The duration block of the per-signature loop: filter the durations, then the
      duration entry and the dominance score. */
  method DurationMetrics(rows: KernelRows) returns (ketEntry: Log10Entry, score: real)
    ensures ketEntry == DurationEntry(rows)
    ensures score == DominanceScore(rows)
  {
    var ket := FilterSamples(rows.ket);
    CleanedShape(rows.ket);
    ketEntry := Log10Of(Median(ket));
    score := TotalTime(|ket|, Median(ket));
  }

  /** The overhead block: filter, remove outliers, take the median. */
  method OverheadMetric(rows: KernelRows) returns (kloEntry: Log10Entry)
    ensures kloEntry == OverheadEntry(rows)
  {
    var klo := FilterSamples(rows.klo);
    kloEntry := Log10Of(Median(RemoveOutliers(klo)));
  }

  /** The slack block, with its special case for the synthetic [0]. */
  method SlackMetric(rows: KernelRows) returns (slackEntry: Log10Entry)
    ensures slackEntry == SlackEntry(rows)
  {
    var slack := FilterSamples(rows.slack);
    if |slack| == 1 && slack[0] == 0.0 {
      slackEntry := Zero;
    } else {
      slackEntry := Log10Of(Median(RemoveOutliers(slack)));
    }
  }

  /** `[f(r) for r in rows]`, built by appending at the end as the loop does. */
  function PerKernel<T>(f: KernelRows -> T, rows: seq<KernelRows>): (r: seq<T>)
    ensures |r| == |rows|
  {
    if rows == [] then [] else PerKernel(f, rows[..|rows| - 1]) + [f(rows[|rows| - 1])]
  }

  /** One more iteration appends the entry of the next kernel. */
  lemma PerKernelStep<T>(f: KernelRows -> T, rows: seq<KernelRows>, i: nat)
    requires i < |rows|
    ensures PerKernel(f, rows[..i + 1]) == PerKernel(f, rows[..i]) + [f(rows[i])]
  {
    assert rows[..i + 1][..i] == rows[..i];
  }

  lemma {:induction false} PerKernelAt<T>(f: KernelRows -> T, rows: seq<KernelRows>, k: nat)
    requires k < |rows|
    ensures PerKernel(f, rows)[k] == f(rows[k])
  {
    if k < |rows| - 1 {
      PerKernelAt(f, rows[..|rows| - 1], k);
    }
  }

  /** `extract_metrics` without its queries and plots: `signatures` is what the
      signature query returns and `rows[i]` what the three per-signature queries
      return for `signatures[i]`. */
  method ExtractMetrics(signatures: seq<Signature>, rows: seq<KernelRows>)
    returns (full: Series, dominant: seq<real>, bars: Series)
    requires |rows| == |signatures|
    ensures Aligned(full, |signatures|) && |dominant| == |signatures|
    ensures forall i {:trigger full.labels[i]} :: 0 <= i < |signatures| ==> full.labels[i] == Label(signatures[i])
    ensures forall i {:trigger full.ket[i]} :: 0 <= i < |signatures| ==> full.ket[i] == DurationEntry(rows[i])
    ensures forall i {:trigger full.klo[i]} :: 0 <= i < |signatures| ==> full.klo[i] == OverheadEntry(rows[i])
    ensures forall i {:trigger full.slack[i]} :: 0 <= i < |signatures| ==> full.slack[i] == SlackEntry(rows[i])
    ensures forall i {:trigger dominant[i]} :: 0 <= i < |signatures| ==> dominant[i] == DominanceScore(rows[i])
    ensures bars == SelectDominant(full, dominant)
  {
    var labels := BuildLabels(signatures);
    var ketList: seq<Log10Entry> := [];
    var kloList: seq<Log10Entry> := [];
    var slackList: seq<Log10Entry> := [];
    dominant := [];
    for i := 0 to |rows|
      invariant ketList == PerKernel(DurationEntry, rows[..i])
      invariant kloList == PerKernel(OverheadEntry, rows[..i])
      invariant slackList == PerKernel(SlackEntry, rows[..i])
      invariant dominant == PerKernel(DominanceScore, rows[..i])
    {
      PerKernelStep(DurationEntry, rows, i);
      PerKernelStep(OverheadEntry, rows, i);
      PerKernelStep(SlackEntry, rows, i);
      PerKernelStep(DominanceScore, rows, i);
      var ketEntry, score := DurationMetrics(rows[i]);
      var kloEntry := OverheadMetric(rows[i]);
      var slackEntry := SlackMetric(rows[i]);
      ketList := ketList + [ketEntry];
      kloList := kloList + [kloEntry];
      slackList := slackList + [slackEntry];
      dominant := dominant + [score];
    }
    assert rows[..|rows|] == rows;
    forall i | 0 <= i < |rows|
      ensures ketList[i] == DurationEntry(rows[i]) && kloList[i] == OverheadEntry(rows[i])
      ensures slackList[i] == SlackEntry(rows[i]) && dominant[i] == DominanceScore(rows[i])
    {
      PerKernelAt(DurationEntry, rows, i);
      PerKernelAt(OverheadEntry, rows, i);
      PerKernelAt(SlackEntry, rows, i);
      PerKernelAt(DominanceScore, rows, i);
    }
    full := Series(ketList, kloList, slackList, labels);
    bars := SelectDominant(full, dominant);
  }

  /** Every reported log argument is positive exactly when each kernel had a positive
      duration and a positive overhead; otherwise the source stops with a domain error. */
  lemma ReportDefined(rows: seq<KernelRows>, full: Series)
    requires Aligned(full, |rows|)
    requires forall i {:trigger full.ket[i]} :: 0 <= i < |rows| ==> full.ket[i] == DurationEntry(rows[i])
    requires forall i {:trigger full.klo[i]} :: 0 <= i < |rows| ==> full.klo[i] == OverheadEntry(rows[i])
    requires forall i {:trigger full.slack[i]} :: 0 <= i < |rows| ==> full.slack[i] == SlackEntry(rows[i])
    ensures (forall i :: 0 <= i < |rows| ==> Defined(full.ket[i]) && Defined(full.klo[i]) && Defined(full.slack[i]))
        <==> (forall i :: 0 <= i < |rows| ==> HasPositive(rows[i].ket) && HasPositive(rows[i].klo))
  {
    forall i | 0 <= i < |rows|
      ensures Defined(full.ket[i]) && Defined(full.klo[i]) && Defined(full.slack[i])
          <==> HasPositive(rows[i].ket) && HasPositive(rows[i].klo)
    {
      assert full.ket[i] == DurationEntry(rows[i]);
      assert full.klo[i] == OverheadEntry(rows[i]);
      assert full.slack[i] == SlackEntry(rows[i]);
    }
  }
}
