# nsys-analyze-script: metric extraction and transfer binning, in Dafny

This project models the numeric core of three post-processing scripts for an
NVIDIA Nsight Systems trace exported to SQLite:

- `memcpy_DtoH.py` counts the copies its query selects (`copyKind = 2`; the file
  name says device-to-host, the function name and its comment say host-to-device)
  in ten right-closed byte-size buckets (`<= 4 KB`, `<= 8 KB`, ..., `<= 1 MB`, `1 MB+`). Module
  `TransferHistogram` (`transfer_histogram.dfy`): the bucket chain, a reference
  definition of the partition from the limits `4096 * 2^k`, and the counting loop
  over a zero-initialised ten-slot array.
- `memcpy_DtoH_bw.py` takes the same copies, routes each one's bandwidth
  `bytes * 953.674 / (end - start)` into one of ten lists with the same boundaries, then pads every empty list with
  a single 0. Module `TransferBandwidth` (`transfer_bandwidth.dfy`): the routing
  loop over an array of ten lists and the in-place padding loop.
- `kernel_metrics.py` reduces, per kernel signature (name and launch geometry),
  the fetched execution times (`ket`), launch overheads (`klo`) and launch slacks
  to one log-scaled median each, ranks kernels by `len(ket) * median(ket)`, and
  keeps the 50 most dominant. Module `SampleStats` (`sample_stats.dfy`) holds
  `np.median`, numpy's default linear-interpolation percentile and
  `remove_outliers`; module `DominanceRanking` (`dominance_ranking.dfy`) holds
  `heapq.nlargest` over indices; module `KernelMetrics` (`kernel_metrics.dfy`)
  holds the labels, the positive-sample filter, the three per-kernel entries, the
  dominance score and the whole per-signature loop of `extract_metrics`.

The rows each SQL query returns are the inputs: a sequence of integers (byte sizes,
or nanosecond differences) or of `(start, end, bytes)` records. Timings and
bandwidths are `real`s. `math.log10` is not computed: a reported entry is either
the exact 0 of the slack special case or `Log10Of(arg)`, which records the
argument handed to `math.log10`; an argument of 0 marks the point where Python
raises a math domain error.

Behaviour of the code that the model keeps:

- The 50 kernels kept by the ranking come out in `heapq.nlargest` order: scores
  non-increasing, and equal scores in ascending index order.
- The quartiles are numpy's default linear interpolation at virtual index
  `q * (n - 1)` of the sorted sample. `remove_outliers` filters only the
  launch overheads and the slacks (kernel_metrics.py:169 and 183), never the
  durations (line 157). For a launch-overhead (or slack) sample 10, 20, 30, 1000
  this gives Q1 = 17.5 and Q3 = 272.5, fences -365 and 655, and the filter drops
  1000, leaving median 20 (`SampleStats.FourSampleExample`). A duration sample with
  the same values keeps 1000, and its median is 25
  (`KernelMetrics.FourSampleEntries`).
- A kernel without a positive duration (or without a positive overhead) makes the
  code call `math.log10(0)` (kernel_metrics.py:157 and 169), which raises a math
  domain error (`KernelMetrics.ReportDefined` states exactly when this happens).
- A copy with `end == start` makes the bandwidth a division by zero, whose
  `ZeroDivisionError` the `sqlite3.Error` handler does not catch, so the bandwidth
  model requires `end != start` for every record.

## Model

| member | source | states |
|---|---|---|
| `TransferHistogram.Bucket` | memcpy_DtoH.py:57-77 | the chain picks one of the ten bins, and the size lies in that bin's range of the partition (bin 0 up to 4096, bin k in (4096·2^(k-1), 4096·2^k], bin 9 above 1048576) |
| `TransferHistogram.BucketExclusive` | memcpy_DtoH.py:58-77 | a size lies in no bin's range other than the one the chain picks, so the bins are mutually exclusive |
| `TransferHistogram.BucketBoundaries` | memcpy_DtoH.py:58-75 | right-closed bins: each limit 4096, 8192, ..., 1048576 falls in the lower bin and the next byte in the bin above |
| `TransferHistogram.LargeTransfersInLastBucket` | memcpy_DtoH.py:76-77 | every size above 1048576 lands in the open-ended bin 9 |
| `TransferHistogram.BucketMonotone` | memcpy_DtoH.py:58-77 | the bin index never decreases as the size grows |
| `TransferHistogram.HistogramEmpty` | memcpy_DtoH.py:56 | with no transfers every bin is 0 |
| `TransferHistogram.HistogramStep` | memcpy_DtoH.py:57-77 | one more transfer adds 1 to its own bin and leaves the other nine unchanged |
| `TransferHistogram.HistogramTotal` | memcpy_DtoH.py:53-77 | the ten bins sum to the number of transfers |
| `TransferHistogram.CountTransferSizes` | memcpy_DtoH.py:53-77 | the counting loop yields, for every bin, the number of transfers whose size selects it, and the bins sum to the number of transfers |
| `TransferHistogram.AllPageSized` | memcpy_DtoH.py:58-59 | when every transfer is exactly 4096 bytes, bin 0 counts all of them and bins 1-9 count none |
| `TransferBandwidth.Bandwidth` | memcpy_DtoH_bw.py:54-57 | the bandwidth times the duration equals bytes times 953.674 |
| `TransferBandwidth.ListIndex` | memcpy_DtoH_bw.py:54-93 | the routing chain picks one of ten lists, and the size lies in that list's range of the partition |
| `TransferBandwidth.SameBoundaries` | memcpy_DtoH_bw.py:54-93 | the routing chain and the frequency histogram's chain send every size to the same index |
| `TransferBandwidth.BandwidthsAppend` | memcpy_DtoH_bw.py:53-93 | the lists of a concatenation of rows are the lists of the first part followed by those of the second: values keep the order the rows were read |
| `TransferBandwidth.BandwidthsMembers` | memcpy_DtoH_bw.py:53-93 | a value is in list k exactly when some row routed to k has that bandwidth |
| `TransferBandwidth.BandwidthCountsMatchHistogram` | memcpy_DtoH_bw.py:53-93 | list k holds as many values as the frequency histogram counts in bin k for the same rows |
| `TransferBandwidth.Padded` | memcpy_DtoH_bw.py:96-98 | a padded list is never empty, is [0] when it received no row and is unchanged otherwise |
| `TransferBandwidth.RouteBandwidths` | memcpy_DtoH_bw.py:51-93 | the routing loop leaves ten lists, list k holding the bandwidths of exactly the rows routed to k, in reading order |
| `TransferBandwidth.PadEmpty` | memcpy_DtoH_bw.py:96-98 | the padding loop replaces each empty list by [0] in place and leaves every other list as it was |
| `TransferBandwidth.BandwidthDistributions` | memcpy_DtoH_bw.py:51-101 | ten distributions, one per label of the plot, all non-empty; [0] for a bucket the histogram counts as empty, otherwise the bandwidths of exactly the rows counted in that bucket |
| `SampleStats.Sort` | kernel_metrics.py:41-42 | the sorted sample numpy reads medians and percentiles from is ascending and a permutation of the sample |
| `SampleStats.SortedUnique` | kernel_metrics.py:41-42 | two ascending permutations of the same values are equal |
| `SampleStats.MedianWithinSample` | kernel_metrics.py:41-42 | the median lies between the sample's minimum and maximum, and is a sample element for odd lengths |
| `SampleStats.MedianOfSorted` | kernel_metrics.py:41-42 | on a sorted sample the median is the middle element, or the mean of the two middle elements for even lengths |
| `SampleStats.MedianPermutationInvariant` | kernel_metrics.py:41-42 | the median does not depend on the order the values were fetched in |
| `SampleStats.MedianSign` | kernel_metrics.py:41-42 | an all-positive sample has a positive median, an all-non-negative one a non-negative median |
| `SampleStats.InterpolateBetween` | kernel_metrics.py:46-47 | a linear percentile lies between the two sorted elements it interpolates |
| `SampleStats.InterpolateMonotone` | kernel_metrics.py:46-47 | a higher percentile is never smaller |
| `SampleStats.QuartilesOrdered` | kernel_metrics.py:46-50 | Q1 <= Q3, so the interquartile range is non-negative |
| `SampleStats.QuartilesOfSorted` | kernel_metrics.py:46-47 | on a sorted sample the quartiles are read at virtual indices (n-1)/4 and 3(n-1)/4 |
| `SampleStats.KeepWithin` | kernel_metrics.py:57 | for any bounds, the comprehension keeps an in-order subsequence holding every element within the bounds with its multiplicity and no element outside them |
| `SampleStats.QuartilesBracketElement` | kernel_metrics.py:46-47 | with three or more values some sample element lies between Q1 and Q3 |
| `SampleStats.SortedFencesHoldAnElement` | kernel_metrics.py:46-54 | some element of a sorted sample lies within the fences built from its quartiles |
| `SampleStats.FencesHoldAnElement` | kernel_metrics.py:46-54 | some sample element lies within [Q1 - 1.5 IQR, Q3 + 1.5 IQR] |
| `SampleStats.RemoveOutliers` | kernel_metrics.py:44-59 | an in-order subsequence of the input that keeps every element within [Q1 - 1.5 IQR, Q3 + 1.5 IQR], drops every element outside, and is non-empty for a non-empty input |
| `SampleStats.RemoveOutliersKeepsSign` | kernel_metrics.py:44-59 | filtering an all-positive sample leaves positive values with a positive median |
| `SampleStats.KeepWithinExample` | kernel_metrics.py:57 | fences between 30 and 1000 keep 10, 20, 30 of 10, 20, 30, 1000 |
| `SampleStats.FourSampleExample` | kernel_metrics.py:41-59 | for the overhead or slack sample 10, 20, 30, 1000: Q1 = 17.5, Q3 = 272.5, fences -365 and 655, the filter keeps 10, 20, 30, median 25 before and 20 after filtering |
| `DominanceRanking.InsertRanked` | kernel_metrics.py:187 | inserting a new index into a ranked list keeps it ranked and adds exactly that index |
| `DominanceRanking.Ranking` | kernel_metrics.py:187 | all indices below m, each once, ranked by descending score with ties to the lower index |
| `DominanceRanking.NLargest` | kernel_metrics.py:187 | `heapq.nlargest` over indices gives min(k, n) indices in ranked order |
| `DominanceRanking.NLargestChoosesLargest` | kernel_metrics.py:187 | the chosen indices are valid and distinct, in non-increasing score order with ties to the lower index, and no unchosen index has a larger score than a chosen one, nor an equal score and a lower index |
| `DominanceRanking.ChosenIndices` | kernel_metrics.py:185-196 | at most 50 signatures: all indices in input order; more: exactly 50 indices chosen by `nlargest` |
| `DominanceRanking.Pick` | kernel_metrics.py:188-191 | the comprehension `[xs[i] for i in idx]` puts xs[idx[a]] at position a |
| `DominanceRanking.PickAll` | kernel_metrics.py:193-196 | picking every index in order returns the list unchanged |
| `KernelMetrics.NatText` | kernel_metrics.py:144 | `str` of a natural number is a non-empty string of digits |
| `KernelMetrics.NatTextSpells` | kernel_metrics.py:144 | `str(n)` is the decimal numeral of n: its digits spell n, and only "0" starts with '0' |
| `KernelMetrics.IntTextSpells` | kernel_metrics.py:144 | `str(n)` of an integer is its numeral: its digits spell n, after a minus sign when n is negative |
| `KernelMetrics.Label` | kernel_metrics.py:144-145 | the label is a prefix of the comma-joined seven-field text, at most nine characters, and the whole text when shorter |
| `KernelMetrics.LongNameLabel` | kernel_metrics.py:144-145 | a kernel whose name has nine or more characters is labelled by its name's first nine characters, whatever its geometry |
| `KernelMetrics.LabelIsFullWidth` | kernel_metrics.py:144-145 | every label is exactly nine characters long, since the joined text has at least twelve |
| `KernelMetrics.PositivesAppend` | kernel_metrics.py:150-155 | the filter goes row by row in the order fetched: the values kept from two consecutive runs of rows are those of the first run, then those of the second |
| `KernelMetrics.PositivesOne` | kernel_metrics.py:151-153 | one row is kept, divided by 1000, exactly when it is positive |
| `KernelMetrics.PositivesMembers` | kernel_metrics.py:151-153 | a value is kept exactly when it is some positive raw value divided by 1000 |
| `KernelMetrics.PositivesSign` | kernel_metrics.py:151-153 | every kept value is positive, and nothing is kept exactly when no raw value is positive |
| `KernelMetrics.CleanedShape` | kernel_metrics.py:150-155 | the filtered sample is never empty, is [0] exactly when no raw value is positive, and otherwise holds positive values only |
| `KernelMetrics.CleanedMedian` | kernel_metrics.py:150-157 | the filtered sample's median is non-negative, and positive exactly when some raw value was |
| `KernelMetrics.FilterSamples` | kernel_metrics.py:150-155 | the filter loop yields the positive raw values divided by 1000 in fetch order, or [0] when there are none |
| `KernelMetrics.DurationEntry` | kernel_metrics.py:150-157 | the duration entry is a log10 of a non-negative median, whose argument is positive exactly when some duration was |
| `KernelMetrics.OverheadMedianSign` | kernel_metrics.py:162-169 | the cleaned overheads are never empty; their median after outlier removal is positive when some overhead was, and is the median of [0.0], namely 0, otherwise |
| `KernelMetrics.OverheadEntry` | kernel_metrics.py:162-169 | the overhead entry is a log10 of the median after outlier removal, whose argument is positive exactly when some overhead was |
| `KernelMetrics.FourRowsCleaned` | kernel_metrics.py:150-155 | the rows 10000, 20000, 30000, 1000000 ns filter to the sample 10, 20, 30, 1000 µs |
| `KernelMetrics.FourSampleEntries` | kernel_metrics.py:150-183 | with durations, overheads and slacks all 10, 20, 30, 1000 µs, the duration entry is log10(25), since durations are not filtered, and the overhead and slack entries are log10(20), since `remove_outliers` drops 1000 |
| `KernelMetrics.SlackEntry` | kernel_metrics.py:173-183 | the slack entry is exactly 0 when no slack is positive, and otherwise a log10 of a positive median |
| `KernelMetrics.DominanceScoreSign` | kernel_metrics.py:150-158 | the dominance score is non-negative, and positive exactly when some duration was positive |
| `KernelMetrics.SelectDominant` | kernel_metrics.py:185-196 | at most 50 kernels: the series unchanged; more: 50 entries per series, all four picked with one index list so they stay aligned |
| `KernelMetrics.BuildLabels` | kernel_metrics.py:142-145 | the label loop gives one label per signature, in order |
| `KernelMetrics.DurationMetrics` | kernel_metrics.py:150-158 | the duration block yields the duration entry and the dominance score of the kernel |
| `KernelMetrics.OverheadMetric` | kernel_metrics.py:162-169 | the overhead block yields the overhead entry of the kernel |
| `KernelMetrics.SlackMetric` | kernel_metrics.py:173-183 | the slack block yields the slack entry, skipping filter and log for the synthetic [0] |
| `KernelMetrics.PerKernelAt` | kernel_metrics.py:147-183 | the list the per-signature loop builds holds, at position i, the entry of signature i |
| `KernelMetrics.ExtractMetrics` | kernel_metrics.py:142-196 | labels, the three entry lists and the dominance list are index-aligned with the signatures and hold each signature's values; the reported series are the dominance selection of them |
| `KernelMetrics.ReportDefined` | kernel_metrics.py:157-183 | every log argument is positive, so no domain error occurs, exactly when every kernel has a positive duration and a positive overhead |

## Left out

- The SQLite connection, the queries, the cursors and the cleanup: the rows the queries return are the inputs.
- The choice of distinct signatures by the first query (`SELECT DISTINCT`) is done by the database; the model takes the signature list as given.
- All matplotlib configuration and plotting, including the violin plot, the bar plots and the axis step computation: presentation only.
- `math.log10`, `10**x` and the ratio series (kernel_metrics.py:157, 169, 183, 252-257): transcendental floating-point operations. Entries record the log argument instead of its value, so the ratio series is not modelled.
- Floating-point rounding of `/ 1000`, `* 953.674` and the percentile interpolation: all arithmetic is over exact reals.
- The SQL integer results are unbounded integers; SQLite's 64-bit overflow is not modelled.
- The command-line argument checks in the `__main__` blocks.
