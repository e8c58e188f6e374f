/** Selection of the most dominant kernel signatures (kernel_metrics.py, lines 185-196).
    `heapq.nlargest(k, range(n), key=score)` is documented to equal
    `sorted(range(n), key=score, reverse=True)[:k]`; the sort is stable, so equal
    scores keep the lower index first. */
module DominanceRanking {

  /** Number of signatures kept when there are more. */
  const DominanceLimit: nat := 50

  /** Index i is ranked ahead of index j: a larger score, or an equal score and a lower index. */
  predicate Ahead(scores: seq<real>, i: nat, j: nat)
    requires i < |scores| && j < |scores|
  {
    scores[i] > scores[j] || (scores[i] == scores[j] && i < j)
  }

  /** r lists indices of `scores`, each strictly ahead of every later one. */
  predicate Ranked(scores: seq<real>, r: seq<nat>)
  {
    (forall a :: 0 <= a < |r| ==> r[a] < |scores|) &&
    (forall a, b :: 0 <= a < b < |r| ==> Ahead(scores, r[a], r[b]))
  }

  /** Inserts index i, which is larger than every index already ranked, behind every
      index whose score is at least its own. */
  function InsertRanked(scores: seq<real>, i: nat, r: seq<nat>): (r': seq<nat>)
    requires i < |scores| && Ranked(scores, r)
    requires forall a :: 0 <= a < |r| ==> r[a] < i
    ensures Ranked(scores, r')
    ensures |r'| == |r| + 1
    ensures forall x :: x in r' <==> x == i || x in r
  {
    if r == [] || scores[i] > scores[r[0]] then
      [i] + r
    else
      var rest := InsertRanked(scores, i, r[1..]);
      RankedBehind(scores, r, i, rest);
      [r[0]] + rest
  }

  /** The head of a ranked list, whose score is at least that of a larger index i,
      is ahead of everything in a list made of i and the rest of the ranked list. */
  lemma RankedBehind(scores: seq<real>, r: seq<nat>, i: nat, rest: seq<nat>)
    requires i < |scores| && Ranked(scores, r) && r != []
    requires r[0] < i && scores[r[0]] >= scores[i]
    requires forall x :: x in rest ==> x == i || x in r[1..]
    ensures forall a :: 0 <= a < |rest| ==> rest[a] < |scores| && Ahead(scores, r[0], rest[a])
  {
    forall a | 0 <= a < |rest| ensures rest[a] < |scores| && Ahead(scores, r[0], rest[a]) {
      assert rest[a] in rest;
      if rest[a] != i {
        var b :| 0 <= b < |r[1..]| && r[1..][b] == rest[a];
        assert r[b + 1] == rest[a];
      }
    }
  }

  /** The indices 0 .. m-1 in ranked order (the stable sort on descending score). */
  function Ranking(scores: seq<real>, m: nat): (r: seq<nat>)
    requires m <= |scores|
    ensures Ranked(scores, r)
    ensures |r| == m
    ensures forall x: nat :: x in r <==> x < m
  {
    if m == 0 then []
    else
      var prev := Ranking(scores, m - 1);
      assert forall a :: 0 <= a < |prev| ==> prev[a] in prev;
      InsertRanked(scores, m - 1, prev)
  }

  /** `heapq.nlargest(k, range(len(scores)), key=lambda i: scores[i])`. */
  function NLargest(k: nat, scores: seq<real>): (r: seq<nat>)
    ensures Ranked(scores, r)
    ensures |r| == if k <= |scores| then k else |scores|
  {
    var full := Ranking(scores, |scores|);
    if k <= |full| then full[..k] else full
  }

  /** What the selection promises: exactly min(k, n) distinct indices, in non-increasing
      score order with ties to the lower index, and no index left out has a larger
      score than one chosen, nor an equal score and a lower index. */
  lemma NLargestChoosesLargest(k: nat, scores: seq<real>)
    ensures var r := NLargest(k, scores);
      && |r| == (if k <= |scores| then k else |scores|)
      && (forall a :: 0 <= a < |r| ==> r[a] < |scores|)
      && (forall a, b :: 0 <= a < b < |r| ==> r[a] != r[b])
      && (forall a, b :: 0 <= a < b < |r| ==> scores[r[a]] >= scores[r[b]])
      && (forall a, b :: 0 <= a < b < |r| && scores[r[a]] == scores[r[b]] ==> r[a] < r[b])
      && (forall a, j :: 0 <= a < |r| && 0 <= j < |scores| && j !in r ==> scores[r[a]] >= scores[j])
      && (forall a, j :: 0 <= a < |r| && 0 <= j < |scores| && j !in r && scores[j] == scores[r[a]] ==> r[a] < j)
  {
    var r := NLargest(k, scores);
    var full := Ranking(scores, |scores|);
    forall a, j | 0 <= a < |r| && 0 <= j < |scores| && j !in r
      ensures scores[r[a]] >= scores[j]
      ensures scores[j] == scores[r[a]] ==> r[a] < j
    {
      assert j in full;
      var p :| 0 <= p < |full| && full[p] == j;
      assert r[a] == full[a] && a < p;
      assert Ahead(scores, full[a], full[p]);
    }
  }

  /** The list of indices whose entries are reported: the top `limit` by score when
      there are more than `limit` signatures, otherwise all of them in input order. */
  function ChosenIndices(scores: seq<real>, limit: nat): (idx: seq<nat>)
    ensures forall a :: 0 <= a < |idx| ==> idx[a] < |scores|
    ensures |scores| <= limit ==> idx == seq(|scores|, i => i)
    ensures |scores| > limit ==> idx == NLargest(limit, scores) && |idx| == limit
  {
    if |scores| > limit then NLargest(limit, scores) else seq(|scores|, i => i)
  }

  /** `[xs[i] for i in idx]`. */
  function Pick<T>(xs: seq<T>, idx: seq<nat>): (r: seq<T>)
    requires forall a :: 0 <= a < |idx| ==> idx[a] < |xs|
    ensures |r| == |idx|
    ensures forall a :: 0 <= a < |idx| ==> r[a] == xs[idx[a]]
  {
    if idx == [] then [] else [xs[idx[0]]] + Pick(xs, idx[1..])
  }

  /** Picking every index in order gives back the list unchanged. */
  lemma PickAll<T>(xs: seq<T>)
    ensures Pick(xs, seq(|xs|, i => i)) == xs
  {
  }
}
