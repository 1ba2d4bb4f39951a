/** Corpus-level rank aggregation (`rankAggregateCorpus`,
    code/SetRank/autoSetRank_ESR.py lines 190-274): one weight per ranker,
    shared by every query. Each iteration builds every query's consensus
    under the current weights, adds up every ranker's distance over all
    queries, and re-weights by the normalised reciprocal of the sums. There
    is no early exit: the loop always runs `maxIters` times. */
module Corpus {
  import opened Seqs
  import opened Pool
  import opened Borda
  import opened Disagreement
  import opened Confidence
  import opened Aggregate
  import opened Iteration

  /** Every query has at most `p` rankings, `p` being the number of rankings
      of the first query: ranker `i` of every query reads `alphas[i]`. */
  ghost predicate Fits<D>(corpus: seq<seq<seq<D>>>, p: nat) {
    forall q :: 0 <= q < |corpus| ==> |corpus[q]| <= p
  }

  /** The distance of every ranker of one query from that query's consensus
      under `alphas`. */
  function QueryDistances<D(==)>(metric: Metric, g: nat -> real, rankings: seq<seq<D>>, alphas: seq<real>): (ds: seq<real>)
    requires |rankings| <= |alphas|
    ensures |ds| == |rankings|
  {
    var pool := BuildPool(rankings);
    var order := Consensus(pool, alphas);
    assert IsPermutation(order, |pool.docs|) by {
      ConsensusOrder(pool, alphas);
    }
    Distances(metric, g, pool, order)
  }

  lemma QueryDistancesUnfold<D>(metric: Metric, g: nat -> real, rankings: seq<seq<D>>, alphas: seq<real>)
    requires |rankings| <= |alphas|
    ensures IsPermutation(Consensus(BuildPool(rankings), alphas), |BuildPool(rankings).docs|)
    ensures QueryDistances(metric, g, rankings, alphas)
         == Distances(metric, g, BuildPool(rankings), Consensus(BuildPool(rankings), alphas))
  {
    ConsensusOrder(BuildPool(rankings), alphas);
  }

  /** With a discount that decreases, no query distance is negative. */
  lemma QueryDistancesNonNegative<D>(metric: Metric, g: nat -> real, rankings: seq<seq<D>>, alphas: seq<real>)
    requires |rankings| <= |alphas| && Decreasing(g)
    ensures forall i :: 0 <= i < |rankings| ==> QueryDistances(metric, g, rankings, alphas)[i] >= 0.0
  {
    var pool := BuildPool(rankings);
    var order := Consensus(pool, alphas);
    QueryDistancesUnfold(metric, g, rankings, alphas);
    var pis := RankLists(pool, order);
    forall i | 0 <= i < |rankings| ensures QueryDistances(metric, g, rankings, alphas)[i] >= 0.0 {
      DistanceNonNegative(metric, g, pis[i]);
    }
  }

  /** An unsupported metric gives every ranker of a query distance zero. */
  lemma QueryDistancesUnsupported<D>(name: string, g: nat -> real, rankings: seq<seq<D>>, alphas: seq<real>)
    requires |rankings| <= |alphas|
    ensures forall i :: 0 <= i < |rankings| ==> QueryDistances(Unsupported(name), g, rankings, alphas)[i] == 0.0
  {
    var pool := BuildPool(rankings);
    var order := Consensus(pool, alphas);
    QueryDistancesUnfold(Unsupported(name), g, rankings, alphas);
    var pis := RankLists(pool, order);
    forall i | 0 <= i < |rankings| ensures QueryDistances(Unsupported(name), g, rankings, alphas)[i] == 0.0 {
      UnsupportedIsZero(name, g, pis[i], |pis[i]|);
    }
  }

  /** `alpha_distances[r_id] += distance` for every ranker of one query. */
  function AddInto(acc: seq<real>, ds: seq<real>): (r: seq<real>)
    requires |ds| <= |acc|
    ensures |r| == |acc|
  {
    seq(|acc|, i requires 0 <= i < |acc| => if i < |ds| then acc[i] + ds[i] else acc[i])
  }

  /** `np.zeros(p)`. */
  function Zeros(p: nat): (z: seq<real>)
    ensures |z| == p
  {
    seq(p, i => 0.0)
  }

  /** Rows of per-ranker values, each no longer than `p`, added up row by
      row in order, starting from zeros. */
  function AddRows(rows: seq<seq<real>>, p: nat): (total: seq<real>)
    requires forall q :: 0 <= q < |rows| ==> |rows[q]| <= p
    ensures |total| == p
    decreases |rows|
  {
    if |rows| == 0 then Zeros(p)
    else AddInto(AddRows(rows[..|rows| - 1], p), rows[|rows| - 1])
  }

  /** Adding the first `q + 1` rows is adding the first `q`, then row `q`. */
  lemma AddRowsSnoc(rows: seq<seq<real>>, p: nat, q: nat)
    requires forall k :: 0 <= k < |rows| ==> |rows[k]| <= p
    requires q < |rows|
    ensures AddRows(rows[..q + 1], p) == AddInto(AddRows(rows[..q], p), rows[q])
  {
    assert rows[..q + 1][..q] == rows[..q];
  }

  /** Column `i` of the rows, a row too short for it counting as zero. */
  function Column(rows: seq<seq<real>>, i: nat): (col: seq<real>)
    ensures |col| == |rows|
  {
    seq(|rows|, q requires 0 <= q < |rows| => if i < |rows[q]| then rows[q][i] else 0.0)
  }

  /** Adding row by row gives every position the sum of its column. */
  lemma {:induction false} AddRowsColumn(rows: seq<seq<real>>, p: nat, i: nat)
    requires forall q :: 0 <= q < |rows| ==> |rows[q]| <= p
    requires i < p
    ensures AddRows(rows, p)[i] == Sum(Column(rows, i))
    decreases |rows|
  {
    if |rows| > 0 {
      var last := |rows| - 1;
      var front := rows[..last];
      AddRowsColumn(front, p, i);
      var cell := if i < |rows[last]| then rows[last][i] else 0.0;
      assert Column(rows, i) == Column(front, i) + [cell];
      SumAppend(Column(front, i), [cell]);
      assert Sum([cell]) == cell + Sum([]);
    }
  }

  /** Every query's distance vector under `alphas`, in corpus order. */
  function DistanceTable<D(==)>(metric: Metric, g: nat -> real, corpus: seq<seq<seq<D>>>, alphas: seq<real>): (rows: seq<seq<real>>)
    requires Fits(corpus, |alphas|)
    ensures |rows| == |corpus|
    ensures forall q :: 0 <= q < |corpus| ==> |rows[q]| == |corpus[q]| <= |alphas|
  {
    seq(|corpus|, q requires 0 <= q < |corpus| => QueryDistances(metric, g, corpus[q], alphas))
  }

  /** `alpha_distances` after the query loop: the distances of every ranker,
      added up query by query in corpus order. */
  function SummedDistances<D(==)>(metric: Metric, g: nat -> real, corpus: seq<seq<seq<D>>>, alphas: seq<real>): (total: seq<real>)
    requires Fits(corpus, |alphas|)
    ensures |total| == |alphas|
  {
    AddRows(DistanceTable(metric, g, corpus, alphas), |alphas|)
  }

  /** Ranker `i`'s summed distance is the sum, over the queries, of its
      distance in each query that has an `i`-th ranking: the sum of column
      `i` of the table of per-query distances. */
  lemma SummedIsRankerTotal<D>(metric: Metric, g: nat -> real, corpus: seq<seq<seq<D>>>, alphas: seq<real>, i: nat)
    requires Fits(corpus, |alphas|) && i < |alphas|
    ensures SummedDistances(metric, g, corpus, alphas)[i] == Sum(Column(DistanceTable(metric, g, corpus, alphas), i))
  {
    AddRowsColumn(DistanceTable(metric, g, corpus, alphas), |alphas|, i);
  }

  /** Rows with no negative entry add up to no negative entry. */
  lemma {:induction false} AddRowsNonNegative(rows: seq<seq<real>>, p: nat)
    requires forall q :: 0 <= q < |rows| ==> |rows[q]| <= p
    requires forall q, i :: 0 <= q < |rows| && 0 <= i < |rows[q]| ==> rows[q][i] >= 0.0
    ensures forall i :: 0 <= i < p ==> AddRows(rows, p)[i] >= 0.0
    decreases |rows|
  {
    if |rows| > 0 {
      AddRowsNonNegative(rows[..|rows| - 1], p);
    }
  }

  /** Rows of zeros add up to zeros. */
  lemma {:induction false} AddRowsZero(rows: seq<seq<real>>, p: nat)
    requires forall q :: 0 <= q < |rows| ==> |rows[q]| <= p
    requires forall q, i :: 0 <= q < |rows| && 0 <= i < |rows[q]| ==> rows[q][i] == 0.0
    ensures forall i :: 0 <= i < p ==> AddRows(rows, p)[i] == 0.0
    decreases |rows|
  {
    if |rows| > 0 {
      AddRowsZero(rows[..|rows| - 1], p);
    }
  }

  /** With a discount that decreases, no summed distance is negative. */
  lemma SummedNonNegative<D>(metric: Metric, g: nat -> real, corpus: seq<seq<seq<D>>>, alphas: seq<real>)
    requires Fits(corpus, |alphas|) && Decreasing(g)
    ensures forall i :: 0 <= i < |alphas| ==> SummedDistances(metric, g, corpus, alphas)[i] >= 0.0
  {
    var rows := DistanceTable(metric, g, corpus, alphas);
    forall q | 0 <= q < |rows| ensures forall i :: 0 <= i < |rows[q]| ==> rows[q][i] >= 0.0 {
      QueryDistancesNonNegative(metric, g, corpus[q], alphas);
    }
    AddRowsNonNegative(rows, |alphas|);
  }

  /** An unsupported metric leaves every summed distance at zero. */
  lemma SummedUnsupported<D>(name: string, g: nat -> real, corpus: seq<seq<seq<D>>>, alphas: seq<real>)
    requires Fits(corpus, |alphas|)
    ensures forall i :: 0 <= i < |alphas| ==> SummedDistances(Unsupported(name), g, corpus, alphas)[i] == 0.0
  {
    var rows := DistanceTable(Unsupported(name), g, corpus, alphas);
    forall q | 0 <= q < |rows| ensures forall i :: 0 <= i < |rows[q]| ==> rows[q][i] == 0.0 {
      QueryDistancesUnsupported(name, g, corpus[q], alphas);
    }
    AddRowsZero(rows, |alphas|);
  }

  /** One corpus iteration: `(1 / alpha_distances) / Z`. */
  function CorpusStep<D(==)>(metric: Metric, g: nat -> real, corpus: seq<seq<seq<D>>>, alphas: seq<real>): (next: Option<seq<real>>)
    requires Fits(corpus, |alphas|) && Decreasing(g)
  {
    var total := SummedDistances(metric, g, corpus, alphas);
    assert forall i :: 0 <= i < |total| ==> total[i] >= 0.0 by {
      SummedNonNegative(metric, g, corpus, alphas);
    }
    InverseUpdate(total)
  }

  /** One iteration on the weights, once they are gone staying gone
      (weights of the wrong length never occur: they count as gone). */
  function CorpusStepOf<D(==)>(metric: Metric, g: nat -> real, corpus: seq<seq<seq<D>>>, p: nat): Option<seq<real>> -> Option<seq<real>>
    requires Fits(corpus, p) && Decreasing(g)
  {
    (w: Option<seq<real>>) => match w
         case None => None
         case Some(alphas) => if |alphas| == p then CorpusStep(metric, g, corpus, alphas) else None
  }

  /** The weights after `n` corpus iterations from the uniform start, or
      `None` once some ranker's summed distance has been zero. */
  function CorpusWeights<D(==)>(metric: Metric, g: nat -> real, corpus: seq<seq<seq<D>>>, p: nat, n: nat): (w: Option<seq<real>>)
    requires Fits(corpus, p) && Decreasing(g)
    ensures w.Some? ==> |w.value| == p
  {
    var step := CorpusStepOf(metric, g, corpus, p);
    assert Iterate(step, Some(Uniform(p)), n).Some? ==> |Iterate(step, Some(Uniform(p)), n).value| == p by {
      var inv := (w: Option<seq<real>>) => w.Some? ==> |w.value| == p;
      forall w | inv(w) ensures inv(step(w)) {
        if w.Some? {
          assert step(w) == CorpusStep(metric, g, corpus, w.value);
        }
      }
      IterateInvariant(step, Some(Uniform(p)), inv, n);
    }
    Iterate(step, Some(Uniform(p)), n)
  }

  /** Iteration `n + 1` updates the weights of iteration `n`, if any. */
  lemma CorpusWeightsSucc<D>(metric: Metric, g: nat -> real, corpus: seq<seq<seq<D>>>, p: nat, n: nat)
    requires Fits(corpus, p) && Decreasing(g)
    ensures CorpusWeights(metric, g, corpus, p, n + 1)
         == match CorpusWeights(metric, g, corpus, p, n)
            case None => None
            case Some(alphas) => CorpusStep(metric, g, corpus, alphas)
  {
  }

  /** `rankAggregateCorpus(corpus_doc_rankings, maxIters, distanceMetric)`:
      the number of rankers is read from the first query, so the corpus
      must not be empty. */
  function RankAggregateCorpus<D(==)>(corpus: seq<seq<seq<D>>>, maxIters: nat, metricName: string, g: nat -> real): (alphas: Option<seq<real>>)
    requires |corpus| >= 1 && Fits(corpus, |corpus[0]|) && Decreasing(g)
  {
    CorpusWeights(MetricOf(metricName), g, corpus, |corpus[0]|, maxIters)
  }

  /** With no iterations the weights stay uniform. */
  lemma CorpusNoIterations<D>(corpus: seq<seq<seq<D>>>, metricName: string, g: nat -> real)
    requires |corpus| >= 1 && Fits(corpus, |corpus[0]|) && Decreasing(g)
    ensures RankAggregateCorpus(corpus, 0, metricName, g) == Some(Uniform(|corpus[0]|))
  {
  }

  /** After at least one iteration, weights that exist are positive, sum to
      1, and a ranker with a smaller summed distance in the last iteration
      never has a smaller weight. */
  lemma CorpusWeightsProperties<D>(metric: Metric, g: nat -> real, corpus: seq<seq<seq<D>>>, p: nat, n: nat)
    requires Fits(corpus, p) && Decreasing(g) && p >= 1 && n >= 1
    ensures CorpusWeights(metric, g, corpus, p, n).Some? ==> CorpusWeights(metric, g, corpus, p, n - 1).Some?
    ensures CorpusWeights(metric, g, corpus, p, n).Some? ==>
      var w := CorpusWeights(metric, g, corpus, p, n).value;
      && AllPositive(w) && Sum(w) == 1.0
      && var total := SummedDistances(metric, g, corpus, CorpusWeights(metric, g, corpus, p, n - 1).value);
         forall i, j :: 0 <= i < p && 0 <= j < p && total[i] <= total[j] ==> w[i] >= w[j]
  {
    CorpusWeightsSucc(metric, g, corpus, p, n - 1);
    if CorpusWeights(metric, g, corpus, p, n).Some? {
      var alphas := CorpusWeights(metric, g, corpus, p, n - 1).value;
      var total := SummedDistances(metric, g, corpus, alphas);
      SummedNonNegative(metric, g, corpus, alphas);
      assert CorpusStep(metric, g, corpus, alphas).Some?;
      assert forall i :: 0 <= i < |total| ==> total[i] > 0.0;
      InverseUpdateProperties(total);
    }
  }

  /** An unsupported metric makes every summed distance zero, so the first
      update already divides by zero, and the weights stay gone. */
  lemma CorpusUnsupported<D>(corpus: seq<seq<seq<D>>>, maxIters: nat, metricName: string, g: nat -> real)
    requires |corpus| >= 1 && Fits(corpus, |corpus[0]|) && Decreasing(g)
    requires metricName != "KT" && metricName != "dKT"
    requires |corpus[0]| >= 1 && maxIters >= 1
    ensures RankAggregateCorpus(corpus, maxIters, metricName, g).None?
  {
    var p := |corpus[0]|;
    var metric := MetricOf(metricName);
    var step := CorpusStepOf(metric, g, corpus, p);
    var start := Some(Uniform(p));
    assert step(start).None? by {
      SummedUnsupported(metricName, g, corpus, Uniform(p));
      assert SummedDistances(metric, g, corpus, Uniform(p))[0] == 0.0;
    }
    assert step(None) == None;
    IterateAbsorbed(step, start, None, maxIters);
  }

  // ----- the corpus loop as a program -----

  /** One query's distances as the source computes them: its own handles,
      its consensus, and a pair-cost memo that starts empty for the query. */
  method RunQuery<D(==)>(metric: Metric, g: nat -> real, rankings: seq<seq<D>>, alphas: seq<real>) returns (ds: seq<real>)
    requires |rankings| <= |alphas|
    ensures ds == QueryDistances(metric, g, rankings, alphas)
  {
    var pool := BuildPool(rankings);
    var order := Consensus(pool, alphas);
    QueryDistancesUnfold(metric, g, rankings, alphas);
    ds := RankerDistances(metric, g, RankLists(pool, order));
    DistancesAt(metric, g, pool, order, ds);
  }

  /** The running sums after the first `q` queries. */
  function SummedPrefix<D(==)>(metric: Metric, g: nat -> real, corpus: seq<seq<seq<D>>>, alphas: seq<real>, q: nat): (total: seq<real>)
    requires Fits(corpus, |alphas|) && q <= |corpus|
    ensures |total| == |alphas|
  {
    AddRows(DistanceTable(metric, g, corpus, alphas)[..q], |alphas|)
  }

  lemma SummedPrefixStep<D>(metric: Metric, g: nat -> real, corpus: seq<seq<seq<D>>>, alphas: seq<real>, q: nat)
    requires Fits(corpus, |alphas|) && q < |corpus|
    ensures SummedPrefix(metric, g, corpus, alphas, q + 1)
         == AddInto(SummedPrefix(metric, g, corpus, alphas, q), QueryDistances(metric, g, corpus[q], alphas))
  {
    AddRowsSnoc(DistanceTable(metric, g, corpus, alphas), |alphas|, q);
  }

  lemma SummedPrefixAll<D>(metric: Metric, g: nat -> real, corpus: seq<seq<seq<D>>>, alphas: seq<real>)
    requires Fits(corpus, |alphas|)
    ensures SummedPrefix(metric, g, corpus, alphas, |corpus|) == SummedDistances(metric, g, corpus, alphas)
  {
    var rows := DistanceTable(metric, g, corpus, alphas);
    assert rows[..|corpus|] == rows;
  }

  /** The query loop of one corpus iteration. */
  method RunSummed<D(==)>(metric: Metric, g: nat -> real, corpus: seq<seq<seq<D>>>, alphas: seq<real>) returns (total: seq<real>)
    requires Fits(corpus, |alphas|)
    ensures total == SummedDistances(metric, g, corpus, alphas)
  {
    total := Zeros(|alphas|);
    var q := 0;
    while q < |corpus|
      invariant q <= |corpus|
      invariant total == SummedPrefix(metric, g, corpus, alphas, q)
    {
      var ds := RunQuery(metric, g, corpus[q], alphas);
      SummedPrefixStep(metric, g, corpus, alphas, q);
      total := AddInto(total, ds);
      q := q + 1;
    }
    SummedPrefixAll(metric, g, corpus, alphas);
  }

  /** The weights of iteration `n + 1` from the summed distances under the
      weights of iteration `n`. */
  lemma CorpusUpdate<D>(metric: Metric, g: nat -> real, corpus: seq<seq<seq<D>>>, p: nat, n: nat, w: seq<real>)
    requires Fits(corpus, p) && Decreasing(g) && |w| == p
    ensures forall i :: 0 <= i < p ==> SummedDistances(metric, g, corpus, w)[i] >= 0.0
    ensures CorpusWeights(metric, g, corpus, p, n) == Some(w) ==>
              CorpusWeights(metric, g, corpus, p, n + 1) == InverseUpdate(SummedDistances(metric, g, corpus, w))
  {
    SummedNonNegative(metric, g, corpus, w);
    CorpusWeightsSucc(metric, g, corpus, p, n);
  }

  /** Weights that are gone stay gone. */
  lemma CorpusGone<D>(metric: Metric, g: nat -> real, corpus: seq<seq<seq<D>>>, p: nat, n: nat, m: nat)
    requires Fits(corpus, p) && Decreasing(g) && n <= m
    ensures CorpusWeights(metric, g, corpus, p, n).None? ==> CorpusWeights(metric, g, corpus, p, m).None?
  {
    if CorpusWeights(metric, g, corpus, p, n).None? {
      var step := CorpusStepOf(metric, g, corpus, p);
      assert step(None) == None;
      IterateStays(step, Some(Uniform(p)), None, n, m);
    }
  }

  /** One corpus iteration as a program: the query loop, then the update.
      Started from the weights of iteration `n`, it computes those of
      iteration `n + 1`. */
  method RunIteration<D(==)>(metric: Metric, g: nat -> real, corpus: seq<seq<seq<D>>>, p: nat, n: nat, w: seq<real>)
    returns (next: Option<seq<real>>)
    requires Fits(corpus, p) && Decreasing(g) && |w| == p
    ensures next == CorpusStep(metric, g, corpus, w)
    ensures CorpusWeights(metric, g, corpus, p, n) == Some(w) ==> next == CorpusWeights(metric, g, corpus, p, n + 1)
  {
    var total := RunSummed(metric, g, corpus, w);
    CorpusUpdate(metric, g, corpus, p, n, w);
    next := InverseUpdate(total);
  }
}
