/** The iterative rank aggregation of one query (`rankAggregate`,
    code/SetRank/autoSetRank_ESR.py lines 60-188): start from uniform ranker
    weights, build the weighted Borda consensus, measure every ranker's
    distance from it, re-weight by `exp(-distance)`, and stop as soon as the
    consensus repeats or after `maxIters` rounds. */
module Aggregate {
  import opened Seqs
  import opened Sorting
  import opened Pool
  import opened Borda
  import opened Disagreement
  import opened Confidence
  import opened Iteration

  /** For every ranker, the consensus positions of its entries
      (`docid2rank[r[a]]` for every entry `a` of ranking `r`). */
  function RankLists<D>(pool: Pool<D>, order: seq<nat>): (pis: seq<seq<nat>>)
    requires ValidPool(pool) && IsPermutation(order, |pool.docs|)
    ensures |pis| == |pool.rankings|
    ensures forall i :: 0 <= i < |pis| ==> |pis[i]| == |pool.rankings[i]|
  {
    var rank := RankOf(order, |pool.docs|);
    seq(|pool.rankings|, i requires 0 <= i < |pool.rankings| => Ranks(rank, pool.rankings[i]))
  }

  /** The distance of every ranker from the consensus `order`. */
  function Distances<D>(metric: Metric, g: nat -> real, pool: Pool<D>, order: seq<nat>): (ds: seq<real>)
    requires ValidPool(pool) && IsPermutation(order, |pool.docs|)
    ensures |ds| == |pool.rankings|
  {
    var pis := RankLists(pool, order);
    seq(|pis|, i requires 0 <= i < |pis| => Distance(metric, g, pis[i]))
  }

  /** One round's weight update: the consensus under `alphas`, the distances
      from it, and the normalised `exp(-distance)`. */
  function Step<D>(pool: Pool<D>, metric: Metric, g: nat -> real, exp: real -> real, alphas: seq<real>): (next: seq<real>)
    requires ValidPool(pool) && ExpPositive(exp) && |alphas| == |pool.rankings|
    ensures |next| == |alphas|
  {
    var order := Consensus(pool, alphas);
    assert IsPermutation(order, |pool.docs|) by {
      ConsensusOrder(pool, alphas);
    }
    ExpUpdate(exp, Distances(metric, g, pool, order))
  }

  /** `step` of the control loop: weights of the wrong length are left as
      they are (the loop only ever holds `p` weights). */
  function StepOf<D>(pool: Pool<D>, metric: Metric, g: nat -> real, exp: real -> real): seq<real> -> seq<real>
    requires ValidPool(pool) && ExpPositive(exp)
  {
    alphas => if |alphas| == |pool.rankings| then Step(pool, metric, g, exp, alphas) else alphas
  }

  /** `view` of the control loop: the consensus under the weights. */
  function ViewOf<D>(pool: Pool<D>): seq<real> -> seq<nat>
    requires ValidPool(pool)
  {
    alphas => if |pool.rankings| <= |alphas| then Consensus(pool, alphas) else []
  }

  /** The weights of round `n`: `n` updates from the uniform start. */
  function Weights<D>(pool: Pool<D>, metric: Metric, g: nat -> real, exp: real -> real, n: nat): seq<real>
    requires ValidPool(pool) && ExpPositive(exp)
  {
    Iterate(StepOf(pool, metric, g, exp), Uniform(|pool.rankings|), n)
  }

  lemma WeightsLength<D>(pool: Pool<D>, metric: Metric, g: nat -> real, exp: real -> real, n: nat)
    requires ValidPool(pool) && ExpPositive(exp)
    ensures |Weights(pool, metric, g, exp, n)| == |pool.rankings|
  {
    var p := |pool.rankings|;
    var step := StepOf(pool, metric, g, exp);
    var inv := (a: seq<real>) => |a| == p;
    forall a | inv(a) ensures inv(step(a)) {
      assert step(a) == Step(pool, metric, g, exp, a);
    }
    IterateInvariant(step, Uniform(p), inv, n);
  }

  /** Round `n + 1` holds the update of round `n`. */
  lemma WeightsSucc<D>(pool: Pool<D>, metric: Metric, g: nat -> real, exp: real -> real, n: nat)
    requires ValidPool(pool) && ExpPositive(exp)
    ensures |Weights(pool, metric, g, exp, n)| == |pool.rankings|
    ensures Weights(pool, metric, g, exp, n + 1) == Step(pool, metric, g, exp, Weights(pool, metric, g, exp, n))
  {
    WeightsLength(pool, metric, g, exp, n);
  }

  /** One update keeps the weights positive and summing to 1. */
  lemma StepNormalized<D>(pool: Pool<D>, metric: Metric, g: nat -> real, exp: real -> real, alphas: seq<real>)
    requires ValidPool(pool) && ExpPositive(exp) && |alphas| == |pool.rankings| > 0
    ensures AllPositive(Step(pool, metric, g, exp, alphas)) && Sum(Step(pool, metric, g, exp, alphas)) == 1.0
  {
    var order := Consensus(pool, alphas);
    ConsensusOrder(pool, alphas);
    ExpUpdateNormalized(exp, Distances(metric, g, pool, order));
  }

  /** Every round's weights are positive and sum to 1 (when there is a
      ranker at all). */
  lemma WeightsNormalized<D>(pool: Pool<D>, metric: Metric, g: nat -> real, exp: real -> real, n: nat)
    requires ValidPool(pool) && ExpPositive(exp) && |pool.rankings| > 0
    ensures AllPositive(Weights(pool, metric, g, exp, n)) && Sum(Weights(pool, metric, g, exp, n)) == 1.0
  {
    var p := |pool.rankings|;
    var step := StepOf(pool, metric, g, exp);
    var inv := (a: seq<real>) => |a| == p && AllPositive(a) && Sum(a) == 1.0;
    forall a | inv(a) ensures inv(step(a)) {
      assert step(a) == Step(pool, metric, g, exp, a);
      StepNormalized(pool, metric, g, exp, a);
    }
    UniformIsNormalized(p);
    IterateInvariant(step, Uniform(p), inv, n);
  }

  /** The loop of `rankAggregate` over a pool. */
  function Rounds<D>(pool: Pool<D>, metric: Metric, g: nat -> real, exp: real -> real, maxIters: nat): (out: Outcome<seq<real>, seq<nat>>)
    requires ValidPool(pool) && ExpPositive(exp) && maxIters >= 1
  {
    Loop(StepOf(pool, metric, g, exp), ViewOf(pool), Uniform(|pool.rankings|), None, 0, maxIters)
  }

  /** The loop's outcome in terms of the rounds: the returned consensus is
      the one computed from `scoredWith`; on stopping, the returned weights
      reproduce it and at least one update was made; otherwise exactly
      `maxIters` updates were made and the returned weights are the update
      of `scoredWith`. */
  lemma RoundsShape<D>(pool: Pool<D>, metric: Metric, g: nat -> real, exp: real -> real, maxIters: nat)
    requires ValidPool(pool) && ExpPositive(exp) && maxIters >= 1
    ensures var out := Rounds(pool, metric, g, exp, maxIters);
      && |out.weights| == |pool.rankings| && |out.scoredWith| == |pool.rankings|
      && out.ranking == Consensus(pool, out.scoredWith)
      && (out.converged ==> 1 <= out.rounds < maxIters && out.weights == out.scoredWith)
      && (!out.converged ==> out.rounds == maxIters && out.weights == Step(pool, metric, g, exp, out.scoredWith))
  {
    var step, view, s0 := StepOf(pool, metric, g, exp), ViewOf(pool), Uniform(|pool.rankings|);
    LoopFollowsReference(step, view, s0, 0, maxIters);
    LoopFromStart(step, view, s0, maxIters);
    var t := FirstRepeat(step, view, s0, 0, maxIters);
    WeightsLength(pool, metric, g, exp, t);
    WeightsLength(pool, metric, g, exp, if t < maxIters then t else maxIters - 1);
  }

  /** The returned weights are positive and sum to 1. */
  lemma RoundsNormalized<D>(pool: Pool<D>, metric: Metric, g: nat -> real, exp: real -> real, maxIters: nat)
    requires ValidPool(pool) && ExpPositive(exp) && maxIters >= 1 && |pool.rankings| > 0
    ensures AllPositive(Rounds(pool, metric, g, exp, maxIters).weights)
    ensures Sum(Rounds(pool, metric, g, exp, maxIters).weights) == 1.0
  {
    var p := |pool.rankings|;
    var step := StepOf(pool, metric, g, exp);
    var inv := (a: seq<real>) => |a| == p && AllPositive(a) && Sum(a) == 1.0;
    forall a | inv(a) ensures inv(step(a)) {
      assert step(a) == Step(pool, metric, g, exp, a);
      StepNormalized(pool, metric, g, exp, a);
    }
    UniformIsNormalized(p);
    LoopInvariant(step, ViewOf(pool), Uniform(p), inv, maxIters);
  }

  /** The returned consensus is a permutation of the pool's handles, in
      non-increasing Borda score under the weights it was computed from. */
  lemma RoundsRanking<D>(pool: Pool<D>, metric: Metric, g: nat -> real, exp: real -> real, maxIters: nat)
    requires ValidPool(pool) && ExpPositive(exp) && maxIters >= 1
    ensures var out := Rounds(pool, metric, g, exp, maxIters);
      && |pool.rankings| <= |out.scoredWith|
      && IsPermutation(out.ranking, |pool.docs|)
      && (forall a, b :: 0 <= a < b < |out.ranking| ==>
            Score(pool.rankings, out.scoredWith, out.ranking[a]) >= Score(pool.rankings, out.scoredWith, out.ranking[b]))
  {
    RoundsShape(pool, metric, g, exp, maxIters);
    var out := Rounds(pool, metric, g, exp, maxIters);
    ConsensusOrder(pool, out.scoredWith);
  }

  /** The document identifier of every handle of `order`
      (`docid2docno[docid]`). */
  function Docnos<D>(pool: Pool<D>, order: seq<nat>): (docnos: seq<D>)
    requires forall n :: 0 <= n < |order| ==> order[n] < |pool.docs|
    ensures |docnos| == |order|
    ensures forall n :: 0 <= n < |order| ==> docnos[n] == pool.docs[order[n]]
  {
    seq(|order|, n requires 0 <= n < |order| => pool.docs[order[n]])
  }

  /** `rankAggregate(doc_rankings, maxIters, distanceMetric)`: the final
      weights and the consensus, mapped back to document identifiers. The
      source reads the consensus after the loop, so it needs at least one
      iteration. */
  function RankAggregate<D(==)>(rankings: seq<seq<D>>, maxIters: nat, metricName: string,
                                g: nat -> real, exp: real -> real): (result: (seq<real>, seq<D>))
    requires maxIters >= 1 && ExpPositive(exp)
  {
    var pool := BuildPool(rankings);
    var out := Rounds(pool, MetricOf(metricName), g, exp, maxIters);
    assert IsPermutation(out.ranking, |pool.docs|) by {
      RoundsRanking(pool, MetricOf(metricName), g, exp, maxIters);
    }
    (out.weights, Docnos(pool, out.ranking))
  }

  /** A handle order that is a permutation names every pooled document
      exactly once. */
  lemma DocnosOfPermutation<D>(pool: Pool<D>, order: seq<nat>)
    requires Distinct(pool.docs) && IsPermutation(order, |pool.docs|)
    ensures Distinct(Docnos(pool, order))
    ensures forall h :: 0 <= h < |pool.docs| ==> pool.docs[h] in Docnos(pool, order)
  {
    var docnos := Docnos(pool, order);
    forall h | 0 <= h < |pool.docs| ensures pool.docs[h] in docnos {
      var n := IndexOf(order, h);
      assert docnos[n] == pool.docs[h];
    }
  }

  /** `rankAggregate` returns one weight per ranking, positive and summing
      to 1. */
  lemma RankAggregateWeights<D>(rankings: seq<seq<D>>, maxIters: nat, metricName: string,
                                g: nat -> real, exp: real -> real)
    requires maxIters >= 1 && ExpPositive(exp)
    ensures |RankAggregate(rankings, maxIters, metricName, g, exp).0| == |rankings|
    ensures |rankings| > 0 ==>
              && AllPositive(RankAggregate(rankings, maxIters, metricName, g, exp).0)
              && Sum(RankAggregate(rankings, maxIters, metricName, g, exp).0) == 1.0
  {
    var pool := BuildPool(rankings);
    var metric := MetricOf(metricName);
    RoundsShape(pool, metric, g, exp, maxIters);
    if |rankings| > 0 {
      RoundsNormalized(pool, metric, g, exp, maxIters);
    }
  }

  /** `docnos` names every document of `rankings` exactly once, and nothing
      else. */
  ghost predicate ListsEachOnce<D>(rankings: seq<seq<D>>, docnos: seq<D>) {
    && Distinct(docnos)
    && (forall n :: 0 <= n < |docnos| ==> docnos[n] in AllEntries(rankings))
    && (forall i, j :: 0 <= i < |rankings| && 0 <= j < |rankings[i]| ==> rankings[i][j] in docnos)
  }

  /** Mapping a permutation of the pool's handles back to documents gives
      every document of the input rankings exactly once, and nothing else. */
  lemma DocnosCoverRankings<D>(rankings: seq<seq<D>>, order: seq<nat>)
    ensures IsPermutation(order, |BuildPool(rankings).docs|)
            ==> ListsEachOnce(rankings, Docnos(BuildPool(rankings), order))
  {
    var pool := BuildPool(rankings);
    if !IsPermutation(order, |pool.docs|) {
      return;
    }
    var docnos := Docnos(pool, order);
    DocnosOfPermutation(pool, order);
    forall n | 0 <= n < |docnos| ensures docnos[n] in AllEntries(rankings) {
      assert docnos[n] == pool.docs[order[n]];
    }
    forall i, j | 0 <= i < |rankings| && 0 <= j < |rankings[i]| ensures rankings[i][j] in docnos {
      assert rankings[i][j] == pool.docs[pool.rankings[i][j]];
    }
  }

  /** `rankAggregate` returns every document of the input rankings exactly
      once, and nothing else. */
  lemma RankAggregateDocuments<D>(rankings: seq<seq<D>>, maxIters: nat, metricName: string,
                                  g: nat -> real, exp: real -> real)
    requires maxIters >= 1 && ExpPositive(exp)
    ensures Distinct(RankAggregate(rankings, maxIters, metricName, g, exp).1)
    ensures forall n :: 0 <= n < |RankAggregate(rankings, maxIters, metricName, g, exp).1| ==> RankAggregate(rankings, maxIters, metricName, g, exp).1[n] in AllEntries(rankings)
    ensures forall i, j :: 0 <= i < |rankings| && 0 <= j < |rankings[i]| ==> rankings[i][j] in RankAggregate(rankings, maxIters, metricName, g, exp).1
  {
    var pool := BuildPool(rankings);
    var out := Rounds(pool, MetricOf(metricName), g, exp, maxIters);
    assert IsPermutation(out.ranking, |pool.docs|) by {
      RoundsRanking(pool, MetricOf(metricName), g, exp, maxIters);
    }
    assert RankAggregate(rankings, maxIters, metricName, g, exp).1 == Docnos(pool, out.ranking);
    DocnosCoverRankings(rankings, out.ranking);
  }

  lemma StepUnfold<D>(pool: Pool<D>, metric: Metric, g: nat -> real, exp: real -> real, alphas: seq<real>)
    requires ValidPool(pool) && ExpPositive(exp) && |alphas| == |pool.rankings|
    ensures IsPermutation(Consensus(pool, alphas), |pool.docs|)
    ensures Step(pool, metric, g, exp, alphas) == ExpUpdate(exp, Distances(metric, g, pool, Consensus(pool, alphas)))
  {
    ConsensusOrder(pool, alphas);
  }

  lemma DistancesAt<D>(metric: Metric, g: nat -> real, pool: Pool<D>, order: seq<nat>, ds: seq<real>)
    requires ValidPool(pool) && IsPermutation(order, |pool.docs|)
    requires |ds| == |pool.rankings|
    requires forall i :: 0 <= i < |ds| ==> ds[i] == Distance(metric, g, RankLists(pool, order)[i])
    ensures ds == Distances(metric, g, pool, order)
  {
  }

  /** One iteration of `rankAggregate` as the source runs it: the
      consensus, then the distances of all rankers computed with one memo
      of pair costs, then the update. */
  method RunStep<D>(pool: Pool<D>, metric: Metric, g: nat -> real, exp: real -> real, alphas: seq<real>)
    returns (order: seq<nat>, next: seq<real>)
    requires ValidPool(pool) && ExpPositive(exp) && |alphas| == |pool.rankings|
    ensures order == Consensus(pool, alphas)
    ensures next == Step(pool, metric, g, exp, alphas)
  {
    order := Consensus(pool, alphas);
    StepUnfold(pool, metric, g, exp, alphas);
    var ds := RankerDistances(metric, g, RankLists(pool, order));
    DistancesAt(metric, g, pool, order, ds);
    next := ExpUpdate(exp, ds);
  }

  /** The loop of `rankAggregate` as the source runs it, with the early exit
      on a repeated consensus. */
  method RunRounds<D>(pool: Pool<D>, metric: Metric, g: nat -> real, exp: real -> real, maxIters: nat)
    returns (out: Outcome<seq<real>, seq<nat>>)
    requires ValidPool(pool) && ExpPositive(exp) && maxIters >= 1
    ensures out == Rounds(pool, metric, g, exp, maxIters)
  {
    var step, view := StepOf(pool, metric, g, exp), ViewOf(pool);
    var alphas := Uniform(|pool.rankings|);
    var prev: Option<seq<nat>> := None;
    var iter := 0;
    while true
      invariant iter < maxIters && |alphas| == |pool.rankings|
      invariant Loop(step, view, alphas, prev, iter, maxIters) == Rounds(pool, metric, g, exp, maxIters)
      decreases maxIters - iter
    {
      var order, next := RunStep(pool, metric, g, exp, alphas);
      assert view(alphas) == order && step(alphas) == next;
      if prev == Some(order) {
        return Outcome(alphas, order, alphas, true, iter);
      }
      if iter + 1 == maxIters {
        return Outcome(next, order, alphas, false, maxIters);
      }
      prev, alphas, iter := Some(order), next, iter + 1;
    }
  }

  /** `rankAggregate` as a program: pool the rankings, run the loop, map the
      consensus back to document identifiers. */
  method RunRankAggregate<D(==)>(rankings: seq<seq<D>>, maxIters: nat, metricName: string,
                                 g: nat -> real, exp: real -> real)
    returns (weights: seq<real>, docnos: seq<D>)
    requires maxIters >= 1 && ExpPositive(exp)
    ensures (weights, docnos) == RankAggregate(rankings, maxIters, metricName, g, exp)
  {
    var pool := BuildPool(rankings);
    var out := RunRounds(pool, MetricOf(metricName), g, exp, maxIters);
    RoundsRanking(pool, MetricOf(metricName), g, exp, maxIters);
    weights, docnos := out.weights, Docnos(pool, out.ranking);
  }

  // ----- a single ranking -----

  /** A lone ranking that is itself a permutation of the handles agrees
      with itself: its distance from itself is zero. */
  lemma SelfDistances<D>(metric: Metric, g: nat -> real, pool: Pool<D>)
    requires ValidPool(pool) && |pool.rankings| == 1 && IsPermutation(pool.rankings[0], |pool.docs|)
    ensures Distances(metric, g, pool, pool.rankings[0]) == [0.0]
  {
    var r := pool.rankings[0];
    var pi := RankLists(pool, r)[0];
    var rank := RankOf(r, |pool.docs|);
    assert pi == Ranks(rank, r);
    forall a | 0 <= a < |pi| ensures pi[a] == a {
      assert pi[a] == rank[r[a]];
    }
    AgreesDistanceZero(metric, g, pi);
  }

  /** A lone ranking keeps all the weight from one round to the next. */
  lemma SingleStep<D>(pool: Pool<D>, metric: Metric, g: nat -> real, exp: real -> real)
    requires ValidPool(pool) && ExpPositive(exp)
    requires |pool.rankings| == 1 && Distinct(pool.rankings[0])
    ensures Step(pool, metric, g, exp, [1.0]) == [1.0]
  {
    SingleConsensus(pool, [1.0]);
    ConsensusOrder(pool, [1.0]);
    SelfDistances(metric, g, pool);
    ExpUpdateSingle(exp, 0.0);
  }

  /** The pool of one ranking without repetitions holds one ranking without
      repetitions, which maps back to the input. */
  lemma SinglePool<D>(r: seq<D>)
    requires Distinct(r)
    ensures |BuildPool([r]).rankings| == 1 && Distinct(BuildPool([r]).rankings[0])
    ensures forall n :: 0 <= n < |BuildPool([r]).rankings[0]| ==> BuildPool([r]).rankings[0][n] < |BuildPool([r]).docs|
    ensures Docnos(BuildPool([r]), BuildPool([r]).rankings[0]) == r
  {
    var pool := BuildPool([r]);
    var hr := pool.rankings[0];
    assert |hr| == |r|;
    forall a, b | 0 <= a < b < |hr| ensures hr[a] != hr[b] {
      assert pool.docs[hr[a]] == r[a] && pool.docs[hr[b]] == r[b];
    }
    var docnos := Docnos(pool, hr);
    forall n | 0 <= n < |r| ensures docnos[n] == r[n] {
      assert pool.docs[hr[n]] == r[n];
    }
  }

  /** A single ranking is its own consensus: `rankAggregate` gives it all
      the weight and returns it unchanged. */
  lemma SingleRanking<D>(r: seq<D>, maxIters: nat, metricName: string, g: nat -> real, exp: real -> real)
    requires Distinct(r) && maxIters >= 1 && ExpPositive(exp)
    ensures RankAggregate([r], maxIters, metricName, g, exp) == ([1.0], r)
  {
    var pool := BuildPool([r]);
    var metric := MetricOf(metricName);
    SinglePool(r);
    var step := StepOf(pool, metric, g, exp);
    var inv := (a: seq<real>) => a == [1.0];
    forall a | inv(a) ensures inv(step(a)) {
      SingleStep(pool, metric, g, exp);
    }
    assert Uniform(1) == [1.0];
    LoopInvariant(step, ViewOf(pool), Uniform(1), inv, maxIters);
    var out := Rounds(pool, metric, g, exp, maxIters);
    RoundsShape(pool, metric, g, exp, maxIters);
    SingleConsensus(pool, [1.0]);
    assert out.ranking == pool.rankings[0];
  }
}
