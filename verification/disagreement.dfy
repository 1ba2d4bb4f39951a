/** How far one ranker's list is from the consensus: the plain or discounted
    Kendall-Tau count over the pairs `a < b` of its list
    (code/SetRank/autoSetRank_ESR.py, `rankAggregate` lines 124-153; the same
    loop in `rankAggregateCorpus` lines 234-257).

    A ranker's list is given by `pi`, the consensus position of each of its
    entries (`pi[a] == docid2rank[r[a]]`). The pair `a < b` is an inversion
    when `pi[a] > pi[b]`. */
module Disagreement {

  /** The `distanceMetric` argument. */
  datatype Metric = KT | DKT | Unsupported(name: string)

  /** The metric test of the source: `"dKT"` is tried first, then `"KT"`;
      anything else only reports an error for every inversion. */
  function MetricOf(name: string): (m: Metric)
    ensures m == DKT <==> name == "dKT"
    ensures m == KT <==> name == "KT"
    ensures m.Unsupported? ==> m.name == name
  {
    if name == "dKT" then DKT else if name == "KT" then KT else Unsupported(name)
  }

  /** The dKT discount `g(x) = 1 / log2(x + 2)` of a zero-based position is
      a parameter of the model; all it needs is that `g` strictly decreases. */
  ghost predicate Decreasing(g: nat -> real) {
    forall x: nat, y: nat :: x < y ==> g(y) < g(x)
  }

  /** What the pair with consensus positions `pa` (earlier in the list) and
      `pb` (later) adds to the distance. */
  function PairCost(metric: Metric, g: nat -> real, pa: nat, pb: nat): real {
    if pa <= pb then 0.0
    else
      match metric
      case KT => 1.0
      case DKT => g(pb) - g(pa)
      case Unsupported(_) => 0.0
  }

  /** The pairs `(a, b')` with `a < b' < b`, in the order of the inner loop. */
  function RowCost(metric: Metric, g: nat -> real, pi: seq<nat>, a: nat, b: nat): real
    requires a < |pi| && b <= |pi|
  {
    if b <= a + 1 then 0.0 else RowCost(metric, g, pi, a, b - 1) + PairCost(metric, g, pi[a], pi[b - 1])
  }

  /** The full rows `0 .. a-1`, in the order of the outer loop. */
  function Pairs(metric: Metric, g: nat -> real, pi: seq<nat>, a: nat): real
    requires a <= |pi|
  {
    if a == 0 then 0.0 else Pairs(metric, g, pi, a - 1) + RowCost(metric, g, pi, a - 1, |pi|)
  }

  /** The distance of one ranker's list from the consensus. */
  function Distance(metric: Metric, g: nat -> real, pi: seq<nat>): real {
    Pairs(metric, g, pi, |pi|)
  }

  // ----- the plain count of inversions, as a natural number -----

  function InvRow(pi: seq<nat>, a: nat, b: nat): nat
    requires a < |pi| && b <= |pi|
  {
    if b <= a + 1 then 0 else InvRow(pi, a, b - 1) + (if pi[a] > pi[b - 1] then 1 else 0)
  }

  function InvPairs(pi: seq<nat>, a: nat): nat
    requires a <= |pi|
  {
    if a == 0 then 0 else InvPairs(pi, a - 1) + InvRow(pi, a - 1, |pi|)
  }

  /** The number of pairs `a < b` with `pi[a] > pi[b]`. */
  function Inversions(pi: seq<nat>): nat {
    InvPairs(pi, |pi|)
  }

  /** The inverted pairs themselves: positions `a < b` whose consensus
      positions come in the opposite order. */
  ghost function InvertedPairs(pi: seq<nat>): set<(nat, nat)> {
    set a: nat, b: nat | a < b < |pi| && pi[a] > pi[b] :: (a, b)
  }

  /** The inverted pairs of row `a` among positions `a+1 .. b-1`. */
  ghost function RowPairs(pi: seq<nat>, a: nat, b: nat): set<(nat, nat)>
    requires a < |pi| && b <= |pi|
  {
    set c: nat | a < c < b && pi[a] > pi[c] :: (a, c)
  }

  /** The inverted pairs whose first position is below `a`. */
  ghost function PairsBelow(pi: seq<nat>, a: nat): set<(nat, nat)>
    requires a <= |pi|
  {
    set x: nat, c: nat | x < a && x < c < |pi| && pi[x] > pi[c] :: (x, c)
  }

  lemma {:induction false} InvRowCounts(pi: seq<nat>, a: nat, b: nat)
    requires a < |pi| && b <= |pi|
    ensures InvRow(pi, a, b) == |RowPairs(pi, a, b)|
    decreases b
  {
    if b <= a + 1 {
      assert RowPairs(pi, a, b) == {};
    } else {
      InvRowCounts(pi, a, b - 1);
      var prev := RowPairs(pi, a, b - 1);
      assert (a, b - 1) !in prev;
      if pi[a] > pi[b - 1] {
        assert RowPairs(pi, a, b) == prev + {(a, b - 1)};
      } else {
        assert RowPairs(pi, a, b) == prev;
      }
    }
  }

  lemma {:induction false} InvPairsCounts(pi: seq<nat>, a: nat)
    requires a <= |pi|
    ensures InvPairs(pi, a) == |PairsBelow(pi, a)|
    decreases a
  {
    if a == 0 {
      assert PairsBelow(pi, a) == {};
    } else {
      InvPairsCounts(pi, a - 1);
      InvRowCounts(pi, a - 1, |pi|);
      PairsBelowStep(pi, a);
    }
  }

  /** The pairs below `a` are those below `a - 1` plus row `a - 1`, and the
      two parts are disjoint. */
  lemma PairsBelowStep(pi: seq<nat>, a: nat)
    requires 0 < a <= |pi|
    ensures |PairsBelow(pi, a)| == |PairsBelow(pi, a - 1)| + |RowPairs(pi, a - 1, |pi|)|
  {
    var prev := PairsBelow(pi, a - 1);
    var row := RowPairs(pi, a - 1, |pi|);
    forall q | q in PairsBelow(pi, a) ensures q in prev + row {
      if q.0 < a - 1 {
        assert q in prev;
      } else {
        assert q in row;
      }
    }
    forall q | q in prev + row ensures q in PairsBelow(pi, a) {
    }
    assert PairsBelow(pi, a) == prev + row;
    forall q | q in row ensures q !in prev {
    }
    assert prev * row == {};
  }

  /** `Inversions` counts exactly the inverted pairs. */
  lemma InversionsCount(pi: seq<nat>)
    ensures Inversions(pi) == |InvertedPairs(pi)|
  {
    InvPairsCounts(pi, |pi|);
    assert PairsBelow(pi, |pi|) == InvertedPairs(pi);
  }

  /** The list follows the consensus order. */
  ghost predicate Agrees(pi: seq<nat>) {
    forall a, b :: 0 <= a < b < |pi| ==> pi[a] <= pi[b]
  }

  lemma {:induction false} InvRowZero(pi: seq<nat>, a: nat, b: nat)
    requires a < |pi| && b <= |pi|
    ensures InvRow(pi, a, b) == 0 <==> forall c :: a < c < b ==> pi[a] <= pi[c]
    decreases b
  {
    if b > a + 1 {
      InvRowZero(pi, a, b - 1);
    }
  }

  lemma {:induction false} InvPairsZero(pi: seq<nat>, a: nat)
    requires a <= |pi|
    ensures InvPairs(pi, a) == 0 <==> forall a', c :: 0 <= a' < a && a' < c < |pi| ==> pi[a'] <= pi[c]
    decreases a
  {
    if a > 0 {
      InvPairsZero(pi, a - 1);
      InvRowZero(pi, a - 1, |pi|);
    }
  }

  /** A ranker has no inversion exactly when it lists its documents in
      consensus order. */
  lemma InversionsZeroIffAgrees(pi: seq<nat>)
    ensures Inversions(pi) == 0 <==> Agrees(pi)
  {
    InvPairsZero(pi, |pi|);
  }

  /** `0 + 1 + ... + (n-1)`. */
  function Tri(n: nat): nat {
    if n == 0 then 0 else Tri(n - 1) + (n - 1)
  }

  lemma {:induction false} TriClosed(n: nat)
    ensures 2 * Tri(n) == n * (n - 1)
  {
    if n > 0 {
      TriClosed(n - 1);
    }
  }

  /** The most rows `0 .. a-1` of a list of length `n` can hold. */
  function Budget(n: nat, a: nat): nat
    requires a <= n
  {
    if a == 0 then 0 else Budget(n, a - 1) + (n - a)
  }

  lemma {:induction false} BudgetTri(n: nat, a: nat)
    requires a <= n
    ensures Budget(n, a) + Tri(n - a) == Tri(n)
  {
    if a > 0 {
      BudgetTri(n, a - 1);
    }
  }

  lemma {:induction false} InvRowBound(pi: seq<nat>, a: nat, b: nat)
    requires a < b <= |pi|
    ensures InvRow(pi, a, b) <= b - a - 1
    ensures (forall c :: a < c < b ==> pi[a] > pi[c]) ==> InvRow(pi, a, b) == b - a - 1
    decreases b
  {
    if b > a + 1 {
      InvRowBound(pi, a, b - 1);
    }
  }

  lemma {:induction false} InvPairsBound(pi: seq<nat>, a: nat)
    requires a <= |pi|
    ensures InvPairs(pi, a) <= Budget(|pi|, a)
    ensures (forall x, y :: 0 <= x < y < |pi| ==> pi[x] > pi[y]) ==> InvPairs(pi, a) == Budget(|pi|, a)
    decreases a
  {
    if a > 0 {
      InvPairsBound(pi, a - 1);
      InvRowBound(pi, a - 1, |pi|);
    }
  }

  /** A list of `k` entries has at most `k(k-1)/2` inversions, and a list in
      exactly reversed consensus order has that many. */
  lemma InversionsBound(pi: seq<nat>)
    ensures 2 * Inversions(pi) <= |pi| * (|pi| - 1)
    ensures (forall x, y :: 0 <= x < y < |pi| ==> pi[x] > pi[y]) ==> 2 * Inversions(pi) == |pi| * (|pi| - 1)
  {
    InvPairsBound(pi, |pi|);
    BudgetTri(|pi|, |pi|);
    TriClosed(|pi|);
  }

  // ----- the real-valued distances against the count -----

  lemma {:induction false} KTRow(g: nat -> real, pi: seq<nat>, a: nat, b: nat)
    requires a < |pi| && b <= |pi|
    ensures RowCost(KT, g, pi, a, b) == InvRow(pi, a, b) as real
    decreases b
  {
    if b > a + 1 {
      KTRow(g, pi, a, b - 1);
    }
  }

  lemma {:induction false} KTPairs(g: nat -> real, pi: seq<nat>, a: nat)
    requires a <= |pi|
    ensures Pairs(KT, g, pi, a) == InvPairs(pi, a) as real
    decreases a
  {
    if a > 0 {
      KTPairs(g, pi, a - 1);
      KTRow(g, pi, a - 1, |pi|);
    }
  }

  /** The KT distance is the number of inversions, whatever the discount. */
  lemma KTIsInversions(g: nat -> real, pi: seq<nat>)
    ensures Distance(KT, g, pi) == Inversions(pi) as real
    ensures Distance(KT, g, pi) == |InvertedPairs(pi)| as real
  {
    KTPairs(g, pi, |pi|);
    InversionsCount(pi);
  }

  lemma {:induction false} DKTRow(g: nat -> real, pi: seq<nat>, a: nat, b: nat)
    requires Decreasing(g)
    requires a < |pi| && b <= |pi|
    ensures RowCost(DKT, g, pi, a, b) >= 0.0
    ensures RowCost(DKT, g, pi, a, b) == 0.0 <==> InvRow(pi, a, b) == 0
    decreases b
  {
    if b > a + 1 {
      DKTRow(g, pi, a, b - 1);
    }
  }

  lemma {:induction false} DKTPairs(g: nat -> real, pi: seq<nat>, a: nat)
    requires Decreasing(g)
    requires a <= |pi|
    ensures Pairs(DKT, g, pi, a) >= 0.0
    ensures Pairs(DKT, g, pi, a) == 0.0 <==> InvPairs(pi, a) == 0
    decreases a
  {
    if a > 0 {
      DKTPairs(g, pi, a - 1);
      DKTRow(g, pi, a - 1, |pi|);
    }
  }

  /** Every dKT inversion adds a positive discount, so the dKT distance is
      never negative and is zero exactly when there is no inversion. */
  lemma DKTZeroIffNoInversion(g: nat -> real, pi: seq<nat>)
    requires Decreasing(g)
    ensures Distance(DKT, g, pi) >= 0.0
    ensures Distance(DKT, g, pi) == 0.0 <==> Inversions(pi) == 0
  {
    DKTPairs(g, pi, |pi|);
  }

  lemma {:induction false} UnsupportedRow(name: string, g: nat -> real, pi: seq<nat>, a: nat, b: nat)
    requires a < |pi| && b <= |pi|
    ensures RowCost(Unsupported(name), g, pi, a, b) == 0.0
    decreases b
  {
    if b > a + 1 {
      UnsupportedRow(name, g, pi, a, b - 1);
    }
  }

  /** An unsupported metric name does not abort: the distance stays 0. */
  lemma {:induction false} UnsupportedIsZero(name: string, g: nat -> real, pi: seq<nat>, a: nat)
    requires a <= |pi|
    ensures Pairs(Unsupported(name), g, pi, a) == 0.0
    decreases a
  {
    if a > 0 {
      UnsupportedIsZero(name, g, pi, a - 1);
      UnsupportedRow(name, g, pi, a - 1, |pi|);
    }
  }

  lemma {:induction false} AgreeingRowZero(metric: Metric, g: nat -> real, pi: seq<nat>, a: nat, b: nat)
    requires a < |pi| && b <= |pi|
    requires forall c :: a < c < b ==> pi[a] <= pi[c]
    ensures RowCost(metric, g, pi, a, b) == 0.0
    decreases b
  {
    if b > a + 1 {
      AgreeingRowZero(metric, g, pi, a, b - 1);
    }
  }

  lemma {:induction false} AgreeingPairsZero(metric: Metric, g: nat -> real, pi: seq<nat>, a: nat)
    requires a <= |pi| && Agrees(pi)
    ensures Pairs(metric, g, pi, a) == 0.0
    decreases a
  {
    if a > 0 {
      AgreeingPairsZero(metric, g, pi, a - 1);
      AgreeingRowZero(metric, g, pi, a - 1, |pi|);
    }
  }

  /** A ranker that lists its documents in consensus order is at distance 0,
      whatever the metric. */
  lemma AgreesDistanceZero(metric: Metric, g: nat -> real, pi: seq<nat>)
    requires Agrees(pi)
    ensures Distance(metric, g, pi) == 0.0
  {
    AgreeingPairsZero(metric, g, pi, |pi|);
  }

  /** No metric yields a negative distance. */
  lemma DistanceNonNegative(metric: Metric, g: nat -> real, pi: seq<nat>)
    requires Decreasing(g)
    ensures Distance(metric, g, pi) >= 0.0
  {
    match metric {
      case KT => KTIsInversions(g, pi);
      case DKT => DKTZeroIffNoInversion(g, pi);
      case Unsupported(name) => UnsupportedIsZero(name, g, pi, |pi|);
    }
  }

  // ----- the loops of the source, with the discount memo -----

  /** `positions2discouts`: every cached entry holds the discount of its key. */
  ghost predicate MemoSound(memo: map<(nat, nat), real>, g: nat -> real) {
    forall key :: key in memo ==> memo[key] == g(key.1) - g(key.0)
  }

  /** One ranker's distance, by the nested loops of the source, reading and
      filling the discount memo. The result does not depend on the memo. */
  method RankerDistance(metric: Metric, g: nat -> real, pi: seq<nat>, memo0: map<(nat, nat), real>)
    returns (distance: real, memo: map<(nat, nat), real>)
    requires MemoSound(memo0, g)
    ensures distance == Distance(metric, g, pi)
    ensures MemoSound(memo, g)
  {
    var k := |pi|;
    distance := 0.0;
    memo := memo0;
    var a := 0;
    while a + 1 < k
      invariant a <= k
      invariant k == 0 ==> a == 0
      invariant distance == Pairs(metric, g, pi, a)
      invariant MemoSound(memo, g)
    {
      var b := a + 1;
      while b < k
        invariant a + 1 <= b <= k
        invariant distance == Pairs(metric, g, pi, a) + RowCost(metric, g, pi, a, b)
        invariant MemoSound(memo, g)
      {
        var piA, piB := pi[a], pi[b];
        if piA > piB {
          match metric {
            case DKT =>
              var discount: real;
              if (piA, piB) in memo {
                discount := memo[(piA, piB)];
              } else {
                discount := g(piB) - g(piA);
                memo := memo[(piA, piB) := discount];
              }
              distance := distance + discount * 1.0;
            case KT =>
              distance := distance + 1.0;
            case Unsupported(_) =>
          }
        }
        b := b + 1;
      }
      a := a + 1;
    }
    if k > 0 {
      assert RowCost(metric, g, pi, k - 1, k) == 0.0;
    }
  }

  /** The distances of all rankers of one round, sharing one memo that starts
      empty (`positions2discouts = {}`), in ranker order. */
  method RankerDistances(metric: Metric, g: nat -> real, pis: seq<seq<nat>>) returns (ds: seq<real>)
    ensures |ds| == |pis|
    ensures forall r :: 0 <= r < |pis| ==> ds[r] == Distance(metric, g, pis[r])
  {
    var memo: map<(nat, nat), real> := map[];
    ds := [];
    var r := 0;
    while r < |pis|
      invariant r <= |pis| && |ds| == r
      invariant forall q :: 0 <= q < r ==> ds[q] == Distance(metric, g, pis[q])
      invariant MemoSound(memo, g)
    {
      var d;
      d, memo := RankerDistance(metric, g, pis[r], memo);
      ds := ds + [d];
      r := r + 1;
    }
  }
}
