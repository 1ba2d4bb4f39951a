/** Ranker confidence weights: the uniform start, the `exp(-distance)`
    update of one query (code/SetRank/autoSetRank_ESR.py lines 93, 174-177)
    and the `1/distance` update of the corpus mode (lines 195, 268-272),
    each followed by division by the sum. */
module Confidence {
  import opened Seqs

  /** `math.exp` is a parameter of the model. The update needs only that it
      is positive; that a smaller distance gets a larger weight needs that it
      is strictly increasing as well. */
  ghost predicate ExpPositive(exp: real -> real) {
    forall x: real :: exp(x) > 0.0
  }

  ghost predicate IsExp(exp: real -> real) {
    && ExpPositive(exp)
    && (forall x: real, y: real :: x < y ==> exp(x) < exp(y))
  }

  ghost predicate AllPositive(ws: seq<real>) {
    forall i :: 0 <= i < |ws| ==> ws[i] > 0.0
  }

  /** Every element divided by `z`. */
  function DivAll(ws: seq<real>, z: real): (r: seq<real>)
    requires z != 0.0
    ensures |r| == |ws|
  {
    if |ws| == 0 then [] else [ws[0] / z] + DivAll(ws[1..], z)
  }

  lemma {:induction false} DivAllAt(ws: seq<real>, z: real)
    requires z != 0.0
    ensures forall i :: 0 <= i < |ws| ==> DivAll(ws, z)[i] == ws[i] / z
  {
    if |ws| > 0 {
      DivAllAt(ws[1..], z);
    }
  }

  lemma DivAdd(x: real, y: real, z: real)
    requires z != 0.0
    ensures x / z + y / z == (x + y) / z
  {
  }

  lemma {:induction false} SumDivAll(ws: seq<real>, z: real)
    requires z != 0.0
    ensures Sum(DivAll(ws, z)) == Sum(ws) / z
  {
    if |ws| > 0 {
      SumDivAll(ws[1..], z);
      DivAdd(ws[0], Sum(ws[1..]), z);
    }
  }

  lemma {:induction false} SumPositive(ws: seq<real>)
    requires AllPositive(ws) && |ws| > 0
    ensures Sum(ws) > 0.0
  {
    if |ws| > 1 {
      SumPositive(ws[1..]);
    }
  }

  /** `alphas / sum(alphas)`. An empty vector stays empty (numpy divides
      nothing); otherwise the sum must not be zero. */
  function Normalize(ws: seq<real>): (r: seq<real>)
    requires |ws| == 0 || Sum(ws) != 0.0
    ensures |r| == |ws|
  {
    if |ws| == 0 then [] else DivAll(ws, Sum(ws))
  }

  lemma DivSelf(z: real)
    requires z != 0.0
    ensures z / z == 1.0
  {
  }

  lemma DivPositive(x: real, z: real)
    requires x > 0.0 && z > 0.0
    ensures x / z > 0.0
  {
  }

  lemma DivMonotone(x: real, y: real, z: real)
    requires x <= y && z > 0.0
    ensures x / z <= y / z
  {
  }

  lemma DivStrict(x: real, y: real, z: real)
    requires x < y && z > 0.0
    ensures x / z < y / z
  {
  }

  /** Normalising positive weights gives positive weights that sum to 1 and
      keep their order. */
  lemma NormalizeProperties(ws: seq<real>)
    requires AllPositive(ws) && |ws| > 0
    ensures Sum(ws) > 0.0
    ensures AllPositive(Normalize(ws))
    ensures Sum(Normalize(ws)) == 1.0
    ensures forall i, j :: 0 <= i < |ws| && 0 <= j < |ws| && ws[i] <= ws[j] ==> Normalize(ws)[i] <= Normalize(ws)[j]
    ensures forall i, j :: 0 <= i < |ws| && 0 <= j < |ws| && ws[i] < ws[j] ==> Normalize(ws)[i] < Normalize(ws)[j]
  {
    SumPositive(ws);
    var z := Sum(ws);
    SumDivAll(ws, z);
    DivAllAt(ws, z);
    DivSelf(z);
    forall i | 0 <= i < |ws| ensures Normalize(ws)[i] > 0.0 {
      DivPositive(ws[i], z);
    }
    forall i, j | 0 <= i < |ws| && 0 <= j < |ws| && ws[i] <= ws[j] ensures Normalize(ws)[i] <= Normalize(ws)[j] {
      DivMonotone(ws[i], ws[j], z);
    }
    forall i, j | 0 <= i < |ws| && 0 <= j < |ws| && ws[i] < ws[j] ensures Normalize(ws)[i] < Normalize(ws)[j] {
      DivStrict(ws[i], ws[j], z);
    }
  }

  /** Normalising twice is normalising once. */
  lemma NormalizeIdempotent(ws: seq<real>)
    requires AllPositive(ws) && |ws| > 0
    ensures Sum(ws) > 0.0 && Sum(Normalize(ws)) == 1.0
    ensures Normalize(Normalize(ws)) == Normalize(ws)
  {
    NormalizeProperties(ws);
    var n := Normalize(ws);
    DivAllAt(n, Sum(n));
    assert forall i :: 0 <= i < |n| ==> n[i] / 1.0 == n[i];
  }

  /** `np.ones(p) / p`: the starting weights. */
  function Uniform(p: nat): (w: seq<real>)
    ensures |w| == p
    ensures forall i :: 0 <= i < p ==> w[i] == 1.0 / p as real
  {
    seq(p, i requires 0 <= i < p => 1.0 / p as real)
  }

  function Ones(p: nat): (w: seq<real>)
    ensures |w| == p && forall i :: 0 <= i < p ==> w[i] == 1.0
  {
    seq(p, i => 1.0)
  }

  lemma {:induction false} SumOnes(p: nat)
    ensures Sum(Ones(p)) == p as real
  {
    if p > 0 {
      SumOnes(p - 1);
      assert Ones(p)[1..] == Ones(p - 1);
    }
  }

  /** The starting weights are the normalised all-ones vector: positive,
      equal, and summing to 1. */
  lemma UniformIsNormalized(p: nat)
    requires p > 0
    ensures Sum(Ones(p)) == p as real
    ensures Uniform(p) == Normalize(Ones(p))
    ensures AllPositive(Uniform(p)) && Sum(Uniform(p)) == 1.0
  {
    SumOnes(p);
    NormalizeProperties(Ones(p));
  }

  /** `alphas[r] = math.exp(-1.0 * distance_r)` for every ranker. */
  function ExpWeights(exp: real -> real, ds: seq<real>): (w: seq<real>)
    ensures |w| == |ds|
  {
    seq(|ds|, i requires 0 <= i < |ds| => exp(-1.0 * ds[i]))
  }

  lemma ExpWeightsPositive(exp: real -> real, ds: seq<real>)
    requires ExpPositive(exp)
    ensures AllPositive(ExpWeights(exp, ds))
  {
  }

  /** The weight update of one query: `exp(-distance)`, then normalised. */
  function ExpUpdate(exp: real -> real, ds: seq<real>): (w: seq<real>)
    requires ExpPositive(exp)
    ensures |w| == |ds|
  {
    var e := ExpWeights(exp, ds);
    assert |e| == 0 || Sum(e) > 0.0 by {
      if |e| > 0 {
        ExpWeightsPositive(exp, ds);
        SumPositive(e);
      }
    }
    Normalize(e)
  }

  /** A ranker with a smaller distance gets a larger `exp(-distance)`. */
  lemma ExpWeightsAntitone(exp: real -> real, ds: seq<real>)
    requires IsExp(exp)
    ensures forall i, j :: 0 <= i < |ds| && 0 <= j < |ds| && ds[i] <= ds[j] ==>
              ExpWeights(exp, ds)[j] <= ExpWeights(exp, ds)[i]
    ensures forall i, j :: 0 <= i < |ds| && 0 <= j < |ds| && ds[i] < ds[j] ==>
              ExpWeights(exp, ds)[j] < ExpWeights(exp, ds)[i]
  {
    forall i, j | 0 <= i < |ds| && 0 <= j < |ds| && ds[i] <= ds[j]
      ensures ExpWeights(exp, ds)[j] <= ExpWeights(exp, ds)[i]
      ensures ds[i] < ds[j] ==> ExpWeights(exp, ds)[j] < ExpWeights(exp, ds)[i]
    {
      NegExpAntitone(exp, ds[i], ds[j]);
    }
  }

  /** The new weights are positive and sum to 1. */
  lemma ExpUpdateNormalized(exp: real -> real, ds: seq<real>)
    requires ExpPositive(exp) && |ds| > 0
    ensures AllPositive(ExpUpdate(exp, ds)) && Sum(ExpUpdate(exp, ds)) == 1.0
  {
    ExpWeightsPositive(exp, ds);
    NormalizeProperties(ExpWeights(exp, ds));
  }

  /** A lone ranker gets all the weight, whatever its distance. */
  lemma ExpUpdateSingle(exp: real -> real, d: real)
    requires ExpPositive(exp)
    ensures ExpUpdate(exp, [d]) == [1.0]
  {
    var w := ExpUpdate(exp, [d]);
    ExpUpdateNormalized(exp, [d]);
    assert Sum(w) == w[0] + Sum(w[1..]);
  }

  /** A ranker that disagrees less with the consensus never gets less weight,
      and gets strictly more when it disagrees strictly less. */
  lemma ExpUpdateMonotone(exp: real -> real, ds: seq<real>)
    requires IsExp(exp) && |ds| > 0
    ensures forall i, j :: 0 <= i < |ds| && 0 <= j < |ds| && ds[i] <= ds[j] ==> ExpUpdate(exp, ds)[i] >= ExpUpdate(exp, ds)[j]
    ensures forall i, j :: 0 <= i < |ds| && 0 <= j < |ds| && ds[i] < ds[j] ==> ExpUpdate(exp, ds)[i] > ExpUpdate(exp, ds)[j]
  {
    ExpWeightsAntitone(exp, ds);
    ExpWeightsPositive(exp, ds);
    NormalizeProperties(ExpWeights(exp, ds));
  }

  lemma NegExpAntitone(exp: real -> real, x: real, y: real)
    requires IsExp(exp) && x <= y
    ensures exp(-1.0 * y) <= exp(-1.0 * x)
    ensures x < y ==> exp(-1.0 * y) < exp(-1.0 * x)
  {
  }

  /** `1.0 / alpha_distances`. */
  function Reciprocals(ds: seq<real>): (r: seq<real>)
    requires forall i :: 0 <= i < |ds| ==> ds[i] != 0.0
    ensures |r| == |ds|
    ensures forall i :: 0 <= i < |ds| ==> r[i] == 1.0 / ds[i]
  {
    seq(|ds|, i requires 0 <= i < |ds| => 1.0 / ds[i])
  }

  /** The corpus-mode update `(1/d) / sum(1/d)`. A summed distance of zero
      makes numpy divide by zero; the model reports that case as `None`. */
  function InverseUpdate(ds: seq<real>): (w: Option<seq<real>>)
    requires forall i :: 0 <= i < |ds| ==> ds[i] >= 0.0
    ensures w.None? <==> exists i :: 0 <= i < |ds| && ds[i] == 0.0
    ensures w.Some? ==> |w.value| == |ds|
  {
    if exists i :: 0 <= i < |ds| && ds[i] == 0.0 then None
    else
      var inv := Reciprocals(ds);
      assert AllPositive(inv) by {
        forall i | 0 <= i < |ds| ensures inv[i] > 0.0 {
          DivPositive(1.0, ds[i]);
        }
      }
      assert |inv| == 0 || Sum(inv) > 0.0 by {
        if |inv| > 0 {
          SumPositive(inv);
        }
      }
      Some(Normalize(inv))
  }

  lemma ReciprocalAntitone(x: real, y: real)
    requires 0.0 < x <= y
    ensures 1.0 / y <= 1.0 / x
  {
  }

  /** When no summed distance is zero, the corpus weights are positive, sum
      to 1, and a smaller summed distance never gets a smaller weight. */
  lemma InverseUpdateProperties(ds: seq<real>)
    requires forall i :: 0 <= i < |ds| ==> ds[i] > 0.0
    requires |ds| > 0
    ensures InverseUpdate(ds).Some?
    ensures AllPositive(InverseUpdate(ds).value) && Sum(InverseUpdate(ds).value) == 1.0
    ensures forall i, j :: 0 <= i < |ds| && 0 <= j < |ds| && ds[i] <= ds[j] ==>
              InverseUpdate(ds).value[i] >= InverseUpdate(ds).value[j]
  {
    var inv := Reciprocals(ds);
    forall i | 0 <= i < |ds| ensures inv[i] > 0.0 {
      DivPositive(1.0, ds[i]);
    }
    NormalizeProperties(inv);
    forall i, j | 0 <= i < |ds| && 0 <= j < |ds| && ds[i] <= ds[j] ensures inv[j] <= inv[i] {
      ReciprocalAntitone(ds[i], ds[j]);
    }
  }
}
