/** The control loop of `rankAggregate` (code/SetRank/autoSetRank_ESR.py
    lines 93-123 and 185-188), independent of what one round computes:
    `view` gives the consensus a weight vector produces and `step` the
    weights of the next round. The loop stops at the first iteration whose
    consensus equals the previous one, without updating the weights that
    round, and otherwise after `maxIters` iterations. */
module Iteration {
  import opened Seqs

  /** What the loop ends with: the weights it returns, the consensus it
      returns, the weights that consensus was computed from, whether it
      stopped on a repeated consensus, and how many weight updates it made. */
  datatype Outcome<S, V> = Outcome(weights: S, ranking: V, scoredWith: S, converged: bool, rounds: nat)

  /** The weights after `n` updates from `s0`. */
  function Iterate<S>(step: S -> S, s0: S, n: nat): S {
    if n == 0 then s0 else step(Iterate(step, s0, n - 1))
  }

  /** A property that the start has and every update keeps holds in every
      round. */
  lemma {:induction false} IterateInvariant<S>(step: S -> S, s0: S, inv: S -> bool, n: nat)
    requires inv(s0)
    requires forall s :: inv(s) ==> inv(step(s))
    ensures inv(Iterate(step, s0, n))
  {
    if n > 0 {
      IterateInvariant(step, s0, inv, n - 1);
    }
  }

  /** A state the first update reaches and no update leaves is where every
      later round ends. */
  lemma {:induction false} IterateAbsorbed<S>(step: S -> S, s0: S, sink: S, n: nat)
    requires step(s0) == sink && step(sink) == sink && n >= 1
    ensures Iterate(step, s0, n) == sink
  {
    if n > 1 {
      IterateAbsorbed(step, s0, sink, n - 1);
    }
  }

  /** A round that reaches a state no update leaves stays there. */
  lemma {:induction false} IterateStays<S>(step: S -> S, s0: S, sink: S, n: nat, m: nat)
    requires Iterate(step, s0, n) == sink && step(sink) == sink && n <= m
    ensures Iterate(step, s0, m) == sink
    decreases m - n
  {
    if n < m {
      IterateStays(step, s0, sink, n + 1, m);
    }
  }

  /** Round `t` reproduces the consensus of round `t - 1`. */
  ghost predicate Repeats<S, V>(step: S -> S, view: S -> V, s0: S, t: nat) {
    t >= 1 && view(Iterate(step, s0, t)) == view(Iterate(step, s0, t - 1))
  }

  /** The first round in `from .. maxIters-1` that repeats the consensus of
      the round before, or `maxIters` when there is none. */
  ghost function FirstRepeat<S, V>(step: S -> S, view: S -> V, s0: S, from: nat, maxIters: nat): (t: nat)
    requires from <= maxIters
    ensures from <= t <= maxIters
    decreases maxIters - from
  {
    if from == maxIters then maxIters
    else if Repeats(step, view, s0, from) then from
    else FirstRepeat(step, view, s0, from + 1, maxIters)
  }

  /** `FirstRepeat` is the least repeating round: it repeats when it is below
      `maxIters`, and no round before it does. */
  lemma {:induction false} FirstRepeatIsLeast<S, V>(step: S -> S, view: S -> V, s0: S, from: nat, maxIters: nat)
    requires from <= maxIters
    ensures var t := FirstRepeat(step, view, s0, from, maxIters);
      && (t < maxIters ==> Repeats(step, view, s0, t))
      && (forall s :: from <= s < t ==> !Repeats(step, view, s0, s))
    decreases maxIters - from
  {
    if from < maxIters && !Repeats(step, view, s0, from) {
      FirstRepeatIsLeast(step, view, s0, from + 1, maxIters);
    }
  }

  /** The consensus the loop compares against at iteration `iter`
      (`prev_aggregated_rank`, `None` before the first iteration). */
  function Previous<S, V>(step: S -> S, view: S -> V, s0: S, iter: nat): Option<V> {
    if iter == 0 then None else Some(view(Iterate(step, s0, iter - 1)))
  }

  /** Iterations `iter .. maxIters-1` of the loop, starting from the weights
      `alphas`, `prev` being the consensus of the iteration before. */
  function Loop<S, V(==)>(step: S -> S, view: S -> V, alphas: S, prev: Option<V>, iter: nat, maxIters: nat): (out: Outcome<S, V>)
    requires iter < maxIters
    decreases maxIters - iter
  {
    var order := view(alphas);
    if prev == Some(order) then Outcome(alphas, order, alphas, true, iter)
    else
      var next := step(alphas);
      if iter + 1 == maxIters then Outcome(next, order, alphas, false, maxIters)
      else Loop(step, view, next, Some(order), iter + 1, maxIters)
  }

  /** The loop from iteration `iter` on, against the round-by-round
      reference: it makes as many weight updates as the index of the first
      repeating round and stops there with that round's weights and
      consensus; with no repeat it returns the weights of round `maxIters`
      and the consensus of round `maxIters - 1`, the last one it computed. */
  lemma {:induction false} LoopFollowsReference<S, V>(step: S -> S, view: S -> V, s0: S, iter: nat, maxIters: nat)
    requires iter < maxIters
    ensures var out := Loop(step, view, Iterate(step, s0, iter), Previous(step, view, s0, iter), iter, maxIters);
      var t := FirstRepeat(step, view, s0, iter, maxIters);
      var last := if t < maxIters then t else maxIters - 1;
      && out.converged == (t < maxIters)
      && out.rounds == t
      && out.weights == Iterate(step, s0, t)
      && out.scoredWith == Iterate(step, s0, last)
      && out.ranking == view(Iterate(step, s0, last))
    decreases maxIters - iter
  {
    if !Repeats(step, view, s0, iter) && iter + 1 < maxIters {
      LoopFollowsReference(step, view, s0, iter + 1, maxIters);
    }
  }

  /** The whole loop: it never stops at the first iteration; when it stops,
      it is at the first round whose consensus repeats, and the weights it
      returns reproduce the consensus it returns; when it does not stop it
      has made exactly `maxIters` updates and no round repeated. */
  lemma LoopFromStart<S, V>(step: S -> S, view: S -> V, s0: S, maxIters: nat)
    requires maxIters >= 1
    ensures var out := Loop(step, view, s0, None, 0, maxIters);
      && (out.converged ==>
            && 1 <= out.rounds < maxIters
            && view(out.weights) == out.ranking
            && out.weights == out.scoredWith
            && view(Iterate(step, s0, out.rounds - 1)) == out.ranking
            && (forall s :: 0 <= s < out.rounds ==> !Repeats(step, view, s0, s)))
      && (!out.converged ==>
            && out.rounds == maxIters
            && out.weights == step(out.scoredWith)
            && out.ranking == view(out.scoredWith)
            && (forall s :: 0 <= s < maxIters ==> !Repeats(step, view, s0, s)))
  {
    LoopFollowsReference(step, view, s0, 0, maxIters);
    FirstRepeatIsLeast(step, view, s0, 0, maxIters);
  }

  /** A property that the start has and every update keeps holds of both
      weight vectors the loop ends with. */
  lemma LoopInvariant<S, V>(step: S -> S, view: S -> V, s0: S, inv: S -> bool, maxIters: nat)
    requires maxIters >= 1
    requires inv(s0)
    requires forall s :: inv(s) ==> inv(step(s))
    ensures inv(Loop(step, view, s0, None, 0, maxIters).weights)
    ensures inv(Loop(step, view, s0, None, 0, maxIters).scoredWith)
  {
    LoopFollowsReference(step, view, s0, 0, maxIters);
    var t := FirstRepeat(step, view, s0, 0, maxIters);
    IterateInvariant(step, s0, inv, t);
    IterateInvariant(step, s0, inv, if t < maxIters then t else maxIters - 1);
  }
}
