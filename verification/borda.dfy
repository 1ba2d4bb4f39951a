/** Weighted Borda count and the consensus order it induces
    (code/SetRank/autoSetRank_ESR.py, `rankAggregate` lines 97-106, repeated
    in `rankAggregateCorpus` lines 222-231). */
module Borda {
  import opened Seqs
  import opened Sorting
  import opened Pool

  /** `w * n` for a count `n`, as `n` repeated additions of `w`. Scores only
      ever multiply a weight by a whole number of places; spelling the
      product out keeps the solver on linear arithmetic. */
  function Times(w: real, n: nat): real {
    if n == 0 then 0.0 else w + Times(w, n - 1)
  }

  lemma {:induction false} TimesIsProduct(w: real, n: nat)
    ensures Times(w, n) == w * n as real
  {
    if n > 0 {
      TimesIsProduct(w, n - 1);
    }
  }

  lemma {:induction false} TimesMonotone(w: real, m: nat, n: nat)
    requires w >= 0.0 && m <= n
    ensures Times(w, m) <= Times(w, n)
    decreases n
  {
    if m < n {
      TimesMonotone(w, m, n - 1);
    }
  }

  /** What one record adds to its document's score:
      `alphas[i] * (k - j)` for a record `(i, j, k)`. */
  function Contribution(alphas: seq<real>, o: Occurrence): real
    requires o.ranker < |alphas| && o.position <= o.length
  {
    Times(alphas[o.ranker], o.length - o.position)
  }

  /** Sum of the contributions of a list of records, in list order. */
  function Credit(alphas: seq<real>, recs: seq<Occurrence>): real
    requires forall k :: 0 <= k < |recs| ==> recs[k].ranker < |alphas| && recs[k].position <= recs[k].length
  {
    if |recs| == 0 then 0.0 else Contribution(alphas, recs[0]) + Credit(alphas, recs[1..])
  }

  /** `docid2scores[h]`: the weighted Borda score of handle `h`. */
  function Score(hr: seq<seq<nat>>, alphas: seq<real>, h: nat): real
    requires |hr| <= |alphas|
  {
    Credit(alphas, Positions(hr, h))
  }

  /** A record at position `j` of a ranking of length `k` credits its ranker's
      weight between once (last place) and `k` times (first place), and
      exactly `alphas[i] * (k - j)`. */
  lemma ContributionBounds(alphas: seq<real>, o: Occurrence)
    requires o.ranker < |alphas| && alphas[o.ranker] >= 0.0
    requires o.position < o.length
    ensures Contribution(alphas, o) == alphas[o.ranker] * (o.length - o.position) as real
    ensures alphas[o.ranker] <= Contribution(alphas, o) <= alphas[o.ranker] * o.length as real
  {
    var a := alphas[o.ranker];
    TimesMonotone(a, 1, o.length - o.position);
    TimesMonotone(a, o.length - o.position, o.length);
    TimesIsProduct(a, o.length - o.position);
    TimesIsProduct(a, o.length);
    assert Times(a, 1) == a;
  }

  /** The textbook Borda count, ranker by ranker: a ranker that lists `h` at
      position `j` of its `k` entries credits `alphas[i] * (k - j)`; one that
      does not list `h` credits nothing. */
  function BordaReference(hr: seq<seq<nat>>, alphas: seq<real>, h: nat, i0: nat): real
    requires i0 <= |hr| <= |alphas|
    decreases |hr| - i0
  {
    if i0 == |hr| then 0.0 else RankerCredit(alphas, i0, hr[i0], h) + BordaReference(hr, alphas, h, i0 + 1)
  }

  lemma {:induction false} CreditAppend(alphas: seq<real>, a: seq<Occurrence>, b: seq<Occurrence>)
    requires forall k :: 0 <= k < |a| ==> a[k].ranker < |alphas| && a[k].position <= a[k].length
    requires forall k :: 0 <= k < |b| ==> b[k].ranker < |alphas| && b[k].position <= b[k].length
    ensures forall k :: 0 <= k < |a + b| ==> (a + b)[k].ranker < |alphas| && (a + b)[k].position <= (a + b)[k].length
    ensures Credit(alphas, a + b) == Credit(alphas, a) + Credit(alphas, b)
    decreases |a|
  {
    if |a| > 0 {
      assert (a + b)[1..] == a[1..] + b;
      CreditAppend(alphas, a[1..], b);
    } else {
      assert a + b == b;
    }
  }

  lemma {:induction false} RecordsInDistinct(r: seq<nat>, i: nat, h: nat, j0: nat)
    requires j0 <= |r| && Distinct(r)
    ensures RecordsIn(r, i, h, j0) == if h in r[j0..] then [Occurrence(i, IndexOf(r, h), |r|)] else []
    decreases |r| - j0
  {
    if j0 < |r| {
      assert h in r[j0..] <==> r[j0] == h || h in r[j0 + 1..] by {
        assert r[j0..] == [r[j0]] + r[j0 + 1..];
      }
      if r[j0] == h {
        assert IndexOf(r, h) == j0 by {
          IndexOfDistinct(r, j0);
        }
        assert h !in r[j0 + 1..] by {
          var tail := r[j0 + 1..];
          forall k | 0 <= k < |tail| ensures tail[k] != h {
            assert tail[k] == r[j0 + 1 + k];
          }
        }
        assert RecordsIn(r, i, h, j0 + 1) == [] by {
          RecordsInDistinct(r, i, h, j0 + 1);
        }
      } else {
        assert RecordsIn(r, i, h, j0 + 1)
            == if h in r[j0 + 1..] then [Occurrence(i, IndexOf(r, h), |r|)] else [] by {
          RecordsInDistinct(r, i, h, j0 + 1);
        }
      }
    }
  }

  /** What ranker `i`, whose ranking is `r`, contributes to the score of `h`
      when `r` lists `h` at most once. */
  function RankerCredit(alphas: seq<real>, i: nat, r: seq<nat>, h: nat): real
    requires i < |alphas|
  {
    if h in r then Times(alphas[i], |r| - IndexOf(r, h)) else 0.0
  }

  /** The credit of one ranking that lists `h` at most once. */
  lemma RecordsCredit(alphas: seq<real>, r: seq<nat>, i: nat, h: nat)
    requires i < |alphas| && Distinct(r)
    ensures Credit(alphas, RecordsIn(r, i, h, 0)) == RankerCredit(alphas, i, r, h)
  {
    RecordsInDistinct(r, i, h, 0);
    assert r[0..] == r;
    if h in r {
      CreditSingle(alphas, Occurrence(i, IndexOf(r, h), |r|));
    }
  }

  lemma PositionsFromStep(hr: seq<seq<nat>>, alphas: seq<real>, h: nat, i0: nat)
    requires i0 < |hr| <= |alphas|
    requires Distinct(hr[i0])
    ensures Credit(alphas, PositionsFrom(hr, h, i0))
         == RankerCredit(alphas, i0, hr[i0], h) + Credit(alphas, PositionsFrom(hr, h, i0 + 1))
  {
    var here := RecordsIn(hr[i0], i0, h, 0);
    var rest := PositionsFrom(hr, h, i0 + 1);
    assert Credit(alphas, PositionsFrom(hr, h, i0)) == Credit(alphas, here) + Credit(alphas, rest) by {
      assert PositionsFrom(hr, h, i0) == here + rest;
      CreditAppend(alphas, here, rest);
    }
    assert Credit(alphas, here) == RankerCredit(alphas, i0, hr[i0], h) by {
      RecordsCredit(alphas, hr[i0], i0, h);
    }
  }

  lemma {:induction false} PositionsFromReference(hr: seq<seq<nat>>, alphas: seq<real>, h: nat, i0: nat)
    requires i0 <= |hr| <= |alphas|
    requires forall i :: 0 <= i < |hr| ==> Distinct(hr[i])
    ensures Credit(alphas, PositionsFrom(hr, h, i0)) == BordaReference(hr, alphas, h, i0)
    decreases |hr| - i0
  {
    if i0 < |hr| {
      var rc := RankerCredit(alphas, i0, hr[i0], h);
      assert Credit(alphas, PositionsFrom(hr, h, i0 + 1)) == BordaReference(hr, alphas, h, i0 + 1) by {
        PositionsFromReference(hr, alphas, h, i0 + 1);
      }
      assert Credit(alphas, PositionsFrom(hr, h, i0)) == rc + Credit(alphas, PositionsFrom(hr, h, i0 + 1)) by {
        PositionsFromStep(hr, alphas, h, i0);
      }
    }
  }

  lemma CreditSingle(alphas: seq<real>, o: Occurrence)
    requires o.ranker < |alphas| && o.position <= o.length
    ensures Credit(alphas, [o]) == Contribution(alphas, o)
  {
    assert [o][1..] == [];
  }

  /** When no ranking repeats a document, the record-by-record score equals
      the ranker-by-ranker Borda count. */
  lemma BordaMatchesReference(hr: seq<seq<nat>>, alphas: seq<real>, h: nat)
    requires |hr| <= |alphas|
    requires forall i :: 0 <= i < |hr| ==> Distinct(hr[i])
    ensures Score(hr, alphas, h) == BordaReference(hr, alphas, h, 0)
  {
    PositionsFromReference(hr, alphas, h, 0);
  }

  /** `s` lists each of the handles `0 .. n-1` exactly once. */
  ghost predicate IsPermutation(s: seq<nat>, n: nat) {
    && |s| == n
    && Distinct(s)
    && (forall i :: 0 <= i < |s| ==> s[i] < n)
    && (forall h :: 0 <= h < n ==> h in s)
  }

  /** Dropping position `k` from a sequence without repetitions. */
  lemma RemoveAt(s: seq<nat>, k: nat)
    requires Distinct(s) && k < |s|
    ensures var t := s[..k] + s[k + 1..];
      && |t| == |s| - 1 && Distinct(t)
      && (forall i :: 0 <= i < |t| ==> t[i] in s && t[i] != s[k])
      && (forall x :: x in s && x != s[k] ==> x in t)
  {
    var t := s[..k] + s[k + 1..];
    assert forall i :: 0 <= i < |t| ==> t[i] == s[if i < k then i else i + 1];
    forall x | x in s && x != s[k] ensures x in t {
      var m :| 0 <= m < |s| && s[m] == x;
      assert t[if m < k then m else m - 1] == x;
    }
  }

  /** A sequence without repetitions that draws from `0 .. n-1` and covers
      all of it has exactly `n` elements. */
  lemma {:induction false} CoveringLength(s: seq<nat>, n: nat)
    requires Distinct(s)
    requires forall i :: 0 <= i < |s| ==> s[i] < n
    requires forall h :: 0 <= h < n ==> h in s
    ensures |s| == n
    decreases n
  {
    if n == 0 {
      assert forall i :: 0 <= i < |s| ==> s[i] < 0;
    } else {
      assert n - 1 in s;
      var k :| 0 <= k < |s| && s[k] == n - 1;
      RemoveAt(s, k);
      var t := s[..k] + s[k + 1..];
      forall i | 0 <= i < |t| ensures t[i] < n - 1 {
        var x := t[i];
        assert x in s;
      }
      forall h | 0 <= h < n - 1 ensures h in t {
        assert h in s;
      }
      CoveringLength(t, n - 1);
    }
  }

  /** `docid2scores`: the score of every handle of `order`. */
  function ScoreMap(hr: seq<seq<nat>>, alphas: seq<real>, order: seq<nat>): (m: map<nat, real>)
    requires |hr| <= |alphas|
    ensures Keyed(order, m)
    ensures forall h :: h in m ==> m[h] == Score(hr, alphas, h)
  {
    map h | h in order :: Score(hr, alphas, h)
  }

  /** The iteration order of `docid2positions`: handles by first appearance
      across the rankings, walking ranker by ranker. */
  function FirstAppearance(hr: seq<seq<nat>>): seq<nat> {
    FirstSeen(Flatten<nat>(hr))
  }

  /** In a valid pool every handle first appears exactly once. */
  lemma FirstAppearancePermutation<D>(pool: Pool<D>)
    requires ValidPool(pool)
    ensures IsPermutation(FirstAppearance(pool.rankings), |pool.docs|)
  {
    var hr := pool.rankings;
    var all := Flatten<nat>(hr);
    var first := FirstSeen(all);
    forall i | 0 <= i < |first| ensures first[i] < |pool.docs| {
      assert first[i] in all;
      InFlattenAt<nat>(hr, first[i]);
    }
    forall h | 0 <= h < |pool.docs| ensures h in first {
      assert h in all;
      var n :| 0 <= n < |all| && all[n] == h;
    }
    CoveringLength(first, |pool.docs|);
  }

  /** Reordering a permutation without repeating an element leaves a permutation. */
  lemma PermutationReordered(a: seq<nat>, b: seq<nat>, n: nat)
    requires IsPermutation(a, n) && multiset(a) == multiset(b) && Distinct(b)
    ensures IsPermutation(b, n)
  {
    forall i | 0 <= i < |b| ensures b[i] < n {
      assert b[i] in multiset(b);
      assert b[i] in a;
    }
    forall h | 0 <= h < n ensures h in b {
      assert h in a;
      assert h in multiset(a);
    }
    CoveringLength(b, n);
  }

  /** `aggregated_rank`: the handles sorted by non-increasing Borda score,
      ties left in `docid2positions` order. */
  function Consensus<D>(pool: Pool<D>, alphas: seq<real>): (order: seq<nat>)
    requires |pool.rankings| <= |alphas|
  {
    var first := FirstAppearance(pool.rankings);
    SortDesc(first, ScoreMap(pool.rankings, alphas, first))
  }

  /** The consensus lists every handle of the pool exactly once, by
      non-increasing score. */
  lemma ConsensusOrder<D>(pool: Pool<D>, alphas: seq<real>)
    requires ValidPool(pool) && |pool.rankings| <= |alphas|
    ensures IsPermutation(Consensus(pool, alphas), |pool.docs|)
    ensures forall a, b :: 0 <= a < b < |Consensus(pool, alphas)| ==>
              Score(pool.rankings, alphas, Consensus(pool, alphas)[a]) >= Score(pool.rankings, alphas, Consensus(pool, alphas)[b])
  {
    var first := FirstAppearance(pool.rankings);
    var scores := ScoreMap(pool.rankings, alphas, first);
    SortDescDistinct(first, scores);
    FirstAppearancePermutation(pool);
    PermutationReordered(first, SortDesc(first, scores), |pool.docs|);
  }

  /** Ties in score keep the order in which the handles first appear in the
      rankings (`docid2positions` insertion order), not handle order. */
  lemma ConsensusStable<D>(pool: Pool<D>, alphas: seq<real>, v: real)
    requires |pool.rankings| <= |alphas|
    ensures Keyed(Consensus(pool, alphas), ScoreMap(pool.rankings, alphas, FirstAppearance(pool.rankings)))
    ensures Ties(Consensus(pool, alphas), ScoreMap(pool.rankings, alphas, FirstAppearance(pool.rankings)), v)
         == Ties(FirstAppearance(pool.rankings), ScoreMap(pool.rankings, alphas, FirstAppearance(pool.rankings)), v)
  {
    var first := FirstAppearance(pool.rankings);
    SortDescStable(first, ScoreMap(pool.rankings, alphas, first), v);
  }

  /** With a single ranker, a document's Borda score is that ranker's weight
      times the number of places from its position to the end. */
  lemma SingleScore(hr: seq<seq<nat>>, alphas: seq<real>, a: nat)
    requires |hr| == 1 && Distinct(hr[0]) && a < |hr[0]| && 1 <= |alphas|
    ensures Score(hr, alphas, hr[0][a]) == Times(alphas[0], |hr[0]| - a)
  {
    BordaMatchesReference(hr, alphas, hr[0][a]);
    IndexOfDistinct(hr[0], a);
  }

  /** With a single ranker of non-negative weight, Borda scores never
      increase along that ranker's ranking. */
  lemma SingleScoresFall(hr: seq<seq<nat>>, alphas: seq<real>)
    requires |hr| == 1 && Distinct(hr[0]) && 1 <= |alphas| && alphas[0] >= 0.0
    ensures forall a, b :: 0 <= a < b < |hr[0]| ==> Score(hr, alphas, hr[0][a]) >= Score(hr, alphas, hr[0][b])
  {
    forall a, b | 0 <= a < b < |hr[0]| ensures Score(hr, alphas, hr[0][a]) >= Score(hr, alphas, hr[0][b]) {
      SingleScore(hr, alphas, a);
      SingleScore(hr, alphas, b);
      TimesMonotone(alphas[0], |hr[0]| - b, |hr[0]| - a);
    }
  }

  /** With a single ranker of non-negative weight, the consensus is that
      ranker's own ranking: it is its own order of first appearance and
      its Borda scores fall along it. */
  lemma SingleConsensus<D>(pool: Pool<D>, alphas: seq<real>)
    requires |pool.rankings| == 1 && Distinct(pool.rankings[0])
    requires 1 <= |alphas| && alphas[0] >= 0.0
    ensures Consensus(pool, alphas) == pool.rankings[0]
  {
    var r := pool.rankings[0];
    assert Flatten<nat>(pool.rankings) == r by {
      assert pool.rankings[1..] == [];
    }
    FirstSeenDistinct(r, {});
    var key := ScoreMap(pool.rankings, alphas, r);
    SingleScoresFall(pool.rankings, alphas);
    assert SortedDesc(r, key);
    SortDescOfSorted(r, key);
  }

  /** `docid2rank`: the consensus position of every handle. */
  function RankOf(order: seq<nat>, n: nat): (rank: seq<nat>)
    requires IsPermutation(order, n)
    ensures |rank| == n
    ensures forall h :: 0 <= h < n ==> rank[h] < n && order[rank[h]] == h
    ensures forall p :: 0 <= p < n ==> rank[order[p]] == p
  {
    var rank := seq(n, h requires 0 <= h < n => IndexOf(order, h));
    forall p | 0 <= p < n ensures rank[order[p]] == p {
      IndexOfDistinct(order, p);
    }
    rank
  }

  /** The consensus positions of the entries of one ranking
      (`docid2rank[r[a]]` for every `a`). */
  function Ranks(rank: seq<nat>, r: seq<nat>): (pi: seq<nat>)
    requires forall a :: 0 <= a < |r| ==> r[a] < |rank|
    ensures |pi| == |r|
    ensures forall a :: 0 <= a < |r| ==> pi[a] == rank[r[a]]
  {
    seq(|r|, a requires 0 <= a < |r| => rank[r[a]])
  }
}
