/** The document pool of one aggregation call (code/SetRank/autoSetRank_ESR.py,
    `rankAggregate` step 1): every distinct document identifier gets a dense
    handle, most frequent first, and every occurrence of a document in a
    ranking becomes a `(ranker, position, length)` record. */
module Pool {
  import opened Seqs
  import opened Sorting

  /** One entry of `docid2positions[docid]`: the document stands at
      `position` (0-based) of ranking `ranker`, which has `length` entries. */
  datatype Occurrence = Occurrence(ranker: nat, position: nat, length: nat)

  /** Handle `h` names `docs[h]` (`docid2docno`); `rankings[i]` is input
      ranking `i` rewritten in handles. */
  datatype Pool<D> = Pool(docs: seq<D>, rankings: seq<seq<nat>>)

  /** Handles are exactly `0 .. |docs|-1`, each naming a different document,
      and every handle occurs in some ranking. */
  ghost predicate ValidPool<D>(pool: Pool<D>) {
    && Distinct(pool.docs)
    && (forall i, j :: 0 <= i < |pool.rankings| && 0 <= j < |pool.rankings[i]| ==>
          pool.rankings[i][j] < |pool.docs|)
    && (forall h :: 0 <= h < |pool.docs| ==> h in Flatten<nat>(pool.rankings))
  }

  /** Every entry of every ranking, front to back (`itertools.chain(*doc_rankings)`). */
  function AllEntries<D(==)>(rankings: seq<seq<D>>): seq<D> {
    Flatten(rankings)
  }

  /** The `Counter` of all entries: how often each document occurs. */
  function Counts<D(==)>(all: seq<D>): map<D, real> {
    map d | d in all :: multiset(all)[d] as real
  }

  lemma InFlattenAt<T>(ss: seq<seq<T>>, x: T)
    requires x in Flatten(ss)
    ensures exists i, j :: 0 <= i < |ss| && 0 <= j < |ss[i]| && ss[i][j] == x
  {
    if x in ss[0] {
      var j :| 0 <= j < |ss[0]| && ss[0][j] == x;
      assert ss[0][j] == x;
    } else {
      assert x in Flatten(ss[1..]);
      InFlattenAt(ss[1..], x);
      var i, j :| 0 <= i < |ss[1..]| && 0 <= j < |ss[1..][i]| && ss[1..][i][j] == x;
      assert ss[i + 1][j] == x;
    }
  }

  /** `docCounter`: the distinct documents, by non-increasing occurrence
      count, ties in order of first appearance across the rankings. Handle
      `h` is position `h` of this sequence. */
  function HandleOrder<D(==)>(rankings: seq<seq<D>>): (docs: seq<D>)
    ensures Distinct(docs)
    ensures forall h :: 0 <= h < |docs| ==> docs[h] in AllEntries(rankings)
    ensures forall i, j :: 0 <= i < |rankings| && 0 <= j < |rankings[i]| ==> rankings[i][j] in docs
    ensures forall h, h' :: 0 <= h < h' < |docs| ==>
              multiset(AllEntries(rankings))[docs[h]] >= multiset(AllEntries(rankings))[docs[h']]
  {
    var all := AllEntries(rankings);
    CountsKeyed(all);
    var docs := SortDesc(FirstSeen(all), Counts(all));
    SortDescDistinct(FirstSeen(all), Counts(all));
    SortedMembers(all);
    EntriesIn(rankings, docs);
    docs
  }

  lemma CountsKeyed<D>(all: seq<D>)
    ensures Keyed(FirstSeen(all), Counts(all))
  {
  }

  /** The sorted first-appearance order holds exactly the entries. */
  lemma SortedMembers<D>(all: seq<D>)
    ensures Keyed(FirstSeen(all), Counts(all))
    ensures forall h :: 0 <= h < |SortDesc(FirstSeen(all), Counts(all))| ==>
              SortDesc(FirstSeen(all), Counts(all))[h] in all
    ensures forall n :: 0 <= n < |all| ==> all[n] in SortDesc(FirstSeen(all), Counts(all))
  {
    var first := FirstSeen(all);
    CountsKeyed(all);
    var docs := SortDesc(first, Counts(all));
    assert forall h :: 0 <= h < |docs| ==> docs[h] in first by {
      SortDescMembers(first, Counts(all));
    }
    assert forall k :: 0 <= k < |first| ==> first[k] in docs by {
      SortDescMembers(first, Counts(all));
    }
  }

  /** Whatever holds every entry of the concatenation holds every entry of every ranking. */
  lemma EntriesIn<D>(rankings: seq<seq<D>>, docs: seq<D>)
    requires forall n :: 0 <= n < |Flatten(rankings)| ==> Flatten(rankings)[n] in docs
    ensures forall i, j :: 0 <= i < |rankings| && 0 <= j < |rankings[i]| ==> rankings[i][j] in docs
  {
    var all := Flatten(rankings);
    forall i, j | 0 <= i < |rankings| && 0 <= j < |rankings[i]|
      ensures rankings[i][j] in docs
    {
      InFlatten(rankings, i, j);
      var n :| 0 <= n < |all| && all[n] == rankings[i][j];
    }
  }

  /** Handle assignment breaks count ties by first appearance: the documents
      of any one count keep the order in which they first occur. */
  lemma HandleOrderStable<D>(rankings: seq<seq<D>>, c: real)
    ensures Keyed(HandleOrder(rankings), Counts(AllEntries(rankings)))
    ensures Keyed(FirstSeen(AllEntries(rankings)), Counts(AllEntries(rankings)))
    ensures Ties(HandleOrder(rankings), Counts(AllEntries(rankings)), c)
         == Ties(FirstSeen(AllEntries(rankings)), Counts(AllEntries(rankings)), c)
  {
    var all := AllEntries(rankings);
    assert Keyed(FirstSeen(all), Counts(all));
    SortDescStable(FirstSeen(all), Counts(all), c);
  }

  /** A ranking rewritten in handles (`docno2docid[docno]` for each entry). */
  function MapHandles<D(==)>(docs: seq<D>, s: seq<D>): (r: seq<nat>)
    requires forall j :: 0 <= j < |s| ==> s[j] in docs
    ensures |r| == |s|
    ensures forall j :: 0 <= j < |s| ==> r[j] < |docs| && docs[r[j]] == s[j]
    ensures forall j :: 0 <= j < |s| ==> r[j] == IndexOf(docs, s[j])
  {
    if |s| == 0 then [] else [IndexOf(docs, s[0])] + MapHandles(docs, s[1..])
  }

  lemma MapHandlesAppend<D>(docs: seq<D>, a: seq<D>, b: seq<D>)
    requires forall j :: 0 <= j < |a| ==> a[j] in docs
    requires forall j :: 0 <= j < |b| ==> b[j] in docs
    ensures forall j :: 0 <= j < |a + b| ==> (a + b)[j] in docs
    ensures MapHandles(docs, a + b) == MapHandles(docs, a) + MapHandles(docs, b)
  {
    assert forall j :: 0 <= j < |a + b| ==> (a + b)[j] in docs by {
      forall j | 0 <= j < |a + b| ensures (a + b)[j] in docs {
        if j >= |a| {
          assert (a + b)[j] == b[j - |a|];
        }
      }
    }
  }

  function HandleRankings<D(==)>(docs: seq<D>, rankings: seq<seq<D>>): (hr: seq<seq<nat>>)
    requires forall i, j :: 0 <= i < |rankings| && 0 <= j < |rankings[i]| ==> rankings[i][j] in docs
    ensures |hr| == |rankings|
    ensures forall i :: 0 <= i < |rankings| ==> hr[i] == MapHandles(docs, rankings[i])
  {
    if |rankings| == 0 then []
    else [MapHandles(docs, rankings[0])] + HandleRankings(docs, rankings[1..])
  }

  lemma {:induction false} FlattenHandles<D>(docs: seq<D>, rankings: seq<seq<D>>)
    requires forall i, j :: 0 <= i < |rankings| && 0 <= j < |rankings[i]| ==> rankings[i][j] in docs
    ensures forall n :: 0 <= n < |Flatten(rankings)| ==> Flatten(rankings)[n] in docs
    ensures Flatten(HandleRankings(docs, rankings)) == MapHandles(docs, Flatten(rankings))
    decreases |rankings|
  {
    if |rankings| > 0 {
      FlattenHandles(docs, rankings[1..]);
      MapHandlesAppend(docs, rankings[0], Flatten(rankings[1..]));
      assert HandleRankings(docs, rankings)[1..] == HandleRankings(docs, rankings[1..]);
    }
  }

  /** `rankAggregate` lines 62-77: the pool of a list of rankings. */
  function BuildPool<D(==)>(rankings: seq<seq<D>>): (pool: Pool<D>)
    ensures ValidPool(pool)
    ensures pool.docs == HandleOrder(rankings)
    ensures pool.rankings == HandleRankings(pool.docs, rankings)
    ensures |pool.rankings| == |rankings|
    ensures forall i :: 0 <= i < |rankings| ==> |pool.rankings[i]| == |rankings[i]|
    ensures forall i, j :: 0 <= i < |rankings| && 0 <= j < |rankings[i]| ==>
              pool.docs[pool.rankings[i][j]] == rankings[i][j]
  {
    var docs := HandleOrder(rankings);
    var hr := HandleRankings(docs, rankings);
    FlattenHandles(docs, rankings);
    forall h | 0 <= h < |docs| ensures h in Flatten<nat>(hr) {
      var all := Flatten(rankings);
      var n :| 0 <= n < |all| && all[n] == docs[h];
      IndexOfDistinct(docs, h);
      assert MapHandles(docs, all)[n] == h;
    }
    Pool(docs, hr)
  }

  /** The records of handle `h` in ranking `r` (ranker `i`) from position `j0` on. */
  function RecordsIn(r: seq<nat>, i: nat, h: nat, j0: nat): (recs: seq<Occurrence>)
    requires j0 <= |r|
    ensures forall k :: 0 <= k < |recs| ==>
              recs[k].ranker == i && j0 <= recs[k].position < |r| && recs[k].length == |r|
              && r[recs[k].position] == h
    decreases |r| - j0
  {
    if j0 == |r| then []
    else (if r[j0] == h then [Occurrence(i, j0, |r|)] else []) + RecordsIn(r, i, h, j0 + 1)
  }

  /** `docid2positions[h]` restricted to rankers `i0` and later, in walk order. */
  function PositionsFrom(hr: seq<seq<nat>>, h: nat, i0: nat): (recs: seq<Occurrence>)
    requires i0 <= |hr|
    ensures forall k :: 0 <= k < |recs| ==>
              i0 <= recs[k].ranker < |hr| && recs[k].position < recs[k].length
              && recs[k].length == |hr[recs[k].ranker]| && hr[recs[k].ranker][recs[k].position] == h
    decreases |hr| - i0
  {
    if i0 == |hr| then [] else RecordsIn(hr[i0], i0, h, 0) + PositionsFrom(hr, h, i0 + 1)
  }

  /** `docid2positions[h]`: every occurrence of handle `h`, in walk order. */
  function Positions(hr: seq<seq<nat>>, h: nat): seq<Occurrence> {
    PositionsFrom(hr, h, 0)
  }

  lemma {:induction false} RecordsInComplete(r: seq<nat>, i: nat, h: nat, j0: nat, j: nat)
    requires j0 <= j < |r| && r[j] == h
    ensures Occurrence(i, j, |r|) in RecordsIn(r, i, h, j0)
    decreases |r| - j0
  {
    if j0 < j {
      RecordsInComplete(r, i, h, j0 + 1, j);
    }
  }

  lemma {:induction false} RecordsInCount(r: seq<nat>, i: nat, h: nat, j0: nat)
    requires j0 <= |r|
    ensures |RecordsIn(r, i, h, j0)| == multiset(r[j0..])[h]
    decreases |r| - j0
  {
    if j0 < |r| {
      RecordsInCount(r, i, h, j0 + 1);
      assert r[j0..] == [r[j0]] + r[j0 + 1..];
    }
  }

  lemma {:induction false} PositionsFromComplete(hr: seq<seq<nat>>, h: nat, i0: nat, i: nat, j: nat)
    requires i0 <= i < |hr| && j < |hr[i]| && hr[i][j] == h
    ensures Occurrence(i, j, |hr[i]|) in PositionsFrom(hr, h, i0)
    decreases |hr| - i0
  {
    if i0 < i {
      PositionsFromComplete(hr, h, i0 + 1, i, j);
    } else {
      RecordsInComplete(hr[i], i, h, 0, j);
    }
  }

  lemma {:induction false} PositionsFromCount(hr: seq<seq<nat>>, h: nat, i0: nat)
    requires i0 <= |hr|
    ensures |PositionsFrom(hr, h, i0)| == multiset(Flatten<nat>(hr[i0..]))[h]
    decreases |hr| - i0
  {
    if i0 < |hr| {
      PositionsFromCount(hr, h, i0 + 1);
      RecordsInCount(hr[i0], i0, h, 0);
      assert hr[i0..][1..] == hr[i0 + 1..];
      assert hr[i0][0..] == hr[i0];
    }
  }

  lemma MapHandlesCount<D>(docs: seq<D>, s: seq<D>, h: nat)
    requires Distinct(docs) && h < |docs|
    requires forall j :: 0 <= j < |s| ==> s[j] in docs
    ensures multiset(MapHandles(docs, s))[h] == multiset(s)[docs[h]]
  {
    var r := MapHandles(docs, s);
    forall j | 0 <= j < |r| ensures r[j] == h <==> s[j] == docs[h] {
      assert docs[r[j]] == s[j];
    }
    CountMatch(r, s, h, docs[h]);
  }

  /** One record per occurrence: in the pool of `rankings`, the records of
      handle `h` are exactly the triples `(i, j, len(rankings[i]))` with
      `rankings[i][j]` the document of `h` ... */
  lemma PoolRecordsExact<D>(rankings: seq<seq<D>>, h: nat, o: Occurrence)
    requires h < |BuildPool(rankings).docs|
    ensures o in Positions(BuildPool(rankings).rankings, h) <==>
              o.ranker < |rankings| && o.position < |rankings[o.ranker]|
              && o.length == |rankings[o.ranker]|
              && rankings[o.ranker][o.position] == BuildPool(rankings).docs[h]
  {
    var pool := BuildPool(rankings);
    RecordsExactFor(pool.docs, rankings, h, o);
  }

  lemma RecordsExactFor<D>(docs: seq<D>, rankings: seq<seq<D>>, h: nat, o: Occurrence)
    requires Distinct(docs) && h < |docs|
    requires forall i, j :: 0 <= i < |rankings| && 0 <= j < |rankings[i]| ==> rankings[i][j] in docs
    ensures o in Positions(HandleRankings(docs, rankings), h) <==>
              o.ranker < |rankings| && o.position < |rankings[o.ranker]|
              && o.length == |rankings[o.ranker]|
              && rankings[o.ranker][o.position] == docs[h]
  {
    var hr := HandleRankings(docs, rankings);
    var listed := o.ranker < |rankings| && o.position < |rankings[o.ranker]|
                  && o.length == |rankings[o.ranker]| && rankings[o.ranker][o.position] == docs[h];
    if listed {
      assert hr[o.ranker][o.position] == h && o.length == |hr[o.ranker]| by {
        HandleAt(docs, rankings, h, o.ranker, o.position);
      }
      assert o in Positions(hr, h) by {
        PositionsFromComplete(hr, h, 0, o.ranker, o.position);
      }
    }
    if o in Positions(hr, h) {
      assert o.ranker < |hr| && o.position < |hr[o.ranker]| && o.length == |hr[o.ranker]|
             && hr[o.ranker][o.position] == h by {
        var k :| 0 <= k < |Positions(hr, h)| && Positions(hr, h)[k] == o;
      }
      assert listed by {
        HandleAt(docs, rankings, h, o.ranker, o.position);
      }
    }
  }

  /** Entry `(i, j)` of the handle rankings is `h` exactly when entry `(i, j)`
      of the input is the document of `h`. */
  lemma HandleAt<D>(docs: seq<D>, rankings: seq<seq<D>>, h: nat, i: nat, j: nat)
    requires Distinct(docs) && h < |docs|
    requires forall i, j :: 0 <= i < |rankings| && 0 <= j < |rankings[i]| ==> rankings[i][j] in docs
    requires i < |rankings| && j < |rankings[i]|
    ensures |HandleRankings(docs, rankings)[i]| == |rankings[i]|
    ensures HandleRankings(docs, rankings)[i][j] == h <==> rankings[i][j] == docs[h]
  {
    var r := MapHandles(docs, rankings[i]);
    assert docs[r[j]] == rankings[i][j];
  }

  lemma RecordsCountFor<D>(docs: seq<D>, rankings: seq<seq<D>>, h: nat)
    requires Distinct(docs) && h < |docs|
    requires forall i, j :: 0 <= i < |rankings| && 0 <= j < |rankings[i]| ==> rankings[i][j] in docs
    ensures |Positions(HandleRankings(docs, rankings), h)| == multiset(Flatten(rankings))[docs[h]]
  {
    var hr := HandleRankings(docs, rankings);
    var all := Flatten(rankings);
    PositionsCount(hr, h);
    FlattenHandles(docs, rankings);
    MapHandlesCount(docs, all, h);
  }

  lemma PositionsCount(hr: seq<seq<nat>>, h: nat)
    ensures |Positions(hr, h)| == multiset(Flatten<nat>(hr))[h]
  {
    PositionsFromCount(hr, h, 0);
    assert hr[0..] == hr;
  }


  /** ... and there are as many records as occurrences of that document. */
  lemma PoolRecordsCount<D>(rankings: seq<seq<D>>, h: nat)
    requires h < |BuildPool(rankings).docs|
    ensures |Positions(BuildPool(rankings).rankings, h)|
         == multiset(AllEntries(rankings))[BuildPool(rankings).docs[h]]
  {
    RecordsCountFor(BuildPool(rankings).docs, rankings, h);
  }
}
