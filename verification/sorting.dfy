/** Python's `sorted(d.items(), key=lambda x: -x[1])` over a dictionary:
    a stable sort of the dictionary's keys, in insertion order, by
    non-increasing value. A Python dictionary is modelled as its key
    insertion order (a sequence) plus a `map` from key to value. */
module Sorting {
  import opened Seqs

  /** Every element of `s` has a key. */
  ghost predicate Keyed<T>(s: seq<T>, key: map<T, real>) {
    forall i :: 0 <= i < |s| ==> s[i] in key
  }

  /** Keys never increase along `s`. */
  ghost predicate SortedDesc<T>(s: seq<T>, key: map<T, real>)
    requires Keyed(s, key)
  {
    forall i, j :: 0 <= i < j < |s| ==> key[s[i]] >= key[s[j]]
  }

  /** The elements of `s` whose key is `v`, in their order in `s`. */
  function Ties<T>(s: seq<T>, key: map<T, real>, v: real): seq<T>
    requires Keyed(s, key)
  {
    if |s| == 0 then []
    else (if key[s[0]] == v then [s[0]] else []) + Ties(s[1..], key, v)
  }

  /** Places `x` in front of the first element whose key is not larger. */
  function Insert<T>(x: T, s: seq<T>, key: map<T, real>): (r: seq<T>)
    requires x in key && Keyed(s, key)
    ensures multiset(r) == multiset(s) + multiset{x}
    ensures Keyed(r, key)
  {
    if |s| == 0 || key[s[0]] <= key[x] then [x] + s
    else
      assert s == [s[0]] + s[1..];
      [s[0]] + Insert(x, s[1..], key)
  }

  /** Inserting below a bound keeps every key below it. */
  lemma {:induction false} InsertBounded<T>(x: T, s: seq<T>, key: map<T, real>, v: real)
    requires x in key && Keyed(s, key) && key[x] <= v
    requires forall i :: 0 <= i < |s| ==> key[s[i]] <= v
    ensures forall i :: 0 <= i < |Insert(x, s, key)| ==> key[Insert(x, s, key)[i]] <= v
    decreases |s|
  {
    var r := Insert(x, s, key);
    if |s| == 0 || key[s[0]] <= key[x] {
      assert forall i :: 0 < i < |r| ==> r[i] == s[i - 1];
    } else {
      InsertBounded(x, s[1..], key, v);
      var rest := Insert(x, s[1..], key);
      assert forall i :: 0 < i < |r| ==> r[i] == rest[i - 1];
    }
  }

  lemma {:induction false} InsertSorted<T>(x: T, s: seq<T>, key: map<T, real>)
    requires x in key && Keyed(s, key) && SortedDesc(s, key)
    ensures SortedDesc(Insert(x, s, key), key)
    decreases |s|
  {
    var r := Insert(x, s, key);
    if |s| == 0 || key[s[0]] <= key[x] {
      assert forall i :: 0 < i < |r| ==> r[i] == s[i - 1];
    } else {
      var rest := Insert(x, s[1..], key);
      InsertSorted(x, s[1..], key);
      InsertBounded(x, s[1..], key, key[s[0]]);
      assert forall i :: 0 < i < |r| ==> r[i] == rest[i - 1];
    }
  }

  /** Stable insertion sort by non-increasing key. */
  function SortDesc<T>(xs: seq<T>, key: map<T, real>): (r: seq<T>)
    requires Keyed(xs, key)
    ensures multiset(r) == multiset(xs)
    ensures Keyed(r, key) && SortedDesc(r, key)
  {
    if |xs| == 0 then []
    else
      var rest := SortDesc(xs[1..], key);
      assert xs == [xs[0]] + xs[1..];
      InsertSorted(xs[0], rest, key);
      Insert(xs[0], rest, key)
  }

  lemma TiesCons<T>(y: T, t: seq<T>, key: map<T, real>, v: real)
    requires y in key && Keyed(t, key)
    ensures Keyed([y] + t, key)
    ensures Ties([y] + t, key, v) == (if key[y] == v then [y] else []) + Ties(t, key, v)
  {
    assert ([y] + t)[1..] == t;
  }

  lemma {:induction false} InsertTies<T>(x: T, s: seq<T>, key: map<T, real>, v: real)
    requires x in key && Keyed(s, key)
    ensures Ties(Insert(x, s, key), key, v) == (if key[x] == v then [x] else []) + Ties(s, key, v)
    decreases |s|
  {
    if |s| == 0 || key[s[0]] <= key[x] {
      TiesCons(x, s, key, v);
    } else {
      var rest := Insert(x, s[1..], key);
      InsertTies(x, s[1..], key, v);
      TiesCons(s[0], rest, key, v);
      TiesCons(s[0], s[1..], key, v);
      assert s == [s[0]] + s[1..];
      if key[s[0]] == v {
        assert key[x] != v;
      } else if key[x] == v {
        assert Ties(s, key, v) == Ties(s[1..], key, v);
      }
    }
  }

  /** The sort neither adds nor drops an element. */
  lemma SortDescMembers<T>(xs: seq<T>, key: map<T, real>)
    requires Keyed(xs, key)
    ensures forall i :: 0 <= i < |SortDesc(xs, key)| ==> SortDesc(xs, key)[i] in xs
    ensures forall i :: 0 <= i < |xs| ==> xs[i] in SortDesc(xs, key)
  {
    var r := SortDesc(xs, key);
    forall i | 0 <= i < |r| ensures r[i] in xs {
      assert r[i] in multiset(r);
    }
    forall i | 0 <= i < |xs| ensures xs[i] in r {
      assert xs[i] in multiset(xs);
    }
  }

  /** Stability: among elements of equal key, the sorted order is the input
      order. */
  lemma {:induction false} SortDescStable<T>(xs: seq<T>, key: map<T, real>, v: real)
    requires Keyed(xs, key)
    ensures Ties(SortDesc(xs, key), key, v) == Ties(xs, key, v)
    decreases |xs|
  {
    if |xs| > 0 {
      SortDescStable(xs[1..], key, v);
      InsertTies(xs[0], SortDesc(xs[1..], key), key, v);
    }
  }

  lemma {:induction false} TiesNonEmpty<T>(s: seq<T>, key: map<T, real>, i: nat)
    requires Keyed(s, key) && i < |s|
    ensures |Ties(s, key, key[s[i]])| > 0
    decreases i
  {
    if i > 0 {
      TiesNonEmpty(s[1..], key, i - 1);
    }
  }

  lemma {:induction false} TiesElements<T>(s: seq<T>, key: map<T, real>, v: real, j: nat)
    requires Keyed(s, key) && j < |Ties(s, key, v)|
    ensures Ties(s, key, v)[j] in s && key[Ties(s, key, v)[j]] == v
    decreases |s|
  {
    var head := if key[s[0]] == v then [s[0]] else [];
    if j >= |head| {
      TiesElements(s[1..], key, v, j - |head|);
    }
  }

  lemma TiesOfHead<T>(s: seq<T>, key: map<T, real>)
    requires Keyed(s, key)
    ensures |s| > 0 ==> |Ties(s, key, key[s[0]])| > 0
  {
  }

  lemma TiesTail<T>(s: seq<T>, key: map<T, real>, v: real)
    requires Keyed(s, key) && |s| > 0
    ensures Ties(s[1..], key, v) == Ties(s, key, v)[(if key[s[0]] == v then 1 else 0)..]
  {
    var h := if key[s[0]] == v then [s[0]] else [];
    assert Ties(s, key, v) == h + Ties(s[1..], key, v);
  }

  /** A sorted sequence starts with an element of the largest key, and that
      element is the first of its group of ties. */
  lemma HeadsAgree<T>(a: seq<T>, b: seq<T>, key: map<T, real>)
    requires Keyed(a, key) && Keyed(b, key) && |a| > 0 && |b| > 0
    requires SortedDesc(a, key) && SortedDesc(b, key)
    requires Ties(a, key, key[a[0]]) == Ties(b, key, key[a[0]])
    requires Ties(a, key, key[b[0]]) == Ties(b, key, key[b[0]])
    ensures a[0] == b[0]
  {
    var ma, mb := key[a[0]], key[b[0]];
    TiesNonEmpty(a, key, 0);
    TiesNonEmpty(b, key, 0);
    TiesElements(b, key, ma, 0);
    TiesElements(a, key, mb, 0);
    assert ma == mb;
  }

  /** The sort is the only stable order by non-increasing key: any sorted
      sequence that keeps every group of equal keys in input order is it. */
  lemma {:induction false} SortedTiesUnique<T>(a: seq<T>, b: seq<T>, key: map<T, real>)
    requires Keyed(a, key) && Keyed(b, key)
    requires SortedDesc(a, key) && SortedDesc(b, key)
    requires forall v :: Ties(a, key, v) == Ties(b, key, v)
    ensures a == b
    decreases |a|
  {
    TiesOfHead(a, key);
    TiesOfHead(b, key);
    if |a| > 0 && |b| > 0 {
      HeadsAgree(a, b, key);
      forall v ensures Ties(a[1..], key, v) == Ties(b[1..], key, v) {
        TiesTail(a, key, v);
        TiesTail(b, key, v);
      }
      SortedTiesUnique(a[1..], b[1..], key);
      assert a == [a[0]] + a[1..] && b == [b[0]] + b[1..];
    }
  }

  /** Sorting a sequence whose keys already never increase changes nothing. */
  lemma SortDescOfSorted<T>(xs: seq<T>, key: map<T, real>)
    requires Keyed(xs, key) && SortedDesc(xs, key)
    ensures SortDesc(xs, key) == xs
  {
    forall v ensures Ties(xs, key, v) == Ties(SortDesc(xs, key), key, v) {
      SortDescStable(xs, key, v);
    }
    SortedTiesUnique(xs, SortDesc(xs, key), key);
  }

  lemma {:induction false} InsertDistinct<T>(x: T, s: seq<T>, key: map<T, real>)
    requires x in key && Keyed(s, key)
    requires Distinct(s) && x !in s
    ensures Distinct(Insert(x, s, key))
    decreases |s|
  {
    if |s| == 0 || key[s[0]] <= key[x] {
      DistinctCons(x, s);
    } else {
      DistinctCons(s[0], s[1..]);
      assert s == [s[0]] + s[1..];
      InsertDistinct(x, s[1..], key);
      var rest := Insert(x, s[1..], key);
      assert s[0] !in multiset(rest);
      DistinctCons(s[0], rest);
    }
  }

  lemma {:induction false} SortDescDistinct<T>(xs: seq<T>, key: map<T, real>)
    requires Keyed(xs, key) && Distinct(xs)
    ensures Distinct(SortDesc(xs, key))
    decreases |xs|
  {
    if |xs| > 0 {
      assert xs == [xs[0]] + xs[1..];
      DistinctCons(xs[0], xs[1..]);
      SortDescDistinct(xs[1..], key);
      assert xs[0] !in multiset(SortDesc(xs[1..], key));
      InsertDistinct(xs[0], SortDesc(xs[1..], key), key);
    }
  }
}
