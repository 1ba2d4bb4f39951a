/** Python's `collections.Counter` over a token list, and its inverse: a
    `{key: count}` map written out as each key repeated `count` times
    (`for i in range(v): lst.append(k)`). The query expansion of
    code/SetRank/setRank_TREC.py and the annotation fields of
    code/SetRank/index_data_ESR.py both use the expansion. */
module Counting {
  import opened Seqs
  import opened Text

  /** `Counter(s).items()`: every distinct element once, in order of first
      appearance, with the number of times it occurs in `s`. */
  function CounterItems<T(==)>(s: seq<T>): (items: seq<(T, int)>)
    ensures |items| == |FirstSeen(s)|
    ensures forall i :: 0 <= i < |items| ==> items[i].0 == FirstSeen(s)[i]
    ensures forall i :: 0 <= i < |items| ==> items[i].1 == multiset(s)[items[i].0] >= 1
  {
    var keys := FirstSeen(s);
    seq(|keys|, i requires 0 <= i < |keys| => (keys[i], multiset(s)[keys[i]]))
  }

  /** The keys of a list of `(key, count)` pairs. */
  function Keys<T>(items: seq<(T, int)>): (ks: seq<T>)
    ensures |ks| == |items|
    ensures forall i :: 0 <= i < |items| ==> ks[i] == items[i].0
  {
    seq(|items|, i requires 0 <= i < |items| => items[i].0)
  }

  /** The counts of a list of `(key, count)` pairs. */
  function Counts<T>(items: seq<(T, int)>): (cs: seq<int>)
    ensures |cs| == |items|
    ensures forall i :: 0 <= i < |items| ==> cs[i] == items[i].1
  {
    seq(|items|, i requires 0 <= i < |items| => items[i].1)
  }

  /** The two columns of `Counter(s).items()`: the distinct elements in
      order of first appearance, and how often each occurs. */
  lemma CounterColumns<T>(s: seq<T>)
    ensures Keys(CounterItems(s)) == FirstSeen(s)
    ensures |Counts(CounterItems(s))| == |FirstSeen(s)|
    ensures forall i :: 0 <= i < |FirstSeen(s)| ==> Counts(CounterItems(s))[i] == multiset(s)[FirstSeen(s)[i]]
  {
  }

  /** `[x for i in range(v)]`: empty when `v` is not positive. */
  function Repeat<T>(x: T, v: int): (r: seq<T>)
    ensures |r| == if v <= 0 then 0 else v
    ensures forall i :: 0 <= i < |r| ==> r[i] == x
    decreases v
  {
    if v <= 0 then [] else [x] + Repeat(x, v - 1)
  }

  /** Every key repeated as often as its count says, keys in order. */
  function Expand<T>(items: seq<(T, int)>): seq<T> {
    if |items| == 0 then [] else Repeat(items[0].0, items[0].1) + Expand(items[1..])
  }

  /** The sum of the counts (`ann_length += v`), which may be negative. */
  function TotalCount<T>(items: seq<(T, int)>): int {
    if |items| == 0 then 0 else items[0].1 + TotalCount(items[1..])
  }

  /** A `{key: count}` map with positive counts, as a list of its items. */
  ghost predicate IsCountMap<T>(items: seq<(T, int)>) {
    Distinct(Keys(items)) && forall i :: 0 <= i < |items| ==> items[i].1 >= 1
  }

  ghost predicate NonNegative<T>(items: seq<(T, int)>) {
    forall i :: 0 <= i < |items| ==> items[i].1 >= 0
  }

  /** With no negative count, the expansion is exactly as long as the sum
      of the counts. */
  lemma {:induction false} ExpandLength<T>(items: seq<(T, int)>)
    requires NonNegative(items)
    ensures |Expand(items)| == TotalCount(items)
  {
    if |items| > 0 {
      ExpandLength(items[1..]);
    }
  }

  /** A key that is not listed does not occur in the expansion. */
  lemma {:induction false} ExpandAbsent<T>(items: seq<(T, int)>, k: T)
    requires k !in Keys(items)
    ensures k !in Expand(items)
  {
    if |items| > 0 {
      assert Keys(items[1..]) == Keys(items)[1..];
      ExpandAbsent(items[1..], k);
    }
  }

  /** Every token of the expansion is one of the keys. */
  lemma ExpandFromKeys<T>(items: seq<(T, int)>, x: T)
    requires x in Expand(items)
    ensures x in Keys(items)
  {
    if x !in Keys(items) {
      ExpandAbsent(items, x);
    }
  }

  lemma RepeatCount<T>(x: T, v: int, y: T)
    ensures multiset(Repeat(x, v))[y] == if x == y && v > 0 then v else 0
    decreases v
  {
    if v > 0 {
      CountCons(x, Repeat(x, v - 1), y);
    }
  }

  lemma ExpandCountCons<T>(items: seq<(T, int)>, k: T)
    requires |items| > 0
    ensures multiset(Expand(items))[k]
         == (if items[0].0 == k && items[0].1 > 0 then items[0].1 else 0) + multiset(Expand(items[1..]))[k]
  {
    RepeatCount(items[0].0, items[0].1, k);
    assert multiset(Expand(items)) == multiset(Repeat(items[0].0, items[0].1)) + multiset(Expand(items[1..]));
  }

  /** With distinct keys, the first key is not among the keys of the rest,
      which are distinct too. */
  lemma KeysTail<T>(items: seq<(T, int)>)
    requires |items| > 0 && Distinct(Keys(items))
    ensures Keys(items) == [items[0].0] + Keys(items[1..])
    ensures items[0].0 !in Keys(items[1..]) && Distinct(Keys(items[1..]))
  {
    assert Keys(items) == [items[0].0] + Keys(items[1..]);
    DistinctCons(items[0].0, Keys(items[1..]));
  }

  /** With distinct keys, a key with a non-negative count occurs in the
      expansion exactly that many times. */
  lemma {:induction false} ExpandCount<T>(items: seq<(T, int)>, i: nat)
    requires Distinct(Keys(items))
    requires i < |items| && items[i].1 >= 0
    ensures multiset(Expand(items))[items[i].0] == items[i].1
  {
    var k := items[i].0;
    ExpandCountCons(items, k);
    KeysTail(items);
    if i == 0 {
      ExpandAbsent(items[1..], k);
    } else {
      assert Keys(items)[0] != Keys(items)[i];
      ExpandCount(items[1..], i - 1);
    }
  }

  lemma {:induction false} FirstSeenRepeat<T>(x: T, v: int, seen: set<T>)
    requires v >= 1 && x !in seen
    ensures FirstSeenFrom(Repeat(x, v), seen) == [x]
    ensures (set y | y in Repeat(x, v)) == {x}
    decreases v
  {
    var r := Repeat(x, v);
    assert r[0] == x && r[1..] == Repeat(x, v - 1);
    if v > 1 {
      FirstSeenRepeat(x, v - 1, seen);
      assert FirstSeenFrom(Repeat(x, v - 1), seen + {x}) == [] by {
        forall y | y in Repeat(x, v - 1) ensures y in seen + {x} { }
        FirstSeenNone(Repeat(x, v - 1), seen + {x});
      }
    }
  }

  lemma {:induction false} FirstSeenNone<T>(s: seq<T>, seen: set<T>)
    requires forall y :: y in s ==> y in seen
    ensures FirstSeenFrom(s, seen) == []
    decreases |s|
  {
    if |s| > 0 {
      assert s[0] in s;
      FirstSeenNone(s[1..], seen);
    }
  }

  /** With distinct keys and positive counts, the keys of the expansion in
      order of first appearance are the listed keys. */
  lemma {:induction false} ExpandKeys<T>(items: seq<(T, int)>, seen: set<T>)
    requires Distinct(Keys(items))
    requires forall i :: 0 <= i < |items| ==> items[i].1 >= 1 && items[i].0 !in seen
    ensures FirstSeenFrom(Expand(items), seen) == Keys(items)
    decreases |items|
  {
    if |items| > 0 {
      var x := items[0].0;
      var head := Repeat(x, items[0].1);
      FirstSeenAppend(head, Expand(items[1..]), seen);
      FirstSeenRepeat(x, items[0].1, seen);
      KeysTail(items);
      forall i | 0 <= i < |items[1..]|
        ensures items[1..][i].0 !in seen + {x}
      {
        assert Keys(items[1..])[i] == items[1..][i].0;
      }
      ExpandKeys(items[1..], seen + {x});
    }
  }

  lemma CounterOfExpandAt<T>(items: seq<(T, int)>, i: nat)
    requires Distinct(Keys(items))
    requires FirstSeen(Expand(items)) == Keys(items)
    requires i < |items| && items[i].1 >= 0
    ensures CounterItems(Expand(items))[i] == items[i]
  {
    ExpandCount(items, i);
  }

  /** Writing a `{key: count}` map out and counting it again gives the
      same map back, for distinct keys and positive counts. */
  lemma CounterOfExpand<T>(items: seq<(T, int)>)
    requires IsCountMap(items)
    ensures CounterItems(Expand(items)) == items
  {
    assert FirstSeen(Expand(items)) == Keys(items) by {
      ExpandKeys(items, {});
    }
    forall i | 0 <= i < |items|
      ensures CounterItems(Expand(items))[i] == items[i]
    {
      CounterOfExpandAt(items, i);
    }
  }
}
