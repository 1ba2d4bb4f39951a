/** Generic sequence helpers shared by every part of the model: real sums,
    distinctness, first-appearance de-duplication (the key order of a Python
    `Counter` or `defaultdict`), flattening and index lookup. */
module Seqs {

  datatype Option<T> = None | Some(value: T)

  /** No element occurs twice. */
  ghost predicate Distinct<T>(s: seq<T>) {
    forall i, j :: 0 <= i < j < |s| ==> s[i] != s[j]
  }

  lemma DistinctCons<T>(x: T, s: seq<T>)
    ensures Distinct([x] + s) <==> x !in s && Distinct(s)
  {
    if x !in s && Distinct(s) {
      forall i, j | 0 <= i < j < |[x] + s|
        ensures ([x] + s)[i] != ([x] + s)[j]
      {
        if i > 0 {
          assert ([x] + s)[i] == s[i - 1];
        }
        assert ([x] + s)[j] == s[j - 1];
      }
    }
    if x in s {
      var k :| 0 <= k < |s| && s[k] == x;
      assert ([x] + s)[0] == ([x] + s)[k + 1];
    }
    if Distinct([x] + s) {
      forall i, j | 0 <= i < j < |s| ensures s[i] != s[j] {
        assert s[i] == ([x] + s)[i + 1] && s[j] == ([x] + s)[j + 1];
      }
    }
  }

  lemma CountCons<T>(x: T, t: seq<T>, y: T)
    ensures multiset([x] + t)[y] == (if x == y then 1 else 0) + multiset(t)[y]
  {
    assert multiset([x] + t) == multiset([x]) + multiset(t);
  }

  /** Two sequences that hold `a` and `b` at the same positions hold them
      equally often. */
  lemma {:induction false} CountMatch<A, B>(r: seq<A>, s: seq<B>, a: A, b: B)
    requires |r| == |s|
    requires forall j :: 0 <= j < |r| ==> (r[j] == a <==> s[j] == b)
    ensures multiset(r)[a] == multiset(s)[b]
  {
    if |r| > 0 {
      CountMatch(r[1..], s[1..], a, b);
      assert r == [r[0]] + r[1..];
      assert s == [s[0]] + s[1..];
      CountCons(r[0], r[1..], a);
      CountCons(s[0], s[1..], b);
    }
  }

  /** Sum of a sequence of reals, left to right. */
  function Sum(s: seq<real>): real {
    if |s| == 0 then 0.0 else s[0] + Sum(s[1..])
  }

  lemma SumAppend(a: seq<real>, b: seq<real>)
    ensures Sum(a + b) == Sum(a) + Sum(b)
  {
    if |a| > 0 {
      assert (a + b)[1..] == a[1..] + b;
      SumAppend(a[1..], b);
    } else {
      assert a + b == b;
    }
  }

  /** Sum of natural numbers. */
  function SumNat(s: seq<nat>): nat {
    if |s| == 0 then 0 else s[0] + SumNat(s[1..])
  }

  lemma SumNatAppend(a: seq<nat>, b: seq<nat>)
    ensures SumNat(a + b) == SumNat(a) + SumNat(b)
  {
    if |a| > 0 {
      assert (a + b)[1..] == a[1..] + b;
      SumNatAppend(a[1..], b);
    } else {
      assert a + b == b;
    }
  }

  /** `total += f(x)` for every `x` of `xs`, in order: a running sum. */
  function SumOf<A>(xs: seq<A>, f: A -> int): int
    decreases |xs|
  {
    if |xs| == 0 then 0 else SumOf(xs[..|xs| - 1], f) + f(xs[|xs| - 1])
  }

  lemma SumOfSnoc<A>(xs: seq<A>, x: A, f: A -> int)
    ensures SumOf(xs + [x], f) == SumOf(xs, f) + f(x)
  {
    assert (xs + [x])[..|xs|] == xs;
  }

  /** Running sums over two sequences agree when they agree term by term. */
  lemma {:induction false} SumOfPointwise<A, B>(xs: seq<A>, f: A -> int, ys: seq<B>, g: B -> int)
    requires |xs| == |ys|
    requires forall i :: 0 <= i < |xs| ==> f(xs[i]) == g(ys[i])
    ensures SumOf(xs, f) == SumOf(ys, g)
    decreases |xs|
  {
    if |xs| > 0 {
      var n := |xs| - 1;
      SumOfPointwise(xs[..n], f, ys[..n], g);
    }
  }

  /** Concatenation of a sequence of sequences, front to back (`itertools.chain`). */
  function Flatten<T(==)>(ss: seq<seq<T>>): seq<T> {
    if |ss| == 0 then [] else ss[0] + Flatten(ss[1..])
  }

  lemma FlattenAppend<T>(a: seq<seq<T>>, b: seq<seq<T>>)
    ensures Flatten(a + b) == Flatten(a) + Flatten(b)
  {
    if |a| > 0 {
      assert (a + b)[1..] == a[1..] + b;
      FlattenAppend(a[1..], b);
    } else {
      assert a + b == b;
    }
  }

  lemma InFlatten<T>(ss: seq<seq<T>>, i: nat, j: nat)
    requires i < |ss| && j < |ss[i]|
    ensures ss[i][j] in Flatten(ss)
  {
    if i > 0 {
      InFlatten(ss[1..], i - 1, j);
    }
  }

  /** The position of the first occurrence of `x`. */
  function IndexOf<T(==)>(s: seq<T>, x: T): (i: nat)
    requires x in s
    ensures i < |s| && s[i] == x
    ensures forall k :: 0 <= k < i ==> s[k] != x
  {
    if s[0] == x then 0 else IndexOf(s[1..], x) + 1
  }

  lemma IndexOfDistinct<T>(s: seq<T>, i: nat)
    requires Distinct(s) && i < |s|
    ensures IndexOf(s, s[i]) == i
  {
  }

  /** The elements of `s` not in `seen`, each once, in order of first
      appearance: the key order Python gives a `Counter` or a dictionary
      filled while walking `s`. */
  function FirstSeenFrom<T(==)>(s: seq<T>, seen: set<T>): (r: seq<T>)
    ensures Distinct(r)
    ensures forall i :: 0 <= i < |r| ==> r[i] in s && r[i] !in seen
    ensures forall i :: 0 <= i < |s| && s[i] !in seen ==> s[i] in r
    decreases |s|
  {
    if |s| == 0 then []
    else if s[0] in seen then FirstSeenFrom(s[1..], seen)
    else
      var rest := FirstSeenFrom(s[1..], seen + {s[0]});
      DistinctCons(s[0], rest);
      [s[0]] + rest
  }

  function FirstSeen<T(==)>(s: seq<T>): seq<T> {
    FirstSeenFrom(s, {})
  }

  /** Walking `a + b` is walking `a`, then walking `b` with everything of `a`
      already seen: the order of first appearance is prefix-stable. */
  lemma {:induction false} FirstSeenAppend<T>(a: seq<T>, b: seq<T>, seen: set<T>)
    ensures FirstSeenFrom(a + b, seen) == FirstSeenFrom(a, seen) + FirstSeenFrom(b, seen + set x | x in a)
    decreases |a|
  {
    if |a| == 0 {
      assert a + b == b;
      assert (set x | x in a) == {};
      assert seen + {} == seen;
    } else {
      assert (a + b)[0] == a[0];
      assert (a + b)[1..] == a[1..] + b;
      var seen' := if a[0] in seen then seen else seen + {a[0]};
      FirstSeenAppend(a[1..], b, seen');
      assert seen' + (set x | x in a[1..]) == seen + (set x | x in a);
    }
  }

  /** A sequence without repetitions is its own first-appearance order. */
  lemma {:induction false} FirstSeenDistinct<T>(s: seq<T>, seen: set<T>)
    requires Distinct(s)
    requires forall i :: 0 <= i < |s| ==> s[i] !in seen
    ensures FirstSeenFrom(s, seen) == s
    decreases |s|
  {
    if |s| > 0 {
      DistinctCons(s[0], s[1..]);
      assert [s[0]] + s[1..] == s;
      FirstSeenDistinct(s[1..], seen + {s[0]});
    }
  }

  /** `0, 1, ..., n-1`. */
  function Range(n: nat): (r: seq<nat>)
    ensures |r| == n && forall i :: 0 <= i < n ==> r[i] == i
  {
    seq(n, i => i)
  }

  lemma RangeDistinct(n: nat)
    ensures Distinct(Range(n))
  {
  }

  /** A dictionary filled by walking `items` in order: `parse` turns an
      item into a key and value or rejects it, and a later item for a key
      replaces the value of an earlier one. */
  function Collect<A, K, V>(items: seq<A>, parse: A -> Option<(K, V)>): map<K, V>
    decreases |items|
  {
    if |items| == 0 then map[]
    else
      var m := Collect(items[..|items| - 1], parse);
      match parse(items[|items| - 1])
      case None => m
      case Some(entry) => m[entry.0 := entry.1]
  }

  /** Item `i` is accepted and gives `key`. */
  ghost predicate Gives<A, K, V>(items: seq<A>, parse: A -> Option<(K, V)>, i: nat, key: K) {
    i < |items| && parse(items[i]).Some? && parse(items[i]).value.0 == key
  }

  lemma GivesPrefix<A, K, V>(items: seq<A>, parse: A -> Option<(K, V)>, n: nat, i: nat, key: K)
    requires n <= |items| && i < n
    ensures Gives(items[..n], parse, i, key) <==> Gives(items, parse, i, key)
  {
    assert items[..n][i] == items[i];
  }

  /** A key is in the dictionary exactly when some accepted item gives it. */
  lemma {:induction false} CollectKeys<A, K, V>(items: seq<A>, parse: A -> Option<(K, V)>, key: K)
    ensures key in Collect(items, parse) <==> exists i: nat :: Gives(items, parse, i, key)
    decreases |items|
  {
    if |items| > 0 {
      var n := |items| - 1;
      CollectKeys(items[..n], parse, key);
      if key in Collect(items, parse) {
        if key in Collect(items[..n], parse) {
          var i: nat :| Gives(items[..n], parse, i, key);
          GivesPrefix(items, parse, n, i, key);
        } else {
          assert Gives(items, parse, n, key);
        }
      }
      if exists i: nat :: Gives(items, parse, i, key) {
        var i: nat :| Gives(items, parse, i, key);
        if i < n {
          GivesPrefix(items, parse, n, i, key);
        }
      }
    }
  }

  /** The value of a key is the one of the last accepted item that gives
      the key. */
  lemma {:induction false} CollectLastWins<A, K, V>(items: seq<A>, parse: A -> Option<(K, V)>, i: nat, key: K)
    requires Gives(items, parse, i, key)
    requires forall j :: i < j < |items| ==> !Gives(items, parse, j, key)
    ensures key in Collect(items, parse) && Collect(items, parse)[key] == parse(items[i]).value.1
    decreases |items|
  {
    var n := |items| - 1;
    if i < n {
      assert !Gives(items, parse, n, key);
      GivesPrefix(items, parse, n, i, key);
      forall j | i < j < n ensures !Gives(items[..n], parse, j, key) {
        GivesPrefix(items, parse, n, j, key);
      }
      CollectLastWins(items[..n], parse, i, key);
    }
  }
}
