/** Sorting by lexicographic integer keys, histograms, and what does not depend on
    the order of a list. */
module Sorting {

  // ---------------------------------------------------------------- lexicographic keys

  predicate LexLess(a: seq<int>, b: seq<int>)
    requires |a| == |b|
  {
    |a| > 0 && (a[0] < b[0] || (a[0] == b[0] && LexLess(a[1..], b[1..])))
  }

  lemma {:induction false} LexTotal(a: seq<int>, b: seq<int>)
    requires |a| == |b|
    ensures LexLess(a, b) || LexLess(b, a) || a == b
    ensures !(LexLess(a, b) && LexLess(b, a))
  {
    if |a| > 0 {
      LexTotal(a[1..], b[1..]);
      assert a == [a[0]] + a[1..] && b == [b[0]] + b[1..];
    }
  }

  lemma {:induction false} LexTransitive(a: seq<int>, b: seq<int>, c: seq<int>)
    requires |a| == |b| == |c| && !LexLess(b, a) && !LexLess(c, b)
    ensures !LexLess(c, a)
  {
    if |a| > 0 {
      if a[0] == b[0] == c[0] {
        LexTransitive(a[1..], b[1..], c[1..]);
      }
    }
  }

  // ---------------------------------------------------------------- sorting

  /** All keys have the same number of fields. */
  ghost predicate Uniform<T(!new)>(key: T -> seq<int>, n: nat) {
    forall x :: |key(x)| == n
  }

  ghost predicate SortedBy<T(!new)>(key: T -> seq<int>, n: nat, xs: seq<T>)
    requires Uniform(key, n)
  {
    forall i, j :: 0 <= i < j < |xs| ==> !LexLess(key(xs[j]), key(xs[i]))
  }

  /** ys is a sorted permutation of xs. */
  ghost predicate IsSortOf<T(!new)>(key: T -> seq<int>, n: nat, ys: seq<T>, xs: seq<T>)
    requires Uniform(key, n)
  {
    SortedBy(key, n, ys) && multiset(ys) == multiset(xs)
  }

  function Insert<T(!new)>(key: T -> seq<int>, ghost n: nat, x: T, sorted: seq<T>): (r: seq<T>)
    requires Uniform(key, n)
    ensures multiset(r) == multiset(sorted) + multiset{x}
  {
    if |sorted| == 0 then [x]
    else
      var last := sorted[|sorted| - 1];
      assert sorted == sorted[..|sorted| - 1] + [last];
      if LexLess(key(x), key(last)) then Insert(key, n, x, sorted[..|sorted| - 1]) + [last] else sorted + [x]
  }

  lemma {:induction false} InsertSorted<T(!new)>(key: T -> seq<int>, n: nat, x: T, sorted: seq<T>)
    requires Uniform(key, n) && SortedBy(key, n, sorted)
    ensures SortedBy(key, n, Insert(key, n, x, sorted))
    decreases |sorted|
  {
    if |sorted| > 0 {
      var front, last := sorted[..|sorted| - 1], sorted[|sorted| - 1];
      if LexLess(key(x), key(last)) {
        InsertSorted(key, n, x, front);
        var r := Insert(key, n, x, front);
        forall i | 0 <= i < |r|
          ensures !LexLess(key(last), key(r[i]))
        {
          LexTotal(key(x), key(last));
          assert r[i] in multiset(r);
        }
      } else {
        forall i | 0 <= i < |sorted|
          ensures !LexLess(key(x), key(sorted[i]))
        {
          if i < |sorted| - 1 {
            LexTransitive(key(sorted[i]), key(last), key(x));
          }
        }
      }
    }
  }

  /** std::sort, by repeated insertion. */
  function Sort<T(!new)>(key: T -> seq<int>, ghost n: nat, xs: seq<T>): (ys: seq<T>)
    requires Uniform(key, n)
    ensures IsSortOf(key, n, ys, xs)
  {
    if |xs| == 0 then []
    else
      var front := Sort(key, n, xs[..|xs| - 1]);
      assert xs == xs[..|xs| - 1] + [xs[|xs| - 1]];
      InsertSorted(key, n, xs[|xs| - 1], front);
      Insert(key, n, xs[|xs| - 1], front)
  }

  /** Equal keys mean equal elements. */
  ghost predicate KeyedBy<T(!new)>(key: T -> seq<int>, xs: seq<T>) {
    forall x, y :: x in xs && y in xs && key(x) == key(y) ==> x == y
  }

  lemma PermutationLength<T>(a: seq<T>, b: seq<T>)
    requires multiset(a) == multiset(b)
    ensures |a| == |b|
  {
    assert |multiset(a)| == |a| && |multiset(b)| == |b|;
  }

  /** Taking one occurrence of x out of a list. */
  lemma TakeOut<T>(b: seq<T>, x: T) returns (i: nat)
    requires x in multiset(b)
    ensures i < |b| && b[i] == x && multiset(b[..i] + b[i + 1..]) == multiset(b) - multiset{x}
  {
    i :| 0 <= i < |b| && b[i] == x;
    assert b == b[..i] + [x] + b[i + 1..];
  }

  lemma SmallestFirst<T(!new)>(key: T -> seq<int>, n: nat, a: seq<T>, b: seq<T>)
    requires Uniform(key, n) && SortedBy(key, n, a) && multiset(a) == multiset(b) && |a| > 0 && |b| > 0
    ensures !LexLess(key(b[0]), key(a[0]))
  {
    LexTotal(key(a[0]), key(a[0]));
    assert b[0] in multiset(a);
    var i := TakeOut(a, b[0]);
  }

  /** A list has one sorted permutation when keys identify its elements. */
  lemma {:induction false} SortIsUnique<T(!new)>(key: T -> seq<int>, n: nat, a: seq<T>, b: seq<T>)
    requires Uniform(key, n) && SortedBy(key, n, a) && SortedBy(key, n, b) && multiset(a) == multiset(b) &&
             KeyedBy(key, a)
    ensures a == b
    decreases |a|
  {
    hide LexLess;
    PermutationLength(a, b);
    if |a| > 0 {
      SmallestFirst(key, n, a, b);
      SmallestFirst(key, n, b, a);
      LexTotal(key(a[0]), key(b[0]));
      assert b[0] in multiset(a);
      assert a == [a[0]] + a[1..] && b == [b[0]] + b[1..];
      TailPermutes(a, b);
      SortIsUnique(key, n, a[1..], b[1..]);
    }
  }

  lemma TailPermutes<T>(a: seq<T>, b: seq<T>)
    requires multiset(a) == multiset(b) && |a| > 0 && |b| > 0 && a[0] == b[0]
    ensures multiset(a[1..]) == multiset(b[1..])
  {
    assert a == [a[0]] + a[1..] && b == [b[0]] + b[1..];
    assert multiset(a[1..]) == multiset(a) - multiset{a[0]};
    assert multiset(b[1..]) == multiset(b) - multiset{b[0]};
  }

  // ---------------------------------------------------------------- flat maps

  function FlatMap<X, Y>(f: X -> seq<Y>, xs: seq<X>): seq<Y> {
    if |xs| == 0 then [] else FlatMap(f, xs[..|xs| - 1]) + f(xs[|xs| - 1])
  }

  lemma {:induction false} FlatMapConcat<X, Y>(f: X -> seq<Y>, a: seq<X>, b: seq<X>)
    ensures FlatMap(f, a + b) == FlatMap(f, a) + FlatMap(f, b)
    decreases |b|
  {
    if |b| == 0 {
      assert a + b == a;
    } else {
      assert (a + b)[..|a + b| - 1] == a + b[..|b| - 1];
      FlatMapConcat(f, a, b[..|b| - 1]);
    }
  }

  /** A flat map with one element taken out. */
  lemma FlatMapTakeOut<X, Y>(f: X -> seq<Y>, b: seq<X>, i: nat)
    requires i < |b|
    ensures multiset(FlatMap(f, b)) == multiset(FlatMap(f, b[..i] + b[i + 1..])) + multiset(f(b[i]))
  {
    var left, right := b[..i], b[i + 1..];
    assert b == left + [b[i]] + right;
    FlatMapConcat(f, left, right);
    FlatMapConcat(f, left + [b[i]], right);
    assert (left + [b[i]])[..i] == left;
  }

  /** Permuting a list permutes its flat map. */
  lemma {:induction false} FlatMapPermutes<X, Y>(f: X -> seq<Y>, a: seq<X>, b: seq<X>)
    requires multiset(a) == multiset(b)
    ensures multiset(FlatMap(f, a)) == multiset(FlatMap(f, b))
    decreases |a|
  {
    hide FlatMap;
    PermutationLength(a, b);
    if |a| == 0 {
      assert a == b;
    } else {
      assert a == [a[0]] + a[1..];
      assert a[0] in multiset(b);
      var i := TakeOut(b, a[0]);
      var rest := a[..0] + a[1..];
      assert rest == a[1..] && multiset(rest) == multiset(a) - multiset{a[0]};
      FlatMapTakeOut(f, a, 0);
      FlatMapTakeOut(f, b, i);
      FlatMapPermutes(f, rest, b[..i] + b[i + 1..]);
    }
  }

  // ---------------------------------------------------------------- histograms

  /** h counts the occurrences of each key. */
  ghost predicate IsHistogram<K(!new)>(h: map<K, nat>, keys: seq<K>) {
    && (forall k :: k in h <==> k in keys)
    && (forall k :: k in h ==> h[k] == multiset(keys)[k])
  }

  function Bump<K>(h: map<K, nat>, k: K): map<K, nat> {
    h[k := (if k in h then h[k] else 0) + 1]
  }

  lemma BumpCounts<K(!new)>(h: map<K, nat>, keys: seq<K>, k: K)
    requires IsHistogram(h, keys)
    ensures IsHistogram(Bump(h, k), keys + [k])
  {
    if k !in h {
      assert k !in multiset(keys);
    }
  }

  lemma HistogramIsUnique<K(!new)>(h: map<K, nat>, h': map<K, nat>, keys: seq<K>, keys': seq<K>)
    requires IsHistogram(h, keys) && IsHistogram(h', keys') && multiset(keys) == multiset(keys')
    ensures h == h'
  {
    forall k
      ensures k in keys <==> k in keys'
    {
      assert k in keys <==> k in multiset(keys);
      assert k in keys' <==> k in multiset(keys');
    }
  }

  lemma HistogramPermutes<K(!new)>(h: map<K, nat>, keys: seq<K>, keys': seq<K>)
    requires IsHistogram(h, keys) && multiset(keys) == multiset(keys')
    ensures IsHistogram(h, keys')
  {
    forall k
      ensures k in keys <==> k in keys'
    {
      assert k in keys <==> k in multiset(keys);
      assert k in keys' <==> k in multiset(keys');
    }
  }

  /** The sum of all counts. */
  ghost function Total<K>(h: map<K, nat>): nat
    decreases |h|
  {
    if h == map[] then 0
    else
      assert h.Keys != {};
      var k :| k in h;
      h[k] + Total(h - {k})
  }

  lemma {:induction false} TotalWithout<K>(h: map<K, nat>, k: K)
    requires k in h
    ensures Total(h) == h[k] + Total(h - {k})
    decreases |h|
  {
    var c :| c in h && Total(h) == h[c] + Total(h - {c});
    if c != k {
      TotalWithout(h - {c}, k);
      TotalWithout(h - {k}, c);
      assert h - {c} - {k} == h - {k} - {c};
    }
  }

  lemma TotalBump<K>(h: map<K, nat>, k: K)
    ensures Total(Bump(h, k)) == Total(h) + 1
  {
    TotalWithout(Bump(h, k), k);
    if k in h {
      TotalWithout(h, k);
      assert Bump(h, k) - {k} == h - {k};
    } else {
      assert Bump(h, k) - {k} == h;
    }
  }

  /** Conservation: the counts of a histogram add up to the number of keys. */
  lemma {:induction false} HistogramTotal<K(!new)>(h: map<K, nat>, keys: seq<K>)
    requires IsHistogram(h, keys)
    ensures Total(h) == |keys|
    decreases |keys|
  {
    if |keys| == 0 {
      assert h == map[];
    } else {
      var front, k := keys[..|keys| - 1], keys[|keys| - 1];
      assert keys == front + [k];
      var h' := HistogramOf(front);
      HistogramTotal(h', front);
      TotalBump(h', k);
      BumpCounts(h', front, k);
      HistogramIsUnique(h, Bump(h', k), keys, keys);
    }
  }

  function HistogramOf<K(!new)>(keys: seq<K>): (h: map<K, nat>)
    ensures IsHistogram(h, keys)
  {
    if |keys| == 0 then map[]
    else
      var h := HistogramOf(keys[..|keys| - 1]);
      BumpCounts(h, keys[..|keys| - 1], keys[|keys| - 1]);
      assert keys == keys[..|keys| - 1] + [keys[|keys| - 1]];
      Bump(h, keys[|keys| - 1])
  }
}
