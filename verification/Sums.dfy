/** Totals of weights over sequences and maps. */
module Sums {

  function Total<T>(xs: seq<T>, f: T -> nat): nat {
    if xs == [] then 0
    else
      var n := |xs| - 1;
      Total(xs[..n], f) + f(xs[n])
  }

  lemma {:induction false} TotalOne<T>(xs: seq<T>, x: T, f: T -> nat)
    ensures Total(xs + [x], f) == Total(xs, f) + f(x)
  {
    assert (xs + [x])[..|xs|] == xs;
  }

  lemma {:induction false} TotalAppend<T>(xs: seq<T>, ys: seq<T>, f: T -> nat)
    ensures Total(xs + ys, f) == Total(xs, f) + Total(ys, f)
    decreases |ys|
  {
    if ys == [] {
      assert xs + ys == xs;
    } else {
      var n := |ys| - 1;
      assert (xs + ys)[..|xs| + n] == xs + ys[..n];
      TotalAppend(xs, ys[..n], f);
    }
  }

  /** Taking one element out. */
  lemma {:induction false} TotalWithout<T>(xs: seq<T>, i: nat, f: T -> nat)
    requires i < |xs|
    ensures Total(xs, f) == Total(xs[..i] + xs[i + 1..], f) + f(xs[i])
  {
    TotalAppend(xs[..i], xs[i + 1..], f);
    TotalAppend(xs[..i] + [xs[i]], xs[i + 1..], f);
    TotalOne(xs[..i], xs[i], f);
    assert xs == xs[..i] + [xs[i]] + xs[i + 1..];
  }

  lemma {:induction false} RemovedOne<T>(xs: seq<T>, i: nat)
    requires i < |xs|
    ensures multiset(xs[..i] + xs[i + 1..]) == multiset(xs) - multiset([xs[i]])
  {
    assert xs == xs[..i] + ([xs[i]] + xs[i + 1..]);
    assert multiset(xs) == multiset(xs[..i]) + (multiset([xs[i]]) + multiset(xs[i + 1..]));
  }

  /** The order does not matter. */
  lemma {:induction false} TotalPermuted<T>(xs: seq<T>, ys: seq<T>, f: T -> nat)
    requires multiset(xs) == multiset(ys)
    ensures Total(xs, f) == Total(ys, f)
    decreases |xs|
  {
    if xs == [] {
      assert |multiset(ys)| == |ys|;
    } else {
      var n := |xs| - 1;
      var x := xs[n];
      assert x in multiset(xs);
      assert x in multiset(ys);
      var i :| 0 <= i < |ys| && ys[i] == x;
      var rest := ys[..i] + ys[i + 1..];
      RemovedOne(xs, n);
      RemovedOne(ys, i);
      assert xs[..n] + xs[n + 1..] == xs[..n];
      TotalPermuted(xs[..n], rest, f);
      TotalWithout(ys, i, f);
    }
  }

  ghost function MapTotal<K, V>(m: map<K, V>, f: V -> nat): nat
    decreases |m|
  {
    if m == map[] then 0
    else
      var k: K :| k in m;
      assert |m - {k}| < |m| by { RemovedSmaller(m, k); }
      f(m[k]) + MapTotal(m - {k}, f)
  }

  lemma {:induction false} RemovedSmaller<K, V>(m: map<K, V>, k: K)
    requires k in m
    ensures |m - {k}| < |m|
  {
    assert (m - {k}).Keys == m.Keys - {k};
    assert |(m - {k}).Keys| == |m - {k}| && |m.Keys| == |m|;
  }

  lemma {:induction false} MapTotalRemove<K, V>(m: map<K, V>, k: K, f: V -> nat)
    requires k in m
    ensures MapTotal(m, f) == f(m[k]) + MapTotal(m - {k}, f)
    decreases |m|
  {
    var j: K :| j in m && MapTotal(m, f) == f(m[j]) + MapTotal(m - {j}, f);
    if j != k {
      RemovedSmaller(m, j);
      RemovedSmaller(m, k);
      MapTotalRemove(m - {j}, k, f);
      MapTotalRemove(m - {k}, j, f);
      assert m - {j} - {k} == m - {k} - {j};
    }
  }

  /** Setting a key's value. */
  lemma {:induction false} MapTotalPut<K, V>(m: map<K, V>, k: K, v: V, f: V -> nat)
    ensures MapTotal(m[k := v], f) == f(v) + MapTotal(m - {k}, f)
    ensures k !in m ==> m - {k} == m
  {
    MapTotalRemove(m[k := v], k, f);
    assert m[k := v] - {k} == m - {k};
  }
}
