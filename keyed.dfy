/**
  Sequences of values seen through a key function, and the insertion-ordered
  Python `dict` that `d[key(x)] = x` over such a sequence builds: the keys in
  the order of their first occurrence, each bound to the last value seen with it.
 */
module Keyed {

  /** The keys that occur in `xs`. */
  function KeySet<T, K(==,!new)>(xs: seq<T>, key: T -> K): (ks: set<K>)
    ensures forall i :: 0 <= i < |xs| ==> key(xs[i]) in ks
    ensures forall k :: k in ks ==> exists i :: 0 <= i < |xs| && key(xs[i]) == k
  {
    if xs == [] then {}
    else KeySet(xs[..|xs| - 1], key) + {key(xs[|xs| - 1])}
  }

  predicate Distinct<K(==)>(ks: seq<K>) {
    forall i, j :: 0 <= i < j < |ks| ==> ks[i] != ks[j]
  }

  /** Position of the first value of `xs` with key `k`. */
  function FirstIndex<T, K(==,!new)>(xs: seq<T>, key: T -> K, k: K): (j: nat)
    requires k in KeySet(xs, key)
    ensures j < |xs| && key(xs[j]) == k
    ensures forall i :: 0 <= i < j ==> key(xs[i]) != k
  {
    var p := xs[..|xs| - 1];
    if k in KeySet(p, key) then FirstIndex(p, key, k) else |xs| - 1
  }

  /** Position of the last value of `xs` with key `k`. */
  function LastIndex<T, K(==,!new)>(xs: seq<T>, key: T -> K, k: K): (j: nat)
    requires k in KeySet(xs, key)
    ensures j < |xs| && key(xs[j]) == k
    ensures forall i :: j < i < |xs| ==> key(xs[i]) != k
  {
    var p := xs[..|xs| - 1];
    if key(xs[|xs| - 1]) == k then |xs| - 1 else LastIndex(p, key, k)
  }

  /** The keys of the dict, in insertion order: each key of `xs` once, ordered by first occurrence. */
  function FirstKeys<T, K(==,!new)>(xs: seq<T>, key: T -> K): (ks: seq<K>)
    ensures forall k :: k in ks <==> k in KeySet(xs, key)
    ensures Distinct(ks)
    ensures forall i, j :: 0 <= i < j < |ks| ==> FirstIndex(xs, key, ks[i]) < FirstIndex(xs, key, ks[j])
  {
    if xs == [] then []
    else
      var p := xs[..|xs| - 1];
      var ps := FirstKeys(p, key);
      var k := key(xs[|xs| - 1]);
      assert forall q :: q in KeySet(p, key) ==> FirstIndex(xs, key, q) == FirstIndex(p, key, q) < |p|;
      if k in ps then ps else ps + [k]
  }

  /** The values of the dict: each key bound to the last value of `xs` with that key. */
  function Latest<T, K(==,!new)>(xs: seq<T>, key: T -> K): (m: map<K, T>)
    ensures m.Keys == KeySet(xs, key)
    ensures forall k :: k in m ==> m[k] == xs[LastIndex(xs, key, k)]
  {
    if xs == [] then map[]
    else Latest(xs[..|xs| - 1], key)[key(xs[|xs| - 1]) := xs[|xs| - 1]]
  }

  /** `list({key(x): x for x in xs}.values())` */
  function DictValues<T, K(==,!new)>(xs: seq<T>, key: T -> K): seq<T> {
    var ks := FirstKeys(xs, key);
    var m := Latest(xs, key);
    seq(|ks|, i requires 0 <= i < |ks| => m[ks[i]])
  }

  /**
    The dict keeps one value per key, the keys in the order of their first
    occurrence, each value the last one seen with its key; no key is lost.
   */
  lemma DictValuesMeaning<T, K(!new)>(xs: seq<T>, key: T -> K)
    ensures var r := DictValues(xs, key);
      && |r| <= |xs|
      && (forall i, j :: 0 <= i < j < |r| ==> key(r[i]) != key(r[j]))
      && (forall i :: 0 <= i < |r| ==> key(r[i]) in KeySet(xs, key) && r[i] == xs[LastIndex(xs, key, key(r[i]))])
      && (forall k :: k in KeySet(xs, key) ==> exists i :: 0 <= i < |r| && key(r[i]) == k)
      && (forall i, j :: 0 <= i < j < |r| ==> FirstIndex(xs, key, key(r[i])) < FirstIndex(xs, key, key(r[j])))
  {
    var ks := FirstKeys(xs, key);
    var m := Latest(xs, key);
    var r := DictValues(xs, key);
    KeysFitIn(xs, key);
    DictValuesFacts(xs, key, ks, m, r);
    DictValuesCover(xs, key, ks, m, r);
  }

  lemma DictValuesFacts<T, K(!new)>(xs: seq<T>, key: T -> K, ks: seq<K>, m: map<K, T>, r: seq<T>)
    requires ks == FirstKeys(xs, key) && m == Latest(xs, key)
    requires |r| == |ks| && forall i :: 0 <= i < |r| ==> r[i] == m[ks[i]]
    ensures forall i :: 0 <= i < |r| ==> key(r[i]) == ks[i]
    ensures forall i, j :: 0 <= i < j < |r| ==> key(r[i]) != key(r[j])
    ensures forall i :: 0 <= i < |r| ==> key(r[i]) in KeySet(xs, key) && r[i] == xs[LastIndex(xs, key, key(r[i]))]
    ensures forall i, j :: 0 <= i < j < |r| ==> FirstIndex(xs, key, key(r[i])) < FirstIndex(xs, key, key(r[j]))
  {
    DictValuesKeys(xs, key, ks, m, r);
  }

  lemma DictValuesKeys<T, K(!new)>(xs: seq<T>, key: T -> K, ks: seq<K>, m: map<K, T>, r: seq<T>)
    requires ks == FirstKeys(xs, key) && m == Latest(xs, key)
    requires |r| == |ks| && forall i :: 0 <= i < |r| ==> r[i] == m[ks[i]]
    ensures forall i :: 0 <= i < |r| ==> key(r[i]) == ks[i]
  {
    forall i | 0 <= i < |r| ensures key(r[i]) == ks[i] {
      assert ks[i] in m;
    }
  }

  lemma DictValuesCover<T, K(!new)>(xs: seq<T>, key: T -> K, ks: seq<K>, m: map<K, T>, r: seq<T>)
    requires ks == FirstKeys(xs, key) && m == Latest(xs, key)
    requires |r| == |ks| && forall i :: 0 <= i < |r| ==> r[i] == m[ks[i]]
    ensures forall k :: k in KeySet(xs, key) ==> exists i :: 0 <= i < |r| && key(r[i]) == k
  {
    forall k | k in KeySet(xs, key) ensures exists i :: 0 <= i < |r| && key(r[i]) == k {
      assert k in ks;
      var i :| 0 <= i < |ks| && ks[i] == k;
      assert r[i] == m[ks[i]];
      assert key(m[k]) == k;
      assert key(r[i]) == k;
    }
  }

  /** Every value left in the dict is one of the list's. */
  lemma DictValuesFromList<T, K(!new)>(xs: seq<T>, key: T -> K)
    ensures forall x :: x in DictValues(xs, key) ==> x in xs
  {
    DictValuesMeaning(xs, key);
    forall x | x in DictValues(xs, key) ensures x in xs {
      var j :| 0 <= j < |DictValues(xs, key)| && DictValues(xs, key)[j] == x;
      var m := LastIndex(xs, key, key(x));
    }
  }

  /** A value of the list has its key in the dict. */
  lemma DictValuesKeepKey<T, K(!new)>(xs: seq<T>, key: T -> K, x: T)
    requires x in xs
    ensures exists j :: 0 <= j < |DictValues(xs, key)| && key(DictValues(xs, key)[j]) == key(x)
  {
    DictValuesMeaning(xs, key);
    var k :| 0 <= k < |xs| && xs[k] == x;
    assert key(xs[k]) in KeySet(xs, key);
  }

  /** The distinct keys of `xs` are no more numerous than its values. */
  lemma {:induction false} KeysFitIn<T, K(!new)>(xs: seq<T>, key: T -> K)
    ensures |FirstKeys(xs, key)| <= |xs|
  {
    if xs != [] {
      KeysFitIn(xs[..|xs| - 1], key);
    }
  }

  /**
    The loop that fills `{key(x): x for x in xs}` and reads back its values:
    a key seen for the first time is appended to the key order, and every
    item overwrites the value of its key.
   */
  method FillDict<T, K(==,!new)>(xs: seq<T>, key: T -> K) returns (r: seq<T>)
    ensures r == DictValues(xs, key)
  {
    var ks: seq<K> := [];
    var m: map<K, T> := map[];
    for i := 0 to |xs|
      invariant ks == FirstKeys(xs[..i], key)
      invariant m == Latest(xs[..i], key)
    {
      FillStep(xs, key, i);
      var k := key(xs[i]);
      if k !in m {
        ks := ks + [k];
      }
      m := m[k := xs[i]];
    }
    assert xs[..|xs|] == xs;
    r := seq(|ks|, j requires 0 <= j < |ks| => m[ks[j]]);
  }

  /** One item more: its key is appended if new, and its value overwrites its key's. */
  lemma FillStep<T, K(!new)>(xs: seq<T>, key: T -> K, i: nat)
    requires i < |xs|
    ensures var k := key(xs[i]);
      && FirstKeys(xs[..i + 1], key)
         == (if k in Latest(xs[..i], key) then FirstKeys(xs[..i], key) else FirstKeys(xs[..i], key) + [k])
      && Latest(xs[..i + 1], key) == Latest(xs[..i], key)[k := xs[i]]
  {
    var p := xs[..i + 1];
    assert p[..|p| - 1] == xs[..i];
    assert p[|p| - 1] == xs[i];
  }

  /** A value repeated keeps one entry. */
  lemma RepeatedValueCollapses<T, K(!new)>(x: T, key: T -> K)
    ensures DictValues([x, x], key) == [x]
  {
    var xs := [x, x];
    assert xs[..1] == [x];
    assert [x][..0] == [];
    assert FirstKeys([x], key) == [key(x)];
    assert FirstKeys(xs, key) == [key(x)];
    assert Latest(xs, key) == map[key(x) := x];
  }

  /** `{f(x) for x in s}` */
  function Image<A, B(!new)>(s: set<A>, f: A -> B): set<B> {
    set x | x in s :: f(x)
  }

  /** A function one-to-one on `s` maps it onto a set of the same size. */
  lemma {:induction false} InjectiveImageSize<A, B(!new)>(s: set<A>, f: A -> B)
    requires forall x, y :: x in s && y in s && f(x) == f(y) ==> x == y
    ensures |Image(s, f)| == |s|
    decreases |s|
  {
    if s != {} {
      var x :| x in s;
      var rest := s - {x};
      InjectiveImageSize(rest, f);
      assert Image(s, f) == Image(rest, f) + {f(x)};
      assert f(x) !in Image(rest, f);
    }
  }
}
