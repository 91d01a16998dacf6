/**
  The loop both parsers run over their links: walk the items in order and
  append the value each one yields, skipping the items that yield none; and
  what then survives the `(title, url)` dict.
 */
module Collecting {
  import opened Wrappers
  import opened Keyed
  import opened Models

  /** The list the loop builds: `pick(x)` for every item `x` it yields a value for, in order. */
  function Picked<T, A>(xs: seq<T>, pick: T -> Option<A>): seq<A> {
    if xs == [] then []
    else
      var n := |xs| - 1;
      Picked(xs[..n], pick) + (if pick(xs[n]).Some? then [pick(xs[n]).value] else [])
  }

  /** The positions of the items that yield a value, in increasing order. */
  function Yielding<T, A>(xs: seq<T>, pick: T -> Option<A>): seq<nat> {
    if xs == [] then []
    else
      var n := |xs| - 1;
      Yielding(xs[..n], pick) + (if pick(xs[n]).Some? then [n] else [])
  }

  /** One value is collected per yielding item. */
  lemma {:induction false} PickedLength<T, A>(xs: seq<T>, pick: T -> Option<A>)
    ensures |Picked(xs, pick)| == |Yielding(xs, pick)|
  {
    if xs != [] {
      PickedLength(xs[..|xs| - 1], pick);
    }
  }

  /** The yielding positions are positions of `xs`, in increasing order. */
  lemma {:induction false} YieldingIncreasing<T, A>(xs: seq<T>, pick: T -> Option<A>)
    ensures forall k :: 0 <= k < |Yielding(xs, pick)| ==> Yielding(xs, pick)[k] < |xs|
    ensures forall k, l :: 0 <= k < l < |Yielding(xs, pick)| ==> Yielding(xs, pick)[k] < Yielding(xs, pick)[l]
  {
    if xs != [] {
      var n := |xs| - 1;
      var init := xs[..n];
      YieldingIncreasing(init, pick);
      var idx0 := Yielding(init, pick);
      assert forall k :: 0 <= k < |idx0| ==> idx0[k] < n;
      if pick(xs[n]).Some? {
        var idx := idx0 + [n];
        assert Yielding(xs, pick) == idx;
        assert forall k :: 0 <= k < |idx| ==> idx[k] == (if k < |idx0| then idx0[k] else n);
      } else {
        assert Yielding(xs, pick) == idx0;
      }
    }
  }

  /** A position is a yielding one exactly when its item yields a value. */
  lemma {:induction false} YieldingMembers<T, A>(xs: seq<T>, pick: T -> Option<A>)
    ensures forall i :: 0 <= i < |xs| ==> (i in Yielding(xs, pick) <==> pick(xs[i]).Some?)
  {
    if xs != [] {
      var n := |xs| - 1;
      var init := xs[..n];
      YieldingMembers(init, pick);
      YieldingIncreasing(init, pick);
      var idx0 := Yielding(init, pick);
      assert Yielding(xs, pick) == idx0 + (if pick(xs[n]).Some? then [n] else []);
      assert forall k :: 0 <= k < |idx0| ==> idx0[k] < n;
      assert n !in idx0;
      assert forall i :: 0 <= i < n ==> xs[i] == init[i];
    }
  }

  /** The `k`-th value collected is the value the `k`-th yielding item gives. */
  lemma {:induction false} PickedAt<T, A>(xs: seq<T>, pick: T -> Option<A>)
    ensures forall k :: 0 <= k < |Yielding(xs, pick)| && k < |Picked(xs, pick)| ==>
      Yielding(xs, pick)[k] < |xs| && pick(xs[Yielding(xs, pick)[k]]) == Some(Picked(xs, pick)[k])
  {
    if xs != [] {
      var n := |xs| - 1;
      var init := xs[..n];
      PickedAt(init, pick);
      PickedLength(init, pick);
      YieldingIncreasing(init, pick);
      var idx0 := Yielding(init, pick);
      assert forall k :: 0 <= k < |idx0| ==> xs[idx0[k]] == init[idx0[k]];
    }
  }

  /**
    The `k`-th value collected is the one the `k`-th yielding item gives: the
    positions increase, and a position is among them exactly when its item
    yields a value. So nothing is dropped, nothing is added, and the order is
    the items' order.
   */
  lemma PickedMeaning<T, A>(xs: seq<T>, pick: T -> Option<A>)
    ensures |Picked(xs, pick)| == |Yielding(xs, pick)|
    ensures forall k :: 0 <= k < |Yielding(xs, pick)| ==>
      Yielding(xs, pick)[k] < |xs| && pick(xs[Yielding(xs, pick)[k]]) == Some(Picked(xs, pick)[k])
    ensures forall k, l :: 0 <= k < l < |Yielding(xs, pick)| ==> Yielding(xs, pick)[k] < Yielding(xs, pick)[l]
    ensures forall i :: 0 <= i < |xs| ==> (i in Yielding(xs, pick) <==> pick(xs[i]).Some?)
  {
    PickedLength(xs, pick);
    YieldingIncreasing(xs, pick);
    YieldingMembers(xs, pick);
    PickedAt(xs, pick);
  }

  /** Every value an item yields is collected. */
  lemma PickedComplete<T, A>(xs: seq<T>, pick: T -> Option<A>, i: nat)
    requires i < |xs| && pick(xs[i]).Some?
    ensures pick(xs[i]).value in Picked(xs, pick)
  {
    PickedMeaning(xs, pick);
    var idx := Yielding(xs, pick);
    assert i in idx;
    var k :| 0 <= k < |idx| && idx[k] == i;
  }

  /** After the `(title, url)` dict, every article of the list still has its key present. */
  lemma TitleUrlDictKeeps(xs: seq<HealthcareArticle>)
    ensures forall x :: x in xs ==>
      exists j :: 0 <= j < |DictValues(xs, TitleUrl)| && TitleUrl(DictValues(xs, TitleUrl)[j]) == TitleUrl(x)
  {
    forall x | x in xs
      ensures exists j :: 0 <= j < |DictValues(xs, TitleUrl)| && TitleUrl(DictValues(xs, TitleUrl)[j]) == TitleUrl(x)
    {
      DictValuesKeepKey(xs, TitleUrl, x);
    }
  }
}
