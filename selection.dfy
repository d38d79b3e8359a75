/** A single pass over a sequence that drops some elements and maps the rest,
    keeping their order: the shape of the converter's row loop, stated once
    for any row type, skip test and entry builder. */
module Selection {

  /** `f` of every element that `skip` does not reject, in order. */
  function Select<T, U>(xs: seq<T>, skip: T -> bool, f: T -> U): (ys: seq<U>)
    ensures |ys| <= |xs|
  {
    if xs == [] then []
    else
      var n := |xs| - 1;
      if skip(xs[n]) then Select(xs[..n], skip, f) else Select(xs[..n], skip, f) + [f(xs[n])]
  }

  /** The positions of the elements `skip` does not reject, in ascending order. */
  function KeptIndices<T>(xs: seq<T>, skip: T -> bool): (ks: seq<nat>)
    ensures forall k :: 0 <= k < |ks| ==> ks[k] < |xs| && !skip(xs[ks[k]])
  {
    if xs == [] then []
    else
      var n := |xs| - 1;
      if skip(xs[n]) then KeptIndices(xs[..n], skip) else KeptIndices(xs[..n], skip) + [n]
  }

  /** The number of elements `skip` does not reject, counted from the front. */
  function KeptCount<T>(xs: seq<T>, skip: T -> bool): nat {
    if xs == [] then 0
    else (if skip(xs[0]) then 0 else 1) + KeptCount(xs[1..], skip)
  }

  /** Selecting from two stretches one after the other is selecting from their concatenation. */
  lemma {:induction false} SelectAppend<T, U>(a: seq<T>, b: seq<T>, skip: T -> bool, f: T -> U)
    ensures Select(a + b, skip, f) == Select(a, skip, f) + Select(b, skip, f)
    decreases |b|
  {
    if b == [] {
      assert a + b == a;
    } else {
      var ab := a + b;
      var n := |b| - 1;
      assert ab[..|ab| - 1] == a + b[..n];
      assert ab[|ab| - 1] == b[n];
      SelectAppend(a, b[..n], skip, f);
    }
  }

  /** One result per kept element: the length is the number of kept elements. */
  lemma {:induction false} SelectLength<T, U>(xs: seq<T>, skip: T -> bool, f: T -> U)
    ensures |Select(xs, skip, f)| == KeptCount(xs, skip)
    decreases |xs|
  {
    if xs != [] {
      assert xs == [xs[0]] + xs[1..];
      SelectAppend([xs[0]], xs[1..], skip, f);
      assert [xs[0]][..0] == [];
      SelectLength(xs[1..], skip, f);
    }
  }

  /** The kept positions rise strictly and include every element `skip` does not reject. */
  lemma {:induction false} KeptIndicesInOrder<T>(xs: seq<T>, skip: T -> bool)
    ensures forall k, m :: 0 <= k < m < |KeptIndices(xs, skip)| ==>
      KeptIndices(xs, skip)[k] < KeptIndices(xs, skip)[m]
    ensures forall i :: 0 <= i < |xs| && !skip(xs[i]) ==> i in KeptIndices(xs, skip)
    decreases |xs|
  {
    if xs != [] {
      var n := |xs| - 1;
      var p := xs[..n];
      KeptIndicesInOrder(p, skip);
      var ks := KeptIndices(p, skip);
      assert forall k :: 0 <= k < |ks| ==> ks[k] < n;
      forall i | 0 <= i < |xs| && !skip(xs[i]) ensures i in KeptIndices(xs, skip) {
        if i < n {
          assert p[i] == xs[i];
          assert i in ks;
        }
      }
    }
  }

  /** The k-th result is `f` of the k-th kept element. */
  lemma {:induction false} SelectFollowsKeptIndices<T, U>(xs: seq<T>, skip: T -> bool, f: T -> U)
    ensures |Select(xs, skip, f)| == |KeptIndices(xs, skip)|
    ensures forall k :: 0 <= k < |Select(xs, skip, f)| ==>
      Select(xs, skip, f)[k] == f(xs[KeptIndices(xs, skip)[k]])
    decreases |xs|
  {
    if xs != [] {
      var n := |xs| - 1;
      var p := xs[..n];
      SelectFollowsKeptIndices(p, skip, f);
      var ks := KeptIndices(p, skip);
      forall k | 0 <= k < |ks| ensures p[ks[k]] == xs[ks[k]] {
      }
    }
  }

  /** Every result is `f` of some kept element, and every kept element gives a result. */
  lemma SelectMembers<T, U>(xs: seq<T>, skip: T -> bool, f: T -> U, y: U)
    ensures y in Select(xs, skip, f) <==> exists i :: 0 <= i < |xs| && !skip(xs[i]) && f(xs[i]) == y
  {
    SelectFollowsKeptIndices(xs, skip, f);
    KeptIndicesInOrder(xs, skip);
    var ys := Select(xs, skip, f);
    var ks := KeptIndices(xs, skip);
    if y in ys {
      var k :| 0 <= k < |ys| && ys[k] == y;
      assert f(xs[ks[k]]) == y;
    }
    if exists i :: 0 <= i < |xs| && !skip(xs[i]) && f(xs[i]) == y {
      var i :| 0 <= i < |xs| && !skip(xs[i]) && f(xs[i]) == y;
      var k :| 0 <= k < |ks| && ks[k] == i;
      assert ys[k] == y;
    }
  }
}
