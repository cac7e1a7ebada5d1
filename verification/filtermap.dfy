/** Filter-and-map over sequences: keep the elements a partial function is
    defined on, mapped through it, in their original order. */
module FilterMaps {
  import opened Options

  /** The images of the elements of `xs` on which `f` yields a value, in order. */
  function FilterMap<A, B>(f: A -> Option<B>, xs: seq<A>): (r: seq<B>)
    ensures |r| <= |xs|
  {
    if xs == [] then []
    else
      match f(xs[0])
      case Some(y) => [y] + FilterMap(f, xs[1..])
      case None => FilterMap(f, xs[1..])
  }

  /** Filter-and-map distributes over concatenation. */
  lemma {:induction false} FilterMapAppend<A, B>(f: A -> Option<B>, xs: seq<A>, ys: seq<A>)
    ensures FilterMap(f, xs + ys) == FilterMap(f, xs) + FilterMap(f, ys)
  {
    if xs == [] {
      assert xs + ys == ys;
    } else {
      assert (xs + ys)[1..] == xs[1..] + ys;
      FilterMapAppend(f, xs[1..], ys);
    }
  }

  /** Filter-and-map of a sequence extended by one element. */
  lemma FilterMapSnoc<A, B>(f: A -> Option<B>, xs: seq<A>, x: A)
    ensures f(x).Some? ==> FilterMap(f, xs + [x]) == FilterMap(f, xs) + [f(x).value]
    ensures f(x).None? ==> FilterMap(f, xs + [x]) == FilterMap(f, xs)
  {
    FilterMapAppend(f, xs, [x]);
    assert [x][1..] == [];
  }

  /** The result is empty exactly when `f` yields nothing on any element. */
  lemma {:induction false} FilterMapEmptyIff<A, B>(f: A -> Option<B>, xs: seq<A>)
    ensures FilterMap(f, xs) == [] <==> forall i :: 0 <= i < |xs| ==> f(xs[i]).None?
  {
    if xs != [] {
      FilterMapEmptyIff(f, xs[1..]);
      assert forall i :: 0 < i < |xs| ==> xs[1..][i - 1] == xs[i];
    }
  }

  /** A value is in the result exactly when `f` yields it on some element. */
  lemma {:induction false} FilterMapMembership<A, B>(f: A -> Option<B>, xs: seq<A>, y: B)
    ensures y in FilterMap(f, xs) <==> exists i :: 0 <= i < |xs| && f(xs[i]) == Some(y)
  {
    if xs != [] {
      FilterMapMembership(f, xs[1..], y);
      if exists i :: 0 <= i < |xs| && f(xs[i]) == Some(y) {
        var i :| 0 <= i < |xs| && f(xs[i]) == Some(y);
        if i > 0 {
          assert xs[1..][i - 1] == xs[i];
        }
      }
      if exists i :: 0 <= i < |xs| - 1 && f(xs[1..][i]) == Some(y) {
        var i :| 0 <= i < |xs| - 1 && f(xs[1..][i]) == Some(y);
        assert xs[i + 1] == xs[1..][i];
      }
    }
  }

  /** The positions, in increasing order, of the elements `f` is defined on. */
  function KeptIndices<A, B>(f: A -> Option<B>, xs: seq<A>): (r: seq<nat>)
    ensures forall k :: 0 <= k < |r| ==> r[k] < |xs| && f(xs[r[k]]).Some?
    ensures forall k, l :: 0 <= k < l < |r| ==> r[k] < r[l]
    ensures forall i :: 0 <= i < |xs| && f(xs[i]).Some? ==> i in r
  {
    if xs == [] then []
    else
      var n := |xs| - 1;
      var front := KeptIndices(f, xs[..n]);
      assert forall i :: 0 <= i < n ==> xs[..n][i] == xs[i];
      if f(xs[n]).Some? then front + [n] else front
  }

  /** The result is the kept elements mapped in place: its k-th value is
      the image of the k-th kept element. */
  lemma {:induction false} FilterMapInPlace<A, B>(f: A -> Option<B>, xs: seq<A>)
    ensures |FilterMap(f, xs)| == |KeptIndices(f, xs)|
    ensures forall k :: 0 <= k < |KeptIndices(f, xs)| ==>
      f(xs[KeptIndices(f, xs)[k]]) == Some(FilterMap(f, xs)[k])
  {
    if xs != [] {
      var n := |xs| - 1;
      assert xs == xs[..n] + [xs[n]];
      FilterMapSnoc(f, xs[..n], xs[n]);
      FilterMapInPlace(f, xs[..n]);
      assert forall i :: 0 <= i < n ==> xs[..n][i] == xs[i];
    }
  }
}
