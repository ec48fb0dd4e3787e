/**
 * The "loop over a list, keep some elements, append a record for each" pattern
 * that both matchers and the cache rebuild follow, as one specification function.
 */
module Seqs {
  import opened Wrappers

  /** Appends `f(x)`'s value for every `x` of `xs` that `f` keeps, in order. */
  function FilterMap<T, U>(f: T -> Option<U>, xs: seq<T>): seq<U> {
    if xs == [] then []
    else
      FilterMap(f, xs[..|xs| - 1])
      + match f(xs[|xs| - 1]) case Some(y) => [y] case None => []
  }

  /** The positions of `xs` that `f` keeps, in increasing order. */
  ghost function KeptIndices<T, U>(f: T -> Option<U>, xs: seq<T>): seq<nat> {
    if xs == [] then []
    else KeptIndices(f, xs[..|xs| - 1]) + (if f(xs[|xs| - 1]).Some? then [|xs| - 1] else [])
  }

  /**
   * The output of `FilterMap` is exactly one element per kept position, from that
   * position, with the positions strictly increasing: nothing is added, nothing
   * that is kept is missing or repeated, and the order of `xs` is preserved.
   */
  lemma {:induction false} FilterMapSpec<T, U>(f: T -> Option<U>, xs: seq<T>)
    ensures var r, idx := FilterMap(f, xs), KeptIndices(f, xs);
      && |r| == |idx|
      && (forall k :: 0 <= k < |idx| ==> idx[k] < |xs| && f(xs[idx[k]]) == Some(r[k]))
      && (forall k, l :: 0 <= k < l < |idx| ==> idx[k] < idx[l])
      && (forall i :: 0 <= i < |xs| && f(xs[i]).Some? ==> i in idx)
  {
    if xs != [] {
      var n := |xs| - 1;
      var init := xs[..n];
      FilterMapSpec(f, init);
      assert forall i :: 0 <= i < |init| ==> init[i] == xs[i];
      var r0, idx0 := FilterMap(f, init), KeptIndices(f, init);
      if f(xs[n]).Some? {
        assert FilterMap(f, xs) == r0 + [f(xs[n]).value];
        assert KeptIndices(f, xs) == idx0 + [n];
      } else {
        assert FilterMap(f, xs) == r0;
        assert KeptIndices(f, xs) == idx0;
      }
    }
  }

  /** A filter that keeps no more than another keeps no more elements. */
  lemma {:induction false} FilterMapFewer<T, U, V>(f: T -> Option<U>, g: T -> Option<V>, xs: seq<T>)
    requires forall i :: 0 <= i < |xs| ==> g(xs[i]).Some? ==> f(xs[i]).Some?
    ensures |FilterMap(g, xs)| <= |FilterMap(f, xs)|
  {
    if xs != [] {
      var init := xs[..|xs| - 1];
      assert forall i :: 0 <= i < |init| ==> init[i] == xs[i];
      FilterMapFewer(f, g, init);
    }
  }
}
