/** Order-preserving selection of elements from a sequence. */
module Seqs {

  /** `idx` lists, strictly increasing, positions of `b` whose elements spell
      out `a`: a witness that `a` is a subsequence of `b`. */
  ghost predicate Embeds<T>(a: seq<T>, b: seq<T>, idx: seq<nat>) {
    && |idx| == |a|
    && (forall k :: 0 <= k < |idx| ==> idx[k] < |b| && a[k] == b[idx[k]])
    && (forall k, l :: 0 <= k < l < |idx| ==> idx[k] < idx[l])
  }

  /** `a` can be obtained from `b` by deleting elements. */
  ghost predicate IsSubsequence<T>(a: seq<T>, b: seq<T>) {
    exists idx :: Embeds(a, b, idx)
  }

  /** The elements of `xs` that satisfy `keep`, in input order
      (`Array.prototype.filter`). */
  function Filter<T>(xs: seq<T>, keep: T -> bool): (r: seq<T>)
    ensures |r| <= |xs|
    ensures forall x :: x in r ==> x in xs && keep(x)
    decreases |xs|
  {
    if |xs| == 0 then []
    else
      var p := Filter(xs[..|xs| - 1], keep);
      if keep(xs[|xs| - 1]) then p + [xs[|xs| - 1]] else p
  }

  /** The positions of `xs` whose element satisfies `keep`, ascending. */
  ghost function KeptPositions<T>(xs: seq<T>, keep: T -> bool): seq<nat>
    decreases |xs|
  {
    if |xs| == 0 then []
    else
      var p := KeptPositions(xs[..|xs| - 1], keep);
      if keep(xs[|xs| - 1]) then p + [|xs| - 1] else p
  }

  /** The element of `xs` at position `i` satisfies `keep`. */
  ghost predicate KeepsAt<T>(xs: seq<T>, keep: T -> bool, i: int)
    requires 0 <= i < |xs|
  {
    keep(xs[i])
  }

  /** `Filter` keeps exactly the satisfying elements, in input order: its
      result is spelled out by the satisfying positions and by no others. */
  lemma {:induction false} FilterExact<T>(xs: seq<T>, keep: T -> bool)
    ensures Embeds(Filter(xs, keep), xs, KeptPositions(xs, keep))
    ensures forall i :: 0 <= i < |xs| ==> (i in KeptPositions(xs, keep) <==> KeepsAt(xs, keep, i))
    decreases |xs|
  {
    if |xs| > 0 {
      var n := |xs| - 1;
      var init := xs[..n];
      FilterExact(init, keep);
      var p := KeptPositions(init, keep);
      assert forall i :: 0 <= i < n ==> init[i] == xs[i];
      assert forall i :: 0 <= i < n ==> KeepsAt(init, keep, i) == KeepsAt(xs, keep, i);
      assert Embeds(Filter(init, keep), xs, p);
      forall i | i in p
        ensures i < n
      {
        var k :| 0 <= k < |p| && p[k] == i;
      }
    }
  }

  /** An element is kept exactly when it occurs and satisfies `keep`. */
  lemma FilterMembership<T>(xs: seq<T>, keep: T -> bool, x: T)
    ensures x in Filter(xs, keep) <==> x in xs && keep(x)
  {
    if x in xs && keep(x) {
      FilterExact(xs, keep);
      var idx := KeptPositions(xs, keep);
      var i :| 0 <= i < |xs| && xs[i] == x;
      assert KeepsAt(xs, keep, i);
      var k :| 0 <= k < |idx| && idx[k] == i;
      assert Filter(xs, keep)[k] == x;
    }
  }
}
