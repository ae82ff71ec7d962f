/** First-occurrence deduplication of a sequence under a key: the loop in
    `fetchCountries` and the `filter` in `loadCountries` both keep an element
    exactly when no earlier element carries the same key. */
module Dedup {
  import opened Seqs

  /** The keys carried by the elements of `xs`. */
  function KeySet<T, K>(xs: seq<T>, key: T -> K): set<K> {
    set i | 0 <= i < |xs| :: key(xs[i])
  }

  /** No two elements of `xs` carry the same key. */
  predicate UniqueKeys<T, K(==)>(xs: seq<T>, key: T -> K) {
    forall i, j :: 0 <= i < j < |xs| ==> key(xs[i]) != key(xs[j])
  }

  /** Appending one element adds exactly its key. */
  lemma KeySetSnoc<T, K>(xs: seq<T>, x: T, key: T -> K)
    ensures KeySet(xs + [x], key) == KeySet(xs, key) + {key(x)}
  {
    var ys := xs + [x];
    forall k | k in KeySet(ys, key)
      ensures k in KeySet(xs, key) + {key(x)}
    {
      var i :| 0 <= i < |ys| && key(ys[i]) == k;
      if i < |xs| {
        assert ys[i] == xs[i];
      }
    }
    forall k | k in KeySet(xs, key)
      ensures k in KeySet(ys, key)
    {
      var i :| 0 <= i < |xs| && key(xs[i]) == k;
      assert ys[i] == xs[i];
    }
    assert key(ys[|xs|]) == key(x);
  }

  /** Appending an element whose key is new keeps the keys unique. */
  lemma UniqueKeysSnoc<T, K>(xs: seq<T>, x: T, key: T -> K)
    requires UniqueKeys(xs, key)
    requires key(x) !in KeySet(xs, key)
    ensures UniqueKeys(xs + [x], key)
  {
    var ys := xs + [x];
    forall i, j | 0 <= i < j < |ys|
      ensures key(ys[i]) != key(ys[j])
    {
      assert ys[i] == xs[i];
      if j == |xs| {
        assert key(xs[i]) in KeySet(xs, key);
      } else {
        assert ys[j] == xs[j];
      }
    }
  }

  /** The elements of `xs` that are the first to carry their key, in input
      order. The result has unique keys, loses no key of the input, and is
      no longer than the input. */
  function DedupBy<T, K(==)>(xs: seq<T>, key: T -> K): (r: seq<T>)
    ensures |r| <= |xs|
    ensures UniqueKeys(r, key)
    ensures KeySet(r, key) == KeySet(xs, key)
    decreases |xs|
  {
    if |xs| == 0 then []
    else
      var init := xs[..|xs| - 1];
      var x := xs[|xs| - 1];
      var d := DedupBy(init, key);
      assert xs == init + [x];
      KeySetSnoc(init, x, key);
      if key(x) in KeySet(init, key) then d
      else
        KeySetSnoc(d, x, key);
        UniqueKeysSnoc(d, x, key);
        d + [x]
  }

  /** One more element is kept exactly when its key is new. */
  lemma DedupBySnoc<T, K>(xs: seq<T>, x: T, key: T -> K)
    ensures DedupBy(xs + [x], key) ==
      if key(x) in KeySet(xs, key) then DedupBy(xs, key) else DedupBy(xs, key) + [x]
    ensures KeySet(xs + [x], key) == KeySet(xs, key) + {key(x)}
  {
    assert (xs + [x])[..|xs|] == xs;
    KeySetSnoc(xs, x, key);
  }

  /** `xs[i]` is the first element of `xs` carrying its key. */
  ghost predicate IsFirst<T, K>(xs: seq<T>, key: T -> K, i: int)
    requires 0 <= i < |xs|
  {
    forall j :: 0 <= j < i ==> key(xs[j]) != key(xs[i])
  }

  /** The positions `i` of `xs` with `IsFirst(xs, key, i)`, ascending: an
      index-based reference for what deduplication keeps. */
  ghost function FirstIndices<T, K>(xs: seq<T>, key: T -> K): seq<nat>
    decreases |xs|
  {
    if |xs| == 0 then []
    else
      var p := FirstIndices(xs[..|xs| - 1], key);
      if IsFirst(xs, key, |xs| - 1) then p + [|xs| - 1] else p
  }

  /** Deduplication keeps exactly the first occurrence of every key: its
      result is spelled out, in order, by the positions of `xs` that no
      earlier element shares a key with, and by no other positions. */
  lemma {:induction false} DedupKeepsFirstOccurrences<T, K>(xs: seq<T>, key: T -> K)
    ensures Embeds(DedupBy(xs, key), xs, FirstIndices(xs, key))
    ensures forall i :: 0 <= i < |xs| ==> (i in FirstIndices(xs, key) <==> IsFirst(xs, key, i))
    decreases |xs|
  {
    if |xs| > 0 {
      var n := |xs| - 1;
      var init := xs[..n];
      var x := xs[n];
      DedupKeepsFirstOccurrences(init, key);
      var p := FirstIndices(init, key);
      var d := DedupBy(init, key);
      assert forall i :: 0 <= i < n ==> init[i] == xs[i];
      assert forall i :: 0 <= i < n ==> (IsFirst(init, key, i) <==> IsFirst(xs, key, i));
      assert Embeds(d, xs, p);
      assert IsFirst(xs, key, n) <==> key(x) !in KeySet(init, key) by {
        if key(x) in KeySet(init, key) {
          var j :| 0 <= j < n && key(init[j]) == key(x);
          assert key(xs[j]) == key(xs[n]);
        }
      }
      forall i | i in p
        ensures i < n
      {
        var k :| 0 <= k < |p| && p[k] == i;
      }
    }
  }

  /** Deduplication only deletes elements; it never reorders or invents one. */
  lemma DedupIsSubsequence<T, K>(xs: seq<T>, key: T -> K)
    ensures IsSubsequence(DedupBy(xs, key), xs)
  {
    DedupKeepsFirstOccurrences(xs, key);
  }

  /** A sequence whose keys are already unique is returned unchanged. */
  lemma {:induction false} DedupOfUniqueIsIdentity<T, K>(xs: seq<T>, key: T -> K)
    requires UniqueKeys(xs, key)
    ensures DedupBy(xs, key) == xs
    decreases |xs|
  {
    if |xs| > 0 {
      var n := |xs| - 1;
      var init := xs[..n];
      assert UniqueKeys(init, key) by {
        forall i, j | 0 <= i < j < n
          ensures key(init[i]) != key(init[j])
        {
          assert init[i] == xs[i] && init[j] == xs[j];
        }
      }
      DedupOfUniqueIsIdentity(init, key);
      assert xs == init + [xs[n]];
    }
  }

  /** Deduplicating twice is deduplicating once. */
  lemma DedupIdempotent<T, K>(xs: seq<T>, key: T -> K)
    ensures DedupBy(DedupBy(xs, key), key) == DedupBy(xs, key)
  {
    DedupOfUniqueIsIdentity(DedupBy(xs, key), key);
  }

  /** With unique keys there are as many keys as elements. */
  lemma {:induction false} UniqueKeysCount<T, K>(xs: seq<T>, key: T -> K)
    requires UniqueKeys(xs, key)
    ensures |KeySet(xs, key)| == |xs|
    decreases |xs|
  {
    if |xs| > 0 {
      var n := |xs| - 1;
      var init := xs[..n];
      assert UniqueKeys(init, key) by {
        forall i, j | 0 <= i < j < n
          ensures key(init[i]) != key(init[j])
        {
          assert init[i] == xs[i] && init[j] == xs[j];
        }
      }
      UniqueKeysCount(init, key);
      assert xs == init + [xs[n]];
      KeySetSnoc(init, xs[n], key);
    }
  }

  /** The result holds one element per distinct key of the input. */
  lemma DedupLengthIsKeyCount<T, K>(xs: seq<T>, key: T -> K)
    ensures |DedupBy(xs, key)| == |KeySet(xs, key)|
  {
    UniqueKeysCount(DedupBy(xs, key), key);
  }
}
