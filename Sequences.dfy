/** Two one-pass folds over a sequence, with the facts that say which
    elements matter and in what order: filtering-and-mapping into a
    sequence, and filling a table where later entries overwrite earlier
    ones. */
module Sequences {
  import opened Wrappers

  /** The images of the elements that `f` maps to `Some`, in order. */
  function FilterMap<A, B>(f: A -> Option<B>, xs: seq<A>): (ys: seq<B>)
    ensures |ys| <= |xs|
  {
    if xs == [] then []
    else
      var rest := FilterMap(f, xs[..|xs| - 1]);
      match f(xs[|xs| - 1])
      case None => rest
      case Some(y) => rest + [y]
  }

  /** The positions of the elements that `f` maps to `Some`, increasing. */
  function KeptIndices<A, B>(f: A -> Option<B>, xs: seq<A>): (ix: seq<nat>)
    ensures |ix| <= |xs|
    ensures forall k :: 0 <= k < |ix| ==> ix[k] < |xs| && f(xs[ix[k]]).Some?
    ensures forall k, l :: 0 <= k < l < |ix| ==> ix[k] < ix[l]
    ensures forall i :: 0 <= i < |xs| && f(xs[i]).Some? ==> i in ix
  {
    if xs == [] then []
    else
      var n := |xs| - 1;
      var prefix := KeptIndices(f, xs[..n]);
      assert forall i :: 0 <= i < n ==> xs[..n][i] == xs[i];
      if f(xs[n]).Some? then prefix + [n] else prefix
  }

  lemma {:induction false} FilterMapAppend<A, B>(f: A -> Option<B>, xs: seq<A>, ys: seq<A>)
    ensures FilterMap(f, xs + ys) == FilterMap(f, xs) + FilterMap(f, ys)
    decreases |ys|
  {
    if ys == [] {
      assert xs + ys == xs;
    } else {
      var ys' := ys[..|ys| - 1];
      assert (xs + ys)[..|xs + ys| - 1] == xs + ys';
      FilterMapAppend(f, xs, ys');
    }
  }

  /** The k-th output is the image of the k-th kept element: each kept
      element contributes exactly one output, the others none, in order. */
  lemma {:induction false} FilterMapFollowsKept<A, B>(f: A -> Option<B>, xs: seq<A>)
    ensures |FilterMap(f, xs)| == |KeptIndices(f, xs)|
    ensures forall k :: 0 <= k < |FilterMap(f, xs)| ==>
              f(xs[KeptIndices(f, xs)[k]]) == Some(FilterMap(f, xs)[k])
  {
    if xs != [] {
      var n := |xs| - 1;
      FilterMapFollowsKept(f, xs[..n]);
      assert forall i :: 0 <= i < n ==> xs[..n][i] == xs[i];
    }
  }

  lemma {:induction false} FilterMapMembership<A, B>(f: A -> Option<B>, xs: seq<A>, y: B)
    ensures y in FilterMap(f, xs) <==> exists i :: 0 <= i < |xs| && f(xs[i]) == Some(y)
  {
    if xs != [] {
      var n := |xs| - 1;
      FilterMapMembership(f, xs[..n], y);
      assert forall i :: 0 <= i < n ==> xs[..n][i] == xs[i];
    }
  }

  /** The table built by visiting `xs` from left to right and storing, for
      each element that `entry` maps to a key and a value, that value under
      that key. */
  function LastWins<A, K, V>(entry: A -> Option<(K, V)>, xs: seq<A>): map<K, V>
  {
    if xs == [] then map[]
    else
      var m := LastWins(entry, xs[..|xs| - 1]);
      match entry(xs[|xs| - 1])
      case None => m
      case Some(kv) => m[kv.0 := kv.1]
  }

  /** A key is in the table exactly when some element supplies it. */
  lemma {:induction false} LastWinsKeys<A, K, V>(entry: A -> Option<(K, V)>, xs: seq<A>, k: K)
    ensures k in LastWins(entry, xs) <==> exists i :: 0 <= i < |xs| && entry(xs[i]).Some? && entry(xs[i]).value.0 == k
  {
    if xs != [] {
      var n := |xs| - 1;
      LastWinsKeys(entry, xs[..n], k);
      assert forall i :: 0 <= i < n ==> xs[..n][i] == xs[i];
    }
  }

  /** The value under a key is the one supplied by the last element that
      supplies that key. */
  lemma {:induction false} LastWinsValue<A, K, V>(entry: A -> Option<(K, V)>, xs: seq<A>, k: K)
    requires k in LastWins(entry, xs)
    ensures exists i :: 0 <= i < |xs| && entry(xs[i]) == Some((k, LastWins(entry, xs)[k]))
              && forall j :: i < j < |xs| ==> entry(xs[j]).None? || entry(xs[j]).value.0 != k
  {
    var n := |xs| - 1;
    var prefix := xs[..n];
    assert forall i :: 0 <= i < n ==> prefix[i] == xs[i];
    var e := entry(xs[n]);
    if e.Some? && e.value.0 == k {
      assert entry(xs[n]) == Some((k, LastWins(entry, xs)[k]));
    } else {
      LastWinsValue(entry, prefix, k);
      var i :| 0 <= i < n && entry(prefix[i]) == Some((k, LastWins(entry, prefix)[k]))
               && forall j :: i < j < n ==> entry(prefix[j]).None? || entry(prefix[j]).value.0 != k;
      assert entry(xs[i]) == Some((k, LastWins(entry, xs)[k]));
    }
  }

  /** An element that supplies nothing can be removed from anywhere
      without changing the table. */
  lemma {:induction false} LastWinsIgnores<A, K, V>(entry: A -> Option<(K, V)>, xs: seq<A>, x: A, ys: seq<A>)
    requires entry(x).None?
    ensures LastWins(entry, xs + [x] + ys) == LastWins(entry, xs + ys)
    decreases |ys|
  {
    if ys == [] {
      assert (xs + [x] + ys)[..|xs|] == xs;
      assert xs + ys == xs;
    } else {
      var ys' := ys[..|ys| - 1];
      LastWinsIgnores(entry, xs, x, ys');
      assert (xs + [x] + ys)[..|xs + [x] + ys| - 1] == xs + [x] + ys';
      assert (xs + ys)[..|xs + ys| - 1] == xs + ys';
    }
  }

  /** Every stored pair is supplied by some element. */
  lemma {:induction false} LastWinsStored<A, K, V>(entry: A -> Option<(K, V)>, xs: seq<A>)
    ensures forall k :: k in LastWins(entry, xs) ==>
              exists i :: 0 <= i < |xs| && entry(xs[i]) == Some((k, LastWins(entry, xs)[k]))
  {
    forall k | k in LastWins(entry, xs)
      ensures exists i :: 0 <= i < |xs| && entry(xs[i]) == Some((k, LastWins(entry, xs)[k]))
    {
      LastWinsValue(entry, xs, k);
    }
  }
}
