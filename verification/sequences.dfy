/** Swift's `firstIndex(where:)` / `first(where:)` and `filter` over sequences,
    with what the geofence code relies on them to mean. */
module Sequences {
  import opened Wrappers

  /** `a` is `b` with some elements left out and the rest in their order. */
  predicate IsSubsequence<T(==)>(a: seq<T>, b: seq<T>)
    decreases |b|
  {
    || |a| == 0
    || (|b| > 0 && ((a[0] == b[0] && IsSubsequence(a[1..], b[1..])) || IsSubsequence(a, b[1..])))
  }

  /** `xs.firstIndex(where: p)`. */
  function FirstIndex<T>(xs: seq<T>, p: T -> bool): (r: Option<nat>)
    ensures r.None? <==> forall i :: 0 <= i < |xs| ==> !p(xs[i])
    ensures r.Some? ==> r.value < |xs| && p(xs[r.value])
    ensures r.Some? ==> forall j :: 0 <= j < r.value ==> !p(xs[j])
  {
    if |xs| == 0 then None
    else if p(xs[0]) then Some(0)
    else match FirstIndex(xs[1..], p)
      case None => None
      case Some(i) => Some(i + 1)
  }

  /** When nothing is found, no element satisfies `p`. */
  lemma FirstIndexNone<T>(xs: seq<T>, p: T -> bool)
    requires FirstIndex(xs, p).None?
    ensures forall x :: x in xs ==> !p(x)
  {
  }

  /** `xs.filter(p)`: exactly the elements satisfying `p`, in their order. */
  function Filter<T(==)>(xs: seq<T>, p: T -> bool): (r: seq<T>)
    ensures forall x :: x in r ==> x in xs && p(x)
    ensures forall x :: x in xs && p(x) ==> x in r
    ensures |r| <= |xs|
    ensures IsSubsequence(r, xs)
    ensures forall x {:trigger multiset(r)[x]} :: x in xs ==> multiset(r)[x] == if p(x) then multiset(xs)[x] else 0
  {
    if |xs| == 0 then []
    else
      var rest := Filter(xs[1..], p);
      assert xs == [xs[0]] + xs[1..];
      if p(xs[0]) then [xs[0]] + rest else rest
  }

  /** A filter keeps more than one element exactly when two distinct positions
      satisfy the predicate. */
  lemma {:induction false} FilterMoreThanOne<T>(xs: seq<T>, p: T -> bool)
    ensures |Filter(xs, p)| > 1 <==> exists i, j :: 0 <= i < j < |xs| && p(xs[i]) && p(xs[j])
  {
    if |xs| > 0 {
      var t := xs[1..];
      FilterMoreThanOne(t, p);
      if exists i, j :: 0 <= i < j < |xs| && p(xs[i]) && p(xs[j]) {
        var i, j :| 0 <= i < j < |xs| && p(xs[i]) && p(xs[j]);
        if i == 0 {
          assert xs[j] in Filter(t, p) by { assert xs[j] == t[j - 1]; }
        } else {
          assert t[i - 1] == xs[i] && t[j - 1] == xs[j];
        }
      }
      if |Filter(xs, p)| > 1 {
        if p(xs[0]) {
          var y := Filter(t, p)[0];
          assert y in Filter(t, p);
          var j :| 0 <= j < |t| && t[j] == y;
          assert xs[j + 1] == y;
        } else {
          var i, j :| 0 <= i < j < |t| && p(t[i]) && p(t[j]);
          assert xs[i + 1] == t[i] && xs[j + 1] == t[j];
        }
      }
    }
  }

  /** The first element of a filter that also satisfies `q` is the first
      element of the whole sequence satisfying both. */
  lemma FirstIndexOfFilter<T>(xs: seq<T>, p: T -> bool, q: T -> bool)
    ensures FirstIndex(Filter(xs, p), q).None? <==> forall k :: 0 <= k < |xs| ==> !(p(xs[k]) && q(xs[k]))
    ensures FirstIndex(Filter(xs, p), q).Some? ==>
      exists k :: 0 <= k < |xs| && xs[k] == Filter(xs, p)[FirstIndex(Filter(xs, p), q).value]
        && p(xs[k]) && q(xs[k]) && forall m :: 0 <= m < k ==> !(p(xs[m]) && q(xs[m]))
  {
    FilterFindsNone(xs, p, q);
    if FirstIndex(Filter(xs, p), q).Some? {
      FilterFindsFirst(xs, p, q);
    }
  }

  /** A filter holds no `q` element exactly when no element satisfies both
      `p` and `q`. */
  lemma {:induction false} FilterFindsNone<T>(xs: seq<T>, p: T -> bool, q: T -> bool)
    ensures FirstIndex(Filter(xs, p), q).None? <==> forall k :: 0 <= k < |xs| ==> !(p(xs[k]) && q(xs[k]))
  {
    if |xs| > 0 {
      var t := xs[1..];
      FilterFindsNone(t, p, q);
      FilterCons(xs, p);
      var f := Filter(xs, p);
      var ft := Filter(t, p);
      if p(xs[0]) {
        assert f[1..] == ft;
      }
      if FirstIndex(ft, q).None? {
        forall k | 0 < k < |xs| ensures !(p(xs[k]) && q(xs[k])) {
          assert xs[k] == t[k - 1];
        }
      } else {
        var k :| 0 <= k < |t| && p(t[k]) && q(t[k]);
        assert xs[k + 1] == t[k];
      }
    }
  }

  /** A filter's first `q` element is the first element of the whole
      sequence satisfying both `p` and `q`. */
  lemma {:induction false} FilterFindsFirst<T>(xs: seq<T>, p: T -> bool, q: T -> bool)
    requires FirstIndex(Filter(xs, p), q).Some?
    ensures exists k :: (0 <= k < |xs| && xs[k] == Filter(xs, p)[FirstIndex(Filter(xs, p), q).value]
      && p(xs[k]) && q(xs[k]) && forall m :: 0 <= m < k ==> !(p(xs[m]) && q(xs[m])))
  {
    var t := xs[1..];
    FilterCons(xs, p);
    var f := Filter(xs, p);
    var ft := Filter(t, p);
    var head := if p(xs[0]) then [xs[0]] else [];
    if p(xs[0]) && q(xs[0]) {
      assert FirstIndex(f, q) == Some(0);
    } else {
      FirstIndexPastHead(head, ft, q);
      FilterFindsFirst(t, p, q);
      var k :| 0 <= k < |t| && t[k] == ft[FirstIndex(ft, q).value] && p(t[k]) && q(t[k])
        && forall m :: 0 <= m < k ==> !(p(t[m]) && q(t[m]));
      assert xs[k + 1] == t[k];
      forall m | 0 < m < k + 1 ensures !(p(xs[m]) && q(xs[m])) {
        assert xs[m] == t[m - 1];
      }
    }
  }

  /** Searching past a head of at most one element that fails `q` finds the
      same element as searching the rest. */
  lemma FirstIndexPastHead<T>(head: seq<T>, rest: seq<T>, q: T -> bool)
    requires |head| <= 1 && (|head| == 1 ==> !q(head[0]))
    requires FirstIndex(head + rest, q).Some?
    ensures FirstIndex(rest, q).Some?
    ensures (head + rest)[FirstIndex(head + rest, q).value] == rest[FirstIndex(rest, q).value]
  {
    if |head| == 1 {
      assert (head + rest)[1..] == rest;
    } else {
      assert head + rest == rest;
    }
  }

  /** A filter looks at the head, then filters the tail. */
  lemma FilterCons<T>(xs: seq<T>, p: T -> bool)
    requires |xs| > 0
    ensures Filter(xs, p) == (if p(xs[0]) then [xs[0]] else []) + Filter(xs[1..], p)
  {
  }
}
