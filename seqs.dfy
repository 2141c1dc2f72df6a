/**
 * The list idioms the Python code leans on: `list(filter(p, xs))`,
 * `[f(x) for x in xs]` and `next((x for x in xs if p(x)), None)`.
 */
module Seqs {
  import opened Wrappers

  /** `[f(x) for x in xs]`: `f` applied to every element, in order. */
  function Map<T, U>(xs: seq<T>, f: T -> U): (r: seq<U>)
    ensures |r| == |xs| && forall i :: 0 <= i < |xs| ==> r[i] == f(xs[i])
  {
    seq(|xs|, i requires 0 <= i < |xs| => f(xs[i]))
  }

  /** Mapping distributes over concatenation. */
  lemma MapAppend<T, U>(a: seq<T>, b: seq<T>, f: T -> U)
    ensures Map(a + b, f) == Map(a, f) + Map(b, f)
  {
    assert forall i :: 0 <= i < |a| + |b| ==> Map(a + b, f)[i] == (Map(a, f) + Map(b, f))[i];
  }

  /** `list(filter(p, xs))`: the elements satisfying `p`, in their original order. */
  function Filter<T>(xs: seq<T>, p: T -> bool): (r: seq<T>)
    ensures |r| <= |xs|
    ensures forall i :: 0 <= i < |r| ==> r[i] in xs && p(r[i])
    ensures forall i :: 0 <= i < |xs| && p(xs[i]) ==> xs[i] in r
  {
    if xs == [] then []
    else if p(xs[0]) then [xs[0]] + Filter(xs[1..], p)
    else Filter(xs[1..], p)
  }

  /** Filtering a list extended by one element. */
  lemma {:induction false} FilterAppend<T>(xs: seq<T>, x: T, p: T -> bool)
    ensures Filter(xs + [x], p) == Filter(xs, p) + if p(x) then [x] else []
    decreases |xs|
  {
    if xs == [] {
      assert xs + [x] == [x];
    } else {
      assert (xs + [x])[1..] == xs[1..] + [x];
      FilterAppend(xs[1..], x, p);
    }
  }

  /** A list whose every element satisfies `p` passes the filter unchanged. */
  lemma {:induction false} FilterKeepsAll<T>(xs: seq<T>, p: T -> bool)
    requires forall i :: 0 <= i < |xs| ==> p(xs[i])
    ensures Filter(xs, p) == xs
    decreases |xs|
  {
    if xs != [] {
      FilterKeepsAll(xs[1..], p);
    }
  }

  /** Filtering keeps a list free of repeated keys. */
  lemma {:induction false} FilterKeepsDistinct<T, K>(xs: seq<T>, p: T -> bool, key: T -> K)
    requires forall i, j :: 0 <= i < j < |xs| ==> key(xs[i]) != key(xs[j])
    ensures forall i, j :: 0 <= i < j < |Filter(xs, p)| ==> key(Filter(xs, p)[i]) != key(Filter(xs, p)[j])
    decreases |xs|
  {
    if xs != [] {
      FilterKeepsDistinct(xs[1..], p, key);
      var rest := Filter(xs[1..], p);
      forall y | y in rest ensures key(xs[0]) != key(y) {
        var k :| 0 <= k < |xs[1..]| && xs[1..][k] == y;
        assert xs[k + 1] == y;
      }
    }
  }

  /** The index of the first element of `xs` that satisfies `p`, if there is one. */
  ghost predicate IsFirstMatch<T>(xs: seq<T>, p: T -> bool, i: int)
  {
    0 <= i < |xs| && p(xs[i]) && forall j :: 0 <= j < i ==> !p(xs[j])
  }

  /** Python's `next(generator, None)`: the first element in list order that satisfies `p`. */
  function First<T>(xs: seq<T>, p: T -> bool): (r: Option<T>)
    ensures r.None? <==> forall i :: 0 <= i < |xs| ==> !p(xs[i])
    ensures r.Some? ==> exists i :: IsFirstMatch(xs, p, i) && xs[i] == r.value
  {
    if xs == [] then None
    else if p(xs[0]) then Some(xs[0])
    else
      var r := First(xs[1..], p);
      assert r.Some? ==> exists i :: IsFirstMatch(xs, p, i) && xs[i] == r.value by {
        if r.Some? {
          var i :| IsFirstMatch(xs[1..], p, i) && xs[1..][i] == r.value;
          assert IsFirstMatch(xs, p, i + 1);
        }
      }
      r
  }

  /** `next(...)` returns the element at the first match, whichever way that index was found. */
  lemma {:induction false} FirstMatchIsFirst<T>(xs: seq<T>, p: T -> bool, i: int)
    requires IsFirstMatch(xs, p, i)
    ensures First(xs, p) == Some(xs[i])
    decreases |xs|
  {
    if i > 0 {
      assert !p(xs[0]);
      assert IsFirstMatch(xs[1..], p, i - 1) by {
        forall j | 0 <= j < i - 1 ensures !p(xs[1..][j]) {
          assert xs[1..][j] == xs[j + 1];
        }
      }
      FirstMatchIsFirst(xs[1..], p, i - 1);
    }
  }

  /** Looking for the first `q` among the elements satisfying `p` is looking for the first `p && q`. */
  lemma {:induction false} FirstOfFilter<T>(xs: seq<T>, p: T -> bool, q: T -> bool)
    ensures First(Filter(xs, p), q) == First(xs, x => p(x) && q(x))
  {
    if xs != [] {
      FirstOfFilter(xs[1..], p, q);
    }
  }
}
