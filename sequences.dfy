/** Order-preserving collection operations on sequences, with the facts
    the rest of the model uses about them. */
module Sequences {

  /** `[y for x in xs for y in f(x)]`: each element's outputs, in order. */
  function FlatMap<T, U>(f: T -> seq<U>, xs: seq<T>): seq<U> {
    if xs == [] then [] else FlatMap(f, xs[..|xs| - 1]) + f(xs[|xs| - 1])
  }

  lemma FlatMapStep<T, U>(f: T -> seq<U>, xs: seq<T>, i: nat)
    requires i < |xs|
    ensures FlatMap(f, xs[..i + 1]) == FlatMap(f, xs[..i]) + f(xs[i])
  {
    assert xs[..i + 1][..i] == xs[..i];
  }

  /** One step of a collecting loop: appending the next element's outputs
      to what was collected so far gives what the longer prefix yields. */
  lemma CollectStep<T, U>(data: seq<U>, f: T -> seq<U>, xs: seq<T>, i: nat)
    requires i < |xs|
    ensures data + FlatMap(f, xs[..i + 1]) == data + FlatMap(f, xs[..i]) + f(xs[i])
  {
    FlatMapStep(f, xs, i);
  }

  /** The outputs of a concatenation are the concatenated outputs. */
  lemma {:induction false} FlatMapAppend<T, U>(f: T -> seq<U>, a: seq<T>, b: seq<T>)
    ensures FlatMap(f, a + b) == FlatMap(f, a) + FlatMap(f, b)
    decreases |b|
  {
    if b == [] {
      assert a + b == a;
    } else {
      assert (a + b)[..|a + b| - 1] == a + b[..|b| - 1];
      FlatMapAppend(f, a, b[..|b| - 1]);
    }
  }

  /** Each element contributes its own outputs, whatever the others do. */
  lemma FlatMapIsolated<T, U>(f: T -> seq<U>, xs: seq<T>, i: nat)
    requires i < |xs|
    ensures FlatMap(f, xs) == FlatMap(f, xs[..i]) + f(xs[i]) + FlatMap(f, xs[i + 1..])
  {
    assert xs == xs[..i + 1] + xs[i + 1..];
    FlatMapAppend(f, xs[..i + 1], xs[i + 1..]);
    FlatMapStep(f, xs, i);
  }

  /** Every output comes from some element. */
  lemma {:induction false} FlatMapOrigin<T, U>(f: T -> seq<U>, xs: seq<T>, y: U)
    requires y in FlatMap(f, xs)
    ensures exists i :: 0 <= i < |xs| && y in f(xs[i])
  {
    var n := |xs| - 1;
    if y in f(xs[n]) {
    } else {
      FlatMapOrigin(f, xs[..n], y);
      var i :| 0 <= i < |xs[..n]| && y in f(xs[..n][i]);
      assert xs[..n][i] == xs[i];
    }
  }

  /** When each element yields at most one output there are at most as
      many outputs as elements. */
  lemma {:induction false} FlatMapLength<T, U>(f: T -> seq<U>, xs: seq<T>)
    requires forall i :: 0 <= i < |xs| ==> |f(xs[i])| <= 1
    ensures |FlatMap(f, xs)| <= |xs|
  {
    if xs != [] {
      FlatMapLength(f, xs[..|xs| - 1]);
    }
  }

  /** The collecting loop: walks `xs` in order and appends what each
      element yields to `data`. */
  method AppendEach<T, U>(data: seq<U>, f: T -> seq<U>, xs: seq<T>) returns (out: seq<U>)
    ensures out == data + FlatMap(f, xs)
  {
    out := data;
    var i := 0;
    while i < |xs|
      invariant 0 <= i <= |xs|
      invariant out == data + FlatMap(f, xs[..i])
    {
      CollectStep(data, f, xs, i);
      out := out + f(xs[i]);
      i := i + 1;
    }
    assert xs[..i] == xs;
  }

  /** The elements satisfying `p`, in order. */
  function Filter<T(==)>(p: T -> bool, xs: seq<T>): (r: seq<T>)
    ensures |r| <= |xs|
    ensures forall i :: 0 <= i < |r| ==> p(r[i]) && r[i] in xs
    ensures forall i :: 0 <= i < |xs| && p(xs[i]) ==> xs[i] in r
  {
    if xs == [] then []
    else
      var r := Filter(p, xs[..|xs| - 1]);
      assert xs == xs[..|xs| - 1] + [xs[|xs| - 1]];
      if p(xs[|xs| - 1]) then r + [xs[|xs| - 1]] else r
  }

  /** Filtering out nothing keeps everything. */
  lemma {:induction false} FilterAll<T>(p: T -> bool, xs: seq<T>)
    requires forall i :: 0 <= i < |xs| ==> p(xs[i])
    ensures Filter(p, xs) == xs
  {
    if xs != [] {
      FilterAll(p, xs[..|xs| - 1]);
      assert xs == xs[..|xs| - 1] + [xs[|xs| - 1]];
    }
  }

  /** Two filters in a row are one filter by both conditions. */
  lemma {:induction false} FilterFuse<T>(p: T -> bool, q: T -> bool, both: T -> bool, xs: seq<T>)
    requires forall x :: both(x) == (p(x) && q(x))
    ensures Filter(q, Filter(p, xs)) == Filter(both, xs)
  {
    if xs != [] {
      var n := |xs| - 1;
      FilterFuse(p, q, both, xs[..n]);
      var f := Filter(p, xs[..n]);
      if p(xs[n]) {
        assert (f + [xs[n]])[..|f|] == f;
      }
    }
  }

  /** `a` is `b` with some elements left out, the rest in their order. */
  predicate SubsequenceOf<T(==)>(a: seq<T>, b: seq<T>) {
    if a == [] then true
    else if b == [] then false
    else if a[|a| - 1] == b[|b| - 1] then SubsequenceOf(a[..|a| - 1], b[..|b| - 1])
    else SubsequenceOf(a, b[..|b| - 1])
  }

  /** A filter keeps the order of what it keeps. */
  lemma {:induction false} FilterIsSubsequence<T>(p: T -> bool, xs: seq<T>)
    ensures SubsequenceOf(Filter(p, xs), xs)
  {
    if xs != [] {
      var n := |xs| - 1;
      FilterIsSubsequence(p, xs[..n]);
      var r := Filter(p, xs);
      if p(xs[n]) {
        assert r[..|r| - 1] == Filter(p, xs[..n]);
      } else if r != [] {
        assert r[|r| - 1] in r;
      }
    }
  }

  /** Leaving out the last element of a subsequence keeps it one. */
  lemma {:induction false} SubsequenceDropLast<T>(a: seq<T>, b: seq<T>)
    requires a != [] && SubsequenceOf(a, b)
    ensures SubsequenceOf(a[..|a| - 1], b)
    decreases |a| + |b|, 0
  {
    var a', b' := a[..|a| - 1], b[..|b| - 1];
    if a[|a| - 1] == b[|b| - 1] {
      if a' != [] && a'[|a'| - 1] == b[|b| - 1] {
        SubsequenceDropLast(a', b');
      }
    } else {
      SubsequenceDropLast(a, b');
      SubsequenceExtend(a', b', b[|b| - 1]);
      assert b' + [b[|b| - 1]] == b;
    }
  }

  /** A subsequence stays one when the sequence grows at the end. */
  lemma {:induction false} SubsequenceExtend<T>(a: seq<T>, b: seq<T>, x: T)
    requires SubsequenceOf(a, b)
    ensures SubsequenceOf(a, b + [x])
    decreases |a| + |b|, 1
  {
    assert (b + [x])[..|b|] == b;
    if a != [] && a[|a| - 1] == x {
      SubsequenceDropLast(a, b);
    }
  }

  /** No element occurs twice. */
  predicate Distinct<T(==)>(xs: seq<T>) {
    forall i, j :: 0 <= i < j < |xs| ==> xs[i] != xs[j]
  }

  lemma {:induction false} FilterDistinct<T>(p: T -> bool, xs: seq<T>)
    requires Distinct(xs)
    ensures Distinct(Filter(p, xs))
  {
    if xs != [] {
      var n := |xs| - 1;
      FilterDistinct(p, xs[..n]);
      assert xs[n] !in xs[..n];
    }
  }

  /** Fractions over a common positive denominator are ordered like
      their numerators and lie in [0, 1] up to the denominator. */
  lemma Ratio(a: nat, b: nat, n: nat)
    requires a <= b <= n && n > 0
    ensures 0.0 <= a as real / n as real <= b as real / n as real <= 1.0
  {
    var x, y := a as real / n as real, b as real / n as real;
    assert x * n as real == a as real;
    assert y * n as real == b as real;
  }

  lemma RatioBelowOne(a: nat, n: nat)
    requires a < n
    ensures a as real / n as real < 1.0
  {
    var x := a as real / n as real;
    assert x * n as real == a as real;
  }
}
