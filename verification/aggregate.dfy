/** SQL aggregates over a nullable integer column (`Sum`, `Avg`), which skip nulls and are null when no row has a value. */
module Aggregate {
  import opened Common
  import opened Tables

  /** An average kept exact as the sum and the number of the values it averages. */
  datatype Mean = Mean(total: int, count: nat)

  /** The non-null values `f` reads from the rows, in row order. */
  function Present<T>(xs: seq<T>, f: T -> Option<int>): (vs: seq<int>)
    ensures |vs| <= |xs|
    ensures vs == [] <==> forall i :: 0 <= i < |xs| ==> f(xs[i]).None?
  {
    if xs == [] then []
    else
      var prefix, x := xs[..|xs| - 1], xs[|xs| - 1];
      assert forall i :: 0 <= i < |prefix| ==> prefix[i] == xs[i];
      Present(prefix, f) + (if f(x).Some? then [f(x).value] else [])
  }

  /** The plain sum of a sequence of integers. */
  function Total(vs: seq<int>): int {
    if vs == [] then 0 else Total(vs[..|vs| - 1]) + vs[|vs| - 1]
  }

  /** `Sum(column)`: the sum of the non-null values, or null when there is none. */
  function SumOf<T>(xs: seq<T>, f: T -> Option<int>): (s: Option<int>)
    ensures s.None? <==> forall i :: 0 <= i < |xs| ==> f(xs[i]).None?
  {
    var vs := Present(xs, f);
    if vs == [] then None else Some(Total(vs))
  }

  /** `Avg(column)`, kept as (sum, count) of the non-null values, or null when there is none. */
  function AvgOf<T>(xs: seq<T>, f: T -> Option<int>): (a: Option<Mean>)
    ensures a.None? <==> forall i :: 0 <= i < |xs| ==> f(xs[i]).None?
    ensures a.Some? ==> 0 < a.value.count <= |xs|
  {
    var vs := Present(xs, f);
    if vs == [] then None else Some(Mean(Total(vs), |vs|))
  }

  /** A null sum reads as zero, and nulls add nothing: `SumOf` agrees with summing every row with nulls as 0. */
  lemma {:induction false} SumOfIgnoresNulls<T>(xs: seq<T>, f: T -> Option<int>, w: T -> int)
    requires forall x :: w(x) == f(x).GetOr(0)
    ensures SumOf(xs, f).GetOr(0) == SumBy(xs, w)
  {
    PresentTotal(xs, f, w);
  }

  lemma {:induction false} PresentTotal<T>(xs: seq<T>, f: T -> Option<int>, w: T -> int)
    requires forall x :: w(x) == f(x).GetOr(0)
    ensures Total(Present(xs, f)) == SumBy(xs, w)
  {
    if xs != [] {
      var prefix, x := xs[..|xs| - 1], xs[|xs| - 1];
      PresentTotal(prefix, f, w);
      var vs := Present(prefix, f);
      if f(x).Some? {
        assert (vs + [f(x).value])[..|vs|] == vs;
      } else {
        assert vs + [] == vs;
      }
    }
  }

  /** An average of values in [lo, hi] lies in [lo, hi]: lo * count <= total <= hi * count. */
  lemma AvgOfBounded<T>(xs: seq<T>, f: T -> Option<int>, lo: int, hi: int)
    requires forall i :: 0 <= i < |xs| && f(xs[i]).Some? ==> lo <= f(xs[i]).value <= hi
    requires AvgOf(xs, f).Some?
    ensures lo * AvgOf(xs, f).value.count <= AvgOf(xs, f).value.total <= hi * AvgOf(xs, f).value.count
  {
    PresentBounded(xs, f, lo, hi);
    TotalBounded(Present(xs, f), lo, hi);
  }

  lemma {:induction false} PresentBounded<T>(xs: seq<T>, f: T -> Option<int>, lo: int, hi: int)
    requires forall i :: 0 <= i < |xs| && f(xs[i]).Some? ==> lo <= f(xs[i]).value <= hi
    ensures forall i :: 0 <= i < |Present(xs, f)| ==> lo <= Present(xs, f)[i] <= hi
  {
    if xs != [] {
      var prefix := xs[..|xs| - 1];
      assert forall i :: 0 <= i < |prefix| ==> prefix[i] == xs[i];
      PresentBounded(prefix, f, lo, hi);
    }
  }

  lemma {:induction false} TotalBounded(vs: seq<int>, lo: int, hi: int)
    requires forall i :: 0 <= i < |vs| ==> lo <= vs[i] <= hi
    ensures lo * |vs| <= Total(vs) <= hi * |vs|
  {
    if vs != [] {
      var prefix := vs[..|vs| - 1];
      TotalBounded(prefix, lo, hi);
      assert lo * |vs| == lo * |prefix| + lo;
      assert hi * |vs| == hi * |prefix| + hi;
    }
  }
}
