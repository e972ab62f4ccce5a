/**
 * `Series.quantile(q)` with its default linear interpolation, computed over
 * exact reals: sort the values, take the fractional position q * (n - 1) and
 * interpolate between the two neighbouring sorted values.
 */
module Quantiles {

  function Min(xs: seq<real>): (m: real)
    requires xs != []
    ensures m in xs && forall i | 0 <= i < |xs| :: m <= xs[i]
  {
    if |xs| == 1 then xs[0]
    else var m := Min(xs[1..]); if xs[0] <= m then xs[0] else m
  }

  function Max(xs: seq<real>): (m: real)
    requires xs != []
    ensures m in xs && forall i | 0 <= i < |xs| :: xs[i] <= m
  {
    if |xs| == 1 then xs[0]
    else var m := Max(xs[1..]); if m <= xs[0] then xs[0] else m
  }

  predicate Sorted(xs: seq<real>) {
    forall i, j | 0 <= i < j < |xs| :: xs[i] <= xs[j]
  }

  function Insert(x: real, xs: seq<real>): (r: seq<real>)
    requires Sorted(xs)
    ensures Sorted(r) && multiset(r) == multiset(xs) + multiset{x}
    ensures |r| == |xs| + 1 && r[0] == (if xs == [] || x <= xs[0] then x else xs[0])
  {
    if xs == [] then [x]
    else if x <= xs[0] then [x] + xs
    else
      assert xs == [xs[0]] + xs[1..];
      [xs[0]] + Insert(x, xs[1..])
  }

  /** Insertion sort: an ascending permutation of `xs`. */
  function Sort(xs: seq<real>): (r: seq<real>)
    ensures Sorted(r) && multiset(r) == multiset(xs)
    ensures |r| == |xs|
  {
    if xs == [] then []
    else
      assert xs == [xs[0]] + xs[1..];
      Insert(xs[0], Sort(xs[1..]))
  }

  /** Sorting a list that is already ascending leaves it as it is. */
  lemma {:induction false} SortSorted(xs: seq<real>)
    requires Sorted(xs)
    ensures Sort(xs) == xs
  {
    if xs != [] {
      SortSorted(xs[1..]);
      assert xs[1..] == [] || xs[0] <= xs[1..][0];
    }
  }

  lemma SameElements(a: seq<real>, b: seq<real>, k: int)
    requires multiset(a) == multiset(b) && 0 <= k < |a|
    ensures exists j | 0 <= j < |b| :: b[j] == a[k]
  {
    assert a[k] in multiset(a);
    assert a[k] in b;
  }

  /** The first element of the sorted list is the minimum. */
  lemma SortFirst(xs: seq<real>)
    requires xs != []
    ensures Sort(xs)[0] == Min(xs)
  {
    SortedPermutationEnds(Sort(xs), xs);
  }

  /** The last element of the sorted list is the maximum. */
  lemma SortLast(xs: seq<real>)
    requires xs != []
    ensures Sort(xs)[|xs| - 1] == Max(xs)
  {
    var a := Sort(xs);
    SortedPermutationEnds(a, xs);
    assert a[|a| - 1] == Max(xs);
  }

  /** An ascending rearrangement of `xs` starts at its minimum and ends at its maximum. */
  lemma SortedPermutationEnds(a: seq<real>, xs: seq<real>)
    requires xs != [] && Sorted(a) && multiset(a) == multiset(xs)
    ensures |a| == |xs| && a[0] == Min(xs) && a[|a| - 1] == Max(xs)
  {
    assert |a| == |multiset(a)| == |multiset(xs)| == |xs|;
    var k := |a| - 1;
    SameElements(a, xs, 0);
    SameElements(a, xs, k);
    var lo, hi := Min(xs), Max(xs);
    assert lo <= a[0] && a[k] <= hi;
    var i :| 0 <= i < |xs| && xs[i] == lo;
    var i' :| 0 <= i' < |xs| && xs[i'] == hi;
    SameElements(xs, a, i);
    SameElements(xs, a, i');
    var j :| 0 <= j < |a| && a[j] == lo;
    var j' :| 0 <= j' < |a| && a[j'] == hi;
    SortedBounds(a, j);
    SortedBounds(a, j');
  }

  lemma SortedBounds(a: seq<real>, j: int)
    requires Sorted(a) && 0 <= j < |a|
    ensures a[0] <= a[j] <= a[|a| - 1]
  {
  }

  lemma FractionBounds(d: real, f: real)
    requires 0.0 <= d && 0.0 <= f <= 1.0
    ensures 0.0 <= d * f <= d
  {
  }

  /** Where the interpolation at fractional position `pos` of a list of `n` values looks. */
  function Lower(pos: real, n: nat): (lo: nat)
    requires 0.0 <= pos <= (n - 1) as real
    ensures lo < n && lo as real <= pos < lo as real + 1.0
  {
    pos.Floor
  }

  function Upper(pos: real, n: nat): (hi: nat)
    requires 0.0 <= pos <= (n - 1) as real
    ensures Lower(pos, n) <= hi < n && hi <= Lower(pos, n) + 1
    ensures hi == Lower(pos, n) + 1 || hi == n - 1
  {
    var lo := Lower(pos, n);
    if lo + 1 < n then lo + 1 else lo
  }

  /** The interpolated value at fractional position `pos` of a sorted list. */
  function Interpolate(a: seq<real>, pos: real): (t: real)
    requires a != [] && 0.0 <= pos <= (|a| - 1) as real
    ensures pos == Lower(pos, |a|) as real ==> t == a[Lower(pos, |a|)]
  {
    var lo, hi := Lower(pos, |a|), Upper(pos, |a|);
    a[lo] + (a[hi] - a[lo]) * (pos - lo as real)
  }

  lemma InterpolateBetween(a: seq<real>, pos: real)
    requires a != [] && Sorted(a) && 0.0 <= pos <= (|a| - 1) as real
    ensures a[Lower(pos, |a|)] <= Interpolate(a, pos) <= a[Upper(pos, |a|)]
  {
    var lo, hi := Lower(pos, |a|), Upper(pos, |a|);
    var d, f := a[hi] - a[lo], pos - lo as real;
    assert 0.0 <= d && 0.0 <= f <= 1.0;
    FractionBounds(d, f);
    assert Interpolate(a, pos) == a[lo] + d * f;
  }

  /** The fractional position of the `q`-quantile among `n` sorted values. */
  function Position(q: real, n: nat): (pos: real)
    requires 0.0 <= q <= 1.0 && n > 0
    ensures 0.0 <= pos <= (n - 1) as real
  {
    FractionBounds((n - 1) as real, q);
    q * (n - 1) as real
  }

  /** The `q`-quantile of `xs` for `q` between 0 and 1. */
  function Quantile(xs: seq<real>, q: real): (t: real)
    requires xs != [] && 0.0 <= q <= 1.0
    ensures Min(xs) <= t <= Max(xs)
  {
    QuantileInRange(xs, q);
    Interpolate(Sort(xs), Position(q, |xs|))
  }

  lemma QuantileInRange(xs: seq<real>, q: real)
    requires xs != [] && 0.0 <= q <= 1.0
    ensures Min(xs) <= Interpolate(Sort(xs), Position(q, |xs|)) <= Max(xs)
  {
    var a := Sort(xs);
    SortedPermutationEnds(a, xs);
    InterpolateInRange(a, Position(q, |xs|));
  }

  /** Interpolating within an ascending list stays between its first and last element. */
  lemma InterpolateInRange(a: seq<real>, pos: real)
    requires a != [] && Sorted(a) && 0.0 <= pos <= (|a| - 1) as real
    ensures a[0] <= Interpolate(a, pos) <= a[|a| - 1]
  {
    InterpolateBetween(a, pos);
    SortedBounds(a, Lower(pos, |a|));
    SortedBounds(a, Upper(pos, |a|));
  }

  /** The 0-quantile is the minimum. */
  lemma QuantileZero(xs: seq<real>)
    requires xs != []
    ensures Quantile(xs, 0.0) == Min(xs)
  {
    SortFirst(xs);
    var a, pos := Sort(xs), Position(0.0, |xs|);
    assert pos == 0.0;
    assert Lower(pos, |xs|) == 0;
    assert Interpolate(a, pos) == a[0] + (a[Upper(pos, |xs|)] - a[0]) * 0.0;
  }

  /** The 1-quantile is the maximum. */
  lemma QuantileOne(xs: seq<real>)
    requires xs != []
    ensures Quantile(xs, 1.0) == Max(xs)
  {
    var a, pos := Sort(xs), Position(1.0, |xs|);
    assert pos == (|xs| - 1) as real;
    InterpolateAtEnd(a);
    assert Interpolate(a, pos) == a[|a| - 1];
    SortLast(xs);
  }

  lemma InterpolateAtEnd(a: seq<real>)
    requires a != []
    ensures Interpolate(a, (|a| - 1) as real) == a[|a| - 1]
  {
    var n := |a| - 1;
    assert Lower(n as real, |a|) == n;
    assert Upper(n as real, |a|) == n;
  }

  /** A larger `q` never gives a smaller quantile. */
  lemma QuantileMonotone(xs: seq<real>, p: real, q: real)
    requires xs != [] && 0.0 <= p <= q <= 1.0
    ensures Quantile(xs, p) <= Quantile(xs, q)
  {
    var n := |xs| - 1;
    assert Position(p, |xs|) <= Position(q, |xs|) by {
      FractionBounds(n as real, q - p);
      assert q * n as real - p * n as real == (q - p) * n as real;
    }
    InterpolateMonotone(Sort(xs), Position(p, |xs|), Position(q, |xs|));
  }

  lemma InterpolateMonotone(a: seq<real>, x: real, y: real)
    requires a != [] && Sorted(a) && 0.0 <= x <= y <= (|a| - 1) as real
    ensures Interpolate(a, x) <= Interpolate(a, y)
  {
    var n := |a|;
    var lx, ly := Lower(x, n), Lower(y, n);
    var hx := Upper(x, n);
    if lx == ly {
      var d := a[hx] - a[lx];
      assert d >= 0.0;
      assert d * (y - ly as real) - d * (x - lx as real) == d * (y - x);
      FractionBounds(d, y - x);
    } else {
      assert lx + 1 <= ly;
      InterpolateBetween(a, x);
      InterpolateBetween(a, y);
      assert a[hx] <= a[ly];
    }
  }
}
