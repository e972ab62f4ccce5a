/**
 * The frequency of each shipping method in the view (app.py line 64,
 * `value_counts()`), which feeds the bar chart.
 */
module ShippingCounts {
  import opened Transactions
  import opened Selections

  datatype MethodCount = MethodCount(shipping: string, count: nat)

  function Methods(view: seq<Record>): (ms: seq<string>)
    ensures |ms| == |view| && forall i | 0 <= i < |view| :: ms[i] == view[i].shippingMethod
  {
    seq(|view|, i requires 0 <= i < |view| => view[i].shippingMethod)
  }

  /** How many times `x` occurs in `xs`. */
  function Occurrences(xs: seq<string>, x: string): (n: nat)
    ensures n <= |xs|
    ensures n == 0 <==> x !in xs
  {
    if xs == [] then 0
    else (if xs[0] == x then 1 else 0) + Occurrences(xs[1..], x)
  }

  function CountsOf(keys: seq<string>, xs: seq<string>): (cs: seq<MethodCount>)
    ensures |cs| == |keys|
    ensures forall i | 0 <= i < |keys| :: cs[i].shipping == keys[i]
    ensures forall i | 0 <= i < |keys| :: cs[i].count == Occurrences(xs, keys[i])
  {
    if keys == [] then [] else [MethodCount(keys[0], Occurrences(xs, keys[0]))] + CountsOf(keys[1..], xs)
  }

  /** Some entry of `cs` is for shipping method `m`. */
  predicate HasEntry(cs: seq<MethodCount>, m: string) {
    exists i | 0 <= i < |cs| :: cs[i].shipping == m
  }

  /**
   * `value_counts()`: one entry per distinct shipping method of the view,
   * holding the number of rows that use it.
   */
  function MethodCounts(view: seq<Record>): (cs: seq<MethodCount>)
    ensures forall i, j | 0 <= i < j < |cs| :: cs[i].shipping != cs[j].shipping
    ensures forall i | 0 <= i < |cs| :: cs[i].count == Occurrences(Methods(view), cs[i].shipping)
    ensures forall i | 0 <= i < |cs| :: 1 <= cs[i].count
    ensures forall j | 0 <= j < |view| :: HasEntry(cs, view[j].shippingMethod)
  {
    CountsCoverView(view);
    CountsPositive(Unique(Methods(view)), Methods(view));
    CountsOf(Unique(Methods(view)), Methods(view))
  }

  lemma CountsCoverView(view: seq<Record>)
    ensures forall j | 0 <= j < |view| ::
      HasEntry(CountsOf(Unique(Methods(view)), Methods(view)), view[j].shippingMethod)
  {
    forall j | 0 <= j < |view|
      ensures HasEntry(CountsOf(Unique(Methods(view)), Methods(view)), view[j].shippingMethod)
    {
      CountsCoverRow(view, j);
    }
  }

  /** Counting distinct keys drawn from `xs` gives distinct entries, each seen at least once. */
  lemma CountsPositive(keys: seq<string>, xs: seq<string>)
    requires NoDuplicates(keys) && forall i | 0 <= i < |keys| :: keys[i] in xs
    ensures forall i, j | 0 <= i < j < |keys| :: CountsOf(keys, xs)[i].shipping != CountsOf(keys, xs)[j].shipping
    ensures forall i | 0 <= i < |keys| :: 1 <= CountsOf(keys, xs)[i].count
  {
    var cs := CountsOf(keys, xs);
    forall i | 0 <= i < |keys| ensures 1 <= cs[i].count {
      assert cs[i].count == Occurrences(xs, keys[i]);
    }
  }

  lemma CountsCoverRow(view: seq<Record>, j: int)
    requires 0 <= j < |view|
    ensures HasEntry(CountsOf(Unique(Methods(view)), Methods(view)), view[j].shippingMethod)
  {
    var ms := Methods(view);
    var keys := Unique(ms);
    assert ms[j] in keys;
    var i :| 0 <= i < |keys| && keys[i] == ms[j];
    assert CountsOf(keys, ms)[i].shipping == keys[i];
  }

  function SumCounts(cs: seq<MethodCount>): nat {
    if cs == [] then 0 else cs[0].count + SumCounts(cs[1..])
  }

  /** How many of the keys are `x`: one when the keys are distinct and include it. */
  lemma {:induction false} OccurrencesInDistinct(keys: seq<string>, x: string)
    requires NoDuplicates(keys)
    ensures Occurrences(keys, x) == if x in keys then 1 else 0
  {
    if keys != [] {
      assert NoDuplicates(keys[1..]) by {
        forall i, j | 0 <= i < j < |keys[1..]| ensures keys[1..][i] != keys[1..][j] {
          assert keys[1..][i] == keys[i + 1] && keys[1..][j] == keys[j + 1];
        }
      }
      OccurrencesInDistinct(keys[1..], x);
      if keys[0] == x {
        assert x !in keys[1..] by {
          forall i | 0 <= i < |keys[1..]| ensures keys[1..][i] != x { assert keys[1..][i] == keys[i + 1]; }
        }
      }
    }
  }

  /** Counting `x :: xs` adds one to the count of `x` only. */
  lemma {:induction false} SumCountsCons(keys: seq<string>, x: string, xs: seq<string>)
    ensures SumCounts(CountsOf(keys, [x] + xs)) == Occurrences(keys, x) + SumCounts(CountsOf(keys, xs))
  {
    if keys != [] {
      SumCountsCons(keys[1..], x, xs);
      assert ([x] + xs)[1..] == xs;
    }
  }

  lemma {:induction false} SumCountsCovering(keys: seq<string>, xs: seq<string>)
    requires NoDuplicates(keys) && forall x | x in xs :: x in keys
    ensures SumCounts(CountsOf(keys, xs)) == |xs|
  {
    if xs == [] {
      SumCountsEmpty(keys);
    } else {
      assert xs == [xs[0]] + xs[1..];
      SumCountsCovering(keys, xs[1..]);
      SumCountsCons(keys, xs[0], xs[1..]);
      OccurrencesInDistinct(keys, xs[0]);
    }
  }

  lemma {:induction false} SumCountsEmpty(keys: seq<string>)
    ensures SumCounts(CountsOf(keys, [])) == 0
  {
    if keys != [] {
      SumCountsEmpty(keys[1..]);
    }
  }

  /** The bars add up to the number of rows in the view. */
  lemma MethodCountsSumToRows(view: seq<Record>)
    ensures SumCounts(MethodCounts(view)) == |view|
  {
    var ms := Methods(view);
    SumCountsCovering(Unique(ms), ms);
  }
}
