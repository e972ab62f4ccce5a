/**
 * The share of high-value transactions in the view (app.py lines 49-50):
 * the rows whose Value is at least the view's 0.9-quantile, counted and
 * divided by the number of rows in the view, as a percentage.
 */
module HighValue {
  import opened Results
  import opened Transactions
  import opened Quantiles

  /** The `Value` column of the view. */
  function Values(view: seq<Record>): (vs: seq<real>)
    ensures |vs| == |view| && forall i | 0 <= i < |view| :: vs[i] == view[i].value
  {
    seq(|view|, i requires 0 <= i < |view| => view[i].value)
  }

  /** How many rows have a Value of at least `t`: `len(view[view['Value'] >= t])`. */
  function CountAtLeast(view: seq<Record>, t: real): (n: nat)
    ensures n <= |view|
    ensures n == |view| <==> forall i | 0 <= i < |view| :: t <= view[i].value
    ensures n == 0 <==> forall i | 0 <= i < |view| :: view[i].value < t
  {
    if view == [] then 0
    else
      var rest := CountAtLeast(view[1..], t);
      assert forall i | 1 <= i < |view| :: view[i] == view[1..][i - 1];
      (if t <= view[0].value then 1 else 0) + rest
  }

  /** Division of the count by `len(filtered_df)`, which raises on an empty view. */
  datatype ShareError = ZeroDivision

  /** `len(high) / len(view) * 100` for the threshold `t`. */
  function Share(view: seq<Record>, t: real): (r: Result<real, ShareError>)
    ensures r.Err? <==> view == []
    ensures r.Ok? ==> 0.0 <= r.value <= 100.0
  {
    if |view| == 0 then Err(ZeroDivision)
    else
      var c := CountAtLeast(view, t);
      PercentBounds(c, |view|);
      Ok(Percent(c, |view|))
  }

  function Percent(c: nat, n: nat): (p: real)
    requires 0 < n
    ensures p * n as real == c as real * 100.0
  {
    c as real / n as real * 100.0
  }

  lemma PercentBounds(c: nat, n: nat)
    requires 0 < n && c <= n
    ensures 0.0 <= Percent(c, n) <= 100.0
    ensures Percent(c, n) == 100.0 <==> c == n
    ensures Percent(c, n) == 0.0 <==> c == 0
  {
    var f := c as real / n as real;
    assert f * n as real == c as real;
    assert f <= 1.0;
    if Percent(c, n) == 100.0 {
      assert f == 1.0;
      assert c as real == n as real;
    }
  }

  lemma PercentMonotone(b: nat, c: nat, n: nat)
    requires 0 < n && b <= c
    ensures Percent(b, n) <= Percent(c, n)
  {
    var fb, fc := b as real / n as real, c as real / n as real;
    assert fb * n as real == b as real && fc * n as real == c as real;
    assert (fc - fb) * n as real >= 0.0;
    assert fb <= fc;
  }

  /** The quantile the dashboard cuts at. */
  const HighValueQuantile: real := 0.9

  /** `filtered_df['Value'].quantile(0.90)`. */
  function Threshold(view: seq<Record>): (t: real)
    requires view != []
    ensures Min(Values(view)) <= t <= Max(Values(view))
  {
    Quantile(Values(view), HighValueQuantile)
  }

  // ---------------------------------------------------------------------
  // Lemmas

  /**
   * For any threshold between the smallest and the largest Value of a
   * non-empty view the share lies in (0, 100]: the row with the largest
   * Value always counts.
   */
  lemma ShareInRange(view: seq<Record>, t: real)
    requires view != [] && Min(Values(view)) <= t <= Max(Values(view))
    ensures Share(view, t).Ok? && 0.0 < Share(view, t).value <= 100.0
  {
    var vs := Values(view);
    var k :| 0 <= k < |vs| && vs[k] == Max(vs);
    assert t <= view[k].value;
    PercentBounds(CountAtLeast(view, t), |view|);
  }

  /** The whole view counts as high-value exactly when the threshold is at most its smallest Value. */
  lemma ShareFullIff(view: seq<Record>, t: real)
    requires view != []
    ensures Share(view, t).value == 100.0 <==> t <= Min(Values(view))
  {
    var vs := Values(view);
    PercentBounds(CountAtLeast(view, t), |view|);
    if t <= Min(vs) {
      assert forall i | 0 <= i < |view| :: t <= view[i].value by {
        assert forall i | 0 <= i < |vs| :: Min(vs) <= vs[i];
      }
    } else {
      var k :| 0 <= k < |vs| && vs[k] == Min(vs);
      assert view[k].value < t;
    }
  }

  lemma {:induction false} CountAtLeastMonotone(view: seq<Record>, s: real, t: real)
    requires s <= t
    ensures CountAtLeast(view, t) <= CountAtLeast(view, s)
  {
    if view != [] {
      CountAtLeastMonotone(view[1..], s, t);
    }
  }

  /** Raising the threshold never increases the share. */
  lemma ShareMonotone(view: seq<Record>, s: real, t: real)
    requires view != [] && s <= t
    ensures Share(view, t).value <= Share(view, s).value
  {
    CountAtLeastMonotone(view, s, t);
    PercentMonotone(CountAtLeast(view, t), CountAtLeast(view, s), |view|);
  }

  /** The share the pie chart shows, for every non-empty view, lies in (0, 100]. */
  lemma HighValueShareInRange(view: seq<Record>)
    requires view != []
    ensures Share(view, Threshold(view)).Ok?
    ensures 0.0 < Share(view, Threshold(view)).value <= 100.0
  {
    ShareInRange(view, Threshold(view));
  }

  /** When every row has the same Value, every row is high-value. */
  lemma ConstantValuesAllHigh(view: seq<Record>)
    requires view != [] && forall i | 0 <= i < |view| :: view[i].value == view[0].value
    ensures Share(view, Threshold(view)).value == 100.0
  {
    var vs := Values(view);
    var lo :| 0 <= lo < |vs| && vs[lo] == Min(vs);
    var hi :| 0 <= hi < |vs| && vs[hi] == Max(vs);
    assert Min(vs) == Max(vs) == view[0].value;
    ShareFullIff(view, Threshold(view));
  }
}
