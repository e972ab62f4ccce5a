/**
 * The monthly trend line (app.py lines 95-96): a `Month` column derived from
 * each row's date, then `groupby('Month')['Value'].sum()`. Groups come out in
 * ascending month order and a month with no rows has no group.
 */
module MonthlyTrends {
  import opened Transactions

  datatype MonthTotal = MonthTotal(month: int, total: real)

  /** Some row of the view falls in month `m`. */
  predicate HasMonth(view: seq<Record>, m: int) {
    exists i | 0 <= i < |view| :: MonthOf(view[i]) == m
  }

  /** Some group is for month `m`. */
  predicate HasGroup(groups: seq<MonthTotal>, m: int) {
    exists i | 0 <= i < |groups| :: groups[i].month == m
  }

  /** The sum of Value over the rows of month `m`. */
  function MonthSum(view: seq<Record>, m: int): real {
    if view == [] then 0.0
    else (if MonthOf(view[0]) == m then view[0].value else 0.0) + MonthSum(view[1..], m)
  }

  /** The sum of Value over the whole view. */
  function SumValues(view: seq<Record>): real {
    if view == [] then 0.0 else view[0].value + SumValues(view[1..])
  }

  function SumTotals(groups: seq<MonthTotal>): real {
    if groups == [] then 0.0 else groups[0].total + SumTotals(groups[1..])
  }

  /** Strictly ascending months, so no month has two groups. */
  predicate Ascending(groups: seq<MonthTotal>) {
    forall i, j | 0 <= i < j < |groups| :: groups[i].month < groups[j].month
  }

  /** The groups for months `m` to 12. */
  function TotalsFrom(view: seq<Record>, m: int): (groups: seq<MonthTotal>)
    requires 1 <= m <= 13
    ensures Ascending(groups)
    ensures forall i | 0 <= i < |groups| :: m <= groups[i].month <= 12
    ensures forall i | 0 <= i < |groups| ::
      HasMonth(view, groups[i].month) && groups[i].total == MonthSum(view, groups[i].month)
    decreases 13 - m
  {
    if m == 13 then []
    else
      var rest := TotalsFrom(view, m + 1);
      if HasMonth(view, m) then [MonthTotal(m, MonthSum(view, m))] + rest else rest
  }

  /** Every month that has rows has a group. */
  lemma {:induction false} TotalsFromComplete(view: seq<Record>, m: int, k: int)
    requires 1 <= m <= k <= 12 && HasMonth(view, k)
    ensures HasGroup(TotalsFrom(view, m), k)
    decreases 13 - m
  {
    var rest := TotalsFrom(view, m + 1);
    TotalsFromStep(view, m);
    if k == m {
      GroupedPrefix([MonthTotal(m, MonthSum(view, m))], rest, k, 0);
    } else {
      TotalsFromComplete(view, m + 1, k);
      if HasMonth(view, m) {
        GroupedSuffix([MonthTotal(m, MonthSum(view, m))], rest, k);
      }
    }
  }

  lemma TotalsFromStep(view: seq<Record>, m: int)
    requires 1 <= m <= 12
    ensures TotalsFrom(view, m) ==
      (if HasMonth(view, m) then [MonthTotal(m, MonthSum(view, m))] else []) + TotalsFrom(view, m + 1)
  {
  }

  lemma GroupedPrefix(head: seq<MonthTotal>, rest: seq<MonthTotal>, k: int, i: int)
    requires 0 <= i < |head| && head[i].month == k
    ensures HasGroup(head + rest, k)
  {
    assert (head + rest)[i] == head[i];
  }

  lemma GroupedSuffix(head: seq<MonthTotal>, rest: seq<MonthTotal>, k: int)
    requires HasGroup(rest, k)
    ensures HasGroup(head + rest, k)
  {
    var i :| 0 <= i < |rest| && rest[i].month == k;
    assert (head + rest)[|head| + i] == rest[i];
  }

  /**
   * `monthly_transactions`: one group for each month the view has rows in,
   * in ascending month order, each holding that month's total Value.
   */
  function MonthlyTotals(view: seq<Record>): (groups: seq<MonthTotal>)
    ensures Ascending(groups)
    ensures forall i | 0 <= i < |groups| :: 1 <= groups[i].month <= 12
    ensures forall i | 0 <= i < |groups| ::
      HasMonth(view, groups[i].month) && groups[i].total == MonthSum(view, groups[i].month)
    ensures forall k | HasMonth(view, k) :: HasGroup(groups, k)
  {
    MonthlyTotalsComplete(view);
    TotalsFrom(view, 1)
  }

  lemma MonthlyTotalsComplete(view: seq<Record>)
    ensures forall k | HasMonth(view, k) :: HasGroup(TotalsFrom(view, 1), k)
  {
    forall k | HasMonth(view, k) ensures HasGroup(TotalsFrom(view, 1), k) {
      var j :| 0 <= j < |view| && MonthOf(view[j]) == k;
      TotalsFromComplete(view, 1, k);
    }
  }

  // ---------------------------------------------------------------------
  // Lemmas

  /** The sum over months `m` to 12 of the per-month sums. */
  function MonthRangeSum(view: seq<Record>, m: int): real
    requires 1 <= m <= 13
    decreases 13 - m
  {
    if m == 13 then 0.0 else MonthSum(view, m) + MonthRangeSum(view, m + 1)
  }

  lemma {:induction false} MonthSumAbsent(view: seq<Record>, m: int)
    requires !HasMonth(view, m)
    ensures MonthSum(view, m) == 0.0
  {
    if view != [] {
      assert MonthOf(view[0]) != m;
      MonthSumAbsent(view[1..], m);
    }
  }

  lemma {:induction false} TotalsFromSum(view: seq<Record>, m: int)
    requires 1 <= m <= 13
    ensures SumTotals(TotalsFrom(view, m)) == MonthRangeSum(view, m)
    decreases 13 - m
  {
    if m < 13 {
      TotalsFromSum(view, m + 1);
      var rest := TotalsFrom(view, m + 1);
      if HasMonth(view, m) {
        var groups := [MonthTotal(m, MonthSum(view, m))] + rest;
        assert groups[1..] == rest;
      } else {
        MonthSumAbsent(view, m);
      }
    }
  }

  /** Splitting off the first row of the view. */
  lemma {:induction false} MonthRangeSumCons(view: seq<Record>, m: int)
    requires view != [] && 1 <= m <= 13
    ensures MonthRangeSum(view, m) ==
      (if m <= MonthOf(view[0]) then view[0].value else 0.0) + MonthRangeSum(view[1..], m)
    decreases 13 - m
  {
    if m < 13 {
      MonthRangeSumCons(view, m + 1);
    }
  }

  lemma {:induction false} MonthRangeSumAll(view: seq<Record>)
    ensures MonthRangeSum(view, 1) == SumValues(view)
  {
    if view != [] {
      MonthRangeSumCons(view, 1);
      MonthRangeSumAll(view[1..]);
    } else {
      MonthRangeSumEmpty(view, 1);
    }
  }

  lemma {:induction false} MonthRangeSumEmpty(view: seq<Record>, m: int)
    requires view == [] && 1 <= m <= 13
    ensures MonthRangeSum(view, m) == 0.0
    decreases 13 - m
  {
    if m < 13 {
      MonthRangeSumEmpty(view, m + 1);
    }
  }

  /** The monthly totals add up to the total Value of the view. */
  lemma MonthlyTotalsPreserveSum(view: seq<Record>)
    ensures SumTotals(MonthlyTotals(view)) == SumValues(view)
  {
    TotalsFromSum(view, 1);
    MonthRangeSumAll(view);
  }

  /** All rows of the view fall in month `k`. */
  predicate InOneMonth(view: seq<Record>, k: int) {
    forall i | 0 <= i < |view| :: MonthOf(view[i]) == k
  }

  lemma {:induction false} MonthSumOneMonth(view: seq<Record>, k: int)
    requires InOneMonth(view, k)
    ensures MonthSum(view, k) == SumValues(view)
  {
    if view != [] {
      assert InOneMonth(view[1..], k) by {
        forall i | 0 <= i < |view[1..]| ensures MonthOf(view[1..][i]) == k { assert view[1..][i] == view[i + 1]; }
      }
      MonthSumOneMonth(view[1..], k);
    }
  }

  lemma {:induction false} TotalsFromOneMonth(view: seq<Record>, k: int, m: int)
    requires view != [] && InOneMonth(view, k) && 1 <= m <= 13
    ensures TotalsFrom(view, m) == if m <= k then [MonthTotal(k, MonthSum(view, k))] else []
    decreases 13 - m
  {
    if m < 13 {
      TotalsFromOneMonth(view, k, m + 1);
      assert MonthOf(view[0]) == k;
      assert HasMonth(view, m) <==> m == k;
    }
  }

  /** A non-empty view confined to one month gives a single group holding its whole total. */
  lemma OneMonthOneGroup(view: seq<Record>, k: int)
    requires view != [] && InOneMonth(view, k)
    ensures MonthlyTotals(view) == [MonthTotal(k, SumValues(view))]
  {
    assert 1 <= MonthOf(view[0]) == k <= 12;
    TotalsFromOneMonth(view, k, 1);
    MonthSumOneMonth(view, k);
  }
}
