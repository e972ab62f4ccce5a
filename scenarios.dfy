/** Worked examples of the pipeline on small, concrete inputs. */
module Scenarios {
  import opened Results
  import opened Dates
  import opened Transactions
  import opened Quantiles
  import opened HighValue
  import opened MonthlyTrends

  function Row(category: string, direction: string, date: CalendarDate, value: real): Record {
    Record(category, direction, date, 1, value, 1.0, "Sea")
  }

  /** Dates in the day-first format, with and without leading zeros. */
  lemma DatesAccepted()
    ensures ParseDate("15-03-2023") == Ok(Date(15, 3, 2023))
    ensures ParseDate("5-3-2023") == Ok(Date(5, 3, 2023))
    ensures ParseDate("29-02-2024") == Ok(Date(29, 2, 2024))
  {
    FifteenthOfMarch();
    UnpaddedFifth();
    LeapDay();
  }

  /** Days that do not exist, and strings in another format, are errors. */
  lemma DatesRefused()
    ensures ParseDate("29-02-2023") == Err(OutOfRange)
    ensures ParseDate("31-04-2023") == Err(OutOfRange)
    ensures ParseDate("15-13-2023") == Err(FormatMismatch)
    ensures ParseDate("2023-03-15") == Err(FormatMismatch)
  {
    NoLeapDay();
    ThirtyFirstOfApril();
    ThirteenthMonth();
  }

  lemma FifteenthOfMarch()
    ensures ParseDate("15-03-2023") == Ok(Date(15, 3, 2023))
  {
    ParseSpelled(15, 3, 2023, true, true);
    assert Spell(15, 3, 2023, true, true) == "15-03-2023";
  }

  lemma UnpaddedFifth()
    ensures ParseDate("5-3-2023") == Ok(Date(5, 3, 2023))
  {
    ParseSpelled(5, 3, 2023, false, false);
    assert Spell(5, 3, 2023, false, false) == "5-3-2023";
  }

  lemma LeapDay()
    ensures ParseDate("29-02-2024") == Ok(Date(29, 2, 2024))
  {
    ParseSpelled(29, 2, 2024, true, true);
    assert Spell(29, 2, 2024, true, true) == "29-02-2024";
  }

  lemma NoLeapDay()
    ensures ParseDate("29-02-2023") == Err(OutOfRange)
  {
    ParseSpelled(29, 2, 2023, true, true);
    assert Spell(29, 2, 2023, true, true) == "29-02-2023";
  }

  lemma ThirtyFirstOfApril()
    ensures ParseDate("31-04-2023") == Err(OutOfRange)
  {
    ParseSpelled(31, 4, 2023, true, true);
    assert Spell(31, 4, 2023, true, true) == "31-04-2023";
  }

  lemma ThirteenthMonth()
    ensures ParseDate("15-13-2023") == Err(FormatMismatch)
  {
    ParseSpelled(15, 13, 2023, true, true);
    assert Spell(15, 13, 2023, true, true) == "15-13-2023";
  }

  /** The 0.9-quantile of 10, 20, 90 and 100 is 97: seven tenths of the way from 90 to 100. */
  lemma QuantileExample()
    ensures Quantile([10.0, 20.0, 90.0, 100.0], 0.9) == 97.0
  {
    var vs := [10.0, 20.0, 90.0, 100.0];
    SortExample();
    PositionExample();
    InterpolateExample();
    assert Quantile(vs, 0.9) == Interpolate(Sort(vs), Position(0.9, |vs|));
  }

  lemma SortExample()
    ensures Sort([10.0, 20.0, 90.0, 100.0]) == [10.0, 20.0, 90.0, 100.0]
  {
    var vs := [10.0, 20.0, 90.0, 100.0];
    assert Sorted(vs);
    SortSorted(vs);
  }

  lemma PositionExample()
    ensures Position(0.9, 4) == 2.7
  {
  }

  lemma InterpolateExample()
    ensures Interpolate([10.0, 20.0, 90.0, 100.0], 2.7) == 97.0
  {
    assert Lower(2.7, 4) == 2 && Upper(2.7, 4) == 3;
  }

  function FourRows(d: CalendarDate): seq<Record> {
    [Row("A", "Import", d, 10.0), Row("A", "Import", d, 20.0),
     Row("A", "Import", d, 90.0), Row("A", "Import", d, 100.0)]
  }

  /** With Values 10, 20, 90 and 100, one row in four reaches the threshold of 97. */
  lemma HighValueExample(d: CalendarDate)
    ensures Threshold(FourRows(d)) == 97.0
    ensures Share(FourRows(d), Threshold(FourRows(d))) == Ok(25.0)
  {
    FourThreshold(d);
    FourShare(d);
  }

  lemma FourThreshold(d: CalendarDate)
    ensures Threshold(FourRows(d)) == 97.0
  {
    FourValues(d);
    QuantileExample();
  }

  lemma FourShare(d: CalendarDate)
    ensures Share(FourRows(d), 97.0) == Ok(25.0)
  {
    FourCount(d);
    assert Percent(1, 4) == 25.0;
  }

  lemma FourValues(d: CalendarDate)
    ensures Values(FourRows(d)) == [10.0, 20.0, 90.0, 100.0]
  {
  }

  lemma FourCount(d: CalendarDate)
    ensures CountAtLeast(FourRows(d), 97.0) == 1
  {
    var view := FourRows(d);
    assert view[3..][1..] == [];
    assert CountAtLeast(view[3..], 97.0) == 1;
    assert view[2..][1..] == view[3..];
    assert CountAtLeast(view[2..], 97.0) == 1;
    assert view[1..][1..] == view[2..];
    assert CountAtLeast(view[1..], 97.0) == 1;
  }

  /** Two rows in March worth 5 and 7: one group, March, with 12. */
  lemma MonthlyExample()
    ensures MonthlyTotals([Row("A", "Export", Date(1, 3, 2023), 5.0), Row("B", "Import", Date(20, 3, 2024), 7.0)])
      == [MonthTotal(3, 12.0)]
  {
    var view := [Row("A", "Export", Date(1, 3, 2023), 5.0), Row("B", "Import", Date(20, 3, 2024), 7.0)];
    assert InOneMonth(view, 3);
    OneMonthOneGroup(view, 3);
    assert view[1..][1..] == [];
    assert SumValues(view) == 12.0;
  }
}
