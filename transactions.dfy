/**
 * The rows of the import/export dataset: as read from the CSV file, with the
 * `Date` column still text, and after the column has been converted to dates
 * (app.py lines 7-8); and the fixed-size random sample the dashboard works on
 * (app.py line 11).
 */
module Transactions {
  import opened Results
  import opened Dates

  /** A row as read from the file; only the columns the dashboard uses. */
  datatype RawRecord = RawRecord(
    category: string,
    direction: string,     // the Import_Export column
    date: string,
    quantity: int,
    value: real,
    weight: real,
    shippingMethod: string)

  /** A row after its `Date` cell has been parsed. */
  datatype Record = Record(
    category: string,
    direction: string,
    date: CalendarDate,
    quantity: int,
    value: real,
    weight: real,
    shippingMethod: string)

  /** The derived filter key `Date.dt.year` (app.py lines 25 and 32). */
  function YearOf(r: Record): (y: int)
    ensures 1 <= y <= 9999
  {
    Year(r.date)
  }

  /** The derived grouping key `Date.dt.month` (app.py line 95). */
  function MonthOf(r: Record): (m: int)
    ensures 1 <= m <= 12
  {
    Month(r.date)
  }

  function WithDate(raw: RawRecord, d: CalendarDate): Record {
    Record(raw.category, raw.direction, d, raw.quantity, raw.value, raw.weight, raw.shippingMethod)
  }

  /**
   * Converts the whole `Date` column. The conversion raises on the first cell
   * that does not parse, so either every row gets its date or the load fails
   * with that cell's error.
   */
  function ParseDates(raw: seq<RawRecord>): (r: Result<seq<Record>, DateError>)
    ensures r.Ok? <==> forall i | 0 <= i < |raw| :: ParseDate(raw[i].date).Ok?
    ensures r.Ok? ==> |r.value| == |raw|
    ensures r.Ok? ==> forall i | 0 <= i < |raw| :: r.value[i] == WithDate(raw[i], ParseDate(raw[i].date).value)
    ensures r.Err? ==> exists i | 0 <= i < |raw| :: FirstBadDate(raw, i) && ParseDate(raw[i].date).error == r.error
  {
    if raw == [] then Ok([])
    else
      match ParseDate(raw[0].date)
      case Err(e) => assert FirstBadDate(raw, 0); Err(e)
      case Ok(d) =>
        match ParseDates(raw[1..])
        case Err(e) =>
          var i :| 0 <= i < |raw[1..]| && FirstBadDate(raw[1..], i) && ParseDate(raw[1..][i].date).error == e;
          assert FirstBadDate(raw, i + 1);
          Err(e)
        case Ok(rest) =>
          assert forall i | 1 <= i < |raw| :: raw[i] == raw[1..][i - 1];
          Ok([WithDate(raw[0], d)] + rest)
  }

  /** Row `i` is the first row whose date does not parse. */
  predicate FirstBadDate(raw: seq<RawRecord>, i: int)
    requires 0 <= i < |raw|
  {
    ParseDate(raw[i].date).Err? && forall j | 0 <= j < i :: ParseDate(raw[j].date).Ok?
  }

  // ---------------------------------------------------------------------
  // Sampling

  /** The number of rows `sample(n=3000, ...)` asks for. */
  const SampleSize: nat := 3000

  datatype SampleError = LargerThanPopulation

  /** No position is drawn twice. */
  predicate DistinctPositions(picks: seq<nat>) {
    forall i, j | 0 <= i < j < |picks| :: picks[i] != picks[j]
  }

  predicate InRange(picks: seq<nat>, rows: nat) {
    forall i | 0 <= i < |picks| :: picks[i] < rows
  }

  /**
   * What the seeded generator hands to `sample`: `SampleSize` distinct row
   * positions, each inside the dataset.
   */
  predicate IsDraw(picks: seq<nat>, rows: nat) {
    |picks| == SampleSize && InRange(picks, rows) && DistinctPositions(picks)
  }

  /** The rows at the given positions, in the order given. */
  function Pick(df: seq<Record>, picks: seq<nat>): (s: seq<Record>)
    requires InRange(picks, |df|)
    ensures |s| == |picks| && forall i | 0 <= i < |picks| :: s[i] == df[picks[i]]
  {
    if picks == [] then [] else [df[picks[0]]] + Pick(df, picks[1..])
  }

  /**
   * `df.sample(n=3000, random_state=42)`: the rows at the positions the
   * generator drew, in the order drawn. Sampling without replacement raises
   * when the dataset has fewer rows than asked for, and never takes a row
   * more often than the dataset holds it.
   */
  function DrawSample(df: seq<Record>, picks: seq<nat>): (r: Result<seq<Record>, SampleError>)
    requires |df| >= SampleSize ==> IsDraw(picks, |df|)
    ensures r.Err? <==> |df| < SampleSize
    ensures r.Ok? ==> |r.value| == SampleSize && forall x | x in r.value :: x in df
    ensures r.Ok? ==> forall i | 0 <= i < |r.value| :: r.value[i] == df[picks[i]]
    ensures r.Ok? ==> multiset(r.value) <= multiset(df)
  {
    if |df| < SampleSize then Err(LargerThanPopulation)
    else
      PickSubMultiset(df, picks);
      Ok(Pick(df, picks))
  }

  lemma {:induction false} PickConcat(df: seq<Record>, a: seq<nat>, b: seq<nat>)
    requires InRange(a, |df|) && InRange(b, |df|)
    ensures InRange(a + b, |df|) && Pick(df, a + b) == Pick(df, a) + Pick(df, b)
  {
    if a != [] {
      assert (a + b)[1..] == a[1..] + b;
      PickConcat(df, a[1..], b);
    } else {
      assert a + b == b;
    }
  }

  /** Positions below `n` pick the same rows from the first `n` rows. */
  lemma {:induction false} PickPrefix(df: seq<Record>, n: nat, picks: seq<nat>)
    requires n <= |df| && InRange(picks, n)
    ensures Pick(df, picks) == Pick(df[..n], picks)
  {
    if picks != [] {
      PickPrefix(df, n, picks[1..]);
    }
  }

  /** Taking position `k` out of distinct positions leaves distinct positions, none of them `picks[k]`. */
  lemma RemovePosition(picks: seq<nat>, k: int)
    requires DistinctPositions(picks) && 0 <= k < |picks|
    ensures var rest := picks[..k] + picks[k + 1..];
      DistinctPositions(rest) && forall i | 0 <= i < |rest| :: rest[i] != picks[k]
    ensures picks == picks[..k] + [picks[k]] + picks[k + 1..]
  {
    var rest := picks[..k] + picks[k + 1..];
    assert forall i | 0 <= i < |rest| :: rest[i] == picks[if i < k then i else i + 1];
  }

  /** Taking out the pick at `k` takes one copy of its row out of the picked rows. */
  lemma PickWithout(df: seq<Record>, picks: seq<nat>, k: int)
    requires InRange(picks, |df|) && 0 <= k < |picks|
    ensures InRange(picks[..k] + picks[k + 1..], |df|)
    ensures multiset(Pick(df, picks)) == multiset(Pick(df, picks[..k] + picks[k + 1..])) + multiset{df[picks[k]]}
  {
    var a, b := picks[..k], picks[k + 1..];
    assert picks == a + [picks[k]] + b;
    PickConcat(df, a, [picks[k]]);
    PickConcat(df, a + [picks[k]], b);
    PickConcat(df, a, b);
    var one := Pick(df, [picks[k]]);
    assert one == [df[picks[k]]];
    SplitOut(Pick(df, a), df[picks[k]], Pick(df, b), Pick(df, picks), Pick(df, a + b));
  }

  lemma SplitOut<T>(p: seq<T>, x: T, q: seq<T>, whole: seq<T>, rest: seq<T>)
    requires whole == p + [x] + q && rest == p + q
    ensures multiset(whole) == multiset(rest) + multiset{x}
  {
  }

  /** Drawing distinct positions takes each row at most as often as the dataset holds it. */
  lemma {:induction false} PickSubMultiset(df: seq<Record>, picks: seq<nat>)
    requires InRange(picks, |df|) && DistinctPositions(picks)
    ensures multiset(Pick(df, picks)) <= multiset(df)
    decreases |df|
  {
    if picks != [] {
      assert picks[0] < |df|;
      var n := |df| - 1;
      var init := df[..n];
      assert multiset(df) == multiset(init) + multiset{df[n]} by {
        assert df == init + [df[n]];
      }
      if n in picks {
        var k :| 0 <= k < |picks| && picks[k] == n;
        var rest := picks[..k] + picks[k + 1..];
        RemovePosition(picks, k);
        PickWithout(df, picks, k);
        assert InRange(rest, n);
        PickPrefix(df, n, rest);
        PickSubMultiset(init, rest);
      } else {
        assert InRange(picks, n);
        PickPrefix(df, n, picks);
        PickSubMultiset(init, picks);
      }
    }
  }
}
