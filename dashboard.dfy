/**
 * The dashboard script end to end, without its widgets and charts: load and
 * parse, sample, filter by the sidebar selections, then compute what the
 * charts are drawn from. Three of the exceptions the script can raise become
 * errors of the pipeline: a malformed date, a dataset smaller than the
 * sample, and an empty view.
 */
module Dashboard {
  import opened Results
  import opened Dates
  import opened Transactions
  import opened Selections
  import opened HighValue
  import opened ShippingCounts
  import opened MonthlyTrends

  datatype DashboardError =
    | MalformedDate(cause: DateError)   // `pd.to_datetime` raises (line 8)
    | SampleTooLarge                    // `df.sample(n=3000)` raises (line 11)
    | EmptyView                         // `0 / 0` when the view is empty (line 50)

  /** The data the six charts are drawn from. */
  datatype Charts = Charts(
    view: seq<Record>,              // scatter, histogram and box plot
    threshold: real,                // the 0.9-quantile of Value
    highValueShare: real,           // pie chart
    shipping: seq<MethodCount>,     // bar chart
    monthly: seq<MonthTotal>)       // line plot

  /** Lines 7-11: parse the dates of the loaded rows, then draw the sample. */
  function LoadSample(raw: seq<RawRecord>, picks: seq<nat>): (r: Result<seq<Record>, DashboardError>)
    requires |raw| >= SampleSize ==> IsDraw(picks, |raw|)
    ensures r.Ok? <==> ParseDates(raw).Ok? && |raw| >= SampleSize
    ensures ParseDates(raw).Err? ==> r == Err(MalformedDate(ParseDates(raw).error))
    ensures ParseDates(raw).Ok? && |raw| < SampleSize ==> r == Err(SampleTooLarge)
    ensures r.Ok? ==> |r.value| == SampleSize
    ensures r.Ok? ==> forall x | x in r.value :: x in ParseDates(raw).value
    ensures r.Ok? ==> r.value == DrawSample(ParseDates(raw).value, picks).value
    ensures r.Ok? ==> multiset(r.value) <= multiset(ParseDates(raw).value)
  {
    match ParseDates(raw)
    case Err(e) => Err(MalformedDate(e))
    case Ok(df) =>
      match DrawSample(df, picks)
      case Err(_) => Err(SampleTooLarge)
      case Ok(sample) => Ok(sample)
  }

  /** Lines 29-96 for one set of selections. */
  function Render(sample: seq<Record>, sel: Selection): (r: Result<Charts, DashboardError>)
    ensures r.Err? <==> Filter(sample, sel) == []
    ensures r.Ok? ==> r.value.view == Filter(sample, sel)
    ensures r.Ok? ==> r.value.threshold == Threshold(r.value.view)
    ensures r.Ok? ==> Share(r.value.view, r.value.threshold) == Ok(r.value.highValueShare)
    ensures r.Ok? ==> r.value.shipping == MethodCounts(r.value.view)
    ensures r.Ok? ==> r.value.monthly == MonthlyTotals(r.value.view)
    ensures r.Ok? ==> 0.0 < r.value.highValueShare <= 100.0
    ensures r.Ok? ==> SumTotals(r.value.monthly) == SumValues(r.value.view)
    ensures r.Ok? ==> SumCounts(r.value.shipping) == |r.value.view|
  {
    var view := Filter(sample, sel);
    if view == [] then Err(EmptyView)
    else
      var t := Threshold(view);
      HighValueShareInRange(view);
      MonthlyTotalsPreserveSum(view);
      MethodCountsSumToRows(view);
      Ok(Charts(view, t, Share(view, t).value, MethodCounts(view), MonthlyTotals(view)))
  }

  // ---------------------------------------------------------------------
  // Lemmas

  /** Left at its defaults, the dashboard charts the whole sample. */
  lemma DefaultRenderShowsSample(sample: seq<Record>)
    requires sample != []
    ensures Render(sample, DefaultSelection(sample)).Ok?
    ensures Render(sample, DefaultSelection(sample)).value.view == sample
  {
    DefaultSelectionKeepsSample(sample);
  }

  /** Clearing any one widget makes the script fail at the share's division. */
  lemma EmptySelectionFails(sample: seq<Record>, sel: Selection)
    requires IsEmpty(sel)
    ensures Render(sample, sel) == Err(EmptyView)
  {
    EmptySelectionEmptiesView(sample, sel);
  }

  /** A table whose dates parse and that holds a full sample loads, and its first page renders. */
  lemma LoadedSampleRenders(raw: seq<RawRecord>, picks: seq<nat>)
    requires |raw| >= SampleSize && IsDraw(picks, |raw|)
    requires ParseDates(raw).Ok?
    ensures LoadSample(raw, picks).Ok?
    ensures Render(LoadSample(raw, picks).value, DefaultSelection(LoadSample(raw, picks).value)).Ok?
  {
    var sample := LoadSample(raw, picks).value;
    assert |sample| == SampleSize;
    DefaultRenderShowsSample(sample);
  }

  /** Narrowing the selections charts a subsequence of what the wider selections chart. */
  lemma NarrowerRendersSubsequence(sample: seq<Record>, small: Selection, big: Selection)
    requires Narrower(small, big)
    requires Filter(sample, small) != []
    ensures Render(sample, small).Ok? && Render(sample, big).Ok?
    ensures IsSubsequence(Render(sample, small).value.view, Render(sample, big).value.view)
  {
    FilterNarrower(sample, small, big);
  }
}
