/**
 * The three sidebar selections and the boolean mask built from them
 * (app.py lines 16-33). Each selection is the list a multiselect widget
 * returns; `isin` tests membership in it.
 */
module Selections {
  import opened Transactions

  // ---------------------------------------------------------------------
  // Distinct values of a column (`Series.unique`)

  predicate NoDuplicates<T(==)>(xs: seq<T>) {
    forall i, j | 0 <= i < j < |xs| :: xs[i] != xs[j]
  }

  /** The position of the first occurrence of `x` in `xs`. */
  function FirstIndex<T(==)>(xs: seq<T>, x: T): (k: nat)
    requires x in xs
    ensures k < |xs| && xs[k] == x && x !in xs[..k]
  {
    if xs[0] == x then 0 else 1 + FirstIndex(xs[1..], x)
  }

  /** The distinct values of `xs`, in order of first appearance. */
  function Unique<T(==)>(xs: seq<T>): (u: seq<T>)
    ensures forall i | 0 <= i < |xs| :: xs[i] in u
    ensures forall i | 0 <= i < |u| :: u[i] in xs
    ensures NoDuplicates(u)
    ensures |u| <= |xs|
  {
    if xs == [] then []
    else
      var u := Unique(xs[..|xs| - 1]);
      var last := xs[|xs| - 1];
      assert xs == xs[..|xs| - 1] + [last];
      if last in u then u else u + [last]
  }

  lemma FirstIndexPrefix<T>(xs: seq<T>, ys: seq<T>, x: T)
    requires x in xs
    ensures FirstIndex(xs + ys, x) == FirstIndex(xs, x)
  {
    if xs[0] != x {
      assert (xs + ys)[1..] == xs[1..] + ys;
      FirstIndexPrefix(xs[1..], ys, x);
    }
  }

  /** `Unique` lists the values in the order in which they first appear. */
  lemma {:induction false} UniqueInFirstAppearanceOrder<T>(xs: seq<T>)
    ensures forall i, j | 0 <= i < j < |Unique(xs)| ::
      FirstIndex(xs, Unique(xs)[i]) < FirstIndex(xs, Unique(xs)[j])
  {
    if xs != [] {
      var init, last := xs[..|xs| - 1], xs[|xs| - 1];
      assert xs == init + [last];
      UniqueInFirstAppearanceOrder(init);
      var u := Unique(init);
      forall y | y in init ensures FirstIndex(xs, y) == FirstIndex(init, y) < |init| {
        FirstIndexPrefix(init, [last], y);
      }
      if last !in u {
        assert last !in init;
        assert FirstIndex(xs, last) == |init| by {
          assert xs[..|init|] == init;
        }
      }
    }
  }

  // ---------------------------------------------------------------------
  // Columns and selections

  function Categories(rows: seq<Record>): (c: seq<string>)
    ensures |c| == |rows| && forall i | 0 <= i < |rows| :: c[i] == rows[i].category
  {
    seq(|rows|, i requires 0 <= i < |rows| => rows[i].category)
  }

  function Directions(rows: seq<Record>): (c: seq<string>)
    ensures |c| == |rows| && forall i | 0 <= i < |rows| :: c[i] == rows[i].direction
  {
    seq(|rows|, i requires 0 <= i < |rows| => rows[i].direction)
  }

  function Years(rows: seq<Record>): (c: seq<int>)
    ensures |c| == |rows| && forall i | 0 <= i < |rows| :: c[i] == YearOf(rows[i])
  {
    seq(|rows|, i requires 0 <= i < |rows| => YearOf(rows[i]))
  }

  /** What the user has chosen in the three multiselect widgets. */
  datatype Selection = Selection(categories: seq<string>, directions: seq<string>, years: seq<int>)

  /**
   * The widgets' defaults: every distinct category, direction and year of
   * the sample (app.py lines 17-26).
   */
  function DefaultSelection(sample: seq<Record>): (sel: Selection)
    ensures forall i | 0 <= i < |sample| :: Keep(sel, sample[i])
    ensures forall c | c in sel.categories :: exists i | 0 <= i < |sample| :: sample[i].category == c
    ensures forall d | d in sel.directions :: exists i | 0 <= i < |sample| :: sample[i].direction == d
    ensures forall y | y in sel.years :: exists i | 0 <= i < |sample| :: YearOf(sample[i]) == y
    ensures NoDuplicates(sel.categories) && NoDuplicates(sel.directions) && NoDuplicates(sel.years)
  {
    var cs, ds, ys := Categories(sample), Directions(sample), Years(sample);
    OffersEveryObserved(sample);
    OffersOnlyObserved(sample);
    Selection(Unique(cs), Unique(ds), Unique(ys))
  }

  lemma OffersEveryObserved(sample: seq<Record>)
    ensures forall i | 0 <= i < |sample| ::
      sample[i].category in Unique(Categories(sample)) &&
      sample[i].direction in Unique(Directions(sample)) &&
      YearOf(sample[i]) in Unique(Years(sample))
  {
    var cs, ds, ys := Categories(sample), Directions(sample), Years(sample);
    forall i | 0 <= i < |sample| ensures cs[i] in Unique(cs) && ds[i] in Unique(ds) && ys[i] in Unique(ys) {
      assert cs[i] in cs && ds[i] in ds && ys[i] in ys;
    }
  }

  lemma OffersOnlyObserved(sample: seq<Record>)
    ensures forall c | c in Unique(Categories(sample)) :: exists i | 0 <= i < |sample| :: sample[i].category == c
    ensures forall d | d in Unique(Directions(sample)) :: exists i | 0 <= i < |sample| :: sample[i].direction == d
    ensures forall y | y in Unique(Years(sample)) :: exists i | 0 <= i < |sample| :: YearOf(sample[i]) == y
  {
    var cs, ds, ys := Categories(sample), Directions(sample), Years(sample);
    forall c | c in Unique(cs) ensures exists i | 0 <= i < |sample| :: sample[i].category == c {
      var i :| 0 <= i < |cs| && cs[i] == c;
    }
    forall d | d in Unique(ds) ensures exists i | 0 <= i < |sample| :: sample[i].direction == d {
      var i :| 0 <= i < |ds| && ds[i] == d;
    }
    forall y | y in Unique(ys) ensures exists i | 0 <= i < |sample| :: YearOf(sample[i]) == y {
      var i :| 0 <= i < |ys| && ys[i] == y;
    }
  }

  /** Every value of `small` is also chosen in `big`. */
  predicate Narrower(small: Selection, big: Selection) {
    (forall c | c in small.categories :: c in big.categories) &&
    (forall d | d in small.directions :: d in big.directions) &&
    (forall y | y in small.years :: y in big.years)
  }

  predicate IsEmpty(sel: Selection) {
    sel.categories == [] || sel.directions == [] || sel.years == []
  }

  // ---------------------------------------------------------------------
  // The filter

  /** The row mask of app.py lines 30-32. */
  predicate Keep(sel: Selection, r: Record) {
    r.category in sel.categories && r.direction in sel.directions && YearOf(r) in sel.years
  }

  /** `filtered_df`: the rows of `rows` that pass the mask, in their original order. */
  function Filter(rows: seq<Record>, sel: Selection): (view: seq<Record>)
    ensures |view| <= |rows|
    ensures forall r | r in view :: r in rows && Keep(sel, r)
    ensures forall r | r in rows && Keep(sel, r) :: r in view
  {
    if rows == [] then []
    else (if Keep(sel, rows[0]) then [rows[0]] else []) + Filter(rows[1..], sel)
  }

  /** `a` is `b` with some elements left out, the rest kept in order. */
  predicate IsSubsequence<T(==)>(a: seq<T>, b: seq<T>) {
    if a == [] then true
    else if |b| < |a| then false
    else if a[0] == b[0] then IsSubsequence(a[1..], b[1..])
    else IsSubsequence(a, b[1..])
  }

  // ---------------------------------------------------------------------
  // Lemmas

  lemma {:induction false} FilterConcat(a: seq<Record>, b: seq<Record>, sel: Selection)
    ensures Filter(a + b, sel) == Filter(a, sel) + Filter(b, sel)
  {
    if a != [] {
      var x, rest := a[0], a[1..];
      assert a == [x] + rest;
      assert a + b == [x] + (rest + b);
      FilterCons(x, rest, sel);
      FilterCons(x, rest + b, sel);
      FilterConcat(rest, b, sel);
      Regroup(if Keep(sel, x) then [x] else [], Filter(rest, sel), Filter(b, sel),
              Filter(a + b, sel), Filter(a, sel));
    } else {
      assert a + b == b;
    }
  }

  lemma Regroup<T>(head: seq<T>, p: seq<T>, q: seq<T>, whole: seq<T>, part: seq<T>)
    requires whole == head + (p + q) && part == head + p
    ensures whole == part + q
  {
  }

  lemma FilterCons(x: Record, rest: seq<Record>, sel: Selection)
    ensures Filter([x] + rest, sel) == (if Keep(sel, x) then [x] else []) + Filter(rest, sel)
  {
    assert ([x] + rest)[1..] == rest;
  }

  /** The view keeps the sample's order: it is a subsequence of it. */
  lemma {:induction false} FilterIsSubsequence(rows: seq<Record>, sel: Selection)
    ensures IsSubsequence(Filter(rows, sel), rows)
  {
    if rows != [] {
      FilterIsSubsequence(rows[1..], sel);
      var rest := Filter(rows[1..], sel);
      if Keep(sel, rows[0]) {
        assert Filter(rows, sel) == [rows[0]] + rest;
        assert ([rows[0]] + rest)[1..] == rest;
      } else {
        assert Filter(rows, sel) == rest;
        SkipHead(rest, rows);
      }
    }
  }

  lemma {:induction false} SkipHead<T>(a: seq<T>, b: seq<T>)
    requires b != [] && IsSubsequence(a, b[1..])
    ensures IsSubsequence(a, b)
  {
    if a != [] && a[0] == b[0] {
      // matching a[0] against b[0] instead of a later copy of it
      SubsequenceTail(a, b[1..]);
    }
  }

  lemma {:induction false} SubsequenceTail<T>(a: seq<T>, b: seq<T>)
    requires a != [] && IsSubsequence(a, b)
    ensures IsSubsequence(a[1..], b)
  {
    if a[0] == b[0] {
      if a[1..] != [] {
        SkipHead(a[1..], b);
      }
    } else {
      SubsequenceTail(a, b[1..]);
      SkipHead(a[1..], b);
    }
  }

  /**
   * Each row occurs in the view exactly as often as in the sample when it
   * passes the mask, and not at all otherwise.
   */
  lemma {:induction false} FilterMultiplicity(rows: seq<Record>, sel: Selection, x: Record)
    ensures multiset(Filter(rows, sel))[x] == if Keep(sel, x) then multiset(rows)[x] else 0
  {
    if rows != [] {
      FilterMultiplicity(rows[1..], sel, x);
      CountConcat(rows, [rows[0]], rows[1..], x);
      if Keep(sel, rows[0]) {
        CountConcat(Filter(rows, sel), [rows[0]], Filter(rows[1..], sel), x);
      } else {
        assert Filter(rows, sel) == Filter(rows[1..], sel);
      }
    }
  }

  lemma CountConcat<T>(whole: seq<T>, p: seq<T>, q: seq<T>, x: T)
    requires whole == p + q
    ensures multiset(whole)[x] == multiset(p)[x] + multiset(q)[x]
  {
  }

  /** A filter that every row passes returns its input unchanged. */
  lemma {:induction false} FilterKeepsAll(rows: seq<Record>, sel: Selection)
    requires forall r | r in rows :: Keep(sel, r)
    ensures Filter(rows, sel) == rows
  {
    if rows != [] {
      assert forall r | r in rows[1..] :: r in rows;
      FilterKeepsAll(rows[1..], sel);
    }
  }

  /** The view is the whole input exactly when every row passes the mask. */
  lemma FilterIsIdentityIff(rows: seq<Record>, sel: Selection)
    ensures Filter(rows, sel) == rows <==> forall r | r in rows :: Keep(sel, r)
  {
    if forall r | r in rows :: Keep(sel, r) {
      FilterKeepsAll(rows, sel);
    }
  }

  /** With the widgets left at their defaults, the view is the whole sample. */
  lemma DefaultSelectionKeepsSample(sample: seq<Record>)
    ensures Filter(sample, DefaultSelection(sample)) == sample
  {
    var sel := DefaultSelection(sample);
    assert forall r | r in sample :: Keep(sel, r);
    FilterKeepsAll(sample, sel);
  }

  /** Clearing any one widget empties the view. */
  lemma {:induction false} EmptySelectionEmptiesView(rows: seq<Record>, sel: Selection)
    requires IsEmpty(sel)
    ensures Filter(rows, sel) == []
  {
    if rows != [] {
      EmptySelectionEmptiesView(rows[1..], sel);
    }
  }

  /** Applying the same selections to the view changes nothing. */
  lemma FilterIdempotent(rows: seq<Record>, sel: Selection)
    ensures Filter(Filter(rows, sel), sel) == Filter(rows, sel)
  {
    FilterKeepsAll(Filter(rows, sel), sel);
  }

  /**
   * Narrowing the selections gives the same view as filtering the wider
   * view again, so the narrower view is a subsequence of the wider one.
   */
  lemma {:induction false} FilterNarrower(rows: seq<Record>, small: Selection, big: Selection)
    requires Narrower(small, big)
    ensures Filter(Filter(rows, big), small) == Filter(rows, small)
    ensures IsSubsequence(Filter(rows, small), Filter(rows, big))
  {
    if rows != [] {
      FilterNarrower(rows[1..], small, big);
      var head := if Keep(big, rows[0]) then [rows[0]] else [];
      FilterConcat(head, Filter(rows[1..], big), small);
      assert Filter(head, small) == if Keep(small, rows[0]) then [rows[0]] else [] by {
        if head != [] { assert head[1..] == []; }
      }
    }
    FilterIsSubsequence(Filter(rows, big), small);
  }
}
