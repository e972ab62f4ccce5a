/**
 * The `Date` column of the dataset, parsed with the fixed day-first format
 * `%d-%m-%Y` (app.py line 8). Parsing follows the regular expressions that
 * `strptime` uses for the three directives: `%d` is one or two digits from 1 to
 * 31, `%m` one or two digits from 1 to 12 and `%Y` exactly four digits; the
 * whole string must be consumed, and the resulting day must exist in the
 * proleptic Gregorian calendar.
 */
module Dates {
  import opened Results

  datatype Date = Date(day: int, month: int, year: int)

  /** Why a string is not a date in the `DD-MM-YYYY` format. */
  datatype DateError =
    | FormatMismatch   // the string does not match the format at all
    | OutOfRange       // it matches, but names a day that does not exist

  predicate IsLeapYear(y: int) {
    y % 4 == 0 && (y % 100 != 0 || y % 400 == 0)
  }

  function DaysInMonth(m: int, y: int): (n: int)
    requires 1 <= m <= 12
    ensures 28 <= n <= 31
    ensures n == 29 <==> m == 2 && IsLeapYear(y)
  {
    if m == 2 then (if IsLeapYear(y) then 29 else 28)
    else if m == 4 || m == 6 || m == 9 || m == 11 then 30
    else 31
  }

  /** A day that exists in the calendar (years start at 1, as for Python's datetime). */
  predicate IsCalendarDate(d: Date) {
    1 <= d.year <= 9999 && 1 <= d.month <= 12 && 1 <= d.day <= DaysInMonth(d.month, d.year)
  }

  type CalendarDate = d: Date | IsCalendarDate(d) witness Date(1, 1, 1970)

  /** The derived keys of a record: `.dt.year` and `.dt.month`. */
  function Year(d: CalendarDate): int { d.year }

  function Month(d: CalendarDate): (m: int)
    ensures 1 <= m <= 12
  {
    d.month
  }

  // ---------------------------------------------------------------------
  // Digits

  predicate IsDigit(c: char) { '0' <= c <= '9' }

  predicate AllDigits(s: string) {
    forall i | 0 <= i < |s| :: IsDigit(s[i])
  }

  /** The decimal value of a string of digits. */
  function DigitsValue(s: string): (v: nat)
    requires AllDigits(s)
  {
    if s == [] then 0 else DigitsValue(s[..|s| - 1]) * 10 + (s[|s| - 1] as int - '0' as int)
  }

  function Digit(n: int): (c: char)
    requires 0 <= n < 10
    ensures IsDigit(c)
  {
    ('0' as int + n) as char
  }

  /** `n` written with exactly two digits, zero-padded. */
  function TwoDigits(n: int): string
    requires 0 <= n < 100
  {
    [Digit(n / 10), Digit(n % 10)]
  }

  /** `n` written with exactly four digits, zero-padded. */
  function FourDigits(n: int): string
    requires 0 <= n < 10000
  {
    TwoDigits(n / 100) + TwoDigits(n % 100)
  }

  /** A day or month field as `strptime` accepts it: zero-padded, or one digit when it is below 10. */
  function Field(n: int, padded: bool): string
    requires 0 <= n < 100
  {
    if !padded && n < 10 then [Digit(n)] else TwoDigits(n)
  }

  /** The string `DD-MM-YYYY` for the three numbers, with or without the optional leading zeros. */
  function Spell(day: int, month: int, year: int, padDay: bool, padMonth: bool): string
    requires 0 <= day < 100 && 0 <= month < 100 && 0 <= year < 10000
  {
    Field(day, padDay) + "-" + Field(month, padMonth) + "-" + FourDigits(year)
  }

  /** The string `DD-MM-YYYY` for `d`, with or without the optional leading zeros. */
  function Spelling(d: CalendarDate, padDay: bool, padMonth: bool): string {
    Spell(d.day, d.month, d.year, padDay, padMonth)
  }

  /** Every spelling of `d` that the format accepts. */
  function Spellings(d: CalendarDate): set<string> {
    {Spelling(d, false, false), Spelling(d, false, true), Spelling(d, true, false), Spelling(d, true, true)}
  }

  // ---------------------------------------------------------------------
  // Parsing

  /**
   * Parses one `Date` cell. A day or month field ends at the first `-`, so
   * the field widths are fixed by where the dashes stand.
   */
  function ParseDate(s: string): (r: Result<CalendarDate, DateError>)
    ensures (|s| < 8 || 10 < |s|) ==> r == Err(FormatMismatch)
    ensures r.Ok? ==> s[|s| - 5] == '-'
  {
    var dw := if |s| > 1 && s[1] == '-' then 1 else 2;
    var mw := if |s| > dw + 2 && s[dw + 2] == '-' then 1 else 2;
    if |s| != dw + mw + 6 || s[dw] != '-' || s[dw + mw + 1] != '-' then Err(FormatMismatch)
    else
      var ds, ms, ys := s[..dw], s[dw + 1..dw + 1 + mw], s[dw + mw + 2..];
      if !AllDigits(ds) || !AllDigits(ms) || !AllDigits(ys) then Err(FormatMismatch)
      else
        var d := Date(DigitsValue(ds), DigitsValue(ms), DigitsValue(ys));
        if !(1 <= d.day <= 31 && 1 <= d.month <= 12) then Err(FormatMismatch)
        else if !IsCalendarDate(d) then Err(OutOfRange)
        else Ok(d)
  }

  // ---------------------------------------------------------------------
  // Lemmas

  lemma DigitsOne(c: char)
    requires IsDigit(c)
    ensures AllDigits([c]) && DigitsValue([c]) == c as int - '0' as int
    ensures Digit(DigitsValue([c])) == c
  {
    assert [c][..0] == [];
  }

  lemma DigitsTwo(s: string)
    requires |s| == 2 && AllDigits(s)
    ensures DigitsValue(s) < 100 && TwoDigits(DigitsValue(s)) == s
  {
    DigitsOne(s[0]);
    assert s[..1] == [s[0]];
  }

  /** Two more digits after `s` shift its value by two places. */
  lemma DigitsAppendTwo(s: string, t: string)
    requires AllDigits(s) && |t| == 2 && AllDigits(t)
    ensures AllDigits(s + t) && DigitsValue(s + t) == DigitsValue(s) * 100 + DigitsValue(t)
  {
    var u := s + t;
    assert u[..|u| - 1] == s + [t[0]];
    assert (s + [t[0]])[..|s|] == s;
    assert t[..1] == [t[0]];
    DigitsOne(t[0]);
  }

  lemma DigitsFour(s: string)
    requires |s| == 4 && AllDigits(s)
    ensures DigitsValue(s) < 10000 && FourDigits(DigitsValue(s)) == s
  {
    var hi, lo := s[..2], s[2..];
    assert s == hi + lo;
    DigitsAppendTwo(hi, lo);
    DigitsTwo(hi);
    DigitsTwo(lo);
    var v := DigitsValue(s);
    assert v == DigitsValue(hi) * 100 + DigitsValue(lo);
    DivModHundred(v, DigitsValue(hi), DigitsValue(lo));
  }

  lemma DivModHundred(v: int, q: int, r: int)
    requires 0 <= r < 100 && 0 <= q < 100 && v == q * 100 + r
    ensures 0 <= v < 10000 && v / 100 == q && v % 100 == r
  {
  }

  lemma ValueOfTwo(n: int)
    requires 0 <= n < 100
    ensures AllDigits(TwoDigits(n)) && DigitsValue(TwoDigits(n)) == n
  {
    var s := TwoDigits(n);
    assert s[..1] == [s[0]];
    DigitsOne(s[0]);
  }

  lemma ValueOfFour(n: int)
    requires 0 <= n < 10000
    ensures AllDigits(FourDigits(n)) && DigitsValue(FourDigits(n)) == n
  {
    ValueOfTwo(n / 100);
    ValueOfTwo(n % 100);
    DigitsAppendTwo(TwoDigits(n / 100), TwoDigits(n % 100));
  }

  lemma ValueOfField(n: int, padded: bool)
    requires 0 <= n < 100
    ensures AllDigits(Field(n, padded)) && DigitsValue(Field(n, padded)) == n
    ensures |Field(n, padded)| == (if !padded && n < 10 then 1 else 2)
  {
    if !padded && n < 10 {
      DigitsOne(Digit(n));
    } else {
      ValueOfTwo(n);
    }
  }

  /**
   * A string of the right shape is accepted when its day and month fields
   * pass the format's ranges and the day exists; otherwise the error says which
   * check failed.
   */
  lemma {:induction false} ParseSpelled(day: int, month: int, year: int, padDay: bool, padMonth: bool)
    requires 0 <= day < 100 && 0 <= month < 100 && 0 <= year < 10000
    ensures ParseDate(Spell(day, month, year, padDay, padMonth)) ==
      if !(1 <= day <= 31 && 1 <= month <= 12) then Err(FormatMismatch)
      else if !IsCalendarDate(Date(day, month, year)) then Err(OutOfRange)
      else Ok(Date(day, month, year))
  {
    var s := Spell(day, month, year, padDay, padMonth);
    var df, mf, yf := Field(day, padDay), Field(month, padMonth), FourDigits(year);
    ValueOfField(day, padDay);
    ValueOfField(month, padMonth);
    ValueOfFour(year);
    var dw, mw := |df|, |mf|;
    assert s == df + "-" + mf + "-" + yf;
    assert s[dw] == '-';
    assert s[dw + mw + 1] == '-';
    assert IsDigit(s[0]) && (dw == 2 ==> IsDigit(s[1]));
    assert mw == 2 ==> IsDigit(s[dw + 2]);
    assert s[..dw] == df;
    assert s[dw + 1..dw + 1 + mw] == mf;
    assert s[dw + mw + 2..] == yf;
  }

  /** Every accepted spelling of a calendar date parses back to that date. */
  lemma ParseSpelling(d: CalendarDate, padDay: bool, padMonth: bool)
    ensures ParseDate(Spelling(d, padDay, padMonth)) == Ok(d)
  {
    ParseSpelled(d.day, d.month, d.year, padDay, padMonth);
  }

  lemma SplitFive(s: string, a: int, b: int, c: int, d: int)
    requires 0 <= a <= b <= c <= d <= |s|
    ensures s == s[..a] + s[a..b] + s[b..c] + s[c..d] + s[d..]
  {
    assert s[..a] + s[a..b] == s[..b];
    assert s[..b] + s[b..c] == s[..c];
    assert s[..c] + s[c..d] == s[..d];
    assert s[..d] + s[d..] == s;
  }

  /** A dash-separated string of digit fields is the spelling of the numbers it holds. */
  lemma Reassemble(s: string, dw: int, mw: int)
    requires dw in {1, 2} && mw in {1, 2} && |s| == dw + mw + 6
    requires s[dw] == '-' && s[dw + mw + 1] == '-'
    requires AllDigits(s[..dw]) && AllDigits(s[dw + 1..dw + 1 + mw]) && AllDigits(s[dw + mw + 2..])
    ensures DigitsValue(s[..dw]) < 100 && DigitsValue(s[dw + 1..dw + 1 + mw]) < 100
    ensures DigitsValue(s[dw + mw + 2..]) < 10000
    ensures s == Spell(DigitsValue(s[..dw]), DigitsValue(s[dw + 1..dw + 1 + mw]),
                       DigitsValue(s[dw + mw + 2..]), dw == 2, mw == 2)
  {
    var ds, ms, ys := s[..dw], s[dw + 1..dw + 1 + mw], s[dw + mw + 2..];
    if dw == 1 { DigitsOne(ds[0]); assert ds == [ds[0]]; } else { DigitsTwo(ds); }
    if mw == 1 { DigitsOne(ms[0]); assert ms == [ms[0]]; } else { DigitsTwo(ms); }
    DigitsFour(ys);
    assert Field(DigitsValue(ds), dw == 2) == ds;
    assert Field(DigitsValue(ms), mw == 2) == ms;
    assert s[dw..dw + 1] == "-" && s[dw + 1 + mw..dw + mw + 2] == "-";
    SplitFive(s, dw, dw + 1, dw + 1 + mw, dw + mw + 2);
  }

  /** Whatever parses is one of the accepted spellings of the date it parses to. */
  lemma {:induction false} ParsedIsSpelling(s: string)
    requires ParseDate(s).Ok?
    ensures s in Spellings(ParseDate(s).value)
  {
    var d := ParseDate(s).value;
    var dw := if |s| > 1 && s[1] == '-' then 1 else 2;
    var mw := if |s| > dw + 2 && s[dw + 2] == '-' then 1 else 2;
    assert |s| == dw + mw + 6 && s[dw] == '-' && s[dw + mw + 1] == '-';
    var ds, ms, ys := s[..dw], s[dw + 1..dw + 1 + mw], s[dw + mw + 2..];
    assert AllDigits(ds) && AllDigits(ms) && AllDigits(ys);
    assert d == Date(DigitsValue(ds), DigitsValue(ms), DigitsValue(ys));
    Reassemble(s, dw, mw);
    assert s == Spelling(d, dw == 2, mw == 2);
  }

  /** A string parses to `d` exactly when it is one of the accepted spellings of `d`. */
  lemma {:induction false} ParseDateSpellings(s: string, d: CalendarDate)
    ensures ParseDate(s) == Ok(d) <==> s in Spellings(d)
  {
    if s in Spellings(d) {
      if s == Spelling(d, false, false) { ParseSpelling(d, false, false); }
      else if s == Spelling(d, false, true) { ParseSpelling(d, false, true); }
      else if s == Spelling(d, true, false) { ParseSpelling(d, true, false); }
      else { ParseSpelling(d, true, true); }
    }
    if ParseDate(s) == Ok(d) {
      ParsedIsSpelling(s);
    }
  }
}
