/**
 * The monthly attendance summary of the admin console: one row per employee
 * with the days present, absent and on leave in the selected month, the
 * attendance rate, the rate buckets the filter offers ("high" above 90%,
 * "medium" from 70% to 90%, "low" below 70%), the high-performer count and
 * the CSV export of the rows on screen.
 *
 * Rates are exact rationals compared by cross-multiplication. A month with no
 * working days makes the rate the floating-point `Infinity` (some days present)
 * or `NaN` (none), and the model follows those through every comparison.
 */
module MonthSummary {
  import opened Strings
  import Seqs
  import Arith

  /** One row of the attendance report, as delivered by the server. */
  datatype EmployeeMonth = EmployeeMonth(
    name: string, present: nat, absent: nat, onLeave: nat, totalDays: nat)

  // ---------------------------------------------------------------------------
  // Rate buckets

  /** `present / totalDays * 100 > 90`; `Infinity > 90` holds, `NaN > 90` does not. */
  predicate IsHigh(e: EmployeeMonth)
  {
    if e.totalDays == 0 then e.present > 0 else 100 * e.present > 90 * e.totalDays
  }

  /** `rate >= 70 && rate <= 90`; false for `Infinity` and `NaN`. */
  predicate IsMedium(e: EmployeeMonth)
  {
    e.totalDays > 0 && 70 * e.totalDays <= 100 * e.present <= 90 * e.totalDays
  }

  /** `rate < 70`; false for `Infinity` and `NaN`. */
  predicate IsLow(e: EmployeeMonth)
  {
    e.totalDays > 0 && 100 * e.present < 70 * e.totalDays
  }

  /** The rate is a number (possibly `Infinity`), not `NaN`. */
  predicate HasRate(e: EmployeeMonth)
  {
    e.totalDays > 0 || e.present > 0
  }

  /** Every row with a rate is in exactly one bucket; a `NaN` row is in none. */
  lemma BucketsPartition(e: EmployeeMonth)
    ensures HasRate(e) <==> IsHigh(e) || IsMedium(e) || IsLow(e)
    ensures !(IsHigh(e) && IsMedium(e)) && !(IsHigh(e) && IsLow(e)) && !(IsMedium(e) && IsLow(e))
  {
  }

  /** The value of the filter drop-down: unknown values (the default "all") keep every row. */
  predicate MatchesFilter(filterType: string, e: EmployeeMonth)
  {
    if filterType == "high" then IsHigh(e)
    else if filterType == "medium" then IsMedium(e)
    else if filterType == "low" then IsLow(e)
    else true
  }

  /** The employee name contains the search term, both compared in lower case. */
  predicate NameMatches(term: string, e: EmployeeMonth)
  {
    Includes(ToLower(e.name), ToLower(term))
  }

  function Shown(term: string, filterType: string): EmployeeMonth -> bool
  {
    (e: EmployeeMonth) => NameMatches(term, e) && MatchesFilter(filterType, e)
  }

  /** The rows on screen: name search and rate bucket, in server order. */
  function FilteredData(data: seq<EmployeeMonth>, term: string, filterType: string): (r: seq<EmployeeMonth>)
    ensures Seqs.IsSubsequence(r, data)
    ensures forall i :: 0 <= i < |r| ==>
      r[i] in data && NameMatches(term, r[i]) && MatchesFilter(filterType, r[i])
    ensures forall i :: 0 <= i < |data| && NameMatches(term, data[i]) && MatchesFilter(filterType, data[i]) ==>
      data[i] in r
    ensures |r| == Seqs.Count(Shown(term, filterType), data)
  {
    Seqs.Filter(Shown(term, filterType), data)
  }

  /** The rows whose rate is `NaN`. */
  function IsNaNRow(e: EmployeeMonth): bool { !HasRate(e) }

  /** The "High Performers" card: rows above 90%, counted over all data regardless of the filters. */
  function HighPerformers(data: seq<EmployeeMonth>): (n: nat)
    ensures n <= |data|
    ensures n == 0 <==> forall i :: 0 <= i < |data| ==> !IsHigh(data[i])
  {
    Seqs.Count(IsHigh, data)
  }

  /** The card agrees with the number of rows the "high" filter shows when nothing is searched. */
  lemma {:induction false} HighPerformersMatchHighFilter(data: seq<EmployeeMonth>)
    ensures HighPerformers(data) == |FilteredData(data, "", "high")|
  {
    assert ToLower("") == "";
    forall i | 0 <= i < |data|
      ensures Shown("", "high")(data[i]) == IsHigh(data[i])
    {
      IncludesEmpty(ToLower(data[i].name));
    }
    Seqs.CountPointwise(IsHigh, data, Shown("", "high"), data);
  }

  /** The three buckets and the `NaN` rows together account for every row. */
  lemma {:induction false} BucketCounts(data: seq<EmployeeMonth>)
    ensures Seqs.Count(IsHigh, data) + Seqs.Count(IsMedium, data) + Seqs.Count(IsLow, data)
      + Seqs.Count(IsNaNRow, data) == |data|
    decreases |data|
  {
    if data != [] {
      var init := data[..|data| - 1];
      var last := data[|data| - 1];
      assert data == init + [last];
      BucketCounts(init);
      Seqs.CountAppend(IsHigh, init, last);
      Seqs.CountAppend(IsMedium, init, last);
      Seqs.CountAppend(IsLow, init, last);
      Seqs.CountAppend(IsNaNRow, init, last);
      BucketsPartition(last);
    }
  }

  // ---------------------------------------------------------------------------
  // The displayed rate and its colour

  /** `(present / total * 100).toFixed(1)` as a number: tenths of a percent, or one of the two IEEE specials. */
  datatype Rate = Finite(tenths: nat) | Infinite | NotANumber

  /** The rate shown for a row, rounded to the nearest tenth of a percent with halves rounded up. */
  function ShownRate(e: EmployeeMonth): (r: Rate)
    ensures e.totalDays == 0 ==> (r == Infinite <==> e.present > 0) && (r == NotANumber <==> e.present == 0)
    ensures e.totalDays > 0 ==> (r.Finite? &&
      2 * r.tenths * e.totalDays - e.totalDays <= 2000 * e.present < 2 * r.tenths * e.totalDays + e.totalDays)
  {
    var t := e.totalDays;
    if t > 0 then
      var n := (2000 * e.present + t) / (2 * t);
      Arith.DivBounds(2000 * e.present + t, 2 * t);
      Finite(n)
    else if e.present > 0 then Infinite
    else NotANumber
  }

  /** The text of a rate: integer part, a point and one decimal, or `Infinity` / `NaN`. */
  function RateText(r: Rate): (s: string)
    ensures ',' !in s && '\n' !in s
    ensures r.Infinite? ==> s == "Infinity"
    ensures r.NotANumber? ==> s == "NaN"
    ensures r.Finite? ==> (3 <= |s| && s[|s| - 2] == '.' && IsDigit(s[|s| - 1]) &&
      forall i :: 0 <= i < |s| - 2 ==> IsDigit(s[i]))
    // no leading zero: the integer part is "0" or starts with a non-zero digit
    ensures r.Finite? && s[0] == '0' ==> |s| == 3
  {
    match r
    case Finite(n) => NatToString(n / 10) + "." + [DigitChar(n % 10)]
    case Infinite => "Infinity"
    case NotANumber => "NaN"
  }

  /** Reading the text of a finite rate back as a decimal gives the rate. */
  lemma RateTextReadsBack(n: nat)
    ensures var s := RateText(Finite(n));
      DigitsValue(s[..|s| - 2]) * 10 + (s[|s| - 1] as int - '0' as int) == n
  {
    var s := RateText(Finite(n));
    assert s[..|s| - 2] == NatToString(n / 10);
    NatToStringRoundTrip(n / 10);
  }

  datatype Colour = Green | Yellow | Red

  /**
   * The colour of the rate column, computed from the rounded text: at least
   * 90 is green, at least 70 yellow, anything else (and `NaN`) red.
   */
  function RateColour(r: Rate): (c: Colour)
    ensures c == Green <==> r.Infinite? || (r.Finite? && r.tenths >= 900)
    ensures c == Yellow <==> r.Finite? && 700 <= r.tenths < 900
    ensures c == Red <==> r.NotANumber? || (r.Finite? && r.tenths < 700)
  {
    match r
    case Infinite => Green
    case NotANumber => Red
    case Finite(n) => if n >= 900 then Green else if n >= 700 then Yellow else Red
  }

  /** Every "high" row is coloured green. */
  lemma {:induction false} HighIsGreen(e: EmployeeMonth)
    requires IsHigh(e)
    ensures RateColour(ShownRate(e)) == Green
  {
    var t := e.totalDays;
    if t > 0 {
      var n := ShownRate(e).tenths;
      if n < 900 {
        Arith.MulMonotone(2 * n, 1798, t);
        assert false;
      }
    }
  }

  /** A "medium" row is never red. */
  lemma {:induction false} MediumIsNotRed(e: EmployeeMonth)
    requires IsMedium(e)
    ensures RateColour(ShownRate(e)) != Red
  {
    var t := e.totalDays;
    var n := ShownRate(e).tenths;
    if n < 700 {
      Arith.MulMonotone(2 * n, 1398, t);
      assert false;
    }
  }

  /** A "low" row is never green. */
  lemma {:induction false} LowIsNotGreen(e: EmployeeMonth)
    requires IsLow(e)
    ensures RateColour(ShownRate(e)) != Green
  {
    var t := e.totalDays;
    var n := ShownRate(e).tenths;
    if n >= 900 {
      Arith.MulMonotone(1800, 2 * n, t);
      assert false;
    }
  }

  /** Exactly 90% is filed under "medium" but coloured green: bucket and colour disagree at the boundary. */
  lemma {:induction false} NinetyIsMediumButGreen(e: EmployeeMonth)
    requires e.totalDays > 0 && 10 * e.present == 9 * e.totalDays
    ensures IsMedium(e) && !IsHigh(e)
    ensures RateColour(ShownRate(e)) == Green
  {
    var t := e.totalDays;
    var n := ShownRate(e).tenths;
    if n < 900 {
      Arith.MulMonotone(2 * n, 1798, t);
      assert false;
    }
  }

  /** Rounding can lift a "low" row to the yellow colour (69.95% shows as 70.0). */
  lemma LowRowCanShowYellow()
    ensures exists e :: IsLow(e) && RateColour(ShownRate(e)) == Yellow
  {
    var e := EmployeeMonth("", 1399, 0, 0, 2000);
    assert ShownRate(e) == Finite(700);
  }

  /**
   * A "low" row shown yellow needs at least 200 working days: the rate must
   * lie in [69.95%, 70%), an interval too narrow to hold a fraction with a
   * smaller denominator, so no real month produces it.
   */
  lemma {:induction false} LowYellowNeedsLongMonth(e: EmployeeMonth)
    requires IsLow(e) && RateColour(ShownRate(e)) == Yellow
    ensures e.totalDays >= 200
  {
    var t := e.totalDays;
    var n := ShownRate(e).tenths;
    Arith.MulMonotone(1400, 2 * n, t);
    // 1399t <= 2000p < 1400t, and 1400t - 2000p = 200 (7t - 10p) with 7t - 10p >= 1
    assert 7 * t - 10 * e.present >= 1;
  }

  // ---------------------------------------------------------------------------
  // CSV export

  /** The header row of the export. */
  const Header: seq<string> := ["Employee Name", "Present Days", "Absent Days", "Leave Days", "Attendance Rate"]

  /** The five fields of a row; the rate carries a percent sign. Fields are not quoted. */
  function CsvFields(e: EmployeeMonth): (f: seq<string>)
    ensures |f| == |Header|
    ensures f[0] == e.name
    ensures f[1] == NatToString(e.present) && f[2] == NatToString(e.absent) && f[3] == NatToString(e.onLeave)
    ensures f[4] == RateText(ShownRate(e)) + "%"
    ensures forall k :: 1 <= k < |f| ==> ',' !in f[k] && '\n' !in f[k]
  {
    [e.name, NatToString(e.present), NatToString(e.absent), NatToString(e.onLeave),
     RateText(ShownRate(e)) + "%"]
  }

  /** The count fields read back as the row's counts; the last field is the rate text and a percent sign. */
  lemma CsvFieldsReadBack(e: EmployeeMonth)
    ensures var f := CsvFields(e);
      && DigitsValue(f[1]) == e.present && DigitsValue(f[2]) == e.absent && DigitsValue(f[3]) == e.onLeave
      && f[4][|f[4]| - 1] == '%' && f[4][..|f[4]| - 1] == RateText(ShownRate(e))
  {
    NatToStringRoundTrip(e.present);
    NatToStringRoundTrip(e.absent);
    NatToStringRoundTrip(e.onLeave);
  }

  function CsvLine(e: EmployeeMonth): string
  {
    Join(CsvFields(e), ',')
  }

  /** The lines of the exported file: the header, then one comma-separated line per row. */
  function CsvLines(rows: seq<EmployeeMonth>): (lines: seq<string>)
    ensures |lines| == |rows| + 1
    ensures lines[0] == Join(Header, ',')
    ensures forall i :: 0 <= i < |rows| ==> lines[i + 1] == CsvLine(rows[i])
  {
    [Join(Header, ',')] + seq(|rows|, i requires 0 <= i < |rows| => CsvLine(rows[i]))
  }

  /** The exported file: its lines joined by newlines. */
  function Csv(rows: seq<EmployeeMonth>): string
  {
    Join(CsvLines(rows), '\n')
  }

  /** The export of the rows on screen. */
  function ExportCsv(data: seq<EmployeeMonth>, term: string, filterType: string): string
  {
    Csv(FilteredData(data, term, filterType))
  }

  /**
   * The downloaded file holds the header line and one line per row on screen,
   * and each of those lines splits back into its row's fields, provided no
   * name contains a comma or a newline.
   */
  lemma {:induction false} ExportRoundTrip(data: seq<EmployeeMonth>, term: string, filterType: string)
    requires forall i :: 0 <= i < |data| ==> ',' !in data[i].name && '\n' !in data[i].name
    ensures var rows := FilteredData(data, term, filterType);
      var lines := Split(ExportCsv(data, term, filterType), '\n');
      && |lines| == |rows| + 1
      && Split(lines[0], ',') == Header
      && forall i :: 0 <= i < |rows| ==> Split(lines[i + 1], ',') == CsvFields(rows[i])
  {
    var rows := FilteredData(data, term, filterType);
    forall i | 0 <= i < |rows|
      ensures ',' !in rows[i].name && '\n' !in rows[i].name
    {
      var j :| 0 <= j < |data| && data[j] == rows[i];
    }
    CsvRoundTrip(rows);
  }

  /** Names without commas or newlines make a CSV line that splits back into its five fields. */
  lemma LineRoundTrip(e: EmployeeMonth)
    requires ',' !in e.name && '\n' !in e.name
    ensures Split(CsvLine(e), ',') == CsvFields(e)
    ensures '\n' !in CsvLine(e)
  {
    SplitJoin(CsvFields(e), ',');
    JoinAvoids(CsvFields(e), ',', '\n');
  }

  lemma HeaderHasNoSeparators()
    ensures forall k :: 0 <= k < |Header| ==> ',' !in Header[k] && '\n' !in Header[k]
  {
  }

  /** The header line splits back into the five column titles. */
  lemma HeaderRoundTrip()
    ensures Split(Join(Header, ','), ',') == Header
  {
    HeaderHasNoSeparators();
    SplitJoin(Header, ',');
  }

  /** The header is a single line. */
  lemma HeaderIsOneLine()
    ensures '\n' !in Join(Header, ',')
  {
    HeaderHasNoSeparators();
    JoinAvoids(Header, ',', '\n');
  }

  /** When no name contains a comma or a newline, the file splits back into its lines. */
  lemma {:induction false} CsvSplitsIntoLines(rows: seq<EmployeeMonth>)
    requires forall i :: 0 <= i < |rows| ==> ',' !in rows[i].name && '\n' !in rows[i].name
    ensures Split(Csv(rows), '\n') == CsvLines(rows)
  {
    var lines := CsvLines(rows);
    HeaderIsOneLine();
    forall k | 0 <= k < |lines|
      ensures '\n' !in lines[k]
    {
      if k > 0 {
        LineRoundTrip(rows[k - 1]);
      }
    }
    SplitJoin(lines, '\n');
  }

  /**
   * When no name contains a comma or a newline, the file splits back into the
   * header and one line per row, and each line into that row's fields.
   */
  lemma {:induction false} CsvRoundTrip(rows: seq<EmployeeMonth>)
    requires forall i :: 0 <= i < |rows| ==> ',' !in rows[i].name && '\n' !in rows[i].name
    ensures |Split(Csv(rows), '\n')| == |rows| + 1
    ensures Split(Split(Csv(rows), '\n')[0], ',') == Header
    ensures forall i :: 0 <= i < |rows| ==> Split(Split(Csv(rows), '\n')[i + 1], ',') == CsvFields(rows[i])
  {
    CsvSplitsIntoLines(rows);
    var lines := CsvLines(rows);
    assert Split(Csv(rows), '\n') == lines;
    HeaderRoundTrip();
    forall i | 0 <= i < |rows|
      ensures Split(lines[i + 1], ',') == CsvFields(rows[i])
    {
      LineRoundTrip(rows[i]);
    }
  }
}
