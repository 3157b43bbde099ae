/** Calendar dates as the program handles them: HTML date inputs deliver
    `YYYY-MM-DD` text, which is compared, bucketed by month and formatted for
    display with `formatDate`. Time of day and time zones are not modelled. */
module Dates {
  import opened Wrappers
  import opened Numbers

  type Month = m: int | 1 <= m <= 12 witness 1
  type Day = d: int | 1 <= d <= 31 witness 1

  datatype Date = Date(year: nat, month: Month, day: Day)

  predicate IsLeapYear(y: nat) {
    (y % 4 == 0 && y % 100 != 0) || y % 400 == 0
  }

  function DaysInMonth(y: nat, m: Month): (n: Day)
    ensures 28 <= n
  {
    if m == 2 then (if IsLeapYear(y) then 29 else 28)
    else if m == 4 || m == 6 || m == 9 || m == 11 then 30
    else 31
  }

  /** A date that exists on the calendar. */
  predicate Valid(d: Date) {
    d.day <= DaysInMonth(d.year, d.month)
  }

  /** Chronological order: year, then month, then day. */
  predicate LessEq(a: Date, b: Date) {
    a.year < b.year
    || (a.year == b.year && (a.month < b.month || (a.month == b.month && a.day <= b.day)))
  }

  /** An integer key that sorts dates chronologically (`YYYYMMDD` read as
      a number), used where the program orders rows by a date column. */
  function Ordinal(d: Date): nat {
    d.year * 10000 + d.month * 100 + d.day
  }

  /** The key agrees with chronological order, and different dates have
      different keys. */
  lemma OrdinalOrder(a: Date, b: Date)
    ensures LessEq(a, b) <==> Ordinal(a) <= Ordinal(b)
    ensures Ordinal(a) == Ordinal(b) ==> a == b
  {
    var ra := a.month * 100 + a.day;
    var rb := b.month * 100 + b.day;
    assert 101 <= ra < 10000 && 101 <= rb < 10000;
    if a.year < b.year {
      assert a.year * 10000 + 10000 <= b.year * 10000;
    } else if b.year < a.year {
      assert b.year * 10000 + 10000 <= a.year * 10000;
    }
  }

  lemma LessEqTotal(a: Date, b: Date)
    ensures LessEq(a, b) || LessEq(b, a)
    ensures LessEq(a, b) && LessEq(b, a) ==> a == b
  {
  }

  /** The whole of calendar year `y`: January 1 up to December 31. */
  function YearStart(y: nat): Date { Date(y, 1, 1) }
  function YearEnd(y: nat): Date { Date(y, 12, 31) }

  /** A date lies between January 1 and December 31 of `y`, both included,
      exactly when it falls in year `y`. */
  lemma YearRange(y: nat, d: Date)
    ensures LessEq(YearStart(y), d) && LessEq(d, YearEnd(y)) <==> d.year == y
  {
  }

  /** Two decimal digits, zero-padded (`String(n).padStart(2, '0')`). */
  function Pad2(n: nat): string {
    PadStart(NatToString(n), 2, '0')
  }

  lemma Pad2Digits(n: nat)
    requires n < 100
    ensures |Pad2(n)| == 2 && AllDigits(Pad2(n)) && DigitsToNat(Pad2(n)) == n
  {
    var s := NatToString(n);
    NatToStringLength(n, 2);
    NatStringRoundTrip(n);
    if |s| < 2 {
      LeadingZeros(2 - |s|, s);
    }
  }

  /** The `YYYY-MM-DD` text of a date. */
  function IsoText(d: Date): string {
    NatToString(d.year) + "-" + Pad2(d.month) + "-" + Pad2(d.day)
  }

  /** The `DD/MM/YYYY` text of a date. */
  function DisplayText(d: Date): string {
    Pad2(d.day) + "/" + Pad2(d.month) + "/" + NatToString(d.year)
  }

  /** Reads `YYYY-MM-DD` text, the value of an HTML date input; `None` for
      anything else or a day the month does not have. */
  function ParseIso(s: string): (r: Option<Date>)
    ensures r.Some? ==> Valid(r.value) && |s| == 10
  {
    if |s| == 10 && s[4] == '-' && s[7] == '-'
       && AllDigits(s[..4]) && AllDigits(s[5..7]) && AllDigits(s[8..])
    then
      var y := DigitsToNat(s[..4]);
      var m := DigitsToNat(s[5..7]);
      var d := DigitsToNat(s[8..]);
      if 1 <= m <= 12 && 1 <= d <= DaysInMonth(y, m) then Some(Date(y, m, d)) else None
    else None
  }

  /** `new Date(s)` for the date values rows carry: `YYYY-MM-DD`, or that
      text followed by a `T` and a time of day, which is ignored. */
  function ParseDateTime(s: string): (r: Option<Date>)
    ensures |s| == 10 ==> r == ParseIso(s)
    ensures r.Some? ==> |s| >= 10 && Valid(r.value) && r == ParseIso(s[..10])
  {
    if |s| == 10 then assert s[..10] == s; ParseIso(s)
    else if |s| > 10 && s[10] == 'T' then ParseIso(s[..10])
    else None
  }

  /** Writing a date as `YYYY-MM-DD` and reading it back gives the date, for
      the four-digit years the inputs accept. */
  lemma IsoRoundTrip(d: Date)
    requires Valid(d) && 1000 <= d.year <= 9999
    ensures ParseIso(IsoText(d)) == Some(d)
  {
    var y := NatToString(d.year);
    assert Pow10(3) == 1000 && Pow10(4) == 10000;
    NatToStringLength(d.year, 4);
    NatStringRoundTrip(d.year);
    Pad2Digits(d.month);
    Pad2Digits(d.day);
    var s := IsoText(d);
    assert s[..4] == y;
    assert s[5..7] == Pad2(d.month);
    assert s[8..] == Pad2(d.day);
  }

  /** The format name that selects `YYYY-MM-DD`; every other name, the
      default `DD/MM/YYYY` included, selects the day-first layout. */
  const IsoFormat: string := "YYYY-MM-DD"
  const DisplayFormat: string := "DD/MM/YYYY"

  /** `formatDate(input, format)`: empty text and text `new Date` cannot
      read give the empty string; otherwise the date in the chosen layout.
      A date-time value such as a `DATE` column sent by the server is read
      through its date part. */
  function FormatDate(input: string, format: string): (r: string)
    ensures input == "" || ParseDateTime(input).None? <==> r == ""
    ensures ParseDateTime(input).Some? && format == IsoFormat ==> r == IsoText(ParseDateTime(input).value)
    ensures ParseDateTime(input).Some? && format != IsoFormat ==> r == DisplayText(ParseDateTime(input).value)
  {
    if input == "" then ""
    else match ParseDateTime(input)
      case None => ""
      case Some(d) => if format == IsoFormat then IsoText(d) else DisplayText(d)
  }

  /** Formatting an input date for the input format gives the input back. */
  lemma FormatIsoIdentity(d: Date)
    requires Valid(d) && 1000 <= d.year <= 9999
    ensures FormatDate(IsoText(d), IsoFormat) == IsoText(d)
  {
    IsoRoundTrip(d);
  }

  /** A date followed by a time of day formats as the date alone. */
  lemma FormatDateTimeOf(d: Date, time: string)
    requires Valid(d) && 1000 <= d.year <= 9999
    ensures FormatDate(IsoText(d) + "T" + time, DisplayFormat) == DisplayText(d)
    ensures FormatDate(IsoText(d) + "T" + time, IsoFormat) == IsoText(d)
  {
    IsoRoundTrip(d);
    var s := IsoText(d) + "T" + time;
    assert s[..10] == IsoText(d) && s[10] == 'T';
  }

  /** Formatting an input date for display gives the day-first layout. */
  lemma FormatDisplayOf(d: Date)
    requires Valid(d) && 1000 <= d.year <= 9999
    ensures FormatDate(IsoText(d), DisplayFormat) == DisplayText(d)
  {
    IsoRoundTrip(d);
  }

  /** Both layouts hold the same three fields: zero-padded day and month,
      and the year, in opposite order with different separators. */
  lemma FormatLayouts(d: Date)
    requires Valid(d) && 1000 <= d.year <= 9999
    ensures var iso := FormatDate(IsoText(d), IsoFormat);
            var disp := FormatDate(IsoText(d), DisplayFormat);
            |iso| == 10 && |disp| == 10
            && disp[..2] == iso[8..] && disp[3..5] == iso[5..7] && disp[6..] == iso[..4]
            && disp[2] == '/' && disp[5] == '/'
  {
    FormatIsoIdentity(d);
    FormatDisplayOf(d);
    LayoutFields(d);
  }

  /** The two layouts of one date, field by field. */
  lemma LayoutFields(d: Date)
    requires Valid(d) && 1000 <= d.year <= 9999
    ensures var iso, disp := IsoText(d), DisplayText(d);
            |iso| == 10 && |disp| == 10
            && disp[..2] == iso[8..] && disp[3..5] == iso[5..7] && disp[6..] == iso[..4]
            && disp[2] == '/' && disp[5] == '/'
  {
    assert Pow10(3) == 1000 && Pow10(4) == 10000;
    NatToStringLength(d.year, 4);
    Pad2Digits(d.month);
    Pad2Digits(d.day);
    var y, m, dd := NatToString(d.year), Pad2(d.month), Pad2(d.day);
    var iso := y + "-" + m + "-" + dd;
    var disp := dd + "/" + m + "/" + y;
    assert iso == IsoText(d) && disp == DisplayText(d);
    assert iso[8..] == dd && iso[5..7] == m && iso[..4] == y;
    assert disp[..2] == dd && disp[3..5] == m && disp[6..] == y;
  }
}
