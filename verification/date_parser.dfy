/** Dates and times as the bot uses them: the proleptic Gregorian calendar of
    Python's `datetime`, the strict "DD.MM.YYYY" parser, the cutoff check
    against the current time, and the readable "%d %B %Y" rendering used in
    date-range descriptions. */
module DateParser {
  import opened Chars
  import opened Strings
  import opened Wrappers

  datatype Date = Date(year: int, month: int, day: int)

  /** A naive `datetime` to the second; microseconds are not represented. */
  datatype DateTime = DateTime(date: Date, hour: int, minute: int, second: int)

  predicate IsLeapYear(y: int) {
    y % 4 == 0 && (y % 100 != 0 || y % 400 == 0)
  }

  function DaysInMonth(y: int, m: int): (n: int)
    requires 1 <= m <= 12
    ensures 28 <= n <= 31
  {
    if m == 2 then (if IsLeapYear(y) then 29 else 28)
    else if m == 4 || m == 6 || m == 9 || m == 11 then 30
    else 31
  }

  /** The dates `datetime.date` accepts: years 1 to 9999. */
  predicate IsValidDate(d: Date) {
    && 1 <= d.year <= 9999
    && 1 <= d.month <= 12
    && 1 <= d.day <= DaysInMonth(d.year, d.month)
  }

  predicate IsValidDateTime(t: DateTime) {
    IsValidDate(t.date) && 0 <= t.hour < 24 && 0 <= t.minute < 60 && 0 <= t.second < 60
  }

  function Midnight(d: Date): DateTime {
    DateTime(d, 0, 0, 0)
  }

  /** Days in the years before `y` (`_days_before_year`). */
  function DaysBeforeYear(y: int): int {
    var p := y - 1;
    p * 365 + p / 4 - p / 100 + p / 400
  }

  /** Days in the months of year `y` before month `m` (`_days_before_month`). */
  function DaysBeforeMonth(y: int, m: int): int
    requires 1 <= m <= 12
  {
    [0, 31, 59, 90, 120, 151, 181, 212, 243, 273, 304, 334][m - 1]
      + (if m > 2 && IsLeapYear(y) then 1 else 0)
  }

  /** `date.toordinal()`: 1 for 1 January of year 1. */
  function Ordinal(d: Date): int
    requires 1 <= d.month <= 12
  {
    DaysBeforeYear(d.year) + DaysBeforeMonth(d.year, d.month) + d.day
  }

  /** Seconds since the start of the calendar, the order `datetime` compares by. */
  function Instant(t: DateTime): int
    requires 1 <= t.date.month <= 12
  {
    Ordinal(t.date) * 86400 + t.hour * 3600 + t.minute * 60 + t.second
  }

  /** `(later - earlier).days`: whole days, rounded down. */
  function DaysBetween(earlier: DateTime, later: DateTime): int
    requires 1 <= earlier.date.month <= 12 && 1 <= later.date.month <= 12
  {
    (Instant(later) - Instant(earlier)) / 86400
  }

  /** Going from `y - 1` to `y` raises `y / 4` exactly on multiples of 4. */
  lemma QuotientStep4(y: int)
    ensures y / 4 == (y - 1) / 4 + (if y % 4 == 0 then 1 else 0)
  {
  }

  lemma QuotientStep100(y: int)
    ensures y / 100 == (y - 1) / 100 + (if y % 100 == 0 then 1 else 0)
  {
  }

  lemma QuotientStep400(y: int)
    ensures y / 400 == (y - 1) / 400 + (if y % 400 == 0 then 1 else 0)
  {
  }

  /** Century years are multiples of 4, and multiples of 400 are century
      years. */
  lemma CenturyDivisors(y: int)
    ensures y % 100 == 0 ==> y % 4 == 0
    ensures y % 400 == 0 ==> y % 100 == 0
  {
  }

  lemma {:induction false} DaysBeforeYearStep(y: int)
    ensures DaysBeforeYear(y + 1) == DaysBeforeYear(y) + (if IsLeapYear(y) then 366 else 365)
  {
    QuotientStep4(y);
    QuotientStep100(y);
    QuotientStep400(y);
    CenturyDivisors(y);
  }

  lemma DaysThroughYearEnd(d: Date)
    requires IsValidDate(d)
    ensures DaysBeforeMonth(d.year, d.month) + d.day <= (if IsLeapYear(d.year) then 366 else 365)
  {
  }

  /** Between valid dates the ordinal order is the calendar order of years. */
  lemma {:induction false} OrdinalOrdersYears(a: Date, b: Date)
    requires IsValidDate(a) && IsValidDate(b) && a.year < b.year
    ensures Ordinal(a) < Ordinal(b)
    decreases b.year - a.year
  {
    DaysThroughYearEnd(a);
    DaysBeforeYearStep(a.year);
    if a.year + 1 < b.year {
      OrdinalOrdersYears(Date(a.year + 1, 1, 1), b);
    }
  }

  /** `datetime`'s own comparison: the fields compared in turn, year first
      and second last. */
  predicate NotAfter(a: DateTime, b: DateTime) {
    if a.date.year != b.date.year then a.date.year < b.date.year
    else if a.date.month != b.date.month then a.date.month < b.date.month
    else if a.date.day != b.date.day then a.date.day < b.date.day
    else if a.hour != b.hour then a.hour < b.hour
    else if a.minute != b.minute then a.minute < b.minute
    else a.second <= b.second
  }

  /** The second of the day a datetime names. */
  function SecondOfDay(t: DateTime): int {
    t.hour * 3600 + t.minute * 60 + t.second
  }

  /** Within a day the time of day orders the seconds field by field. */
  lemma SecondOfDayOrder(a: DateTime, b: DateTime)
    requires IsValidDateTime(a) && IsValidDateTime(b)
    ensures 0 <= SecondOfDay(a) < 86400
    ensures a.hour < b.hour ==> SecondOfDay(a) < SecondOfDay(b)
    ensures a.hour == b.hour && a.minute < b.minute ==> SecondOfDay(a) < SecondOfDay(b)
  {
  }

  /** A month ends before any later month of the same year begins. */
  lemma MonthEndsBeforeLaterMonth(y: int, m: int, n: int)
    requires 1 <= m < n <= 12
    ensures DaysBeforeMonth(y, m) + DaysInMonth(y, m) <= DaysBeforeMonth(y, n)
  {
  }

  /** Within a year the ordinal follows month, then day. */
  lemma OrdinalOrdersWithinYear(a: Date, b: Date)
    requires IsValidDate(a) && IsValidDate(b) && a.year == b.year
    requires a.month < b.month || (a.month == b.month && a.day < b.day)
    ensures Ordinal(a) < Ordinal(b)
  {
    if a.month < b.month {
      MonthEndsBeforeLaterMonth(a.year, a.month, b.month);
    }
  }

  /** An earlier day is an earlier instant, whatever the times of day. */
  lemma EarlierDayEarlierInstant(a: DateTime, b: DateTime)
    requires IsValidDateTime(a) && IsValidDateTime(b)
    requires Ordinal(a.date) < Ordinal(b.date)
    ensures Instant(a) < Instant(b)
  {
    SecondOfDayOrder(a, b);
    SecondOfDayOrder(b, a);
    var oa, ob := Ordinal(a.date), Ordinal(b.date);
    assert ob * 86400 >= (oa + 1) * 86400;
    assert Instant(a) == oa * 86400 + SecondOfDay(a);
    assert Instant(b) == ob * 86400 + SecondOfDay(b);
  }

  /** Strictly before in the field order means strictly earlier instant. */
  lemma FieldOrderIsInstantOrder(a: DateTime, b: DateTime)
    requires IsValidDateTime(a) && IsValidDateTime(b)
    requires !NotAfter(b, a)
    ensures Instant(a) < Instant(b)
  {
    if a.date.year != b.date.year {
      OrdinalOrdersYears(a.date, b.date);
      EarlierDayEarlierInstant(a, b);
    } else if a.date.month != b.date.month || a.date.day != b.date.day {
      OrdinalOrdersWithinYear(a.date, b.date);
      EarlierDayEarlierInstant(a, b);
    } else {
      SecondOfDayOrder(a, b);
      assert a.date == b.date;
      assert Instant(a) - Instant(b) == SecondOfDay(a) - SecondOfDay(b);
    }
  }

  /** For valid datetimes, comparing instants is comparing fields. */
  lemma InstantOrderIsFieldOrder(a: DateTime, b: DateTime)
    requires IsValidDateTime(a) && IsValidDateTime(b)
    ensures Instant(a) <= Instant(b) <==> NotAfter(a, b)
  {
    if !NotAfter(a, b) {
      FieldOrderIsInstantOrder(b, a);
    } else if !NotAfter(b, a) {
      FieldOrderIsInstantOrder(a, b);
    } else {
      assert a == b;
    }
  }

  // ---------------------------------------------------------------------------
  // strptime(text, "%d.%m.%Y")
  // ---------------------------------------------------------------------------

  /** The three digit fields of a "D.M.YYYY" text. */
  datatype DmyFields = DmyFields(day: string, month: string, year: string)

  predicate WellFormedFields(f: DmyFields) {
    && 1 <= |f.day| <= 2 && AllDigits(f.day)
    && 1 <= |f.month| <= 2 && AllDigits(f.month)
    && |f.year| == 4 && AllDigits(f.year)
  }

  function Render(f: DmyFields): string {
    f.day + "." + f.month + "." + f.year
  }

  /** The whole text has the shape `\d{1,2}\.\d{1,2}\.\d{4}`; its fields. */
  function SplitDmy(t: string): (r: Option<DmyFields>)
    ensures r.Some? ==> WellFormedFields(r.value) && t == Render(r.value)
  {
    var dl := Run(Digits, t);
    if !(1 <= dl <= 2) || dl >= |t| || t[dl] != '.' then None
    else
      var rest := t[dl + 1..];
      var ml := Run(Digits, rest);
      if !(1 <= ml <= 2) || ml >= |rest| || rest[ml] != '.' then None
      else
        var y := rest[ml + 1..];
        if |y| == 4 && AllDigits(y) then
          SplitDmyPieces(t, dl, rest, ml);
          Some(DmyFields(t[..dl], rest[..ml], y))
        else None
  }

  /** The pieces `SplitDmy` cuts out are well-formed fields rendering back to
      the text. */
  lemma SplitDmyPieces(t: string, dl: nat, rest: string, ml: nat)
    requires dl < |t| && t[dl] == '.' && rest == t[dl + 1..]
    requires ml < |rest| && rest[ml] == '.'
    requires dl == Run(Digits, t) && 1 <= dl <= 2 && ml == Run(Digits, rest) && 1 <= ml <= 2
    requires |rest[ml + 1..]| == 4 && AllDigits(rest[ml + 1..])
    ensures WellFormedFields(DmyFields(t[..dl], rest[..ml], rest[ml + 1..]))
    ensures t == Render(DmyFields(t[..dl], rest[..ml], rest[ml + 1..]))
  {
    DigitRunIsDigits(t);
    DigitRunIsDigits(rest);
    SplitAround(t, dl);
    SplitAround(rest, ml);
    var d, m, y := t[..dl], rest[..ml], rest[ml + 1..];
    assert t == d + "." + (m + "." + y);
    assert d + "." + (m + "." + y) == d + "." + m + "." + y;
  }

  lemma RunOfDigitsBeforeDot(d: string, rest: string)
    requires AllDigits(d)
    ensures Run(Digits, d + "." + rest) == |d|
  {
    var t := d + "." + rest;
    assert forall i :: 0 <= i < |d| ==> t[i] == d[i];
    RunStopsAt(Digits, t, |d|);
  }

  /** The shape check reads back exactly the fields a text was built from. */
  lemma SplitDmyOfRender(f: DmyFields)
    requires WellFormedFields(f)
    ensures SplitDmy(Render(f)) == Some(f)
  {
    var rest := f.month + ['.'] + f.year;
    assert Render(f) == f.day + ['.'] + rest;
    RunOfDigitsBeforeDot(f.day, rest);
    RunOfDigitsBeforeDot(f.month, f.year);
    JoinPieces(f.day, '.', rest);
    JoinPieces(f.month, '.', f.year);
  }

  function FieldsDate(f: DmyFields): Date
    requires WellFormedFields(f)
  {
    Date(DecimalValue(f.year), DecimalValue(f.month), DecimalValue(f.day))
  }

  /** `datetime.strptime(t, "%d.%m.%Y")`, as a date. The day alternatives
      `3[01]|[12]\d|0[1-9]|[1-9]` and month alternatives `1[0-2]|0[1-9]|[1-9]`
      followed by a literal '.' accept exactly one or two digits valued 1..31
      and 1..12; `%Y` takes exactly four digits and nothing may follow; the
      date must then exist in the calendar. */
  function Strptime(t: string): (r: Option<Date>)
    ensures r.Some? ==> IsValidDate(r.value)
    ensures r.Some? <==> SplitDmy(t).Some? && IsValidDate(FieldsDate(SplitDmy(t).value))
  {
    match SplitDmy(t)
    case None => None
    case Some(f) =>
      var d := FieldsDate(f);
      if 1 <= d.day <= 31 && 1 <= d.month <= 12 && IsValidDate(d) then Some(d) else None
  }

  // ---------------------------------------------------------------------------
  // parse_dd_mm_yyyy and friends
  // ---------------------------------------------------------------------------

  function FormatError(input: string): string {
    "Date '" + input + "' must be in DD.MM.YYYY format"
  }

  /** `parse_dd_mm_yyyy`: surrounding whitespace is ignored; a valid date gives
      midnight of that day, anything else the ValueError naming the input. */
  function ParseDdMmYyyy(input: string): (r: Result<DateTime>)
    ensures r.Ok? ==> IsValidDateTime(r.value) && r.value == Midnight(r.value.date)
    ensures r.Err? ==> r.error == FormatError(input)
  {
    match Strptime(Strip(input))
    case Some(d) => Ok(Midnight(d))
    case None => Err(FormatError(input))
  }

  /** The zero-padded "dd.mm.yyyy" rendering of a date. */
  function FormatDdMmYyyy(d: Date): string
    requires 0 <= d.day && 0 <= d.month && 0 <= d.year
  {
    ZeroPad(d.day, 2) + "." + ZeroPad(d.month, 2) + "." + ZeroPad(d.year, 4)
  }

  /** The rendering of well-formed fields is parsed by the calendar alone. */
  lemma StrptimeOfRender(f: DmyFields)
    requires WellFormedFields(f)
    ensures Strptime(Render(f)) == if IsValidDate(FieldsDate(f)) then Some(FieldsDate(f)) else None
  {
    SplitDmyOfRender(f);
  }

  lemma RenderIsStripped(f: DmyFields)
    requires WellFormedFields(f)
    ensures Strip(Render(f)) == Render(f)
  {
    var t := Render(f);
    assert t[0] == f.day[0] && t[|t| - 1] == f.year[3];
    DigitIsWordChar(t[0]);
    DigitIsWordChar(t[|t| - 1]);
    StripCharsNoop(t, Whitespace);
  }

  lemma ParseStripped(t: string)
    requires Strip(t) == t
    ensures Strptime(t).Some? ==> ParseDdMmYyyy(t) == Ok(Midnight(Strptime(t).value))
    ensures Strptime(t).None? ==> ParseDdMmYyyy(t) == Err(FormatError(t))
  {
  }

  function PaddedFields(d: Date): DmyFields
    requires 0 <= d.day && 0 <= d.month && 0 <= d.year
  {
    DmyFields(ZeroPad(d.day, 2), ZeroPad(d.month, 2), ZeroPad(d.year, 4))
  }

  lemma PaddedFieldsWellFormed(d: Date)
    requires 0 <= d.day < 100 && 0 <= d.month < 100 && 0 <= d.year < 10000
    ensures WellFormedFields(PaddedFields(d))
    ensures FieldsDate(PaddedFields(d)) == d
    ensures Render(PaddedFields(d)) == FormatDdMmYyyy(d)
  {
    assert Pow10(2) == 100 && Pow10(4) == 10000;
    ZeroPadWidth(d.day, 2);
    ZeroPadWidth(d.month, 2);
    ZeroPadWidth(d.year, 4);
    DecimalValueOfZeroPad(d.day, 2);
    DecimalValueOfZeroPad(d.month, 2);
    DecimalValueOfZeroPad(d.year, 4);
  }

  /** Round trip: a valid date written as "dd.mm.yyyy" parses back to midnight
      of that date. */
  lemma ParseFormatRoundTrip(d: Date)
    requires IsValidDate(d)
    ensures ParseDdMmYyyy(FormatDdMmYyyy(d)) == Ok(Midnight(d))
  {
    var f := PaddedFields(d);
    PaddedFieldsWellFormed(d);
    RenderIsStripped(f);
    StrptimeOfRender(f);
    ParseStripped(Render(f));
  }

  /** A day that does not exist in its month (30.02, 29.02 of a common year,
      month 13, day 0, year 0) is rejected with the format error. */
  lemma ImpossibleDateRejected(d: Date)
    requires 0 <= d.day < 100 && 0 <= d.month < 100 && 0 <= d.year < 10000
    requires !IsValidDate(d)
    ensures ParseDdMmYyyy(FormatDdMmYyyy(d)) == Err(FormatError(FormatDdMmYyyy(d)))
  {
    var f := PaddedFields(d);
    PaddedFieldsWellFormed(d);
    RenderIsStripped(f);
    StrptimeOfRender(f);
    ParseStripped(Render(f));
  }

  lemma StripSurrounded(lead: string, t: string, trail: string)
    requires forall i :: 0 <= i < |lead| ==> IsSpace(lead[i])
    requires forall i :: 0 <= i < |trail| ==> IsSpace(trail[i])
    requires |t| > 0 && !IsSpace(t[0]) && !IsSpace(t[|t| - 1])
    ensures Strip(lead + t + trail) == t
  {
    var s := lead + t + trail;
    assert forall i :: 0 <= i < |lead| ==> s[i] == lead[i];
    assert s[|lead|] == t[0];
    var a := TrimStart(s, Whitespace);
    assert |a| == |t| + |trail|;
    assert a == t + trail;
    assert forall i :: |t| <= i < |a| ==> a[i] == trail[i - |t|];
    assert a[|t| - 1] == t[|t| - 1];
    var b := TrimEnd(a, Whitespace);
    assert |b| == |t|;
  }

  /** Whitespace around the text does not change what is parsed. */
  lemma ParseIgnoresSurroundingWhitespace(lead: string, t: string, trail: string)
    requires forall i :: 0 <= i < |lead| ==> IsSpace(lead[i])
    requires forall i :: 0 <= i < |trail| ==> IsSpace(trail[i])
    requires |t| > 0 && !IsSpace(t[0]) && !IsSpace(t[|t| - 1])
    ensures ParseDdMmYyyy(lead + t + trail).Ok? <==> ParseDdMmYyyy(t).Ok?
    ensures ParseDdMmYyyy(t).Ok? ==> ParseDdMmYyyy(lead + t + trail) == ParseDdMmYyyy(t)
  {
    StripSurrounded(lead, t, trail);
    StripCharsNoop(t, Whitespace);
  }

  /** The leap-year rule decides 29 February. */
  lemma LeapDayParsesIffLeapYear(y: int)
    requires 1 <= y <= 9999
    ensures ParseDdMmYyyy(FormatDdMmYyyy(Date(y, 2, 29))).Ok? <==> IsLeapYear(y)
  {
    if IsLeapYear(y) {
      ParseFormatRoundTrip(Date(y, 2, 29));
    } else {
      ImpossibleDateRejected(Date(y, 2, 29));
    }
  }

  /** Day 31 exists exactly in January, March, May, July, August, October
      and December. */
  lemma ThirtyFirstParsesIffLongMonth(y: int, m: int)
    requires 1 <= y <= 9999 && 1 <= m <= 12
    ensures ParseDdMmYyyy(FormatDdMmYyyy(Date(y, m, 31))).Ok? <==> m in {1, 3, 5, 7, 8, 10, 12}
  {
    if m in {1, 3, 5, 7, 8, 10, 12} {
      ParseFormatRoundTrip(Date(y, m, 31));
    } else {
      ImpossibleDateRejected(Date(y, m, 31));
    }
  }

  /** `is_valid_cutoff_date`: not later than now, in `datetime`'s field order. */
  function IsValidCutoffDate(d: DateTime, now: DateTime): (ok: bool)
    requires 1 <= d.date.month <= 12 && 1 <= now.date.month <= 12
    ensures IsValidDateTime(d) && IsValidDateTime(now) ==> (ok <==> NotAfter(d, now))
  {
    if IsValidDateTime(d) && IsValidDateTime(now) then
      InstantOrderIsFieldOrder(d, now);
      Instant(d) <= Instant(now)
    else
      Instant(d) <= Instant(now)
  }

  // ---------------------------------------------------------------------------
  // format_date_readable, get_date_range_description
  // ---------------------------------------------------------------------------

  // ---------------------------------------------------------------------------
  // strftime / strptime with '%Y%m%d_%H%M%S'
  // ---------------------------------------------------------------------------

  /** `strftime('%Y%m%d')`. `%Y` writes the year in decimal without padding,
      as the C library does. */
  function StampDate(t: DateTime): (r: string)
    requires IsValidDateTime(t)
    ensures |r| == |NatToString(t.date.year)| + 4 && AllDigits(r)
  {
    assert Pow10(2) == 100;
    ZeroPadWidth(t.date.month, 2);
    ZeroPadWidth(t.date.day, 2);
    NatToString(t.date.year) + ZeroPad(t.date.month, 2) + ZeroPad(t.date.day, 2)
  }

  /** `strftime('%H%M%S')` */
  function StampTime(t: DateTime): (r: string)
    requires IsValidDateTime(t)
    ensures |r| == 6 && AllDigits(r)
  {
    assert Pow10(2) == 100;
    ZeroPadWidth(t.hour, 2);
    ZeroPadWidth(t.minute, 2);
    ZeroPadWidth(t.second, 2);
    ZeroPad(t.hour, 2) + ZeroPad(t.minute, 2) + ZeroPad(t.second, 2)
  }

  /** `strftime('%Y%m%d_%H%M%S')` */
  function CompactStamp(t: DateTime): (r: string)
    requires IsValidDateTime(t)
    ensures |r| == |NatToString(t.date.year)| + 11
    ensures AllDigits(r[..|r| - 7]) && r[|r| - 7] == '_' && AllDigits(r[|r| - 6..])
  {
    var r := StampDate(t) + "_" + StampTime(t);
    assert r[..|r| - 7] == StampDate(t) && r[|r| - 6..] == StampTime(t);
    r
  }

  /** The value of the digits `t[i..j]`. */
  function FieldValue(t: string, i: nat, j: nat): nat
    requires i <= j <= |t| && AllDigits(t[i..j])
  {
    DecimalValue(t[i..j])
  }

  predicate DigitField(t: string, i: nat, j: nat)
    requires i <= j <= |t|
  {
    AllDigits(t[i..j])
  }

  /** `datetime.strptime(t, '%Y%m%d_%H%M%S')` on the fixed-width shape
      "YYYYmmdd_HHMMSS" the stamp above produces for years 1000 to 9999; the
      fields must then form a valid date and time. Without a '_' there is
      nothing to match the literal '_' of the format. */
  function ParseCompactStamp(t: string): (r: Option<DateTime>)
    ensures r.Some? ==> IsValidDateTime(r.value)
    ensures '_' !in t ==> r.None?
  {
    if |t| != 15 || t[8] != '_' then None
    else if !(DigitField(t, 0, 4) && DigitField(t, 4, 6) && DigitField(t, 6, 8)
              && DigitField(t, 9, 11) && DigitField(t, 11, 13) && DigitField(t, 13, 15)) then None
    else
      var dt := DateTime(Date(FieldValue(t, 0, 4), FieldValue(t, 4, 6), FieldValue(t, 6, 8)),
                         FieldValue(t, 9, 11), FieldValue(t, 11, 13), FieldValue(t, 13, 15));
      if IsValidDateTime(dt) then Some(dt) else None
  }

  /** Round trip for four-digit years: the stamp parses back to the same
      second. */
  lemma CompactStampRoundTrip(t: DateTime)
    requires IsValidDateTime(t) && t.date.year >= 1000
    ensures ParseCompactStamp(CompactStamp(t)) == Some(t)
  {
    StampDateFields(t);
    StampTimeFields(t);
    ParseJoinedStamp(StampDate(t), StampTime(t));
  }

  /** Parsing an eight-digit date and a six-digit time joined by '_' reads
      the six fields from their fixed places. */
  lemma ParseJoinedStamp(d: string, tm: string)
    requires |d| == 8 && |tm| == 6 && AllDigits(d) && AllDigits(tm)
    ensures var dt := DateTime(Date(DecimalValue(d[0..4]), DecimalValue(d[4..6]), DecimalValue(d[6..8])),
                               DecimalValue(tm[0..2]), DecimalValue(tm[2..4]), DecimalValue(tm[4..6]));
      ParseCompactStamp(d + "_" + tm) == if IsValidDateTime(dt) then Some(dt) else None
  {
    var s := d + "_" + tm;
    assert s[0..4] == d[0..4] && s[4..6] == d[4..6] && s[6..8] == d[6..8];
    assert s[9..11] == tm[0..2] && s[11..13] == tm[2..4] && s[13..15] == tm[4..6];
  }

  /** The date part of a four-digit-year stamp reads back field by field. */
  lemma StampDateFields(t: DateTime)
    requires IsValidDateTime(t) && t.date.year >= 1000
    ensures |StampDate(t)| == 8
    ensures DecimalValue(StampDate(t)[0..4]) == t.date.year
    ensures DecimalValue(StampDate(t)[4..6]) == t.date.month
    ensures DecimalValue(StampDate(t)[6..8]) == t.date.day
  {
    var y := NatToString(t.date.year);
    assert Pow10(3) == 1000 && Pow10(4) == 10000 && Pow10(2) == 100;
    NatToStringAtLeast(t.date.year, 3);
    NatToStringLength(t.date.year, 4);
    ZeroPadWidth(t.date.month, 2);
    ZeroPadWidth(t.date.day, 2);
    var d := StampDate(t);
    assert d[0..4] == y && d[4..6] == ZeroPad(t.date.month, 2) && d[6..8] == ZeroPad(t.date.day, 2);
    DecimalValueOfNatToString(t.date.year);
    DecimalValueOfZeroPad(t.date.month, 2);
    DecimalValueOfZeroPad(t.date.day, 2);
  }

  /** The time part of a stamp reads back field by field. */
  lemma StampTimeFields(t: DateTime)
    requires IsValidDateTime(t)
    ensures DecimalValue(StampTime(t)[0..2]) == t.hour
    ensures DecimalValue(StampTime(t)[2..4]) == t.minute
    ensures DecimalValue(StampTime(t)[4..6]) == t.second
  {
    assert Pow10(2) == 100;
    ZeroPadWidth(t.hour, 2);
    ZeroPadWidth(t.minute, 2);
    ZeroPadWidth(t.second, 2);
    var tm := StampTime(t);
    assert tm[0..2] == ZeroPad(t.hour, 2) && tm[2..4] == ZeroPad(t.minute, 2) && tm[4..6] == ZeroPad(t.second, 2);
    DecimalValueOfZeroPad(t.hour, 2);
    DecimalValueOfZeroPad(t.minute, 2);
    DecimalValueOfZeroPad(t.second, 2);
  }

  const MonthNames: seq<string> := [
    "January", "February", "March", "April", "May", "June",
    "July", "August", "September", "October", "November", "December"]

  lemma MonthNamesHaveNoSpace(m: int)
    requires 1 <= m <= 12
    ensures ' ' !in MonthNames[m - 1]
  {
  }

  /** `strftime("%d %B %Y")` in the C locale: zero-padded day, English month
      name, year in decimal. */
  function FormatDateReadable(t: DateTime): string
    requires IsValidDate(t.date)
  {
    ZeroPad(t.date.day, 2) + " " + MonthNames[t.date.month - 1] + " " + NatToString(t.date.year)
  }

  lemma ReadableParts(t: DateTime)
    requires IsValidDate(t.date)
    ensures |ZeroPad(t.date.day, 2)| == 2
    ensures FormatDateReadable(t)[..2] == ZeroPad(t.date.day, 2)
    ensures FormatDateReadable(t)[3..] == MonthNames[t.date.month - 1] + " " + NatToString(t.date.year)
  {
    assert Pow10(2) == 100;
    ZeroPadWidth(t.date.day, 2);
    var day, rest := ZeroPad(t.date.day, 2), MonthNames[t.date.month - 1] + " " + NatToString(t.date.year);
    assert FormatDateReadable(t) == day + " " + rest;
    JoinPieces(day, ' ', rest);
  }

  /** Different calendar days always read differently. */
  lemma FormatDateReadableInjective(a: DateTime, b: DateTime)
    requires IsValidDate(a.date) && IsValidDate(b.date)
    requires FormatDateReadable(a) == FormatDateReadable(b)
    ensures a.date == b.date
  {
    ReadableParts(a);
    ReadableParts(b);
    DecimalValueOfZeroPad(a.date.day, 2);
    DecimalValueOfZeroPad(b.date.day, 2);
    MonthNamesHaveNoSpace(a.date.month);
    MonthNamesHaveNoSpace(b.date.month);
    SplitAtFirst(MonthNames[a.date.month - 1], NatToString(a.date.year),
                 MonthNames[b.date.month - 1], NatToString(b.date.year), ' ');
    NatToStringInjective(a.date.year, b.date.year);
    assert MonthNames[a.date.month - 1] == MonthNames[b.date.month - 1];
  }

  lemma DistinctDaysReadDifferently(a: DateTime, b: DateTime)
    requires IsValidDate(a.date) && IsValidDate(b.date) && a.date != b.date
    ensures FormatDateReadable(a) != FormatDateReadable(b)
  {
    if FormatDateReadable(a) == FormatDateReadable(b) {
      FormatDateReadableInjective(a, b);
    }
  }

  /** `get_date_range_description`: "on X" when both fall on the same calendar
      day, "from X to Y" otherwise. */
  function GetDateRangeDescription(start: DateTime, end: DateTime): (r: string)
    requires IsValidDate(start.date) && IsValidDate(end.date)
    ensures HasPrefix(r, "on ") <==> start.date == end.date
    ensures HasPrefix(r, "on ") <==> FormatDateReadable(start) == FormatDateReadable(end)
    ensures HasSuffix(r, FormatDateReadable(end))
    ensures start.date == end.date ==> r == "on " + FormatDateReadable(start)
    ensures start.date != end.date ==> r == "from " + FormatDateReadable(start) + " to " + FormatDateReadable(end)
  {
    if start.date == end.date then
      "on " + FormatDateReadable(start)
    else
      var r := "from " + FormatDateReadable(start) + " to " + FormatDateReadable(end);
      assert r[0] == 'f';
      DistinctDaysReadDifferently(start, end);
      r
  }

  /** The readable form as day, month name and year, split at its spaces. */
  lemma ReadableSplit(t: DateTime)
    requires IsValidDate(t.date)
    ensures FormatDateReadable(t) ==
      ZeroPad(t.date.day, 2) + [' '] + MonthNames[t.date.month - 1] + [' '] + NatToString(t.date.year)
    ensures |ZeroPad(t.date.day, 2)| == 2
    ensures ' ' !in ZeroPad(t.date.day, 2)
    ensures ' ' !in MonthNames[t.date.month - 1] && ' ' !in NatToString(t.date.year)
  {
    ReadableParts(t);
    MonthNamesHaveNoSpace(t.date.month);
  }

  /** Three space-free words, a space, then anything: the words and the rest
      are determined. */
  lemma ThreeWordsSplit(d1: string, m1: string, y1: string, b1: string,
                        d2: string, m2: string, y2: string, b2: string)
    requires ' ' !in d1 && ' ' !in m1 && ' ' !in y1
    requires ' ' !in d2 && ' ' !in m2 && ' ' !in y2
    requires d1 + [' '] + m1 + [' '] + y1 + [' '] + b1 == d2 + [' '] + m2 + [' '] + y2 + [' '] + b2
    ensures d1 == d2 && m1 == m2 && y1 == y2 && b1 == b2
  {
    assert d1 + [' '] + m1 + [' '] + y1 + [' '] + b1 == d1 + [' '] + (m1 + [' '] + (y1 + [' '] + b1));
    assert d2 + [' '] + m2 + [' '] + y2 + [' '] + b2 == d2 + [' '] + (m2 + [' '] + (y2 + [' '] + b2));
    SplitAtFirst(d1, m1 + [' '] + (y1 + [' '] + b1), d2, m2 + [' '] + (y2 + [' '] + b2), ' ');
    SplitAtFirst(m1, y1 + [' '] + b1, m2, y2 + [' '] + b2, ' ');
    SplitAtFirst(y1, b1, y2, b2, ' ');
  }

  /** `"from " + x1 + " to " + z1 == "from " + x2 + " to " + z2` with
      three-word `x1` and `x2` separates the two halves. */
  lemma FromToSplit(d1: string, m1: string, y1: string, z1: string,
                    d2: string, m2: string, y2: string, z2: string)
    requires ' ' !in d1 && ' ' !in m1 && ' ' !in y1
    requires ' ' !in d2 && ' ' !in m2 && ' ' !in y2
    requires "from " + (d1 + [' '] + m1 + [' '] + y1) + " to " + z1 == "from " + (d2 + [' '] + m2 + [' '] + y2) + " to " + z2
    ensures d1 + [' '] + m1 + [' '] + y1 == d2 + [' '] + m2 + [' '] + y2 && z1 == z2
  {
    var x1, x2 := d1 + [' '] + m1 + [' '] + y1, d2 + [' '] + m2 + [' '] + y2;
    assert x1 + [' '] + ("to " + z1) == ("from " + x1 + " to " + z1)[5..];
    assert x2 + [' '] + ("to " + z2) == ("from " + x2 + " to " + z2)[5..];
    ThreeWordsSplit(d1, m1, y1, "to " + z1, d2, m2, y2, "to " + z2);
    assert z1 == ("to " + z1)[3..] == ("to " + z2)[3..] == z2;
  }

  /** The readable start and end dates of two "from X to Y" descriptions
      with equal text agree. */
  lemma FromToDescriptionsAgree(s1: DateTime, e1: DateTime, s2: DateTime, e2: DateTime)
    requires IsValidDate(s1.date) && IsValidDate(e1.date) && IsValidDate(s2.date) && IsValidDate(e2.date)
    requires "from " + FormatDateReadable(s1) + " to " + FormatDateReadable(e1)
          == "from " + FormatDateReadable(s2) + " to " + FormatDateReadable(e2)
    ensures s1.date == s2.date && e1.date == e2.date
  {
    ReadableSplit(s1);
    ReadableSplit(s2);
    FromToSplit(ZeroPad(s1.date.day, 2), MonthNames[s1.date.month - 1], NatToString(s1.date.year), FormatDateReadable(e1),
                ZeroPad(s2.date.day, 2), MonthNames[s2.date.month - 1], NatToString(s2.date.year), FormatDateReadable(e2));
    FormatDateReadableInjective(s1, s2);
    FormatDateReadableInjective(e1, e2);
  }

  /** A description names its dates unambiguously: equal descriptions come
      from the same start day and the same end day. */
  lemma RangeDescriptionInjective(s1: DateTime, e1: DateTime, s2: DateTime, e2: DateTime)
    requires IsValidDate(s1.date) && IsValidDate(e1.date) && IsValidDate(s2.date) && IsValidDate(e2.date)
    requires GetDateRangeDescription(s1, e1) == GetDateRangeDescription(s2, e2)
    ensures s1.date == s2.date && e1.date == e2.date
  {
    var r1, r2 := GetDateRangeDescription(s1, e1), GetDateRangeDescription(s2, e2);
    if s1.date == e1.date && s2.date == e2.date {
      assert FormatDateReadable(s1) == r1[3..] == r2[3..] == FormatDateReadable(s2);
      FormatDateReadableInjective(s1, s2);
    } else if s1.date != e1.date && s2.date != e2.date {
      FromToDescriptionsAgree(s1, e1, s2, e2);
    }
  }
}
