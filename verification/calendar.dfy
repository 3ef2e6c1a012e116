/** Calendar buckets of a day number (days since 1970-01-01 in the proleptic
    Gregorian calendar, the calendar pandas uses): the "YYYY-MM" month label of
    `dt.to_period("M").astype(str)` and the English day name of `dt.day_name()`. */
module Calendar {

  datatype Civil = Civil(year: int, month: int, day: int)

  /** Gregorian leap years: every fourth year, except centuries not divisible by 400. */
  predicate IsLeap(y: int)
  {
    y % 4 == 0 && (y % 100 != 0 || y % 400 == 0)
  }

  const CommonMonthLengths: seq<int> := [31, 28, 31, 30, 31, 30, 31, 31, 30, 31, 30, 31]

  /** Days in month `m` of year `y`. */
  function MonthLength(y: int, m: int): int
    requires 1 <= m <= 12
  {
    CommonMonthLengths[m - 1] + if m == 2 && IsLeap(y) then 1 else 0
  }

  /** A day of a 400-year era split into the century (36524 days; the last one
      absorbs the era's extra leap day) and the day within it. */
  function CenturyOfEra(doe: int): (r: (int, int))
    requires 0 <= doe < 146097
    ensures 0 <= r.0 <= 3 && 0 <= r.1 <= 36524 && 36524 * r.0 + r.1 == doe
    ensures r.1 == 36524 ==> r.0 == 3
  {
    var cent := if doe / 36524 < 3 then doe / 36524 else 3;
    (cent, doe - 36524 * cent)
  }

  /** A day of a century split into the four-year cycle (1461 days) and the day within it. */
  function CycleOfCentury(doc: int): (r: (int, int))
    requires 0 <= doc <= 36524
    ensures 0 <= r.0 <= 24 && 0 <= r.1 <= 1460 && 1461 * r.0 + r.1 == doc
  {
    (doc / 1461, doc % 1461)
  }

  /** A day of a four-year cycle split into the year (365 days; the last one absorbs
      the leap day) and the day within it. */
  function YearOfCycle(doq: int): (r: (int, int))
    requires 0 <= doq <= 1460
    ensures 0 <= r.0 <= 3 && 0 <= r.1 <= 365 && 365 * r.0 + r.1 == doq
    ensures r.1 == 365 ==> r.0 == 3
  {
    var yq := if doq / 365 < 3 then doq / 365 else 3;
    (yq, doq - 365 * yq)
  }

  /** A day of an era (counted from 1 March of its first year) as the year of the
      era and the day of that March-based year. The years before it hold 365 days
      each plus one per leap day, and only a year ending in a leap day has a day 365. */
  function YearOfEra(doe: int): (r: (int, int))
    requires 0 <= doe < 146097
    ensures 0 <= r.0 < 400 && 0 <= r.1 <= 365
    ensures 365 * r.0 + r.0 / 4 - r.0 / 100 + r.1 == doe
    ensures r.1 == 365 ==> IsLeap(r.0 + 1)
  {
    var (cent, doc) := CenturyOfEra(doe);
    var (quad, doq) := CycleOfCentury(doc);
    var (yq, doy) := YearOfCycle(doq);
    YearParts(cent, quad, yq);
    LeapAtCycleEnd(cent, quad);
    (100 * cent + 4 * quad + yq, doy)
  }

  lemma YearParts(cent: int, quad: int, yq: int)
    requires 0 <= cent <= 3 && 0 <= quad <= 24 && 0 <= yq <= 3
    ensures var yoe := 100 * cent + 4 * quad + yq;
      yoe / 4 == 25 * cent + quad && yoe / 100 == cent
  {
  }

  lemma LeapAtCycleEnd(cent: int, quad: int)
    requires 0 <= cent <= 3 && 0 <= quad <= 24
    ensures (quad == 24 ==> cent == 3) ==> IsLeap(100 * cent + 4 * quad + 4)
  {
  }

  /** Days from 1 March to the first of month `m` of the same March-based year. */
  function MarchDaysBefore(m: int): int
    requires 1 <= m <= 12
  {
    if m >= 3 then DaysBeforeMonthCommon[m - 1] - 59 else DaysBeforeMonthCommon[m - 1] + 306
  }

  /** Month and day of a day of a March-based year; day 365 is 29 February. */
  function MonthOfMarchYear(doy: int): (r: (int, int))
    requires 0 <= doy <= 365
    ensures 1 <= r.0 <= 12 && 1 <= r.1 && doy == MarchDaysBefore(r.0) + r.1 - 1
    ensures r.1 <= CommonMonthLengths[r.0 - 1] || (r.0 == 2 && r.1 == 29 && doy == 365)
  {
    var mp := (5 * doy + 2) / 153;
    var m := if mp < 10 then mp + 3 else mp - 9;
    (m, doy - (153 * mp + 2) / 5 + 1)
  }

  /** The number of leap years among years 1 to y - 1 (negative, by floor division,
      before year 1). */
  function LeapsBefore(y: int): int
  {
    (y - 1) / 4 - (y - 1) / 100 + (y - 1) / 400
  }

  const DaysBeforeMonthCommon: seq<int> := [0, 31, 59, 90, 120, 151, 181, 212, 243, 273, 304, 334]

  /** Days of the months before month `m` of year `y`. */
  function DaysBeforeMonth(y: int, m: int): int
    requires 1 <= m <= 12
  {
    DaysBeforeMonthCommon[m - 1] + if m > 2 && IsLeap(y) then 1 else 0
  }

  /** The day number of a date, counted directly: 365 days for every year from
      1970, one more for every leap year in between, then the days of the earlier
      months and of the month up to the date. */
  function DaysFromCivil(c: Civil): int
    requires 1 <= c.month <= 12
  {
    365 * (c.year - 1970) + LeapsBefore(c.year) - LeapsBefore(1970) + DaysBeforeMonth(c.year, c.month) + c.day - 1
  }

  /** Year, month and day of a day number: 400-year eras of 146097 days, years
      counted from March so that the leap day comes last. The result is a valid
      date, and counting the days from 1970-01-01 to it gives the day number back. */
  function CivilFromDays(days: int): (c: Civil)
    ensures 1 <= c.month <= 12 && 1 <= c.day <= MonthLength(c.year, c.month)
    ensures DaysFromCivil(c) == days
  {
    var z := days + 719468;
    CivilInEra(z / 146097, z % 146097)
  }

  /** The date on day `doe` of era `era`, whose day 0 is 1 March of year 400 * era. */
  function CivilInEra(era: int, doe: int): (c: Civil)
    requires 0 <= doe < 146097
    ensures 1 <= c.month <= 12 && 1 <= c.day <= MonthLength(c.year, c.month)
    ensures DaysFromCivil(c) == era * 146097 + doe - 719468
  {
    var (yoe, doy) := YearOfEra(doe);
    var (m, d) := MonthOfMarchYear(doy);
    var y := yoe + era * 400;
    LeapInEra(era, yoe + 1);
    RoundTripParts(era, yoe, m, d);
    Civil(if m <= 2 then y + 1 else y, m, d)
  }

  /** Leap years repeat every 400 years. */
  lemma LeapInEra(era: int, y: int)
    ensures IsLeap(400 * era + y) == IsLeap(y)
  {
    var x := 400 * era + y;
    assert x / 4 == 100 * era + y / 4;
    assert x / 100 == 4 * era + y / 100;
    assert x / 400 == era + y / 400;
  }

  lemma DivStep(y: int, k: int)
    requires k == 4 || k == 100 || k == 400
    ensures y / k - (y - 1) / k == if y % k == 0 then 1 else 0
  {
  }

  /** The leap-year count grows by one exactly after a leap year. */
  lemma LeapsStep(y: int)
    ensures LeapsBefore(y + 1) == LeapsBefore(y) + if IsLeap(y) then 1 else 0
  {
    DivStep(y, 4); DivStep(y, 100); DivStep(y, 400);
  }

  /** Each full era holds 97 leap years. */
  lemma EraSplit(era: int, yoe: int)
    requires 0 <= yoe < 400
    ensures LeapsBefore(400 * era + yoe + 1) == 97 * era + yoe / 4 - yoe / 100
  {
    var y := 400 * era + yoe;
    assert y / 4 == 100 * era + yoe / 4;
    assert y / 100 == 4 * era + yoe / 100;
    assert y / 400 == era;
  }

  /** The day count of the date in month `m` of March-based year `yoe` of an era
      is the era's days, the earlier years' days and the days into that year. */
  lemma RoundTripParts(era: int, yoe: int, m: int, d: int)
    requires 0 <= yoe < 400 && 1 <= m <= 12
    ensures var y := yoe + era * 400;
      DaysFromCivil(Civil(if m <= 2 then y + 1 else y, m, d))
        == era * 146097 + 365 * yoe + yoe / 4 - yoe / 100 + MarchDaysBefore(m) + d - 1 - 719468
  {
    var y := yoe + era * 400;
    EraSplit(era, yoe);
    if m > 2 {
      LeapsStep(y);
    }
  }

  /** A date whose month exists and whose day exists in that month. */
  predicate ValidCivil(c: Civil)
  {
    1 <= c.month <= 12 && 1 <= c.day <= MonthLength(c.year, c.month)
  }

  /** Every valid date is the conversion of its own day count, so the conversion
      and the count are inverse bijections between day numbers and valid dates. */
  lemma CountRoundTrip(c: Civil)
    requires ValidCivil(c)
    ensures CivilFromDays(DaysFromCivil(c)) == c
  {
    CountInjective(c, CivilFromDays(DaysFromCivil(c)));
  }

  /** Two valid dates with the same day count are the same date. */
  lemma CountInjective(a: Civil, b: Civil)
    requires ValidCivil(a) && ValidCivil(b) && DaysFromCivil(a) == DaysFromCivil(b)
    ensures a == b
  {
    if a.year < b.year {
      EarlierYearEarlier(a, b);
    } else if b.year < a.year {
      EarlierYearEarlier(b, a);
    } else if a.month < b.month {
      EarlierMonthEarlier(a.year, a.month, b.month);
    } else if b.month < a.month {
      EarlierMonthEarlier(a.year, b.month, a.month);
    }
  }

  /** The day number of 1 January of year `y`. */
  function YearStart(y: int): int
  {
    365 * (y - 1970) + LeapsBefore(y) - LeapsBefore(1970)
  }

  /** A valid date's day count lies within its year. */
  lemma WithinYear(c: Civil)
    requires ValidCivil(c)
    ensures YearStart(c.year) <= DaysFromCivil(c) < YearStart(c.year + 1)
  {
    LeapsStep(c.year);
  }

  lemma {:induction false} YearStartMonotone(y: int, y': int)
    requires y <= y'
    ensures YearStart(y) <= YearStart(y')
    decreases y' - y
  {
    if y < y' {
      YearStartMonotone(y, y' - 1);
      LeapsStep(y' - 1);
    }
  }

  lemma EarlierYearEarlier(a: Civil, b: Civil)
    requires ValidCivil(a) && ValidCivil(b) && a.year < b.year
    ensures DaysFromCivil(a) < DaysFromCivil(b)
  {
    WithinYear(a);
    WithinYear(b);
    YearStartMonotone(a.year + 1, b.year);
  }

  lemma MonthStep(y: int, m: int)
    requires 1 <= m < 12
    ensures DaysBeforeMonth(y, m + 1) == DaysBeforeMonth(y, m) + MonthLength(y, m)
  {
  }

  /** The days before a later month cover every day of an earlier month. */
  lemma {:induction false} EarlierMonthEarlier(y: int, m: int, m': int)
    requires 1 <= m < m' <= 12
    ensures DaysBeforeMonth(y, m) + MonthLength(y, m) <= DaysBeforeMonth(y, m')
    decreases m' - m
  {
    MonthStep(y, m' - 1);
    if m < m' - 1 {
      EarlierMonthEarlier(y, m, m' - 1);
    }
  }

  /** 0 for Monday through 6 for Sunday; 1970-01-01 was a Thursday. */
  function Weekday(days: int): (w: nat)
    ensures w < 7
  {
    (days + 3) % 7
  }

  const DayNames: seq<string> :=
    ["Monday", "Tuesday", "Wednesday", "Thursday", "Friday", "Saturday", "Sunday"]

  /** No weekday is named like the dashboard's "-" placeholder. */
  lemma NoDayNamedDash()
    ensures forall i :: 0 <= i < |DayNames| ==> DayNames[i] != "-"
  {
  }

  function DayName(days: int): (name: string)
    ensures name in DayNames
  {
    DayNames[Weekday(days)]
  }

  /** Decimal digits of a natural number, most significant first. */
  function Digits(n: nat): (s: string)
    ensures |s| >= 1
    ensures forall i :: 0 <= i < |s| ==> '0' <= s[i] <= '9'
  {
    if n < 10 then [DigitChar(n)] else Digits(n / 10) + [DigitChar(n % 10)]
  }

  function DigitChar(d: nat): (c: char)
    requires d < 10
    ensures '0' <= c <= '9'
  {
    ['0', '1', '2', '3', '4', '5', '6', '7', '8', '9'][d]
  }

  function ZeroPad(s: string, width: nat): (r: string)
    ensures |r| == if |s| < width then width else |s|
    ensures r[|r| - |s|..] == s
    ensures forall i :: 0 <= i < |r| - |s| ==> r[i] == '0'
    decreases width - |s|
  {
    if |s| < width then
      var t := ['0'] + s;
      assert |t| == |s| + 1;
      var r := ZeroPad(t, width);
      PadStep(r, s);
      r
    else s
  }

  /** A string ending in "0" followed by `s` ends in `s`, with a zero just before it. */
  lemma PadStep(r: string, s: string)
    requires |r| > |s| && r[|r| - |s| - 1..] == ['0'] + s
    ensures r[|r| - |s|..] == s && r[|r| - |s| - 1] == '0'
  {
    assert r[|r| - |s|..] == r[|r| - |s| - 1..][1..];
  }

  /** The `Bulan` label of a day number: it reads back as the year and month of
      that day. */
  function MonthLabel(days: int): (text: string)
    ensures ParseLabel(text) == (CivilFromDays(days).year, CivilFromDays(days).month)
    ensures |text| >= 7 && text[|text| - 3] == '-'
  {
    var c := CivilFromDays(days);
    var text := YearMonthLabel(c.year, c.month);
    LabelRoundTrip(c.year, c.month);
    text
  }

  /** Two days share a month label exactly when they fall in the same month of the
      same year, so grouping by the label groups by calendar month. */
  lemma SameMonthLabel(a: int, b: int)
    ensures MonthLabel(a) == MonthLabel(b) <==>
      CivilFromDays(a).year == CivilFromDays(b).year && CivilFromDays(a).month == CivilFromDays(b).month
  {
  }

  /** `Period.strftime("%Y-%m")`: four-digit zero-padded year, dash, two-digit month. */
  function YearMonthLabel(year: int, month: nat): string
  {
    YearText(year) + "-" + ZeroPad(Digits(month), 2)
  }

  /** The year zero-padded to four digits. Years before year 0 cannot occur in pandas
      (its timestamps span 1677 to 2262); they are written with a leading minus sign. */
  function YearText(year: int): string
  {
    if year < 0 then "-" + ZeroPad(Digits(-year), 4) else ZeroPad(Digits(year), 4)
  }

  /** The number a string of decimal digits denotes. */
  function DecimalValue(s: string): int
  {
    if s == [] then 0 else 10 * DecimalValue(s[..|s| - 1]) + (s[|s| - 1] as int - '0' as int)
  }

  /** The year a year text denotes. */
  function YearValue(text: string): int
  {
    if text != [] && text[0] == '-' then -DecimalValue(text[1..]) else DecimalValue(text)
  }

  /** Reads a label back: the last two characters are the month and everything
      before the dash preceding them is the year. */
  function ParseLabel(text: string): (int, int)
  {
    if |text| < 3 then (0, 0) else (YearValue(text[..|text| - 3]), DecimalValue(text[|text| - 2..]))
  }

  /** Every year and month label reads back as its own year and month. */
  lemma LabelRoundTrip(year: int, month: int)
    requires 1 <= month <= 12
    ensures ParseLabel(YearMonthLabel(year, month)) == (year, month)
    ensures var text := YearMonthLabel(year, month); |text| >= 7 && text[|text| - 3] == '-'
  {
    var y := YearText(year);
    var m := ZeroPad(Digits(month), 2);
    ShortDigits(month);
    LabelParts(y, m);
    DigitsValue(month);
    PaddedValue(Digits(month), 2);
    YearTextValue(year);
  }

  /** A label splits back into the year text and the two month characters. */
  lemma LabelParts(y: string, m: string)
    requires |m| == 2
    ensures ParseLabel(y + "-" + m) == (YearValue(y), DecimalValue(m))
    ensures (y + "-" + m)[|y|] == '-'
  {
    var text := y + "-" + m;
    assert text[..|text| - 3] == y;
    assert text[|text| - 2..] == m;
  }

  lemma YearTextValue(year: int)
    ensures YearValue(YearText(year)) == year
  {
    var n: nat := if year < 0 then -year else year;
    var t := ZeroPad(Digits(n), 4);
    PaddedNumber(n, 4);
    if year < 0 {
      var text := "-" + t;
      assert text[0] == '-' && text[1..] == t;
      assert YearText(year) == text;
    } else {
      assert YearText(year) == t && t[0] != '-';
    }
  }

  /** A zero-padded number denotes the number and starts with a digit. */
  lemma PaddedNumber(n: nat, width: nat)
    ensures var t := ZeroPad(Digits(n), width);
      DecimalValue(t) == n && '0' <= t[0] <= '9'
  {
    DigitsValue(n);
    PaddedValue(Digits(n), width);
  }

  lemma ShortDigits(n: nat)
    requires n < 100
    ensures |Digits(n)| <= 2
  {
  }

  lemma {:induction false} DigitsValue(n: nat)
    ensures DecimalValue(Digits(n)) == n
  {
    if n >= 10 {
      var s := Digits(n);
      assert s[..|s| - 1] == Digits(n / 10);
      DigitsValue(n / 10);
    }
  }

  /** Leading zeros do not change a value. */
  lemma {:induction false} PaddedValue(s: string, width: nat)
    ensures DecimalValue(ZeroPad(s, width)) == DecimalValue(s)
    decreases width - |s|
  {
    if |s| < width {
      PaddedValue(['0'] + s, width);
      LeadingZero(s);
    }
  }

  lemma {:induction false} LeadingZero(s: string)
    ensures DecimalValue(['0'] + s) == DecimalValue(s)
  {
    if s != [] {
      assert (['0'] + s)[..|s|] == ['0'] + s[..|s| - 1];
      LeadingZero(s[..|s| - 1]);
    }
  }

  /** Stepping a week returns to the same weekday; stepping a day moves to the next. */
  lemma WeekdayPeriodic(days: int)
    ensures Weekday(days + 7) == Weekday(days)
    ensures Weekday(days + 1) == (Weekday(days) + 1) % 7
  {
  }

  // Known dates, each obtained from its day count.

  lemma EpochIsFirstOfJanuary1970()
    ensures CivilFromDays(0) == Civil(1970, 1, 1)
  {
    CountRoundTrip(Civil(1970, 1, 1));
  }

  lemma DayBeforeEpoch()
    ensures CivilFromDays(-1) == Civil(1969, 12, 31)
  {
    assert DaysFromCivil(Civil(1969, 12, 31)) == -1;
    CountRoundTrip(Civil(1969, 12, 31));
  }

  lemma FirstOfJanuary2024()
    ensures CivilFromDays(19723) == Civil(2024, 1, 1)
  {
    assert DaysFromCivil(Civil(2024, 1, 1)) == 19723;
    CountRoundTrip(Civil(2024, 1, 1));
  }

  lemma SecondAndThirdOfJanuary2024()
    ensures CivilFromDays(19724) == Civil(2024, 1, 2)
    ensures CivilFromDays(19725) == Civil(2024, 1, 3)
  {
    assert DaysFromCivil(Civil(2024, 1, 2)) == 19724;
    CountRoundTrip(Civil(2024, 1, 2));
    assert DaysFromCivil(Civil(2024, 1, 3)) == 19725;
    CountRoundTrip(Civil(2024, 1, 3));
  }

  lemma LeapDay2024()
    ensures CivilFromDays(19782) == Civil(2024, 2, 29)
  {
    assert DaysFromCivil(Civil(2024, 2, 29)) == 19782;
    CountRoundTrip(Civil(2024, 2, 29));
  }

  lemma KnownWeekdays()
    ensures DayName(0) == "Thursday" && DayName(19723) == "Monday" && DayName(19782) == "Thursday"
  {
  }

  /** Every day of January 2024 is labelled "2024-01". */
  lemma JanuaryLabel(days: int)
    requires CivilFromDays(days).year == 2024 && CivilFromDays(days).month == 1
    ensures MonthLabel(days) == "2024-01"
  {
    January2024Label();
  }

  lemma January2024Label()
    ensures YearMonthLabel(2024, 1) == "2024-01"
  {
    YearDigits2024();
    assert ZeroPad("2024", 4) == "2024";
    assert Digits(1) == "1";
    assert ZeroPad("1", 2) == ZeroPad("01", 2) == "01";
  }

  lemma YearDigits2024()
    ensures Digits(2024) == "2024"
  {
    assert 2024 / 10 == 202 && 2024 % 10 == 4;
    assert 202 / 10 == 20 && 202 % 10 == 2;
    assert 20 / 10 == 2 && 20 % 10 == 0;
    assert Digits(2) == "2";
    assert Digits(20) == "2" + "0";
    assert Digits(202) == "20" + "2";
  }
}
