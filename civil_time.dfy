/** The part of Python's `datetime` the modelled code relies on: converting epoch
    seconds to a UTC civil date-time (`datetime.utcfromtimestamp`), rendering it
    (`strftime`) and reading the engine's timestamp text back (`strptime` with
    `'%Y-%m-%d %H:%M:%S.%f'`). Dates follow the proleptic Gregorian calendar and
    `datetime` only represents the years 1 to 9999. */
module CivilTime {
  import opened Wrappers
  import opened Text

  datatype Date = Date(year: int, month: int, day: int)

  datatype DateTime = DateTime(year: int, month: int, day: int, hour: int, minute: int, second: int)

  predicate IsLeapYear(y: int) {
    y % 4 == 0 && (y % 100 != 0 || y % 400 == 0)
  }

  function DaysInMonth(y: int, m: int): int
    requires 1 <= m <= 12
  {
    if m == 2 then (if IsLeapYear(y) then 29 else 28)
    else if m == 4 || m == 6 || m == 9 || m == 11 then 30
    else 31
  }

  predicate ValidDate(d: Date) {
    1 <= d.month <= 12 && 1 <= d.day <= DaysInMonth(d.year, d.month)
  }

  /** What a `datetime` object can hold. */
  predicate Valid(dt: DateTime) {
    && 1 <= dt.year <= 9999
    && ValidDate(Date(dt.year, dt.month, dt.day))
    && 0 <= dt.hour < 24 && 0 <= dt.minute < 60 && 0 <= dt.second < 60
  }

  const SecondsPerDay := 86400
  /** Days from 0000-03-01 to 1970-01-01. */
  const EpochShift := 719468
  const DaysPer400Years := 146097
  const DaysPer100Years := 36524
  const DaysPer4Years := 1461

  /** First day of each month in a year that starts on 1 March (index 0 is March, 11 is February). */
  function MarchMonthStart(i: nat): nat
    requires i < 12
  {
    [0, 31, 61, 92, 122, 153, 184, 214, 245, 275, 306, 337][i]
  }

  function MarchMonth(dayOfYear: nat): (i: nat)
    requires dayOfYear < 366
    ensures i < 12 && MarchMonthStart(i) <= dayOfYear
    ensures i < 11 ==> dayOfYear < MarchMonthStart(i + 1)
  {
    if dayOfYear < 31 then 0 else if dayOfYear < 61 then 1 else if dayOfYear < 92 then 2
    else if dayOfYear < 122 then 3 else if dayOfYear < 153 then 4 else if dayOfYear < 184 then 5
    else if dayOfYear < 214 then 6 else if dayOfYear < 245 then 7 else if dayOfYear < 275 then 8
    else if dayOfYear < 306 then 9 else if dayOfYear < 337 then 10 else 11
  }

  /** A day count from 0000-03-01 split into 400-year eras, centuries, 4-year blocks and years.
      Every century but the last of an era is one day short; every 4-year block but the last
      of a short century has a leap day at its end. */
  datatype Blocks = Blocks(era: int, century: nat, quad: nat, yearOfQuad: nat, dayOfYear: nat)

  function Decompose(n: int): Blocks
  {
    var era, dayOfEra := n / DaysPer400Years, n % DaysPer400Years;
    var century := if dayOfEra / DaysPer100Years == 4 then 3 else dayOfEra / DaysPer100Years;
    var dayOfCentury := dayOfEra - DaysPer100Years * century;
    var quad, dayOfQuad := dayOfCentury / DaysPer4Years, dayOfCentury % DaysPer4Years;
    var yearOfQuad := if dayOfQuad / 365 == 4 then 3 else dayOfQuad / 365;
    Blocks(era, century, quad, yearOfQuad, dayOfQuad - 365 * yearOfQuad)
  }

  /** The year a block position falls in, counting years from 1 March to the end of February. */
  function MarchYear(b: Blocks): int {
    400 * b.era + 100 * b.century + 4 * b.quad + b.yearOfQuad
  }

  /** The civil date of a block position: March to December belong to the March-based year,
      January and February to the next one. */
  function DateOfBlocks(b: Blocks): Date
    requires b.dayOfYear < 366
  {
    var i := MarchMonth(b.dayOfYear);
    var month := if i < 10 then i + 3 else i - 9;
    Date(if month <= 2 then MarchYear(b) + 1 else MarchYear(b), month, b.dayOfYear - MarchMonthStart(i) + 1)
  }

  /** The civil date `days` days after 1970-01-01 (negative: before it). */
  function CivilFromDays(days: int): Date
  {
    DecomposeBounds(days + EpochShift);
    DateOfBlocks(Decompose(days + EpochShift))
  }

  lemma DecomposeBounds(n: int)
    ensures var b := Decompose(n);
      && b.century <= 3 && b.quad <= 24 && b.yearOfQuad <= 3 && b.dayOfYear <= 365
      && (b.dayOfYear == 365 ==> b.yearOfQuad == 3 && (b.quad < 24 || b.century == 3))
  {
    var dayOfEra := n % DaysPer400Years;
    var century := if dayOfEra / DaysPer100Years == 4 then 3 else dayOfEra / DaysPer100Years;
    var dayOfCentury := dayOfEra - DaysPer100Years * century;
    assert 0 <= dayOfCentury <= DaysPer100Years;
    assert century < 3 ==> dayOfCentury < DaysPer100Years;
    var quad, dayOfQuad := dayOfCentury / DaysPer4Years, dayOfCentury % DaysPer4Years;
    assert quad <= 24;
    assert quad == 24 && century < 3 ==> dayOfQuad < 1460;
  }

  /** A leap year in the March-based count is one whose following February has 29 days. */
  lemma LongYearIsLeap(era: int, century: nat, quad: nat)
    requires century <= 3 && quad <= 24 && (quad < 24 || century == 3)
    ensures IsLeapYear(400 * era + 100 * century + 4 * quad + 4)
  {
    var y := 400 * era + 100 * century + 4 * quad + 4;
    MultipleOfFour(y, 100 * era + 25 * century + quad + 1);
    if quad < 24 {
      NotMultipleOfHundred(y, 4 * era + century, 4 * (quad + 1));
    } else {
      MultipleOfFourHundred(y, era + 1);
    }
  }

  lemma MultipleOfFour(y: int, m: int)
    requires y == 4 * m
    ensures y % 4 == 0
  {
  }

  lemma NotMultipleOfHundred(y: int, q: int, r: int)
    requires y == 100 * q + r && 0 < r < 100
    ensures y % 100 != 0
  {
  }

  lemma MultipleOfFourHundred(y: int, m: int)
    requires y == 400 * m
    ensures y % 400 == 0
  {
  }

  /** Days in the March-based year of a block position: the last year of a 4-year block ends
      with a leap day, except in the short last block of the first three centuries of an era. */
  function YearLength(b: Blocks): int {
    if b.yearOfQuad == 3 && (b.quad < 24 || b.century == 3) then 366 else 365
  }

  predicate BlocksValid(b: Blocks) {
    b.century <= 3 && b.quad <= 24 && b.yearOfQuad <= 3 && b.dayOfYear < YearLength(b)
  }

  /** The day count from 0000-03-01 a block position stands for. */
  function BlockDays(b: Blocks): int {
    DaysPer400Years * b.era + DaysPer100Years * b.century + DaysPer4Years * b.quad
    + 365 * b.yearOfQuad + b.dayOfYear
  }

  /** `Decompose` yields a valid block position that stands for the day count it was given. */
  lemma DecomposeValid(n: int)
    ensures BlocksValid(Decompose(n)) && BlockDays(Decompose(n)) == n
  {
    DecomposeBounds(n);
  }

  /** Quotient and remainder by one of the calendar's block lengths are unique. */
  lemma DivModUnique(n: int, d: int, q: int, r: int)
    requires d in {4, 100, 365, 400, DaysPer4Years, DaysPer100Years, DaysPer400Years}
    requires n == d * q + r && 0 <= r < d
    ensures n / d == q && n % d == r
  {
    if d == 4 {
      assert n == 4 * q + r;
    } else if d == 100 {
      assert n == 100 * q + r;
    } else if d == 365 {
      assert n == 365 * q + r;
    } else if d == 400 {
      assert n == 400 * q + r;
    } else if d == DaysPer4Years {
      assert n == 1461 * q + r;
    } else if d == DaysPer100Years {
      assert n == 36524 * q + r;
    } else {
      assert n == 146097 * q + r;
    }
  }

  /** Every valid block position is what `Decompose` gives for its day count. */
  lemma DecomposeOfBlocks(b: Blocks)
    requires BlocksValid(b)
    ensures Decompose(BlockDays(b)) == b
  {
    var n := BlockDays(b);
    var dayOfEra := n - DaysPer400Years * b.era;
    DivModUnique(n, DaysPer400Years, b.era, dayOfEra);
    var dayOfCentury := dayOfEra - DaysPer100Years * b.century;
    if dayOfCentury < DaysPer100Years {
      DivModUnique(dayOfEra, DaysPer100Years, b.century, dayOfCentury);
    } else {
      DivModUnique(dayOfEra, DaysPer100Years, 4, 0);
    }
    var dayOfQuad := 365 * b.yearOfQuad + b.dayOfYear;
    DivModUnique(dayOfCentury, DaysPer4Years, b.quad, dayOfQuad);
    if b.dayOfYear < 365 {
      DivModUnique(dayOfQuad, 365, b.yearOfQuad, b.dayOfYear);
    } else {
      DivModUnique(dayOfQuad, 365, 4, 0);
    }
  }

  /** The block position of the following day: the next day of the year, or the first day of
      the next year, carried into the 4-year block, the century and the era. */
  function NextBlocks(b: Blocks): Blocks {
    if b.dayOfYear + 1 < YearLength(b) then b.(dayOfYear := b.dayOfYear + 1)
    else if b.yearOfQuad < 3 then b.(yearOfQuad := b.yearOfQuad + 1, dayOfYear := 0)
    else if b.quad < 24 then b.(quad := b.quad + 1, yearOfQuad := 0, dayOfYear := 0)
    else if b.century < 3 then Blocks(b.era, b.century + 1, 0, 0, 0)
    else Blocks(b.era + 1, 0, 0, 0, 0)
  }

  lemma DecomposeNext(n: int)
    ensures Decompose(n + 1) == NextBlocks(Decompose(n))
  {
    DecomposeValid(n);
    var next := NextBlocks(Decompose(n));
    assert BlocksValid(next) && BlockDays(next) == n + 1;
    DecomposeOfBlocks(next);
  }

  /** The February that ends a March-based year has 29 days exactly when that year has 366. */
  lemma LeapYearLength(b: Blocks)
    requires BlocksValid(b)
    ensures IsLeapYear(MarchYear(b) + 1) <==> YearLength(b) == 366
  {
    var y := MarchYear(b) + 1;
    if b.yearOfQuad < 3 {
      NotMultipleOfFour(y, 100 * b.era + 25 * b.century + b.quad, b.yearOfQuad + 1);
    } else if b.quad < 24 || b.century == 3 {
      LongYearIsLeap(b.era, b.century, b.quad);
    } else {
      NotMultipleOfFourHundred(y, b.era, 100 * (b.century + 1));
    }
  }

  lemma NotMultipleOfFour(y: int, m: int, r: int)
    requires y == 4 * m + r && 0 < r < 4
    ensures y % 4 != 0
  {
  }

  lemma NotMultipleOfFourHundred(y: int, m: int, r: int)
    requires y == 400 * m + r && (r == 100 || r == 200 || r == 300)
    ensures y % 4 == 0 && y % 100 == 0 && y % 400 != 0
  {
    DivModUnique(y, 4, 100 * m + r / 4, 0);
    DivModUnique(y, 100, 4 * m + r / 100, 0);
    DivModUnique(y, 400, m, r);
  }

  /** A valid block position is a real calendar day. */
  lemma DateOfBlocksValid(b: Blocks)
    requires BlocksValid(b)
    ensures ValidDate(DateOfBlocks(b))
  {
    if b.dayOfYear == 365 {
      LeapYearLength(b);
    }
  }

  /** Every day count lands on a real calendar day: the month is 1..12 and the day fits the
      month, leap years included. */
  lemma CivilFromDaysValid(days: int)
    ensures ValidDate(CivilFromDays(days))
  {
    DecomposeValid(days + EpochShift);
    DateOfBlocksValid(Decompose(days + EpochShift));
  }

  /** The calendar day after `d`. */
  function NextDay(d: Date): Date
    requires ValidDate(d)
  {
    if d.day < DaysInMonth(d.year, d.month) then Date(d.year, d.month, d.day + 1)
    else if d.month < 12 then Date(d.year, d.month + 1, 1)
    else Date(d.year + 1, 1, 1)
  }

  /** Within a March-based year, month `i` (0 is March) is as long as its calendar month;
      February (11) is left to `LeapYearLength`. */
  lemma MarchMonthLength(y: int, i: nat)
    requires i < 11
    ensures MarchMonthStart(i + 1) - MarchMonthStart(i) == DaysInMonth(y, if i < 10 then i + 3 else i - 9)
  {
  }

  /** The next block position is the calendar day after. */
  lemma DateOfBlocksNext(b: Blocks)
    requires BlocksValid(b)
    ensures ValidDate(DateOfBlocks(b))
    ensures NextBlocks(b).dayOfYear < 366 && DateOfBlocks(NextBlocks(b)) == NextDay(DateOfBlocks(b))
  {
    DateOfBlocksValid(b);
    LeapYearLength(b);
    var i := MarchMonth(b.dayOfYear);
    if i < 11 {
      MarchMonthLength(MarchYear(b), i);
      MarchMonthLength(MarchYear(b) + 1, i);
    }
  }

  /** Day 0 is the epoch, 1970-01-01. */
  lemma CivilFromDaysEpoch()
    ensures CivilFromDays(0) == Date(1970, 1, 1)
  {
    assert Decompose(EpochShift) == Blocks(4, 3, 17, 1, 306);
  }

  /** One day count later is the next calendar day, before and after the epoch alike: with
      `CivilFromDaysEpoch` this fixes the date of every day count. */
  lemma CivilFromDaysNext(days: int)
    ensures ValidDate(CivilFromDays(days))
    ensures CivilFromDays(days + 1) == NextDay(CivilFromDays(days))
  {
    var n := days + EpochShift;
    DecomposeValid(n);
    DecomposeNext(n);
    DateOfBlocksNext(Decompose(n));
  }

  /** `datetime.utcfromtimestamp(seconds)` for a whole number of seconds; a year outside
      1..9999 raises. */
  function UtcFromTimestamp(seconds: int): (r: Result<DateTime>)
    ensures r.Success? <==> 1 <= CivilFromDays(seconds / SecondsPerDay).year <= 9999
    ensures r.Success? ==> Valid(r.value)
    ensures r.Success? ==> Date(r.value.year, r.value.month, r.value.day) == CivilFromDays(seconds / SecondsPerDay)
    ensures r.Success? ==> r.value.hour * 3600 + r.value.minute * 60 + r.value.second == seconds % SecondsPerDay
    ensures r.Failure? ==> r.error == ValueError
  {
    var date := CivilFromDays(seconds / SecondsPerDay);
    var secondOfDay := seconds % SecondsPerDay;
    CivilFromDaysValid(seconds / SecondsPerDay);
    if 1 <= date.year <= 9999 then
      Success(DateTime(date.year, date.month, date.day,
                       secondOfDay / 3600, secondOfDay % 3600 / 60, secondOfDay % 60))
    else
      Failure(ValueError)
  }

  /** 1647131882 s after the epoch is 2022-03-13 00:38:02 UTC (day 19064, second 2282). */
  lemma UtcFromTimestampExample()
    ensures UtcFromTimestamp(1647131882) == Success(DateTime(2022, 3, 13, 0, 38, 2))
    ensures UtcFromTimestamp(1647135482) == Success(DateTime(2022, 3, 13, 1, 38, 2))
  {
    assert Decompose(19064 + EpochShift) == Blocks(5, 0, 5, 2, 12);
    assert CivilFromDays(19064) == Date(2022, 3, 13);
  }

  /** `dt.strftime('%Y-%m-%d %H:%M:%S')`. */
  function Strftime(dt: DateTime): (s: string)
    requires Valid(dt)
    ensures |s| == 19
  {
    Fixed(dt.year, 4) + "-" + Fixed(dt.month, 2) + "-" + Fixed(dt.day, 2) + " "
    + Fixed(dt.hour, 2) + ":" + Fixed(dt.minute, 2) + ":" + Fixed(dt.second, 2)
  }

  /** `dt.strftime('%Y-%m-%dT%H:%M:%SZ')`. */
  function IsoFormat(dt: DateTime): (s: string)
    requires Valid(dt)
    ensures |s| == 20
  {
    Fixed(dt.year, 4) + "-" + Fixed(dt.month, 2) + "-" + Fixed(dt.day, 2) + "T"
    + Fixed(dt.hour, 2) + ":" + Fixed(dt.minute, 2) + ":" + Fixed(dt.second, 2) + "Z"
  }

  /** The text shape `YYYY-MM-DD HH:MM:SS.f` with one to six fraction digits. */
  predicate FractionLayout(s: string) {
    && 21 <= |s| <= 26
    && AllDigits(s[0..4]) && s[4] == '-' && AllDigits(s[5..7]) && s[7] == '-'
    && AllDigits(s[8..10]) && s[10] == ' ' && AllDigits(s[11..13]) && s[13] == ':'
    && AllDigits(s[14..16]) && s[16] == ':' && AllDigits(s[17..19]) && s[19] == '.'
    && AllDigits(s[20..])
  }

  function FieldsOf(s: string): DateTime
    requires FractionLayout(s)
  {
    DateTime(DigitsValue(s[0..4]), DigitsValue(s[5..7]), DigitsValue(s[8..10]),
             DigitsValue(s[11..13]), DigitsValue(s[14..16]), DigitsValue(s[17..19]))
  }

  /** `datetime.strptime(s, '%Y-%m-%d %H:%M:%S.%f')`, fixed-width fields only; the fraction
      is read and dropped, since the whole seconds are all the model keeps. */
  function Strptime(s: string): (r: Result<DateTime>)
    ensures r.Success? <==> FractionLayout(s) && Valid(FieldsOf(s))
    ensures r.Success? ==> Valid(r.value)
  {
    if FractionLayout(s) && Valid(FieldsOf(s)) then Success(FieldsOf(s)) else Failure(ValueError)
  }

  /** Where each field of a `%Y-%m-%d %H:%M:%S` rendering sits, for fields of the right widths. */
  lemma RenderedSlices(y: string, mo: string, d: string, h: string, mi: string, se: string)
    requires |y| == 4 && |mo| == 2 && |d| == 2 && |h| == 2 && |mi| == 2 && |se| == 2
    ensures var s := y + "-" + mo + "-" + d + " " + h + ":" + mi + ":" + se;
      && |s| == 19
      && s[0..4] == y && s[4] == '-' && s[5..7] == mo && s[7] == '-' && s[8..10] == d
      && s[10] == ' ' && s[11..13] == h && s[13] == ':' && s[14..16] == mi && s[16] == ':'
      && s[17..19] == se
      && s[..10] == y + "-" + mo + "-" + d && s[11..] == h + ":" + mi + ":" + se
    ensures y + "-" + mo + "-" + d + "T" + h + ":" + mi + ":" + se + "Z"
      == (y + "-" + mo + "-" + d) + "T" + (h + ":" + mi + ":" + se) + "Z"
  {
    var date := y + "-" + mo + "-" + d;
    var time := h + ":" + mi + ":" + se;
    var s := y + "-" + mo + "-" + d + " " + h + ":" + mi + ":" + se;
    assert s == date + " " + time;
    DashSlices(y, mo, d);
    ColonSlices(h, mi, se);
    SpacedSlices(date, time, ' ');
  }

  lemma DashSlices(y: string, mo: string, d: string)
    requires |y| == 4 && |mo| == 2 && |d| == 2
    ensures var t := y + "-" + mo + "-" + d;
      |t| == 10 && t[0..4] == y && t[4] == '-' && t[5..7] == mo && t[7] == '-' && t[8..10] == d
  {
    assert y + "-" + mo + "-" + d == y + ['-'] + mo + ['-'] + d;
  }

  lemma ColonSlices(h: string, mi: string, se: string)
    requires |h| == 2 && |mi| == 2 && |se| == 2
    ensures var t := h + ":" + mi + ":" + se;
      |t| == 8 && t[0..2] == h && t[2] == ':' && t[3..5] == mi && t[5] == ':' && t[6..8] == se
  {
    assert h + ":" + mi + ":" + se == h + [':'] + mi + [':'] + se;
  }

  /** Slices of `date + [sep] + time` fall in one part or the other. */
  lemma SpacedSlices(date: string, time: string, sep: char)
    requires |date| == 10 && |time| == 8
    ensures var s := date + [sep] + time;
      && |s| == 19 && s[..10] == date && s[10] == sep && s[11..] == time
      && s[0..4] == date[0..4] && s[4] == date[4] && s[5..7] == date[5..7] && s[7] == date[7]
      && s[8..10] == date[8..10]
      && s[11..13] == time[0..2] && s[13] == time[2] && s[14..16] == time[3..5]
      && s[16] == time[5] && s[17..19] == time[6..8]
  {
  }

  lemma StrftimeFields(dt: DateTime)
    requires Valid(dt)
    ensures var s := Strftime(dt);
      && s[0..4] == Fixed(dt.year, 4) && s[4] == '-' && s[5..7] == Fixed(dt.month, 2)
      && s[7] == '-' && s[8..10] == Fixed(dt.day, 2) && s[10] == ' '
      && s[11..13] == Fixed(dt.hour, 2) && s[13] == ':' && s[14..16] == Fixed(dt.minute, 2)
      && s[16] == ':' && s[17..19] == Fixed(dt.second, 2)
  {
    RenderedSlices(Fixed(dt.year, 4), Fixed(dt.month, 2), Fixed(dt.day, 2),
                   Fixed(dt.hour, 2), Fixed(dt.minute, 2), Fixed(dt.second, 2));
  }

  /** Appending `.` and a fraction to a 19-character text leaves its first 19 characters. */
  lemma FractionSlices(t: string, fraction: string)
    requires |t| == 19
    ensures var s := t + "." + fraction;
      && s[0..4] == t[0..4] && s[5..7] == t[5..7] && s[8..10] == t[8..10]
      && s[11..13] == t[11..13] && s[14..16] == t[14..16] && s[17..19] == t[17..19]
      && s[4] == t[4] && s[7] == t[7] && s[10] == t[10] && s[13] == t[13] && s[16] == t[16]
      && s[19] == '.' && s[20..] == fraction
  {
  }

  /** Reading back a rendered date-time, extended with a fraction, gives the date-time. */
  lemma StrptimeOfStrftime(dt: DateTime, fraction: string)
    requires Valid(dt) && 1 <= |fraction| <= 6 && AllDigits(fraction)
    ensures Strptime(Strftime(dt) + "." + fraction) == Success(dt)
  {
    var t := Strftime(dt);
    var s := t + "." + fraction;
    StrftimeFields(dt);
    FractionSlices(t, fraction);
    assert FractionLayout(s);
    assert Pow10(2) == 100 && Pow10(4) == 10000;
    FixedRoundTrip(dt.year, 4);
    FixedRoundTrip(dt.month, 2);
    FixedRoundTrip(dt.day, 2);
    FixedRoundTrip(dt.hour, 2);
    FixedRoundTrip(dt.minute, 2);
    FixedRoundTrip(dt.second, 2);
    assert FieldsOf(s) == dt;
  }

  /** Rendering a parsed date-time reproduces the text up to the fraction. */
  lemma StrftimeOfStrptime(s: string)
    requires Strptime(s).Success?
    ensures Strftime(Strptime(s).value) == s[..19]
  {
    var dt := FieldsOf(s);
    DigitsRoundTrip(s[0..4]);
    DigitsRoundTrip(s[5..7]);
    DigitsRoundTrip(s[8..10]);
    DigitsRoundTrip(s[11..13]);
    DigitsRoundTrip(s[14..16]);
    DigitsRoundTrip(s[17..19]);
    var t := Strftime(dt);
    StrftimeFields(dt);
    assert t[0..4] == s[0..4] && t[5..7] == s[5..7] && t[8..10] == s[8..10];
    assert t[11..13] == s[11..13] && t[14..16] == s[14..16] && t[17..19] == s[17..19];
    assert forall k :: 0 <= k < 19 ==> t[k] == s[k] by {
      forall k | 0 <= k < 19 ensures t[k] == s[k] {
        if k < 4 { assert t[k] == t[0..4][k]; assert s[k] == s[0..4][k]; }
        else if 5 <= k < 7 { assert t[k] == t[5..7][k - 5]; assert s[k] == s[5..7][k - 5]; }
        else if 8 <= k < 10 { assert t[k] == t[8..10][k - 8]; assert s[k] == s[8..10][k - 8]; }
        else if 11 <= k < 13 { assert t[k] == t[11..13][k - 11]; assert s[k] == s[11..13][k - 11]; }
        else if 14 <= k < 16 { assert t[k] == t[14..16][k - 14]; assert s[k] == s[14..16][k - 14]; }
        else if 17 <= k < 19 { assert t[k] == t[17..19][k - 17]; assert s[k] == s[17..19][k - 17]; }
      }
    }
  }

  /** The ISO rendering is the `%Y-%m-%d %H:%M:%S` rendering with 'T' for the space and a 'Z'
      appended. */
  lemma IsoFormatOfStrftime(dt: DateTime)
    requires Valid(dt)
    ensures IsoFormat(dt) == Strftime(dt)[..10] + "T" + Strftime(dt)[11..] + "Z"
  {
    RenderedSlices(Fixed(dt.year, 4), Fixed(dt.month, 2), Fixed(dt.day, 2),
                   Fixed(dt.hour, 2), Fixed(dt.minute, 2), Fixed(dt.second, 2));
  }
}
