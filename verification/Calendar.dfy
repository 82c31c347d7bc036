/** The hand-written UTC calendar of the log timestamps, against the
    proleptic Gregorian calendar counted year by year and month by month. */
module Calendar {

  /** The broken-down time, as six unsigned 32-bit numbers. */
  datatype Civil = Civil(year: nat, month: nat, day: nat, hour: nat, minute: nat, second: nat)

  const U32: nat := 0x1_0000_0000
  const U64: nat := 0x1_0000_0000_0000_0000

  // ---------------------------------------------------------------------
  // The calendar itself
  // ---------------------------------------------------------------------

  predicate IsLeap(y: nat) { y % 4 == 0 && (y % 100 != 0 || y % 400 == 0) }

  function DaysInYear(y: nat): nat { if IsLeap(y) then 366 else 365 }

  function DaysInMonth(y: nat, m: nat): nat
    requires 1 <= m <= 12
  {
    if m == 2 then (if IsLeap(y) then 29 else 28)
    else if m == 4 || m == 6 || m == 9 || m == 11 then 30
    else 31
  }

  /** Days from 1 January 1970 to 1 January of year y. */
  function DaysBeforeYear(y: nat): nat
    requires y >= 1970
  {
    if y == 1970 then 0 else DaysBeforeYear(y - 1) + DaysInYear(y - 1)
  }

  function DaysBeforeMonth(y: nat, m: nat): nat
    requires 1 <= m <= 12
  {
    if m == 1 then 0 else DaysBeforeMonth(y, m - 1) + DaysInMonth(y, m - 1)
  }

  predicate ValidDate(y: nat, m: nat, d: nat) {
    y >= 1970 && 1 <= m <= 12 && 1 <= d <= DaysInMonth(y, m)
  }

  /** The number of a day, 1 January 1970 being day 0. */
  function DayNumber(y: nat, m: nat, d: nat): nat
    requires ValidDate(y, m, d)
  {
    DaysBeforeYear(y) + DaysBeforeMonth(y, m) + (d - 1)
  }

  predicate Valid(c: Civil) {
    ValidDate(c.year, c.month, c.day) && c.hour < 24 && c.minute < 60 && c.second < 60
  }

  function EpochSecond(c: Civil): nat
    requires Valid(c)
  {
    86400 * DayNumber(c.year, c.month, c.day) + 3600 * c.hour + 60 * c.minute + c.second
  }

  // ---------------------------------------------------------------------
  // The program's conversion
  // ---------------------------------------------------------------------

  /** The parts of the conversion before the final narrowing to 32 bits. */
  function YearOfEra(doe: nat): int { (doe - doe / 1460 + doe / 36524 - doe / 146096) / 365 }

  function DayOfYear(doe: nat, yoe: int): int { doe - (365 * yoe + yoe / 4 - yoe / 100) }

  datatype Date = Date(year: nat, month: nat, day: nat)

  /** The month and day within the year y that starts on 1 March. */
  function DateOfMarchDay(y: nat, doy: nat): Date
    requires doy <= 365
  {
    MonthFacts(doy);
    var mp := (5 * doy + 2) / 153;
    var d: nat := doy - (153 * mp + 2) / 5 + 1;
    var mo: nat := if mp < 10 then mp + 3 else mp - 9;
    Date(if mo <= 2 then y + 1 else y, mo, d)
  }

  /** The date part of `epoch_to_ymd_hms`: every day number gets the valid date
      with that number. All of it is unsigned arithmetic in the program, so each
      subtraction must be shown not to go below zero. */
  function DateOfDay(days: nat): (date: Date)
    ensures IsDay(date, days)
  {
    var z := days + 719468;
    var era := z / 146097;
    var doe := z % 146097;
    EraFacts(doe);
    var yoe: nat := YearOfEra(doe);
    MarchDateOfParts(days, era, doe, yoe, DayOfYear(doe, yoe));
    DateOfMarchDay(yoe + era * 400, DayOfYear(doe, yoe))
  }

  /** The cast to an unsigned 32-bit number. */
  function AsU32(x: nat): nat { x % U32 }

  function Narrowed(date: Date, h: nat, m: nat, s: nat): Civil {
    Civil(AsU32(date.year), AsU32(date.month), AsU32(date.day), AsU32(h), AsU32(m), AsU32(s))
  }

  /** `epoch_to_ymd_hms`, with its final narrowing to 32 bits. */
  function EpochToCivil(secs: nat): Civil
    requires secs < U64
  {
    var s := secs % 60;
    var m := (secs / 60) % 60;
    var h := (secs / 3600) % 24;
    Narrowed(DateOfDay(secs / 86400), h, m, s)
  }

  /** Days before year n of a 400-year era whose years start on 1 March. */
  function EraDays(n: int): int { 365 * n + n / 4 - n / 100 }

  /** A day of the era is a century c, a four-year group q, a year t of the
      group and a day r of that year; the odd day of the era closes it. */
  predicate Splits(doe: nat, c: nat, q: nat, t: nat, r: nat) {
    && c <= 3 && q <= 24 && t <= 3 && r <= 365
    && doe == 36524 * c + 1461 * q + 365 * t + r
    && (r == 365 ==> t == 3 && (q == 24 ==> c == 3))
  }

  lemma {:induction false} SplitDay(doe: nat) returns (c: nat, q: nat, t: nat, r: nat)
    requires doe < 146097
    ensures Splits(doe, c, q, t, r)
  {
    c := if doe == 146096 then 3 else doe / 36524;
    var r1 := doe - 36524 * c;
    q := r1 / 1461;
    var r2 := r1 - 1461 * q;
    t := if r2 == 1460 then 3 else r2 / 365;
    r := r2 - 365 * t;
  }

  /** The computed year of the era is the one the split names. */
  lemma {:induction false} YearOfSplit(doe: nat, c: nat, q: nat, t: nat, r: nat)
    requires doe < 146097 && Splits(doe, c, q, t, r)
    ensures doe >= doe / 1460 && doe - doe / 1460 + doe / 36524 >= doe / 146096
    ensures YearOfEra(doe) == 100 * c + 4 * q + t
  {
    var e := 24 * c + q + 365 * t + r;
    var odd := if e >= 1460 then 1 else 0;
    assert doe == 1460 * (25 * c + q) + e;
    assert doe / 1460 == 25 * c + q + odd;
    assert doe / 36524 - doe / 146096 == c;
    assert doe - doe / 1460 + doe / 36524 - doe / 146096 == 365 * (100 * c + 4 * q + t) + (r - odd);
  }

  lemma {:induction false} EraDaysOfSplit(c: nat, q: nat, t: nat)
    requires c <= 3 && q <= 24 && t <= 3
    ensures EraDays(100 * c + 4 * q + t) == 36524 * c + 1461 * q + 365 * t
  {
    var y := 100 * c + 4 * q + t;
    assert y == 4 * (25 * c + q) + t && y / 4 == 25 * c + q;
    assert y == 100 * c + (4 * q + t) && y / 100 == c;
  }

  lemma {:induction false} DayOfSplit(doe: nat, c: nat, q: nat, t: nat, r: nat)
    requires Splits(doe, c, q, t, r)
    ensures DayOfYear(doe, 100 * c + 4 * q + t) == r
  {
    EraDaysOfSplit(c, q, t);
  }

  /** A day of the era as a year of the era and a day of that year. */
  predicate EraParts(doe: nat, yoe: int, doy: int) {
    && 0 <= yoe <= 399 && 0 <= doy <= 365 && doe == EraDays(yoe) + doy
    && (doy == 365 ==> IsLeap(yoe + 1))
  }

  lemma {:induction false} SplitIsParts(doe: nat, c: nat, q: nat, t: nat, r: nat)
    requires Splits(doe, c, q, t, r)
    ensures EraParts(doe, 100 * c + 4 * q + t, r)
  {
    EraDaysOfSplit(c, q, t);
    if r == 365 { LeapAfter(c, q); }
  }

  predicate EraFactsHold(doe: nat) { EraParts(doe, YearOfEra(doe), DayOfYear(doe, YearOfEra(doe))) }

  /** The day of the era lies in the year computed for it, so no subtraction
      goes below zero. */
  lemma {:induction false} EraFacts(doe: nat)
    requires doe < 146097
    ensures doe >= doe / 1460 && doe - doe / 1460 + doe / 36524 >= doe / 146096
    ensures EraFactsHold(doe)
  {
    var c, q, t, r := SplitDay(doe);
    YearOfSplit(doe, c, q, t, r);
    DayOfSplit(doe, c, q, t, r);
    SplitIsParts(doe, c, q, t, r);
  }

  /** The year after the third of a group is leap, save the three short centuries. */
  lemma {:induction false} LeapAfter(c: nat, q: nat)
    requires c <= 3 && q <= 24 && (q == 24 ==> c == 3)
    ensures IsLeap(100 * c + 4 * q + 4)
  {
    var y := 100 * c + 4 * q + 4;
    assert y == 4 * (25 * c + q + 1);
    if q < 24 {
      assert y == 100 * c + (4 * q + 4) && y % 100 == 4 * q + 4;
    } else {
      assert y == 400;
    }
  }

  /** Days from 1 March to the first of the mp-th month after it. */
  function MonthOffset(mp: nat): nat { (153 * mp + 2) / 5 }

  lemma {:induction false} MonthFacts(doy: nat)
    requires doy <= 365
    ensures var mp := (5 * doy + 2) / 153;
      mp <= 11 && MonthOffset(mp) <= doy && (mp < 11 ==> doy < MonthOffset(mp + 1))
  {
  }

  // ---------------------------------------------------------------------
  // Counting years in closed form
  // ---------------------------------------------------------------------

  function Leaps(n: nat): int { n / 4 - n / 100 + n / 400 }

  lemma {:induction false} LeapsStep(n: nat)
    ensures Leaps(n + 1) == Leaps(n) + (if IsLeap(n + 1) then 1 else 0)
  {
    QuotientStep(n, 4);
    QuotientStep(n, 100);
    QuotientStep(n, 400);
    assert (n + 1) % 400 == 0 ==> (n + 1) % 100 == 0;
    assert (n + 1) % 100 == 0 ==> (n + 1) % 4 == 0;
  }

  lemma QuotientStep(n: nat, k: nat)
    requires k == 4 || k == 100 || k == 400
    ensures (n + 1) / k == n / k + (if (n + 1) % k == 0 then 1 else 0)
  {
  }

  lemma {:induction false} YearsInClosedForm(y: nat)
    requires y >= 1970
    ensures DaysBeforeYear(y) == 365 * y + Leaps(y - 1) - 719527
  {
    if y > 1970 {
      YearsInClosedForm(y - 1);
      LeapsStep(y - 2);
    }
  }

  lemma {:induction false} MonthsFromMarch(y: nat, mp: nat)
    requires mp <= 11
    ensures mp < 10 ==> DaysBeforeMonth(y, mp + 3) == 59 + (if IsLeap(y) then 1 else 0) + MonthOffset(mp)
    ensures mp >= 10 ==> DaysBeforeMonth(y, mp - 9) == MonthOffset(mp) - 306
  {
    assert DaysBeforeMonth(y, 1) == 0 && DaysBeforeMonth(y, 2) == 31;
    assert DaysBeforeMonth(y, 3) == 59 + (if IsLeap(y) then 1 else 0);
    if 0 < mp < 10 { MonthsFromMarch(y, mp - 1); }
  }

  /** Adding a multiple of k shifts the quotient by k and keeps the remainder. */
  lemma {:induction false} MultipleAdded(k: nat, a: nat, b: nat)
    requires k == 4 || k == 100 || k == 400
    ensures (k * a + b) / k == a + b / k && (k * a + b) % k == b % k
  {
    if k == 4 {
      assert (4 * a + b) / 4 == a + b / 4;
    } else if k == 100 {
      assert (100 * a + b) / 100 == a + b / 100;
    } else {
      assert (400 * a + b) / 400 == a + b / 400;
    }
  }

  /** Whole eras plus the days of the current one, in closed form. */
  lemma {:induction false} ErasInClosedForm(era: nat, yoe: nat)
    requires yoe <= 399
    ensures 146097 * era + EraDays(yoe) == 365 * (400 * era + yoe) + Leaps(400 * era + yoe)
  {
    MultipleAdded(4, 100 * era, yoe);
    MultipleAdded(100, 4 * era, yoe);
    MultipleAdded(400, era, yoe);
  }

  lemma {:induction false} LeapYearsRepeat(era: nat, n: nat)
    ensures IsLeap(400 * era + n) <==> IsLeap(n)
  {
    MultipleAdded(4, 100 * era, n);
    MultipleAdded(100, 4 * era, n);
    MultipleAdded(400, era, n);
  }

  lemma {:induction false} YearIsRecent(y: nat, doy: nat)
    requires doy <= 365 && 365 * y + Leaps(y) + doy >= 719468
    ensures y >= 1969 && (y == 1969 ==> doy >= 306)
  {
  }

  /** March to December: the day is in the calendar year y. */
  lemma {:induction false} DateFromMarch(y: nat, doy: nat, mp: nat)
    requires y >= 1970 && mp < 10 && MonthOffset(mp) <= doy < MonthOffset(mp + 1)
    ensures ValidDate(y, mp + 3, doy - MonthOffset(mp) + 1)
    ensures DayNumber(y, mp + 3, doy - MonthOffset(mp) + 1) + 719468 == 365 * y + Leaps(y) + doy
  {
    MonthsFromMarch(y, mp);
    YearsInClosedForm(y);
    LeapsStep(y - 1);
  }

  /** January and February: the day is in the calendar year after y. */
  lemma {:induction false} DateToFebruary(y: nat, doy: nat, mp: nat)
    requires y >= 1969 && 10 <= mp <= 11 && MonthOffset(mp) <= doy <= 365
    requires mp < 11 ==> doy < MonthOffset(mp + 1)
    requires doy == 365 ==> IsLeap(y + 1)
    ensures ValidDate(y + 1, mp - 9, doy - MonthOffset(mp) + 1)
    ensures DayNumber(y + 1, mp - 9, doy - MonthOffset(mp) + 1) + 719468 == 365 * y + Leaps(y) + doy
  {
    MonthsFromMarch(y + 1, mp);
    YearsInClosedForm(y + 1);
  }

  /** Day doy of the year y counted from 1 March is day z after 1 March of the year 0. */
  predicate MarchDay(z: nat, y: nat, doy: nat) {
    && doy <= 365 && z == 365 * y + Leaps(y) + doy
    && (doy == 365 ==> IsLeap(y + 1))
  }

  lemma {:induction false} MarchYear(era: nat, doe: nat, yoe: nat, doy: nat)
    requires EraParts(doe, yoe, doy)
    ensures MarchDay(146097 * era + doe, yoe + era * 400, doy)
  {
    ErasInClosedForm(era, yoe);
    LeapYearsRepeat(era, yoe + 1);
  }

  predicate IsDay(c: Date, days: nat) {
    ValidDate(c.year, c.month, c.day) && DayNumber(c.year, c.month, c.day) == days
  }

  lemma {:induction false} MarchDateIsCorrect(days: nat, y: nat, doy: nat)
    requires MarchDay(days + 719468, y, doy)
    ensures IsDay(DateOfMarchDay(y, doy), days)
  {
    YearIsRecent(y, doy);
    MonthFacts(doy);
    var mp := (5 * doy + 2) / 153;
    if mp < 10 {
      MonthsEndBeforeMarch();
      DateFromMarch(y, doy, mp);
    } else {
      DateToFebruary(y, doy, mp);
    }
  }

  lemma {:induction false} MarchDateOfParts(days: nat, era: nat, doe: nat, yoe: nat, doy: nat)
    requires days + 719468 == 146097 * era + doe && EraParts(doe, yoe, doy)
    ensures IsDay(DateOfMarchDay(yoe + era * 400, doy), days)
  {
    MarchYear(era, doe, yoe, doy);
    MarchDateIsCorrect(days, yoe + era * 400, doy);
  }

  /** The ten months from March take 306 days. */
  lemma MonthsEndBeforeMarch()
    ensures MonthOffset(10) == 306
  {
  }

  // ---------------------------------------------------------------------
  // Dates and day numbers have the same order
  // ---------------------------------------------------------------------

  predicate DateLess(a: Date, b: Date) {
    a.year < b.year || (a.year == b.year && (a.month < b.month || (a.month == b.month && a.day < b.day)))
  }

  lemma {:induction false} MonthsGrow(y: nat, m: nat, n: nat)
    requires 1 <= m < n <= 12
    ensures DaysBeforeMonth(y, m) + DaysInMonth(y, m) <= DaysBeforeMonth(y, n)
  {
    if m + 1 < n { MonthsGrow(y, m, n - 1); }
  }

  lemma {:induction false} MonthEndsInYear(y: nat, m: nat)
    requires 1 <= m <= 12
    ensures DaysBeforeMonth(y, m) + DaysInMonth(y, m) <= DaysInYear(y)
  {
    MonthsFromMarch(y, 9);
    if m < 12 { MonthsGrow(y, m, 12); }
  }

  lemma {:induction false} YearsGrow(y: nat, z: nat)
    requires 1970 <= y < z
    ensures DaysBeforeYear(y) + DaysInYear(y) <= DaysBeforeYear(z)
  {
    if y + 1 < z { YearsGrow(y, z - 1); }
  }

  lemma {:induction false} LaterDateHasLargerNumber(a: Date, b: Date)
    requires ValidDate(a.year, a.month, a.day) && ValidDate(b.year, b.month, b.day) && DateLess(a, b)
    ensures DayNumber(a.year, a.month, a.day) < DayNumber(b.year, b.month, b.day)
  {
    MonthEndsInYear(a.year, a.month);
    if a.year < b.year { YearsGrow(a.year, b.year); }
    else if a.month < b.month { MonthsGrow(a.year, a.month, b.month); }
  }

  /** One day number, one date. */
  lemma {:induction false} DateIsUnique(a: Date, b: Date)
    requires ValidDate(a.year, a.month, a.day) && ValidDate(b.year, b.month, b.day)
    requires DayNumber(a.year, a.month, a.day) == DayNumber(b.year, b.month, b.day)
    ensures a == b
  {
    if DateLess(a, b) { LaterDateHasLargerNumber(a, b); }
    else if DateLess(b, a) { LaterDateHasLargerNumber(b, a); }
  }

  // ---------------------------------------------------------------------
  // The conversion
  // ---------------------------------------------------------------------

  /** The first second of the first year that does not fit 32 bits. */
  const YEAR_LIMIT: nat := 86400 * (365 * U32 + (U32 - 1) / 4 - (U32 - 1) / 100 + (U32 - 1) / 400 - 719527)

  lemma {:induction false} YearFitsBelowLimit(days: nat)
    ensures DateOfDay(days).year < U32 <==> 86400 * days < YEAR_LIMIT
  {
    var c := DateOfDay(days);
    YearsInClosedForm(U32);
    MonthEndsInYear(c.year, c.month);
    if c.year < U32 { YearsGrow(c.year, U32); }
    else if c.year > U32 { YearsGrow(U32, c.year); }
  }

  predicate IsSecond(c: Civil, secs: nat) { Valid(c) && EpochSecond(c) == secs }

  /** The conversion gives the one date and time that is secs seconds after
      the epoch, exactly for the instants before the year 2^32; later on the
      32-bit year wraps. */
  lemma {:induction false} ConversionIsCorrect(secs: nat)
    requires secs < U64
    ensures IsSecond(EpochToCivil(secs), secs) <==> secs < YEAR_LIMIT
  {
    YearFitsBefore(secs);
    if secs < YEAR_LIMIT {
      DateSurvivesNarrowing(secs, DateOfDay(secs / 86400));
    } else if IsSecond(EpochToCivil(secs), secs) {
      OnlyNarrowSurvives(DateOfDay(secs / 86400), EpochToCivil(secs), secs);
    }
  }

  lemma {:induction false} YearFitsBefore(secs: nat)
    ensures DateOfDay(secs / 86400).year < U32 <==> secs < YEAR_LIMIT
  {
    YearFitsBelowLimit(secs / 86400);
    LimitIsMidnight();
    BeforeMidnight(secs, YEAR_LIMIT);
  }

  lemma LimitIsMidnight()
    ensures YEAR_LIMIT % 86400 == 0
  {
  }

  lemma {:induction false} BeforeMidnight(secs: nat, limit: nat)
    requires limit % 86400 == 0
    ensures 86400 * (secs / 86400) < limit <==> secs < limit
  {
  }

  lemma {:induction false} SmallIsKept(x: nat)
    requires x < U32
    ensures AsU32(x) == x
  {
  }

  lemma {:induction false} NothingIsNarrowed(date: Date, h: nat, m: nat, s: nat)
    requires date.year < U32 && date.month <= 12 && date.day <= 31 && h < 24 && m < 60 && s < 60
    ensures Narrowed(date, h, m, s) == Civil(date.year, date.month, date.day, h, m, s)
  {
    SmallIsKept(date.year);
    SmallIsKept(date.month);
    SmallIsKept(date.day);
    SmallIsKept(h);
    SmallIsKept(m);
    SmallIsKept(s);
  }

  lemma {:induction false} SecondOfDay(date: Date, days: nat, h: nat, m: nat, s: nat)
    requires IsDay(date, days) && h < 24 && m < 60 && s < 60
    ensures IsSecond(Civil(date.year, date.month, date.day, h, m, s), 86400 * days + 3600 * h + 60 * m + s)
  {
  }

  /** A date with a narrow year survives the narrowing to 32 bits. */
  lemma {:induction false} DateSurvivesNarrowing(secs: nat, date: Date)
    requires IsDay(date, secs / 86400) && date.year < U32
    ensures IsSecond(Narrowed(date, (secs / 3600) % 24, (secs / 60) % 60, secs % 60), secs)
  {
    MonthsAreShort(date.year, date.month);
    TimeOfDay(secs);
    var h, m, s := (secs / 3600) % 24, (secs / 60) % 60, secs % 60;
    NothingIsNarrowed(date, h, m, s);
    SecondOfDay(date, secs / 86400, h, m, s);
  }

  lemma MonthsAreShort(y: nat, m: nat)
    requires 1 <= m <= 12
    ensures DaysInMonth(y, m) <= 31
  {
  }

  /** A civil time with a narrow year needs a date with a narrow year. */
  lemma {:induction false} OnlyNarrowSurvives(date: Date, c: Civil, secs: nat)
    requires IsSecond(c, secs) && c.year < U32 && IsDay(date, secs / 86400)
    ensures date.year < U32
  {
    SameDay(c, secs);
    DateIsUnique(Date(c.year, c.month, c.day), date);
  }

  lemma {:induction false} SameDay(c: Civil, secs: nat)
    requires IsSecond(c, secs)
    ensures DayNumber(c.year, c.month, c.day) == secs / 86400
  {
    var t := 3600 * c.hour + 60 * c.minute + c.second;
    assert secs == 86400 * DayNumber(c.year, c.month, c.day) + t && t < 86400;
  }

  lemma {:induction false} TimeOfDay(secs: nat)
    ensures secs == 86400 * (secs / 86400) + 3600 * ((secs / 3600) % 24) + 60 * ((secs / 60) % 60) + secs % 60
  {
    var m := secs / 60;
    assert secs == 60 * m + secs % 60;
    var h := secs / 3600;
    assert h == m / 60;
    assert m == 60 * h + m % 60;
    assert secs / 86400 == h / 24;
  }

  predicate CivilLess(a: Civil, b: Civil) {
    || DateLess(Date(a.year, a.month, a.day), Date(b.year, b.month, b.day))
    || (a.year == b.year && a.month == b.month && a.day == b.day &&
        (a.hour < b.hour || (a.hour == b.hour && (a.minute < b.minute || (a.minute == b.minute && a.second < b.second)))))
  }

  /** Later instants have later dates and times. */
  lemma {:induction false} CivilOrderIsTimeOrder(a: Civil, b: Civil)
    requires Valid(a) && Valid(b)
    ensures CivilLess(a, b) <==> EpochSecond(a) < EpochSecond(b)
  {
    var (p, q) := (Date(a.year, a.month, a.day), Date(b.year, b.month, b.day));
    if DateLess(p, q) { LaterDateHasLargerNumber(p, q); }
    else if DateLess(q, p) { LaterDateHasLargerNumber(q, p); }
  }
}
