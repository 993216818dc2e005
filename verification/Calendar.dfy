/**
  The proleptic Gregorian calendar: the leap-year and month-length rules of
  `datetime.rs`, and the day-number conversion `backup.rs` and
  `banto-attachments` each carry a copy of. The conversion is proved to be the
  calendar: it starts at 1970-01-01 and every further day is the calendar
  successor of the day before it.
 */
module Calendar {

  datatype Civil = Civil(year: int, month: int, day: int)

  predicate IsLeapYear(year: int) {
    (year % 4 == 0 && year % 100 != 0) || year % 400 == 0
  }

  function DaysInMonth(year: int, month: int): int {
    if month == 2 then (if IsLeapYear(year) then 29 else 28)
    else if month == 4 || month == 6 || month == 9 || month == 11 then 30
    else 31
  }

  predicate Legal(c: Civil) {
    1 <= c.month <= 12 && 1 <= c.day <= DaysInMonth(c.year, c.month)
  }

  /** The day after `c`, by the month-length rules alone. */
  function Next(c: Civil): Civil {
    if c.day < DaysInMonth(c.year, c.month) then c.(day := c.day + 1)
    else if c.month < 12 then Civil(c.year, c.month + 1, 1)
    else Civil(c.year + 1, 1, 1)
  }

  /** Chronological order of dates. */
  predicate Before(a: Civil, b: Civil) {
    a.year < b.year
    || (a.year == b.year && a.month < b.month)
    || (a.year == b.year && a.month == b.month && a.day < b.day)
  }

  /** Rust's `/` on a positive divisor: truncation toward zero. */
  function TruncDiv(a: int, b: int): int
    requires b > 0
  {
    if a >= 0 then a / b else -((-a) / b)
  }

  // ---- the conversion, in the parts the source computes in order --------

  function EraOf(z: int): int {
    TruncDiv(if z >= 0 then z else z - 146096, 146097)
  }

  function YearOfEra(doe: nat): int {
    (doe - doe / 1460 + doe / 36524 - doe / 146096) / 365
  }

  /** Days from the start of an era (1 March of a year divisible by 400) to year `yoe` of it. */
  function DaysToYear(yoe: int): int {
    365 * yoe + yoe / 4 - yoe / 100
  }

  function MonthIndex(doy: nat): int {
    (5 * doy + 2) / 153
  }

  function CivilFromDays(days: int): Civil {
    var z := days + 719468;
    var era := EraOf(z);
    var doe := z - era * 146097;
    EraRange(z);
    var yoe := YearOfEra(doe);
    YearBounds(doe);
    OfYearDay(yoe + era * 400, doe - DaysToYear(yoe))
  }

  /** Day `doy` of the year that starts on 1 March of `y`. */
  function OfYearDay(y: int, doy: nat): Civil {
    var mp := MonthIndex(doy);
    var d := doy - (153 * mp + 2) / 5 + 1;
    var m := if mp < 10 then mp + 3 else mp - 9;
    Civil(if m <= 2 then y + 1 else y, m, d)
  }

  /** Truncating division, corrected as the source corrects it, floors. */
  lemma EraRange(z: int)
    ensures 0 <= z - EraOf(z) * 146097 < 146097
  {
  }

  /** The days of year `yoe` of an era, counted from 1 March: 366 in a leap year. */
  function YearLength(yoe: int): int {
    if IsLeapYear(yoe + 1) then 366 else 365
  }

  /** The closed formula for the year picks the year the day lies in. */
  lemma YearBounds(doe: nat)
    requires doe < 146097
    ensures 0 <= YearOfEra(doe) < 400
    ensures 0 <= doe - DaysToYear(YearOfEra(doe)) < YearLength(YearOfEra(doe))
  {
    var c := if doe == 146096 then 3 else doe / 36524;
    var inCentury := doe - 36524 * c;
    var q := inCentury / 1461;
    var inFour := inCentury - 1461 * q;
    var r := if inFour == 1460 then 3 else inFour / 365;
    var d := inFour - 365 * r;
    assert 0 <= c <= 3 && 0 <= q <= 24 && 0 <= r <= 3 && 0 <= d <= 365;
    hide YearOfEra, DaysToYear, IsLeapYear;
    LeapPosition(c, q, r);
    YearOfParts(c, q, r, d);
  }

  /** An era splits into centuries, four-year groups and years; the formula recovers the split. */
  lemma YearOfParts(c: int, q: int, r: int, d: int)
    requires 0 <= c <= 3 && 0 <= q <= 24 && 0 <= r <= 3
    requires 0 <= d < YearLength(100 * c + 4 * q + r)
    ensures YearOfEra(36524 * c + 1461 * q + 365 * r + d) == 100 * c + 4 * q + r
    ensures DaysToYear(100 * c + 4 * q + r) == 36524 * c + 1461 * q + 365 * r
  {
    var doe := 36524 * c + 1461 * q + 365 * r + d;
    var y := 100 * c + 4 * q + r;
    LeapPosition(c, q, r);
    assert d == 365 ==> r == 3;
    var rest := 24 * c + q + 365 * r + d;
    var carry := if rest >= 1460 then 1 else 0;
    var last := if doe == 146096 then 1 else 0;
    assert doe == 1460 * (25 * c + q) + rest && 0 <= rest < 2920;
    assert doe / 1460 == 25 * c + q + carry;
    assert 1461 * q + 365 * r + d < 36524 || (q == 24 && r == 3 && d == 365);
    assert doe / 36524 == c + last;
    assert doe / 146096 == last;
    assert YearOfEra(doe) == (365 * y + (d - carry)) / 365;
    assert 0 <= d - carry < 365;
  }

  lemma LeapPosition(c: int, q: int, r: int)
    requires 0 <= c <= 3 && 0 <= q <= 24 && 0 <= r <= 3
    ensures IsLeapYear(100 * c + 4 * q + r + 1) <==> r == 3 && (q == 24 ==> c == 3)
    ensures (100 * c + 4 * q + r) / 4 == 25 * c + q && (100 * c + 4 * q + r) / 100 == c
  {
    var y := 100 * c + 4 * q + r;
    assert (y + 1) % 4 == (r + 1) % 4;
    assert (y + 1) == 100 * c + (4 * q + r + 1) && 0 < 4 * q + r + 1 <= 100;
    assert (y + 1) % 100 == 0 <==> q == 24 && r == 3;
    assert q == 24 && r == 3 ==> ((y + 1) % 400 == 0 <==> c == 3);
  }

  /** The year a day of the era lies in is the only one whose days include it. */
  lemma YearUnique(doe: nat, y: int)
    requires doe < 146097 && 0 <= y < 400
    requires 0 <= doe - DaysToYear(y) < YearLength(y)
    ensures YearOfEra(doe) == y
  {
    var x := YearOfEra(doe);
    YearBounds(doe);
    if x < y { DaysToYearStep(x, y); }
    if y < x { DaysToYearStep(y, x); }
  }

  lemma DaysToYearStep(x: int, y: int)
    requires 0 <= x < y < 400
    ensures DaysToYear(x) + YearLength(x) <= DaysToYear(y)
    decreases y - x
  {
    DaysToNextYear(x);
    if x + 1 < y { DaysToYearStep(x + 1, y); }
  }

  lemma DaysToNextYear(x: int)
    requires 0 <= x < 399
    ensures DaysToYear(x) + YearLength(x) == DaysToYear(x + 1)
  {
    assert (x + 1) / 4 == x / 4 + (if (x + 1) % 4 == 0 then 1 else 0);
    assert (x + 1) / 100 == x / 100 + (if (x + 1) % 100 == 0 then 1 else 0);
  }

  /** An era is 400 years and 146097 days. */
  lemma EraEnds()
    ensures DaysToYear(0) == 0 && DaysToYear(399) + YearLength(399) == 146097
  {
  }

  // ---- the conversion is the calendar ----------------------------------

  lemma LeapYearPeriod(y: int, era: int)
    ensures IsLeapYear(y + era * 400) <==> IsLeapYear(y)
  {
    Mod4(y, 100 * era);
    Mod100(y, 4 * era);
    Mod400(y, era);
  }

  lemma Mod4(y: int, k: int)
    ensures (y + k * 4) % 4 == y % 4
  {
  }

  lemma Mod100(y: int, k: int)
    ensures (y + k * 100) % 100 == y % 100
  {
  }

  lemma Mod400(y: int, k: int)
    ensures (y + k * 400) % 400 == y % 400
  {
  }

  lemma MonthOfYearDay(doy: nat)
    requires doy <= 365
    ensures 0 <= MonthIndex(doy) <= 11
    ensures (153 * MonthIndex(doy) + 2) / 5 <= doy < (153 * (MonthIndex(doy) + 1) + 2) / 5
  {
  }

  /** Every day of the year gives a legal date of that year, or of January or February of the next. */
  lemma YearDayLegal(y: int, doy: nat)
    requires doy < (if IsLeapYear(y + 1) then 366 else 365)
    ensures Legal(OfYearDay(y, doy))
  {
    MonthOfYearDay(doy);
    var mp := MonthIndex(doy);
    if mp == 11 { assert doy - 337 + 1 <= 29; }
  }

  lemma YearDaySuccessor(y: int, doy: nat)
    requires doy + 1 < (if IsLeapYear(y + 1) then 366 else 365)
    ensures OfYearDay(y, doy + 1) == Next(OfYearDay(y, doy))
  {
    hide IsLeapYear;
    MonthOfYearDay(doy);
    MonthOfYearDay(doy + 1);
    var mp := MonthIndex(doy);
    if doy + 1 == (153 * (mp + 1) + 2) / 5 {
      assert MonthIndex(doy + 1) == mp + 1;
    } else {
      assert MonthIndex(doy + 1) == mp;
    }
  }

  lemma YearEndSuccessor(y: int, doy: nat)
    requires doy + 1 == (if IsLeapYear(y + 1) then 366 else 365)
    ensures OfYearDay(y + 1, 0) == Next(OfYearDay(y, doy))
  {
    hide IsLeapYear;
    assert MonthIndex(0) == 0 && MonthIndex(doy) == 11;
  }

  /** Day 0 is the Unix epoch. */
  lemma EpochDay()
    ensures CivilFromDays(0) == Civil(1970, 1, 1)
  {
    assert EraOf(719468) == 4 && 719468 - 4 * 146097 == 135080;
    assert YearOfEra(135080) == 369 && 135080 - DaysToYear(369) == 306;
  }

  /** A day number falls on one day of one March-based year. */
  lemma YearAndDay(days: int) returns (era: int, yoe: int, doy: nat)
    ensures 0 <= yoe < 400 && doy < YearLength(yoe)
    ensures days + 719468 == era * 146097 + DaysToYear(yoe) + doy
    ensures CivilFromDays(days) == OfYearDay(yoe + era * 400, doy)
    ensures YearLength(yoe + era * 400) == YearLength(yoe)
  {
    hide OfYearDay, YearOfEra, EraOf, IsLeapYear, DaysToYear;
    var z := days + 719468;
    era := EraOf(z);
    EraRange(z);
    var doe := z - era * 146097;
    YearBounds(doe);
    yoe := YearOfEra(doe);
    doy := doe - DaysToYear(yoe);
    LeapYearPeriod(yoe + 1, era);
  }

  /** Conversely, day `doy` of year `yoe` of an era is what its day number converts to. */
  lemma DayOfYear(era: int, yoe: int, doy: nat)
    requires 0 <= yoe < 400 && doy < YearLength(yoe)
    ensures CivilFromDays(era * 146097 + DaysToYear(yoe) + doy - 719468) == OfYearDay(yoe + era * 400, doy)
  {
    hide OfYearDay, YearOfEra, EraOf, IsLeapYear;
    var doe := DaysToYear(yoe) + doy;
    if yoe < 399 { DaysToYearStep(yoe, 399); }
    assert DaysToYear(399) == 145731;
    assert 0 <= doe < 146097;
    EraUnique(era, doe);
    YearUnique(doe, yoe);
  }

  lemma EraUnique(era: int, doe: int)
    requires 0 <= doe < 146097
    ensures EraOf(era * 146097 + doe) == era
  {
    EraRange(era * 146097 + doe);
  }

  /** Every integer day number gives a date the calendar has. */
  lemma DaysGiveLegalDates(days: int)
    ensures Legal(CivilFromDays(days))
  {
    var era, yoe, doy := YearAndDay(days);
    YearDayLegal(yoe + era * 400, doy);
  }

  /** The next day number is the calendar's next day. */
  lemma NextDay(days: int)
    ensures CivilFromDays(days + 1) == Next(CivilFromDays(days))
  {
    hide CivilFromDays, OfYearDay, IsLeapYear, DaysToYear;
    var era, yoe, doy := YearAndDay(days);
    if doy + 1 < YearLength(yoe) {
      YearDaySuccessor(yoe + era * 400, doy);
      DayOfYear(era, yoe, doy + 1);
      return;
    }
    YearEndSuccessor(yoe + era * 400, doy);
    if yoe < 399 {
      DaysToNextYear(yoe);
      DayOfYear(era, yoe + 1, 0);
    } else {
      EraEnds();
      DayOfYear(era + 1, 0, 0);
    }
  }

  lemma BeforeTransitive(a: Civil, b: Civil, c: Civil)
    requires Before(a, b) && Before(b, c)
    ensures Before(a, c)
  {
  }

  /** Any enumeration of legal dates by calendar successor is strictly increasing. */
  lemma {:induction false} SuccessorIncreases(f: int -> Civil, m: int, n: int)
    requires forall k :: Legal(f(k)) && f(k + 1) == Next(f(k))
    requires m < n
    ensures Before(f(m), f(n))
    decreases n - m
  {
    assert f(n - 1 + 1) == Next(f(n - 1));
    if m < n - 1 {
      SuccessorIncreases(f, m, n - 1);
      BeforeTransitive(f(m), f(n - 1), f(n));
    }
  }

  /** Day numbers and dates are in the same order; in particular no two days share a date. */
  lemma DaysOrder(m: int, n: int)
    ensures m < n <==> Before(CivilFromDays(m), CivilFromDays(n))
    ensures m == n <==> CivilFromDays(m) == CivilFromDays(n)
  {
    var f := (k: int) => CivilFromDays(k);
    forall k ensures Legal(f(k)) && f(k + 1) == Next(f(k)) {
      DaysGiveLegalDates(k);
      NextDay(k);
    }
    hide CivilFromDays, Next, Legal;
    if m < n { SuccessorIncreases(f, m, n); }
    if n < m { SuccessorIncreases(f, n, m); }
  }
}
