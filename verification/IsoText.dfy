/**
  Dates and times as canonical strings (`datetime.rs`) and the date text
  `backup.rs` prints from a day number. The claim both rely on is proved here:
  for canonical values, string order is time order.
 */
module IsoText {
  import opened Text
  import opened Calendar

  const MIN_YEAR := 1
  const MAX_YEAR := 9999

  /** `n` ASCII digits as a number. */
  function Digits(s: string, n: nat): Option<nat> {
    if |s| != n || !AllDigits(s) then None else Some(Value(s))
  }

  predicate IsIsoDate(value: string) {
    var parts := Split(value, '-');
    |parts| == 3
    && var year, month, day := Digits(parts[0], 4), Digits(parts[1], 2), Digits(parts[2], 2);
    year.Some? && month.Some? && day.Some?
    && MIN_YEAR <= year.value <= MAX_YEAR
    && 1 <= month.value <= 12
    && 1 <= day.value <= DaysInMonth(year.value, month.value)
  }

  /** The date a canonical text names. */
  function DateOf(value: string): Civil
    requires IsIsoDate(value)
  {
    var parts := Split(value, '-');
    Civil(Value(parts[0]), Value(parts[1]), Value(parts[2]))
  }

  predicate InYears(c: Civil) {
    MIN_YEAR <= c.year <= MAX_YEAR
  }

  /** The canonical text of a date. */
  function DateText(c: Civil): string
    requires Legal(c) && 0 <= c.year <= MAX_YEAR
  {
    Fixed(c.year, 4) + "-" + Fixed(c.month, 2) + "-" + Fixed(c.day, 2)
  }

  /** Minutes since 00:00 of a canonical `HH:mm`. */
  function TimeMinutes(value: string): Option<nat> {
    match SplitOnce(value, ':')
    case None => None
    case Some((h, m)) =>
      var hour, minute := Digits(h, 2), Digits(m, 2);
      if hour.Some? && minute.Some? && hour.value <= 23 && minute.value <= 59
      then Some(hour.value * 60 + minute.value)
      else None
  }

  predicate IsIsoTime(value: string) {
    TimeMinutes(value).Some?
  }

  function TimeText(minutes: nat): string {
    Fixed(minutes / 60, 2) + ":" + Fixed(minutes % 60, 2)
  }

  function SplitDatetime(value: string): Option<(string, string)> {
    match SplitOnce(value, 'T')
    case None => None
    case Some((date, time)) => if IsIsoDate(date) && IsIsoTime(time) then Some((date, time)) else None
  }

  predicate IsIsoDatetime(value: string) {
    SplitDatetime(value).Some?
  }

  predicate IsOnTimeStep(time: string, step: Option<nat>) {
    match step
    case None => true
    case Some(step) => step == 0 || (TimeMinutes(time).Some? && TimeMinutes(time).value % step == 0)
  }

  // ---- canonical texts are exactly the printed dates and times ----------

  lemma DigitsHaveNo(s: string, c: char)
    requires AllDigits(s) && !IsDigit(c)
    ensures c !in s
  {
  }

  lemma Pow10Values()
    ensures Pow10(2) == 100 && Pow10(4) == 10000
  {
    assert Pow10(1) == 10 && Pow10(2) == 100 && Pow10(3) == 1000;
  }

  lemma DateTextSplit(c: Civil)
    requires Legal(c) && 0 <= c.year <= MAX_YEAR
    ensures Split(DateText(c), '-') == [Fixed(c.year, 4), Fixed(c.month, 2), Fixed(c.day, 2)]
  {
    var parts := [Fixed(c.year, 4), Fixed(c.month, 2), Fixed(c.day, 2)];
    forall i | 0 <= i < |parts| ensures '-' !in parts[i] { DigitsHaveNo(parts[i], '-'); }
    SplitJoin(parts, '-');
    assert parts[1..] == [parts[1], parts[2]] && parts[1..][1..] == [parts[2]];
    assert Join(parts[1..], "-") == parts[1] + "-" + parts[2];
    assert Join(parts, "-") == parts[0] + "-" + (parts[1] + "-" + parts[2]);
    assert DateText(c) == Join(parts, "-");
  }

  /** Every date of the years 0001 to 9999 is accepted as its canonical text, and read back. */
  lemma DateTextIsIso(c: Civil)
    requires Legal(c) && InYears(c)
    ensures IsIsoDate(DateText(c)) && DateOf(DateText(c)) == c
  {
    DateTextSplit(c);
    Pow10Values();
    ValueOfFixed(c.year, 4);
    ValueOfFixed(c.month, 2);
    ValueOfFixed(c.day, 2);
  }

  /** Nothing else is accepted: a canonical text is the printed form of the date it names. */
  lemma IsoIsDateText(s: string)
    requires IsIsoDate(s)
    ensures Legal(DateOf(s)) && InYears(DateOf(s)) && DateText(DateOf(s)) == s
  {
    var parts := Split(s, '-');
    JoinSplit(s, '-');
    FixedOfValue(parts[0]);
    FixedOfValue(parts[1]);
    FixedOfValue(parts[2]);
    assert parts[1..] == [parts[1], parts[2]] && parts[1..][1..] == [parts[2]];
    assert Join(parts[1..], ['-']) == parts[1] + "-" + parts[2];
    assert s == parts[0] + "-" + (parts[1] + "-" + parts[2]);
  }

  lemma DateTextOrder(a: Civil, b: Civil)
    requires Legal(a) && Legal(b) && 0 <= a.year <= MAX_YEAR && 0 <= b.year <= MAX_YEAR
    ensures Less(DateText(a), DateText(b)) <==> Before(a, b)
    ensures DateText(a) == DateText(b) <==> a == b
  {
    Pow10Values();
    FixedOrder(a.year, b.year, 4);
    FixedOrder(a.month, b.month, 2);
    FixedOrder(a.day, b.day, 2);
    var ma, mb := Fixed(a.month, 2) + "-" + Fixed(a.day, 2), Fixed(b.month, 2) + "-" + Fixed(b.day, 2);
    LessSeparated(Fixed(a.month, 2), Fixed(b.month, 2), "-", Fixed(a.day, 2), Fixed(b.day, 2));
    LessSeparated(Fixed(a.year, 4), Fixed(b.year, 4), "-", ma, mb);
    assert DateText(a) == Fixed(a.year, 4) + "-" + ma && DateText(b) == Fixed(b.year, 4) + "-" + mb;
    DateTextSplit(a);
    DateTextSplit(b);
  }

  lemma LessSeparated(a: string, b: string, sep: string, x: string, y: string)
    requires |a| == |b| && |sep| == 1
    ensures Less(a + sep + x, b + sep + y) <==> Less(a, b) || (a == b && Less(x, y))
    ensures a + sep + x == b + sep + y <==> a == b && x == y
  {
    var s, t := a + sep + x, b + sep + y;
    assert s == a + (sep + x) && t == b + (sep + y);
    LessConcat(a, b, sep + x, sep + y);
    LessConcat(sep, sep, x, y);
    LessIrreflexive(sep);
    assert s[..|a|] == a && t[..|b|] == b && s[|a| + 1..] == x && t[|b| + 1..] == y;
  }

  /** For canonical dates, string order is calendar order. */
  lemma DateOrder(a: string, b: string)
    requires IsIsoDate(a) && IsIsoDate(b)
    ensures Less(a, b) <==> Before(DateOf(a), DateOf(b))
  {
    IsoIsDateText(a);
    IsoIsDateText(b);
    DateTextOrder(DateOf(a), DateOf(b));
  }

  /** Every minute of the day is accepted as its canonical text, and read back. */
  lemma TimeTextIsIso(minutes: nat)
    requires minutes < 1440
    ensures TimeMinutes(TimeText(minutes)) == Some(minutes)
  {
    var h, m := Fixed(minutes / 60, 2), Fixed(minutes % 60, 2);
    DigitsHaveNo(h, ':');
    SplitOnceFirst(h, ':', m);
    Pow10Values();
    ValueOfFixed(minutes / 60, 2);
    ValueOfFixed(minutes % 60, 2);
  }

  /** Nothing else is accepted as a time. */
  lemma IsoIsTimeText(s: string)
    requires IsIsoTime(s)
    ensures TimeMinutes(s).value < 1440 && TimeText(TimeMinutes(s).value) == s
  {
    var (h, m) := SplitOnce(s, ':').value;
    FixedOfValue(h);
    FixedOfValue(m);
    HourAndMinute(Value(h), Value(m));
    hide Fixed, Value, SplitOnce, Pow10;
    assert s == h + ":" + m;
  }

  lemma HourAndMinute(h: nat, m: nat)
    requires h <= 23 && m <= 59
    ensures (h * 60 + m) / 60 == h && (h * 60 + m) % 60 == m && h * 60 + m < 1440
  {
  }

  lemma TimeTextOrder(a: nat, b: nat)
    requires a < 1440 && b < 1440
    ensures Less(TimeText(a), TimeText(b)) <==> a < b
  {
    Pow10Values();
    FixedOrder(a / 60, b / 60, 2);
    FixedOrder(a % 60, b % 60, 2);
    LessSeparated(Fixed(a / 60, 2), Fixed(b / 60, 2), ":", Fixed(a % 60, 2), Fixed(b % 60, 2));
  }

  /** For canonical times, string order is time order. */
  lemma TimeOrder(a: string, b: string)
    requires IsIsoTime(a) && IsIsoTime(b)
    ensures Less(a, b) <==> TimeMinutes(a).value < TimeMinutes(b).value
  {
    IsoIsTimeText(a);
    IsoIsTimeText(b);
    TimeTextOrder(TimeMinutes(a).value, TimeMinutes(b).value);
  }

  /** A wall-clock moment: a date and a minute of that day. */
  datatype Moment = Moment(date: Civil, minutes: nat)

  predicate Earlier(a: Moment, b: Moment) {
    Before(a.date, b.date) || (a.date == b.date && a.minutes < b.minutes)
  }

  function MomentOf(value: string): Moment
    requires IsIsoDatetime(value)
  {
    var (date, time) := SplitDatetime(value).value;
    Moment(DateOf(date), TimeMinutes(time).value)
  }

  lemma IsoDateLength(s: string)
    requires IsIsoDate(s)
    ensures |s| == 10
  {
    IsoIsDateText(s);
  }

  /** For canonical date-times, string order is time order. */
  lemma DatetimeOrder(a: string, b: string)
    requires IsIsoDatetime(a) && IsIsoDatetime(b)
    ensures Less(a, b) <==> Earlier(MomentOf(a), MomentOf(b))
  {
    var (da, ta) := SplitDatetime(a).value;
    var (db, tb) := SplitDatetime(b).value;
    IsoDateLength(da);
    IsoDateLength(db);
    LessSeparated(da, db, "T", ta, tb);
    DateOrder(da, db);
    TimeOrder(ta, tb);
    IsoIsDateText(da);
    IsoIsDateText(db);
  }

  // ---- the validators ----------------------------------------------------

  /** What a validator answers; the source renders each as its Japanese default text. */
  datatype Message = NotCanonical | BelowMin(min: string) | AboveMax(max: string) | OffStep(step: nat)

  function ValidateDate(value: string, min: Option<string>, max: Option<string>): Option<Message> {
    if !IsIsoDate(value) then Some(NotCanonical)
    else if min.Some? && Less(value, min.value) then Some(BelowMin(min.value))
    else if max.Some? && Less(max.value, value) then Some(AboveMax(max.value))
    else None
  }

  function ValidateTime(value: string, min: Option<string>, max: Option<string>, step: Option<nat>): Option<Message> {
    if !IsIsoTime(value) then Some(NotCanonical)
    else if min.Some? && Less(value, min.value) then Some(BelowMin(min.value))
    else if max.Some? && Less(max.value, value) then Some(AboveMax(max.value))
    else if !IsOnTimeStep(value, step) then
      (match step case None => None case Some(step) => Some(OffStep(step)))
    else None
  }

  function ValidateDatetime(value: string, min: Option<string>, max: Option<string>, step: Option<nat>): Option<Message> {
    match SplitDatetime(value)
    case None => Some(NotCanonical)
    case Some((_, time)) =>
      if min.Some? && Less(value, min.value) then Some(BelowMin(min.value))
      else if max.Some? && Less(max.value, value) then Some(AboveMax(max.value))
      else if !IsOnTimeStep(time, step) then
        (match step case None => None case Some(step) => Some(OffStep(step)))
      else None
  }

  /** `minutes` lies on the grid of `step` minutes counted from 00:00; no step or 0 is no grid. */
  predicate OnGrid(minutes: nat, step: Option<nat>) {
    step.None? || step.value == 0 || minutes % step.value == 0
  }

  /** With canonical bounds, exactly the calendar days between them are accepted. */
  lemma ValidateDateAccepts(value: string, min: Option<string>, max: Option<string>)
    requires (min.Some? ==> IsIsoDate(min.value)) && (max.Some? ==> IsIsoDate(max.value))
    ensures ValidateDate(value, min, max).None? <==>
            && IsIsoDate(value)
            && (min.Some? ==> !Before(DateOf(value), DateOf(min.value)))
            && (max.Some? ==> !Before(DateOf(max.value), DateOf(value)))
  {
    if IsIsoDate(value) {
      if min.Some? { DateOrder(value, min.value); }
      if max.Some? { DateOrder(max.value, value); }
    }
  }

  /** With canonical bounds, exactly the minutes between them that lie on the step are accepted. */
  lemma ValidateTimeAccepts(value: string, min: Option<string>, max: Option<string>, step: Option<nat>)
    requires (min.Some? ==> IsIsoTime(min.value)) && (max.Some? ==> IsIsoTime(max.value))
    ensures ValidateTime(value, min, max, step).None? <==>
            && IsIsoTime(value)
            && (min.Some? ==> TimeMinutes(min.value).value <= TimeMinutes(value).value)
            && (max.Some? ==> TimeMinutes(value).value <= TimeMinutes(max.value).value)
            && OnGrid(TimeMinutes(value).value, step)
  {
    if IsIsoTime(value) {
      if min.Some? { TimeOrder(value, min.value); }
      if max.Some? { TimeOrder(max.value, value); }
    }
  }

  /** With canonical bounds, exactly the moments between them whose minute lies on the step are accepted. */
  lemma ValidateDatetimeAccepts(value: string, min: Option<string>, max: Option<string>, step: Option<nat>)
    requires (min.Some? ==> IsIsoDatetime(min.value)) && (max.Some? ==> IsIsoDatetime(max.value))
    ensures ValidateDatetime(value, min, max, step).None? <==>
            && IsIsoDatetime(value)
            && (min.Some? ==> !Earlier(MomentOf(value), MomentOf(min.value)))
            && (max.Some? ==> !Earlier(MomentOf(max.value), MomentOf(value)))
            && OnGrid(MomentOf(value).minutes, step)
  {
    if IsIsoDatetime(value) {
      if min.Some? { DatetimeOrder(value, min.value); }
      if max.Some? { DatetimeOrder(max.value, value); }
    }
  }

  // ---- the printed date text ---------------------------------------------

  /** Rust's `{n:0w}` with a sign. */
  function Padded(n: int, w: nat): string
    requires w >= 1
  {
    if n >= 0 then ZeroPad(n, w) else "-" + ZeroPad(-n, w - 1)
  }

  function IsoDateFromDays(days: int): string {
    var c := CivilFromDays(days);
    Padded(c.year, 4) + "-" + Padded(c.month, 2) + "-" + Padded(c.day, 2)
  }

  /** Days of 0001-01-01 and 9999-12-31. */
  const FIRST_DAY := -719162
  const LAST_DAY := 2932896

  lemma DayRange(days: int)
    ensures InYears(CivilFromDays(days)) <==> FIRST_DAY <= days <= LAST_DAY
  {
    FirstAndLastDay();
    DaysGiveLegalDates(days);
    DaysOrder(days, FIRST_DAY);
    DaysOrder(LAST_DAY, days);
    var c := CivilFromDays(days);
    hide CivilFromDays;
    assert c.year < 1 <==> Before(c, Civil(1, 1, 1));
    assert c.year > 9999 <==> Before(Civil(9999, 12, 31), c);
  }

  lemma FirstAndLastDay()
    ensures CivilFromDays(FIRST_DAY) == Civil(1, 1, 1)
    ensures CivilFromDays(LAST_DAY) == Civil(9999, 12, 31)
    ensures CivilFromDays(LAST_DAY + 1) == Civil(10000, 1, 1)
  {
    assert DaysToYear(0) == 0 && DaysToYear(399) == 145731;
    assert MonthIndex(306) == 10 && MonthIndex(305) == 9;
    DayOfYear(0, 0, 306);
    DayOfYear(24, 399, 305);
    NextDay(LAST_DAY);
    hide *;
  }

  lemma PrintedIsDateText(days: int)
    requires FIRST_DAY <= days <= LAST_DAY
    ensures Legal(CivilFromDays(days)) && InYears(CivilFromDays(days))
    ensures IsoDateFromDays(days) == DateText(CivilFromDays(days))
  {
    DayRange(days);
    DaysGiveLegalDates(days);
    var c := CivilFromDays(days);
    Pow10Values();
    hide CivilFromDays;
    ZeroPadIsFixed(c.year, 4);
    ZeroPadIsFixed(c.month, 2);
    ZeroPadIsFixed(c.day, 2);
  }

  lemma {:induction false} DecimalLength(n: nat, w: nat)
    requires n >= Pow10(w)
    ensures |Decimal(n)| > w
  {
    if w > 0 {
      assert n >= 10 by { PowPositive(w - 1); }
      DecimalLength(n / 10, w - 1);
    }
  }

  lemma {:induction false} PowPositive(w: nat)
    ensures Pow10(w) >= 1
  {
    if w > 0 { PowPositive(w - 1); }
  }

  /** A year outside 0001 to 9999 never prints as the four digits of a canonical date. */
  lemma YearFieldRefused(year: int, rest: string)
    requires year < MIN_YEAR || year > MAX_YEAR
    ensures !IsIsoDate(Padded(year, 4) + "-" + rest)
  {
    var y := Padded(year, 4);
    Pow10Values();
    assert y + "-" + rest == y + ['-'] + rest;
    if year < 0 {
      var digits := ZeroPad(-year, 3);
      assert y + ['-'] + rest == [] + ['-'] + (digits + ['-'] + rest);
      SplitFirst([], '-', digits + ['-'] + rest);
    } else {
      if year == 0 { ZeroPadIsFixed(0, 4); ValueOfFixed(0, 4); } else { DecimalLength(year, 4); }
      DigitsHaveNo(y, '-');
      SplitFirst(y, '-', rest);
    }
  }

  /** The printed date is a canonical one exactly for the days of the years 0001 to 9999. */
  lemma PrintedDateIsIso(days: int)
    ensures IsIsoDate(IsoDateFromDays(days)) <==> FIRST_DAY <= days <= LAST_DAY
    ensures IsIsoDate(IsoDateFromDays(days)) ==> DateOf(IsoDateFromDays(days)) == CivilFromDays(days)
  {
    hide CivilFromDays, IsIsoDate, DateOf, Padded, DateText;
    var c := CivilFromDays(days);
    DayRange(days);
    if FIRST_DAY <= days <= LAST_DAY {
      PrintedIsDateText(days);
      DateTextIsIso(c);
    } else {
      var rest := Padded(c.month, 2) + "-" + Padded(c.day, 2);
      assert IsoDateFromDays(days) == Padded(c.year, 4) + "-" + rest;
      YearFieldRefused(c.year, rest);
    }
  }

  // ---- date and time of a moment in seconds ------------------------------

  /** A time before the epoch reads as the epoch. */
  function IsoDatetimeFromSystemTime(seconds: int): string {
    var secs := if seconds < 0 then 0 else seconds;
    var ofDay := secs % 86400;
    IsoDateFromDays(secs / 86400) + " " + ClockText(ofDay)
  }

  function ClockText(ofDay: nat): string {
    ZeroPad(ofDay / 3600, 2) + ":" + (ZeroPad(ofDay % 3600 / 60, 2) + ":" + ZeroPad(ofDay % 60, 2))
  }

  lemma ClockTextOrder(a: nat, b: nat)
    requires a < 86400 && b < 86400
    ensures Less(ClockText(a), ClockText(b)) <==> a < b
    ensures ClockText(a) == ClockText(b) <==> a == b
  {
    hide Less, ZeroPad;
    FieldOrder(a / 3600, b / 3600);
    FieldOrder(a % 3600 / 60, b % 3600 / 60);
    FieldOrder(a % 60, b % 60);
    var ha, ma, sa := ZeroPad(a / 3600, 2), ZeroPad(a % 3600 / 60, 2), ZeroPad(a % 60, 2);
    var hb, mb, sb := ZeroPad(b / 3600, 2), ZeroPad(b % 3600 / 60, 2), ZeroPad(b % 60, 2);
    LessSeparated(ma, mb, ":", sa, sb);
    LessSeparated(ha, hb, ":", ma + ":" + sa, mb + ":" + sb);
    ClockParts(a);
    ClockParts(b);
  }

  lemma ClockParts(a: nat)
    requires a < 86400
    ensures a == 3600 * (a / 3600) + 60 * (a % 3600 / 60) + a % 60
    ensures a / 3600 < 24 && a % 3600 / 60 < 60
  {
  }

  lemma FieldOrder(m: nat, n: nat)
    requires m < 60 && n < 60
    ensures |ZeroPad(m, 2)| == |ZeroPad(n, 2)| == 2
    ensures Less(ZeroPad(m, 2), ZeroPad(n, 2)) <==> m < n
    ensures ZeroPad(m, 2) == ZeroPad(n, 2) <==> m == n
  {
    Pow10Values();
    ZeroPadIsFixed(m, 2);
    ZeroPadIsFixed(n, 2);
    FixedOrder(m, n, 2);
  }
}
