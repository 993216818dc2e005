/**
  How the date texts that `backup.rs` prints sort, for all day numbers: years are
  padded to four characters, sign included, and neither cut nor widened beyond.
 */
module PrintedDates {
  import opened Text
  import opened Calendar
  import opened IsoText

  // ---- number fields of any width, before a hyphen --------------------------------------

  /** `n` without its last `j` digits. */
  function Cut(n: nat, j: nat): nat {
    if j == 0 then n else Cut(n / 10, j - 1)
  }

  lemma {:induction false} FixedPrefix(n: nat, k: nat, j: nat)
    ensures Fixed(n, k + j)[..k] == Fixed(Cut(n, j), k)
  {
    if j > 0 {
      FixedPrefix(n / 10, k, j - 1);
      assert Fixed(n, k + j) == Fixed(n / 10, k + j - 1) + [Digit(n % 10)];
      assert Fixed(n, k + j)[..k] == Fixed(n / 10, k + j - 1)[..k];
    }
  }

  lemma {:induction false} CutFits(n: nat, k: nat, j: nat)
    requires n < Pow10(k + j)
    ensures Cut(n, j) < Pow10(k)
  {
    if j > 0 { CutFits(n / 10, k, j - 1); }
  }

  /** A padded number is its fixed-width field, in the width it takes. */
  lemma PaddedIsFixed(n: nat, w: nat)
    requires w >= 1
    ensures |ZeroPad(n, w)| >= w && n < Pow10(|ZeroPad(n, w)|) && ZeroPad(n, w) == Fixed(n, |ZeroPad(n, w)|)
  {
    var s := Decimal(n);
    ValueOfDecimal(n);
    FixedOfValue(s);
    hide Decimal, Value, Fixed;
    if |s| < w {
      PowGrows(|s|, w);
      ZeroPadIsFixed(n, w);
    }
  }

  lemma {:induction false} PowGrows(a: nat, b: nat)
    requires a <= b
    ensures Pow10(a) <= Pow10(b)
  {
    if a < b { PowGrows(a, b - 1); }
  }

  /**
    When the text of `a` comes before that of `b`, both padded to at least `w`
    digits and followed by a hyphen: of unequal widths, the shorter number is
    compared with the leading digits of the longer one, and a tie goes to it,
    since a hyphen sorts before a digit.
   */
  predicate Leads(a: nat, b: nat, w: nat) {
    var wa, wb := |ZeroPad(a, w)|, |ZeroPad(b, w)|;
    if wa == wb then a < b
    else if wa < wb then a <= Cut(b, wb - wa)
    else Cut(a, wa - wb) < b
  }

  lemma FieldOrder(a: nat, b: nat, w: nat, x: string, y: string)
    requires w >= 1 && a != b
    ensures Less(ZeroPad(a, w) + "-" + x, ZeroPad(b, w) + "-" + y) <==> Leads(a, b, w)
  {
    var s, t := ZeroPad(a, w), ZeroPad(b, w);
    PaddedIsFixed(a, w);
    PaddedIsFixed(b, w);
    hide ZeroPad, Fixed, Less;
    if |s| == |t| {
      FixedOrder(a, b, |s|);
      LessSeparated(s, t, "-", x, y);
    } else if |s| < |t| {
      ShorterFirst(a, |s|, b, |t| - |s|, x, y);
    } else {
      ShorterSecond(a, |s| - |t|, b, |t|, x, y);
    }
  }

  lemma HyphenFirst(x: string, tail: string)
    requires tail != "" && IsDigit(tail[0])
    ensures Less("-" + x, tail) && !Less(tail, "-" + x)
  {
  }

  lemma ShorterFirst(a: nat, k: nat, b: nat, j: nat, x: string, y: string)
    requires a < Pow10(k) && b < Pow10(k + j) && j > 0
    ensures Less(Fixed(a, k) + "-" + x, Fixed(b, k + j) + "-" + y) <==> a <= Cut(b, j)
  {
    hide Less, Pow10, Cut;
    var s, t := Fixed(a, k), Fixed(b, k + j);
    FixedPrefix(b, k, j);
    CutFits(b, k, j);
    FixedOrder(a, Cut(b, j), k);
    hide Fixed;
    var tail := t[k..] + "-" + y;
    assert tail[0] == t[k];
    HyphenFirst(x, tail);
    LessConcat(s, t[..k], "-" + x, tail);
    assert s + "-" + x == s + ("-" + x) && t + "-" + y == t[..k] + tail;
  }

  lemma ShorterSecond(a: nat, j: nat, b: nat, k: nat, x: string, y: string)
    requires a < Pow10(k + j) && b < Pow10(k) && j > 0
    ensures Less(Fixed(a, k + j) + "-" + x, Fixed(b, k) + "-" + y) <==> Cut(a, j) < b
  {
    hide Less, Pow10, Cut;
    var s, t := Fixed(a, k + j), Fixed(b, k);
    FixedPrefix(a, k, j);
    CutFits(a, k, j);
    FixedOrder(Cut(a, j), b, k);
    hide Fixed;
    var tail := s[k..] + "-" + x;
    assert tail[0] == s[k];
    HyphenFirst(y, tail);
    LessConcat(s[..k], t, tail, "-" + y);
    assert s + "-" + x == s[..k] + tail && t + "-" + y == t + ("-" + y);
  }

  /** Of two numbers exactly one leads. */
  lemma OneLeads(a: nat, b: nat, w: nat)
    requires w >= 1 && a != b
    ensures Leads(a, b, w) <==> !Leads(b, a, w)
  {
    hide ZeroPad;
  }

  // ---- years and dates --------------------------------------------------------------------

  /** Whether the text of year `a` sorts before that of another year `b`: a sign sorts before a digit. */
  predicate YearLeads(a: int, b: int) {
    if a >= 0 && b >= 0 then Leads(a, b, 4)
    else if a < 0 && b < 0 then Leads(-a, -b, 3)
    else a < 0
  }

  lemma YearOrder(a: int, b: int, x: string, y: string)
    requires a != b
    ensures Less(Padded(a, 4) + "-" + x, Padded(b, 4) + "-" + y) <==> YearLeads(a, b)
  {
    if a >= 0 && b >= 0 {
      FieldOrder(a, b, 4, x, y);
    } else if a < 0 && b < 0 {
      FieldOrder(-a, -b, 3, x, y);
      var s, t := ZeroPad(-a, 3) + "-" + x, ZeroPad(-b, 3) + "-" + y;
      assert Padded(a, 4) + "-" + x == "-" + s && Padded(b, 4) + "-" + y == "-" + t;
      LessConcat("-", "-", s, t);
      LessIrreflexive("-");
    } else {
      FirstOfYear(a, x);
      FirstOfYear(b, y);
      hide Padded;
    }
    hide Leads;
  }

  lemma FirstOfYear(a: int, x: string)
    ensures var s := Padded(a, 4) + "-" + x;
            |s| > 0 && (a < 0 ==> s[0] == '-') && (a >= 0 ==> '0' <= s[0])
  {
    if a >= 0 { PaddedIsFixed(a, 4); }
    hide ZeroPad, Fixed;
  }

  /** Month and day, as printed. */
  function MonthDay(c: Civil): string {
    Padded(c.month, 2) + "-" + Padded(c.day, 2)
  }

  lemma MonthDayOrder(a: Civil, b: Civil)
    requires Legal(a) && Legal(b) && a.year == b.year
    ensures |MonthDay(a)| == |MonthDay(b)|
    ensures Less(MonthDay(a), MonthDay(b)) <==> Before(a, b)
    ensures MonthDay(a) == MonthDay(b) <==> a == b
  {
    IsoText.FieldOrder(a.month, b.month);
    IsoText.FieldOrder(a.day, b.day);
    hide ZeroPad, Less, IsLeapYear;
    LessSeparated(ZeroPad(a.month, 2), ZeroPad(b.month, 2), "-", ZeroPad(a.day, 2), ZeroPad(b.day, 2));
  }

  lemma IsoDateParts(days: int, tail: string)
    ensures var c := CivilFromDays(days);
            IsoDateFromDays(days) + tail == Padded(c.year, 4) + "-" + (MonthDay(c) + tail)
  {
    hide CivilFromDays, Padded;
  }

  /** Whether the text of one day sorts before that of another day. */
  predicate DayLeads(m: int, n: int) {
    var a, b := CivilFromDays(m).year, CivilFromDays(n).year;
    if a == b then m < n else YearLeads(a, b)
  }

  /** For any two days, with anything after their texts: how they sort. */
  lemma PrintedOrderWith(m: int, n: int, x: string, y: string)
    ensures Less(IsoDateFromDays(m) + x, IsoDateFromDays(n) + y) <==> if m == n then Less(x, y) else DayLeads(m, n)
  {
    var a, b := CivilFromDays(m), CivilFromDays(n);
    IsoDateParts(m, x);
    IsoDateParts(n, y);
    DaysGiveLegalDates(m);
    DaysGiveLegalDates(n);
    DaysOrder(m, n);
    hide CivilFromDays, Padded, MonthDay, Less, IsoDateFromDays, Before, Legal, YearLeads;
    if a.year != b.year {
      YearOrder(a.year, b.year, MonthDay(a) + x, MonthDay(b) + y);
    } else {
      MonthDayOrder(a, b);
      LessConcat(MonthDay(a), MonthDay(b), x, y);
      LessSeparated(Padded(a.year, 4), Padded(b.year, 4), "-", MonthDay(a) + x, MonthDay(b) + y);
      LessIrreflexive(Padded(a.year, 4));
    }
  }

  /** The texts of two days sort as `DayLeads` says, and are distinct if the days are. */
  lemma PrintedOrderIff(m: int, n: int)
    ensures Less(IsoDateFromDays(m), IsoDateFromDays(n)) <==> m != n && DayLeads(m, n)
    ensures IsoDateFromDays(m) == IsoDateFromDays(n) <==> m == n
  {
    PrintedOrderWith(m, n, "", "");
    PrintedOrderWith(n, m, "", "");
    assert IsoDateFromDays(m) + "" == IsoDateFromDays(m) && IsoDateFromDays(n) + "" == IsoDateFromDays(n);
    LessIrreflexive(IsoDateFromDays(m));
    if m != n { OneDayLeads(m, n); }
    hide IsoDateFromDays, DayLeads;
  }

  lemma OneDayLeads(m: int, n: int)
    requires m != n
    ensures DayLeads(m, n) <==> !DayLeads(n, m)
  {
    var a, b := CivilFromDays(m).year, CivilFromDays(n).year;
    if a != b && a >= 0 && b >= 0 { OneLeads(a, b, 4); }
    if a != b && a < 0 && b < 0 { OneLeads(-a, -b, 3); }
    hide CivilFromDays, Leads;
  }

  // ---- the longest stretch in order ----------------------------------------------------------

  /** The first day of year -1: two years, 365 and 366 days, before 0001-01-01. */
  const FIRST_IN_ORDER := FIRST_DAY - 731

  lemma FirstInOrder()
    ensures CivilFromDays(FIRST_IN_ORDER) == Civil(-1, 1, 1)
    ensures CivilFromDays(FIRST_IN_ORDER - 1).year == -2
  {
    assert DaysToYear(398) == 145366 && MonthIndex(306) == 10 && MonthIndex(305) == 9;
    DayOfYear(-1, 398, 306);
    DayOfYear(-1, 398, 305);
    hide *;
  }

  lemma YearsInOrder(days: int)
    requires FIRST_IN_ORDER <= days <= LAST_DAY
    ensures -1 <= CivilFromDays(days).year <= 9999
  {
    FirstInOrder();
    FirstAndLastDay();
    DaysOrder(days, FIRST_IN_ORDER);
    DaysOrder(LAST_DAY, days);
    DaysGiveLegalDates(days);
    hide CivilFromDays;
  }

  lemma FourDigits(y: nat)
    requires y <= 9999
    ensures |ZeroPad(y, 4)| == 4
  {
    Pow10Values();
    ZeroPadIsFixed(y, 4);
  }

  lemma ThreeDigits(y: nat)
    requires y < 1000
    ensures |ZeroPad(y, 3)| == 3
  {
    assert Pow10(1) == 10 && Pow10(2) == 100 && Pow10(3) == 1000;
    ZeroPadIsFixed(y, 3);
  }

  /** From year -1 to year 9999 the texts sort as the days. */
  lemma InOrder(m: int, n: int)
    requires FIRST_IN_ORDER <= m <= LAST_DAY && FIRST_IN_ORDER <= n <= LAST_DAY
    ensures DayLeads(m, n) <==> m < n
  {
    var a, b := CivilFromDays(m), CivilFromDays(n);
    YearsInOrder(m);
    YearsInOrder(n);
    DaysOrder(m, n);
    if a.year >= 0 { FourDigits(a.year); }
    if b.year >= 0 { FourDigits(b.year); }
    hide CivilFromDays, ZeroPad;
  }

  lemma OutOfOrder()
    ensures !DayLeads(FIRST_IN_ORDER - 1, FIRST_IN_ORDER) && !DayLeads(LAST_DAY, LAST_DAY + 1)
  {
    FirstInOrder();
    FirstAndLastDay();
    ThreeDigits(1);
    ThreeDigits(2);
    FourDigits(9999);
    FiveDigits();
    hide CivilFromDays, ZeroPad;
  }

  lemma FiveDigits()
    ensures |ZeroPad(10000, 4)| == 5
  {
    assert Decimal(1) == "1" && Decimal(10) == "10" && Decimal(100) == "100" && Decimal(1000) == "1000";
  }

  /**
    The texts of all days from `lo` to `hi`, the epoch among them, sort as the days
    if and only if none is before year -1 and none after year 9999.
   */
  lemma DaysSortIff(lo: int, hi: int)
    requires lo <= 0 <= hi
    ensures (forall m, n :: lo <= m < n <= hi ==> Less(IsoDateFromDays(m), IsoDateFromDays(n)))
       <==> FIRST_IN_ORDER <= lo && hi <= LAST_DAY
  {
    OutOfOrder();
    PrintedOrderIff(FIRST_IN_ORDER - 1, FIRST_IN_ORDER);
    PrintedOrderIff(LAST_DAY, LAST_DAY + 1);
    if FIRST_IN_ORDER <= lo && hi <= LAST_DAY {
      forall m, n | lo <= m < n <= hi ensures Less(IsoDateFromDays(m), IsoDateFromDays(n)) {
        PrintedOrderIff(m, n);
        InOrder(m, n);
      }
    } else if lo < FIRST_IN_ORDER {
      assert lo <= FIRST_IN_ORDER - 1 < FIRST_IN_ORDER <= hi;
    } else {
      assert lo <= LAST_DAY < LAST_DAY + 1 <= hi;
    }
    hide IsoDateFromDays, DayLeads, Less;
  }

  // ---- date-times, and the backup list --------------------------------------------------------

  /** A time before the epoch is printed as the epoch. */
  function Clamped(t: int): nat {
    if t < 0 then 0 else t
  }

  /** Whether the text of one moment sorts before that of another moment. */
  predicate MomentLeads(s: nat, t: nat) {
    if s / 86400 == t / 86400 then s < t else DayLeads(s / 86400, t / 86400)
  }

  /** For any two moments: how their texts sort, and that they differ if the moments do. */
  lemma DatetimeOrderIff(s: int, t: int)
    ensures var a, b := Clamped(s), Clamped(t);
            && (Less(IsoDatetimeFromSystemTime(s), IsoDatetimeFromSystemTime(t)) <==> a != b && MomentLeads(a, b))
            && (IsoDatetimeFromSystemTime(s) == IsoDatetimeFromSystemTime(t) <==> a == b)
  {
    var a, b := Clamped(s), Clamped(t);
    MomentOrder(a, b);
    MomentOrder(b, a);
    LessIrreflexive(IsoDatetimeFromSystemTime(a));
    if a / 86400 != b / 86400 { OneDayLeads(a / 86400, b / 86400); }
    hide IsoDateFromDays, ClockText, Less, DayLeads;
  }

  lemma MomentOrder(a: nat, b: nat)
    ensures Less(IsoDatetimeFromSystemTime(a), IsoDatetimeFromSystemTime(b)) <==> a != b && MomentLeads(a, b)
  {
    hide IsoDateFromDays, ClockText, Less, DayLeads;
    var x, y := ClockText(a % 86400), ClockText(b % 86400);
    assert IsoDatetimeFromSystemTime(a) == IsoDateFromDays(a / 86400) + (" " + x);
    assert IsoDatetimeFromSystemTime(b) == IsoDateFromDays(b / 86400) + (" " + y);
    hide IsoDatetimeFromSystemTime;
    PrintedOrderWith(a / 86400, b / 86400, " " + x, " " + y);
    ClockTextOrder(a % 86400, b % 86400);
    LessConcat(" ", " ", x, y);
    LessIrreflexive(" ");
  }

  /** A listed backup file; `createdAt` is the text of the file's modification time. */
  datatype BackupInfo = BackupInfo(fileName: string, createdAt: string)

  /** `list`'s sort key: `createdAt` descending, then the file name descending. */
  predicate ListedBefore(a: BackupInfo, b: BackupInfo) {
    Less(b.createdAt, a.createdAt) || (a.createdAt == b.createdAt && Less(b.fileName, a.fileName))
  }

  /** A backup file as it is listed: modified at second `t`. */
  function Listed(fileName: string, t: int): BackupInfo {
    BackupInfo(fileName, IsoDatetimeFromSystemTime(t))
  }

  /** The two files are listed newest first, and by name descending within one second. */
  predicate NewestFirst(a: string, ta: int, b: string, tb: int) {
    ListedBefore(Listed(a, ta), Listed(b, tb)) <==> Clamped(ta) > Clamped(tb) || (Clamped(ta) == Clamped(tb) && Less(b, a))
  }

  /**
    For any modification times: two files are listed newest first unless they are
    of different years whose texts sort the other way.
   */
  lemma BackupListOrder(a: string, ta: int, b: string, tb: int)
    ensures NewestFirst(a, ta, b, tb) <==>
              var s, t := Clamped(ta), Clamped(tb);
              s == t || (MomentLeads(t, s) <==> t < s)
  {
    hide IsoDatetimeFromSystemTime, Less, MomentLeads;
    DatetimeOrderIff(tb, ta);
  }

  /** The whole list is newest first, whatever files there are, if and only if none is dated after year 9999. */
  lemma BackupListIsNewestFirstIff(latest: nat)
    ensures (forall a, ta, b, tb :: ta <= latest && tb <= latest ==> NewestFirst(a, ta, b, tb))
       <==> latest / 86400 <= LAST_DAY
  {
    hide NewestFirst, DayLeads;
    if latest / 86400 <= LAST_DAY {
      forall a, ta, b, tb | ta <= latest && tb <= latest ensures NewestFirst(a, ta, b, tb) {
        BackupListOrder(a, ta, b, tb);
        InOrder(Clamped(tb) / 86400, Clamped(ta) / 86400);
      }
    } else {
      var new', old' := (LAST_DAY + 1) * 86400, LAST_DAY * 86400;
      OutOfOrder();
      BackupListOrder("", new', "", old');
      assert !NewestFirst("", new', "", old');
    }
  }
}
