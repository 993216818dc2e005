/**
  Where a backup goes and what it is called (`backup.rs`): the directory of each
  database, the names backups are given and asked for by, and the path inside
  the `VACUUM INTO` statement.
 */
module BackupNames {
  import opened Text
  import opened Calendar
  import opened IsoText
  import UniquePath

  // ---- one directory per database -----------------------------------------------

  /** A database's file name that may name its directory under `backups/`. */
  predicate IsScopeName(name: string) {
    && name != "" && name != "." && name != ".."
    && name[|name| - 1] != '.' && name[|name| - 1] != ' '
    && forall i :: 0 <= i < |name| ==> !IsControl(name[i]) && name[i] !in "/\\:*?\"<>|"
  }

  const PENDING_RESTORE_FILE_NAME := "restore-pending.sqlite3"
  const EXTENSION := ".sqlite3"

  predicate EndsWith(s: string, suffix: string) {
    |s| >= |suffix| && s[|s| - |suffix|..] == suffix
  }

  predicate IsNameChar(c: char) {
    'a' <= c <= 'z' || 'A' <= c <= 'Z' || IsDigit(c) || c == '.' || c == '_' || c == '-'
  }

  /** `safe_backup_path`: the file names a request may ask for. */
  predicate IsSafeName(name: string) {
    name != PENDING_RESTORE_FILE_NAME && EndsWith(name, EXTENSION) && NameChars(name)
  }

  predicate NameChars(s: string) {
    forall i :: 0 <= i < |s| ==> IsNameChar(s[i])
  }

  /** `{base}/backups/{name}` */
  function ScopeDir(base: string, name: string): string {
    base + "/backups/" + name
  }

  function FileIn(dir: string, file: string): string {
    dir + "/" + file
  }

  /** No file a request may name, and no staged restore, of one database is another's in the same folder. */
  lemma ScopesAreDisjoint(base: string, a: string, b: string, f: string, g: string)
    requires IsScopeName(a) && IsScopeName(b)
    requires IsSafeName(f) || f == PENDING_RESTORE_FILE_NAME
    requires IsSafeName(g) || g == PENDING_RESTORE_FILE_NAME
    requires FileIn(ScopeDir(base, a), f) == FileIn(ScopeDir(base, b), g)
    ensures a == b && f == g
  {
    var x, y := a + "/" + f, b + "/" + g;
    var front := base + "/backups/";
    assert FileIn(ScopeDir(base, a), f) == front + x && FileIn(ScopeDir(base, b), g) == front + y;
    assert x == (front + x)[|front|..] && y == (front + y)[|front|..];
    SplitOnceFirst(a, '/', f);
    SplitOnceFirst(b, '/', g);
    assert a + ['/'] + f == x && b + ['/'] + g == y;
  }

  /** ASCII letters, digits, and three marks. */
  lemma NameCharIff(c: char)
    ensures IsNameChar(c) <==>
              || 65 <= c as int <= 90 || 97 <= c as int <= 122 || 48 <= c as int <= 57
              || c == '.' || c == '_' || c == '-'
  {
    assert 'A' as int == 65 && 'Z' as int == 90 && 'a' as int == 97 && 'z' as int == 122 && '0' as int == 48 && '9' as int == 57;
  }

  /** A request may ask for exactly the names of letters, digits, dots, underscores and hyphens that end in the extension, but for the staged restore's. */
  lemma SafeNameIff(name: string)
    ensures IsSafeName(name) <==>
              && name != "restore-pending.sqlite3"
              && (exists stem: string :: name == stem + ".sqlite3")
              && forall i :: 0 <= i < |name| ==>
                   || 65 <= name[i] as int <= 90 || 97 <= name[i] as int <= 122 || 48 <= name[i] as int <= 57
                   || name[i] == '.' || name[i] == '_' || name[i] == '-'
  {
    forall i | 0 <= i < |name|
      ensures IsNameChar(name[i]) <==>
                || 65 <= name[i] as int <= 90 || 97 <= name[i] as int <= 122 || 48 <= name[i] as int <= 57
                || name[i] == '.' || name[i] == '_' || name[i] == '-'
    {
      NameCharIff(name[i]);
    }
    if EndsWith(name, EXTENSION) { assert name == name[..|name| - 8] + ".sqlite3"; }
    if stem: string :| name == stem + ".sqlite3" { assert name[|stem|..] == ".sqlite3"; }
    hide IsNameChar;
  }

  /** A safe name stays inside its directory: it has no separator and is no way up. */
  lemma SafeNamesStayInside(name: string)
    requires IsSafeName(name)
    ensures '/' !in name && '\\' !in name && name != "." && name != ".." && IsScopeName(name)
  {
    assert name[|name| - 8..] == EXTENSION;
    assert name[|name| - 1] == EXTENSION[7];
  }

  // ---- the names backups are given -------------------------------------------------

  function OnlyDigits(s: string): string {
    if s == "" then "" else IfDigit(s[0]) + OnlyDigits(s[1..])
  }

  function IfDigit(c: char): string {
    if IsDigit(c) then [c] else ""
  }

  /** `compact_stamp`: the digits of the date and of the time. */
  function CompactStamp(datetime: string): string {
    match SplitOnce(datetime, ' ')
    case None => OnlyDigits(datetime) + "-" + "000000"
    case Some((date, time)) => OnlyDigits(date) + "-" + OnlyDigits(time)
  }

  lemma {:induction false} OnlyDigitsConcat(a: string, b: string)
    ensures OnlyDigits(a + b) == OnlyDigits(a) + OnlyDigits(b)
  {
    if a == "" {
      assert a + b == b;
    } else {
      assert (a + b)[0] == a[0] && (a + b)[1..] == a[1..] + b;
      assert OnlyDigits(a) == IfDigit(a[0]) + OnlyDigits(a[1..]);
      assert OnlyDigits(a + b) == IfDigit(a[0]) + OnlyDigits(a[1..] + b);
      hide OnlyDigits, IfDigit;
      OnlyDigitsConcat(a[1..], b);
    }
  }

  lemma {:induction false} OnlyDigitsKeeps(s: string)
    requires AllDigits(s)
    ensures OnlyDigits(s) == s
  {
    if s != "" {
      OnlyDigitsKeeps(s[1..]);
      assert s == [s[0]] + s[1..];
    }
  }

  lemma OnlyDigitsDrops(a: string, sep: char, b: string)
    requires AllDigits(a) && !IsDigit(sep)
    ensures OnlyDigits(a + [sep] + b) == a + OnlyDigits(b)
  {
    OnlyDigitsConcat(a + [sep], b);
    OnlyDigitsConcat(a, [sep]);
    OnlyDigitsKeeps(a);
    SeparatorGoes(sep);
    hide OnlyDigits;
    assert a + "" == a;
  }

  lemma SeparatorGoes(sep: char)
    requires !IsDigit(sep)
    ensures OnlyDigits([sep]) == ""
  {
    assert [sep][1..] == "";
  }

  /** Three digit fields around a separator. */
  lemma OnlyDigitsOfFields(a: string, sep: char, b: string, c: string)
    requires AllDigits(a) && AllDigits(b) && AllDigits(c) && !IsDigit(sep)
    ensures OnlyDigits(a + [sep] + (b + [sep] + c)) == a + (b + c)
  {
    hide OnlyDigits;
    OnlyDigitsDrops(a, sep, b + [sep] + c);
    OnlyDigitsDrops(b, sep, c);
    OnlyDigitsKeeps(c);
  }

  /** The stamp of a moment: date and clock digits, each field in its fixed width. */
  function DateDigits(c: Civil): string
    requires Legal(c) && InYears(c)
  {
    Fixed(c.year, 4) + (Fixed(c.month, 2) + Fixed(c.day, 2))
  }

  function ClockDigits(ofDay: nat): string {
    Fixed(ofDay / 3600, 2) + (Fixed(ofDay % 3600 / 60, 2) + Fixed(ofDay % 60, 2))
  }

  lemma StampOfMoment(t: nat)
    requires t < (LAST_DAY + 1) * 86400
    ensures Legal(CivilFromDays(t / 86400)) && InYears(CivilFromDays(t / 86400))
    ensures CompactStamp(IsoDatetimeFromSystemTime(t))
            == DateDigits(CivilFromDays(t / 86400)) + "-" + ClockDigits(t % 86400)
  {
    PrintedIsDateText(t / 86400);
    var c := CivilFromDays(t / 86400);
    hide CivilFromDays, IsoDateFromDays;
    ClockFields(t % 86400);
    DateFields(c);
    SplitOnceFirst(DateText(c), ' ', ClockText(t % 86400));
    assert DateText(c) + [' '] + ClockText(t % 86400) == DateText(c) + " " + ClockText(t % 86400);
  }

  lemma DateFields(c: Civil)
    requires Legal(c) && InYears(c)
    ensures OnlyDigits(DateText(c)) == DateDigits(c) && ' ' !in DateText(c)
  {
    var y, m, d := Fixed(c.year, 4), Fixed(c.month, 2), Fixed(c.day, 2);
    assert DateText(c) == y + ['-'] + (m + ['-'] + d);
    OnlyDigitsOfFields(y, '-', m, d);
    DigitsHaveNo(y, ' ');
    DigitsHaveNo(m, ' ');
    DigitsHaveNo(d, ' ');
  }

  lemma ClockFields(ofDay: nat)
    requires ofDay < 86400
    ensures OnlyDigits(ClockText(ofDay)) == ClockDigits(ofDay)
  {
    ClockParts(ofDay);
    Pow10Values();
    ZeroPadIsFixed(ofDay / 3600, 2);
    ZeroPadIsFixed(ofDay % 3600 / 60, 2);
    ZeroPadIsFixed(ofDay % 60, 2);
    OnlyDigitsOfFields(Fixed(ofDay / 3600, 2), ':', Fixed(ofDay % 3600 / 60, 2), Fixed(ofDay % 60, 2));
    hide ZeroPad, Fixed, OnlyDigits;
    assert ":" == [':'];
  }

  /** The stamps of two moments sort as the moments do, and differ if they do. */
  lemma StampOrder(a: nat, b: nat)
    requires a < (LAST_DAY + 1) * 86400 && b < (LAST_DAY + 1) * 86400
    ensures var s, t := CompactStamp(IsoDatetimeFromSystemTime(a)), CompactStamp(IsoDatetimeFromSystemTime(b));
            (Less(s, t) <==> a < b) && (s == t <==> a == b)
  {
    StampOfMoment(a);
    StampOfMoment(b);
    var ca, cb := CivilFromDays(a / 86400), CivilFromDays(b / 86400);
    DateDigitsOrder(ca, cb);
    ClockDigitsOrder(a % 86400, b % 86400);
    DaysOrder(a / 86400, b / 86400);
    hide CivilFromDays, CompactStamp, IsoDatetimeFromSystemTime, DateDigits, ClockDigits, Less, Before, Legal;
    LessSeparated(DateDigits(ca), DateDigits(cb), "-", ClockDigits(a % 86400), ClockDigits(b % 86400));
  }

  lemma DateDigitsOrder(a: Civil, b: Civil)
    requires Legal(a) && Legal(b) && InYears(a) && InYears(b)
    ensures |DateDigits(a)| == |DateDigits(b)|
    ensures Less(DateDigits(a), DateDigits(b)) <==> Before(a, b)
    ensures DateDigits(a) == DateDigits(b) <==> a == b
  {
    Pow10Values();
    FixedOrder(a.year, b.year, 4);
    FixedOrder(a.month, b.month, 2);
    FixedOrder(a.day, b.day, 2);
    hide Fixed, Less, IsLeapYear;
    FieldsOrder(Fixed(a.month, 2), Fixed(b.month, 2), Fixed(a.day, 2), Fixed(b.day, 2));
    FieldsOrder(Fixed(a.year, 4), Fixed(b.year, 4), Fixed(a.month, 2) + Fixed(a.day, 2), Fixed(b.month, 2) + Fixed(b.day, 2));
  }

  lemma FieldsOrder(a: string, b: string, x: string, y: string)
    requires |a| == |b|
    ensures Less(a + x, b + y) <==> Less(a, b) || (a == b && Less(x, y))
    ensures a + x == b + y <==> a == b && x == y
  {
    LessConcat(a, b, x, y);
    assert (a + x)[..|a|] == a && (b + y)[..|b|] == b && (a + x)[|a|..] == x && (b + y)[|b|..] == y;
  }

  lemma ClockDigitsOrder(a: nat, b: nat)
    requires a < 86400 && b < 86400
    ensures Less(ClockDigits(a), ClockDigits(b)) <==> a < b
    ensures ClockDigits(a) == ClockDigits(b) <==> a == b
  {
    ClockParts(a);
    ClockParts(b);
    Pow10Values();
    FixedOrder(a / 3600, b / 3600, 2);
    FixedOrder(a % 3600 / 60, b % 3600 / 60, 2);
    FixedOrder(a % 60, b % 60, 2);
    hide Fixed, Less;
    FieldsOrder(Fixed(a % 3600 / 60, 2), Fixed(b % 3600 / 60, 2), Fixed(a % 60, 2), Fixed(b % 60, 2));
    FieldsOrder(Fixed(a / 3600, 2), Fixed(b / 3600, 2),
                Fixed(a % 3600 / 60, 2) + Fixed(a % 60, 2), Fixed(b % 3600 / 60, 2) + Fixed(b % 60, 2));
  }

  lemma NameCharsConcat(a: string, b: string)
    requires NameChars(a) && NameChars(b)
    ensures NameChars(a + b)
  {
  }

  lemma PiecesAreNameChars(n: nat)
    ensures NameChars("banto-") && NameChars("pre-restore-") && NameChars("-") && NameChars(EXTENSION)
    ensures NameChars(Decimal(n))
  {
  }

  lemma {:induction false} OnlyDigitsAreDigits(s: string)
    ensures AllDigits(OnlyDigits(s))
  {
    if s != "" {
      OnlyDigitsAreDigits(s[1..]);
      assert AllDigits(IfDigit(s[0]));
    }
  }

  /** Whatever the date-time text, its stamp is digits around a hyphen. */
  lemma StampChars(datetime: string)
    ensures NameChars(CompactStamp(datetime))
  {
    OnlyDigitsAreDigits(datetime);
    match SplitOnce(datetime, ' ') {
      case None =>
      case Some((date, time)) =>
        OnlyDigitsAreDigits(date);
        OnlyDigitsAreDigits(time);
    }
    hide OnlyDigits, SplitOnce;
  }

  /** A name with this stem is safe, and never the reserved one. */
  lemma CandidateIsSafe(prefix: string, stamp: string, n: nat)
    requires prefix == "banto-" || prefix == "pre-restore-"
    requires NameChars(stamp)
    ensures IsSafeName(UniquePath.Candidate(prefix + stamp, "sqlite3", n))
  {
    PiecesAreNameChars(n);
    hide NameChars, Decimal;
    NameCharsConcat(prefix, stamp);
    NameCharsConcat(prefix + stamp, "-");
    NameCharsConcat(prefix + stamp + "-", Decimal(n));
    var stem := if n == 0 then prefix + stamp else prefix + stamp + "-" + Decimal(n);
    NameCharsConcat(stem, EXTENSION);
    var name := UniquePath.Candidate(prefix + stamp, "sqlite3", n);
    assert name == stem + EXTENSION;
    assert name[|stem|..] == EXTENSION;
    assert name[0] == prefix[0] && name[1] == prefix[1];
    assert PENDING_RESTORE_FILE_NAME[0] == 'r' && prefix[0] != 'r';
  }

  /** Every name a backup is given, at whatever moment and whatever suffix `unique_path` reaches, can be listed and asked for again. */
  lemma GivenNamesAreSafe(prefix: string, t: int, n: nat)
    requires prefix == "banto-" || prefix == "pre-restore-"
    ensures IsSafeName(UniquePath.Candidate(prefix + CompactStamp(IsoDatetimeFromSystemTime(t)), "sqlite3", n))
  {
    StampChars(IsoDatetimeFromSystemTime(t));
    hide *;
    CandidateIsSafe(prefix, CompactStamp(IsoDatetimeFromSystemTime(t)), n);
  }

  // ---- the path in the statement -----------------------------------------------------

  /** Single quotes doubled. */
  function Escaped(s: string): string {
    if s == "" then "" else (if s[0] == '\'' then "''" else [s[0]]) + Escaped(s[1..])
  }

  function VacuumIntoSql(path: string): string {
    "VACUUM INTO '" + Escaped(path) + "'"
  }

  /** SQL's string literal after its opening quote: its value, and what follows the closing quote. */
  function Literal(s: string): Option<(string, string)>
    decreases |s|
  {
    if s == "" then None
    else if s[0] != '\'' then
      (match Literal(s[1..])
       case None => None
       case Some((value, rest)) => Some(([s[0]] + value, rest)))
    else if |s| > 1 && s[1] == '\'' then
      (match Literal(s[2..])
       case None => None
       case Some((value, rest)) => Some(("'" + value, rest)))
    else Some(("", s[1..]))
  }

  lemma {:induction false} LiteralOfEscaped(path: string)
    ensures Literal(Escaped(path) + "'") == Some((path, ""))
  {
    if path == "" {
      assert Escaped(path) + "'" == "'" && "'"[1..] == "";
    } else {
      LiteralOfEscaped(path[1..]);
      var rest := Escaped(path[1..]) + "'";
      var s := Escaped(path) + "'";
      assert path == [path[0]] + path[1..];
      if path[0] == '\'' {
        assert s == "''" + rest && s[2..] == rest;
      } else {
        assert s == [path[0]] + rest && s[1..] == rest;
      }
    }
  }

  /** Whatever the path, the statement's literal is that path and nothing follows it. */
  lemma VacuumNamesThePath(path: string)
    ensures Literal(VacuumIntoSql(path)[|"VACUUM INTO '"|..]) == Some((path, ""))
  {
    LiteralOfEscaped(path);
    assert VacuumIntoSql(path)[|"VACUUM INTO '"|..] == Escaped(path) + "'";
  }
}
