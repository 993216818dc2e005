/**
  The deletion epoch as the text it is in `settings` (`audit.rs`): readers parse
  it in Rust, a prune reads and advances it in SQL, and the two may read a
  hand-edited value differently.
 */
module DeletionEpoch {
  import opened Text

  datatype Backend = Sqlite | Postgres

  /** A number as SQL prints it. */
  function Signed(n: int): string {
    if n >= 0 then Decimal(n) else "-" + Decimal(-n)
  }

  /** Rust's `parse::<i64>`: digits after at most one sign. */
  function ParseInt(s: string): Option<int> {
    var body := if s != "" && (s[0] == '+' || s[0] == '-') then s[1..] else s;
    if body == "" || !AllDigits(body) then None
    else
      var n: int := Value(body);
      Some(if s[0] == '-' then -n else n)
  }

  /** What a reader takes the epoch to be: 0 when absent or not a number. */
  function ParseEpoch(text: Option<string>): int {
    if text.None? then 0
    else match ParseInt(Trim(text.value))
      case None => 0
      case Some(n) => n
  }

  function SkipSpace(s: string): string {
    if s != "" && (s[0] == ' ' || '\t' <= s[0] <= '\r') then SkipSpace(s[1..]) else s
  }

  function LeadingDigits(s: string): (r: string)
    ensures AllDigits(r)
  {
    if s != "" && IsDigit(s[0]) then [s[0]] + LeadingDigits(s[1..]) else ""
  }

  /** SQLite's `CAST(text AS INTEGER)`: the longest prefix that is a number, after spaces, or else 0. */
  function CastInteger(s: string): int {
    var t := SkipSpace(s);
    var signed := t != "" && (t[0] == '-' || t[0] == '+');
    var n: int := Value(LeadingDigits(if signed then t[1..] else t));
    if signed && t[0] == '-' then -n else n
  }

  /** What a prune takes the stored text to be; PostgreSQL's pattern allows a minus sign and digits only. */
  function PruneReads(backend: Backend, s: string): int {
    match backend
    case Sqlite => CastInteger(s)
    case Postgres => if s != "" && s[0] != '+' && ParseInt(s).Some? then ParseInt(s).value else 0
  }

  /** The text a prune that deleted something leaves. */
  function BumpEpoch(backend: Backend, text: Option<string>): Option<string> {
    Some(if text.None? then "1" else Signed(PruneReads(backend, text.value) + 1))
  }

  /** Readers and prunes take the stored text to be the same number. */
  predicate Agreed(backend: Backend, text: Option<string>) {
    text.Some? ==> PruneReads(backend, text.value) == ParseEpoch(text)
  }

  // ---- printed numbers are read back ------------------------------------------------------

  lemma {:induction false} LeadingDigitsOf(s: string)
    requires AllDigits(s)
    ensures LeadingDigits(s) == s
  {
    if s != "" {
      LeadingDigitsOf(s[1..]);
      assert s == [s[0]] + s[1..];
    }
  }

  lemma TrimmedAlready(s: string)
    requires s != "" && !IsWhitespace(s[0]) && !IsWhitespace(s[|s| - 1])
    ensures Trim(s) == s
  {
  }

  lemma PrintedIsParsed(n: int)
    ensures ParseInt(Signed(n)) == Some(n) && Trim(Signed(n)) == Signed(n)
    ensures Signed(n) != "" && Signed(n)[0] != '+'
  {
    var s := Signed(n);
    var body := Decimal(if n >= 0 then n else -n);
    ValueOfDecimal(if n >= 0 then n else -n);
    assert IsDigit(body[0]) && IsDigit(body[|body| - 1]);
    if n < 0 { assert s[1..] == body; }
    TrimmedAlready(s);
    hide Decimal, Value;
  }

  lemma PrintedIsCast(n: int)
    ensures CastInteger(Signed(n)) == n
  {
    var s := Signed(n);
    var body := Decimal(if n >= 0 then n else -n);
    ValueOfDecimal(if n >= 0 then n else -n);
    LeadingDigitsOf(body);
    assert IsDigit(body[0]);
    hide Decimal, Value, LeadingDigits;
    assert SkipSpace(s) == s;
    assert n < 0 ==> s[0] == '-' && s[1..] == body;
    assert n >= 0 ==> s == body && s[0] != '-' && s[0] != '+';
    hide SkipSpace, Signed;
  }

  /** What a bump leaves is read alike by both, as one more than what the prune read. */
  lemma BumpIsRead(backend: Backend, text: Option<string>)
    ensures Agreed(backend, BumpEpoch(backend, text))
    ensures ParseEpoch(BumpEpoch(backend, text)) == (if text.None? then 1 else PruneReads(backend, text.value) + 1)
  {
    hide ParseInt, CastInteger, Trim, Signed;
    var n := if text.None? then 1 else PruneReads(backend, text.value) + 1;
    OneIsPrinted();
    assert BumpEpoch(backend, text) == Some(Signed(n));
    PrintedIsParsed(n);
    PrintedIsCast(n);
  }

  lemma OneIsPrinted()
    ensures Signed(1) == "1"
  {
  }

  /**
    A bump makes every reader see exactly one more, if and only if prune and reader
    agree on the text before; it goes unseen if and only if they are one apart.
   */
  lemma BumpIsSeenIff(backend: Backend, text: Option<string>)
    ensures ParseEpoch(BumpEpoch(backend, text)) == ParseEpoch(text) + 1 <==> Agreed(backend, text)
    ensures ParseEpoch(BumpEpoch(backend, text)) == ParseEpoch(text)
            <==> text.Some? && ParseEpoch(text) == PruneReads(backend, text.value) + 1
  {
    BumpIsRead(backend, text);
  }

  /** They agree on an absent epoch, on every printed number, and on text neither takes for a number. */
  lemma AgreedTexts(backend: Backend, n: int)
    ensures Agreed(backend, None) && Agreed(backend, Some(Signed(n)))
  {
    PrintedIsParsed(n);
    PrintedIsCast(n);
  }

  /** A hand-edited `-1x` reads as 0; a prune on SQLite casts it to -1, writes 0, and goes unseen. */
  lemma UnseenBump()
    ensures ParseEpoch(Some("-1x")) == 0 && BumpEpoch(Sqlite, Some("-1x")) == Some("0")
    ensures ParseEpoch(BumpEpoch(Sqlite, Some("-1x"))) == ParseEpoch(Some("-1x"))
  {
    TrimmedAlready("-1x");
    assert "-1x"[1..] == "1x" && "1x"[1..] == "x";
    assert !IsDigit("1x"[1]);
    assert LeadingDigits("1x") == "1";
    assert "1"[..0] == "" && Value("1") == 1;
    assert CastInteger("-1x") == -1;
    TrimmedAlready("0");
    assert Value("0") == 0 by { assert "0"[..0] == ""; }
  }

  /** A space in front: readers trim it, PostgreSQL's prune takes the text for no number and starts again from 1. */
  lemma BumpGoesBack()
    ensures ParseEpoch(Some(" 5")) == 5 && BumpEpoch(Postgres, Some(" 5")) == Some("1")
  {
    assert " 5"[1..] == "5";
    TrimmedAlready("5");
    assert Trim(" 5") == "5";
    assert Value("5") == 5 by { assert "5"[..0] == ""; }
    assert !AllDigits(" 5");
    OneIsPrinted();
  }
}
