/**
  The failure counter of the LAN reach check (`reach_check.rs`): per peer IP, a
  counting window, a block after too many failures, and a bounded table that
  evicts the least recently seen peer.
 */
module ReachLimiter {
  import opened Text
  import Sets

  /** An instant of the monotonic clock, in nanoseconds. */
  type Instant = int

  const RATE_LIMIT_FAILURES: nat := 10
  const RATE_LIMIT_WINDOW: Instant := 60_000_000_000
  const RATE_LIMIT_TABLE_CAP: nat := 256

  datatype Ip = V4(octets: seq<nat>) | V6(segments: seq<nat>)

  datatype FailureEntry = FailureEntry(windowStart: Instant, failures: nat, blockedUntil: Option<Instant>, lastSeen: Instant)

  type Table = map<Ip, FailureEntry>

  /** `blocked`: how long the peer must still wait, if it is blocked. An elapsed block is forgotten. */
  function Blocked(table: Table, ip: Ip, now: Instant): (Table, Option<Instant>) {
    if ip !in table then (table, None)
    else match table[ip].blockedUntil
      case Some(until) =>
        if now < until then (table[ip := table[ip].(lastSeen := now)], Some(until - now))
        else (table - {ip}, None)
      case None => (table, None)
  }

  /** The peer a full table drops for a new one: one seen no later than any other. */
  ghost predicate EvictsOldest(table: Table, ip: Ip, victim: Option<Ip>) {
    if ip !in table && |table| >= RATE_LIMIT_TABLE_CAP then
      && victim.Some? && victim.value in table
      && forall other :: other in table ==> table[victim.value].lastSeen <= table[other].lastSeen
    else victim.None?
  }

  /** `duration_since` saturates at zero. */
  function Since(now: Instant, start: Instant): Instant {
    if now >= start then now - start else 0
  }

  function Counted(entry: FailureEntry, now: Instant): FailureEntry {
    var elapsed := Since(now, entry.windowStart) >= RATE_LIMIT_WINDOW;
    var failures := if elapsed then 1 else entry.failures + 1;
    FailureEntry(if elapsed then now else entry.windowStart, failures,
                 if failures >= RATE_LIMIT_FAILURES then Some(now + RATE_LIMIT_WINDOW) else entry.blockedUntil,
                 now)
  }

  function CountFailure(table: Table, ip: Ip, now: Instant, victim: Option<Ip>): Table {
    var kept := if victim.Some? then table - {victim.value} else table;
    var entry := if ip in kept then kept[ip] else FailureEntry(now, 0, None, now);
    kept[ip := Counted(entry, now)]
  }

  /** One check: answered at once while blocked, otherwise judged; `fails` is the judgment. */
  datatype Attempt = Attempt(ip: Ip, now: Instant, fails: bool, victim: Option<Ip>)

  datatype Answer = RateLimited(retryAfter: Instant) | Failed | Passed

  function Judge(table: Table, a: Attempt): (Table, Answer) {
    var (unblocked, retry) := Blocked(table, a.ip, a.now);
    match retry
    case Some(wait) => (unblocked, RateLimited(wait))
    case None => if a.fails then (CountFailure(unblocked, a.ip, a.now, a.victim), Failed) else (unblocked, Passed)
  }

  /** The victim of every counted failure is a least recently seen peer. */
  ghost predicate Proper(table: Table, a: Attempt) {
    Judge(table, a).1 == Failed ==> EvictsOldest(Blocked(table, a.ip, a.now).0, a.ip, a.victim)
  }

  function Run(table: Table, attempts: seq<Attempt>): Table
    decreases attempts
  {
    if attempts == [] then table else Run(Judge(table, attempts[0]).0, attempts[1..])
  }

  /** A run under a clock that never goes back, starting at `from`, with proper evictions. */
  ghost predicate Clocked(table: Table, from: Instant, attempts: seq<Attempt>)
    decreases attempts
  {
    attempts == []
    || (from <= attempts[0].now && Proper(table, attempts[0])
        && Clocked(Judge(table, attempts[0]).0, attempts[0].now, attempts[1..]))
  }

  // ---- what every check keeps ----------------------------------------------

  /** A peer is blocked exactly when its count has reached the limit; nothing is in the future. */
  ghost predicate EntryInv(entry: FailureEntry, now: Instant) {
    && 1 <= entry.failures <= RATE_LIMIT_FAILURES
    && (entry.blockedUntil.Some? <==> entry.failures == RATE_LIMIT_FAILURES)
    && (entry.blockedUntil.Some? ==> entry.windowStart + RATE_LIMIT_WINDOW <= entry.blockedUntil.value)
    && entry.windowStart <= now && entry.lastSeen <= now
  }

  ghost predicate Inv(table: Table, now: Instant) {
    && |table| <= RATE_LIMIT_TABLE_CAP
    && forall ip :: ip in table ==> EntryInv(table[ip], now)
  }

  lemma BlockedKeepsInv(table: Table, now: Instant, ip: Ip, later: Instant)
    requires Inv(table, now) && now <= later
    ensures Inv(Blocked(table, ip, later).0, later)
    ensures Blocked(table, ip, later).1.None? ==>
              ip in Blocked(table, ip, later).0 ==> Blocked(table, ip, later).0[ip].blockedUntil.None?
  {
    RemoveCount(table, ip);
    if ip in table { AddCount(table, ip, table[ip].(lastSeen := later)); }
  }

  lemma CountKeepsInv(table: Table, now: Instant, ip: Ip, victim: Option<Ip>)
    requires Inv(table, now) && EvictsOldest(table, ip, victim)
    requires ip in table ==> table[ip].blockedUntil.None?
    ensures Inv(CountFailure(table, ip, now, victim), now)
  {
    var kept := if victim.Some? then table - {victim.value} else table;
    if victim.Some? { RemoveCount(table, victim.value); }
    var entry := if ip in kept then kept[ip] else FailureEntry(now, 0, None, now);
    AddCount(kept, ip, Counted(entry, now));
    assert EntryInv(Counted(entry, now), now);
  }

  lemma JudgeKeepsInv(table: Table, now: Instant, a: Attempt)
    requires Inv(table, now) && now <= a.now && Proper(table, a)
    ensures Inv(Judge(table, a).0, a.now)
  {
    BlockedKeepsInv(table, now, a.ip, a.now);
    if Judge(table, a).1 == Failed { CountKeepsInv(Blocked(table, a.ip, a.now).0, a.now, a.ip, a.victim); }
  }

  lemma RemoveCount(table: Table, ip: Ip)
    ensures |table - {ip}| == |table| - (if ip in table then 1 else 0)
  {
    assert (table - {ip}).Keys == table.Keys - {ip};
  }

  lemma AddCount(table: Table, ip: Ip, entry: FailureEntry)
    ensures |table[ip := entry]| == |table| + (if ip in table then 0 else 1)
  {
    assert table[ip := entry].Keys == table.Keys + {ip};
  }

  /** In every run the table stays within its cap, and a peer is blocked exactly at the limit. */
  lemma {:induction false} RunKeepsInv(table: Table, now: Instant, attempts: seq<Attempt>)
    requires Inv(table, now) && Clocked(table, now, attempts)
    ensures Inv(Run(table, attempts), if attempts == [] then now else attempts[|attempts| - 1].now)
    decreases attempts
  {
    if attempts != [] {
      JudgeKeepsInv(table, now, attempts[0]);
      RunKeepsInv(Judge(table, attempts[0]).0, attempts[0].now, attempts[1..]);
    }
  }

  /** The scan for the least recently seen peer of a full table. */
  method OldestSeen(table: Table, ip: Ip) returns (victim: Option<Ip>)
    ensures EvictsOldest(table, ip, victim)
  {
    if ip in table || |table| < RATE_LIMIT_TABLE_CAP { return None; }
    var todo := table.Keys;
    assert |todo| > 0;
    var oldest :| oldest in todo;
    todo := todo - {oldest};
    while todo != {}
      invariant todo <= table.Keys && oldest in table
      invariant forall other :: other in table && other !in todo ==> table[oldest].lastSeen <= table[other].lastSeen
      decreases |todo|
    {
      var other :| other in todo;
      if table[other].lastSeen < table[oldest].lastSeen { oldest := other; }
      todo := todo - {other};
    }
    victim := Some(oldest);
  }

  // ---- one peer, while it is not evicted ----------------------------------

  function EntryOf(table: Table, ip: Ip): Option<FailureEntry> {
    if ip in table then Some(table[ip]) else None
  }

  predicate NeverEvicted(ip: Ip, attempts: seq<Attempt>) {
    forall i :: 0 <= i < |attempts| ==> attempts[i].victim != Some(ip)
  }

  /** Other peers' checks change nothing about this peer unless they evict it. */
  lemma OthersDoNotMatter(table: Table, a: Attempt, ip: Ip)
    requires a.ip != ip && a.victim != Some(ip)
    ensures EntryOf(Judge(table, a).0, ip) == EntryOf(table, ip)
  {
  }

  /** How many of the peer's checks at times in `[from, from + window)` were judged as failures. */
  function FailuresIn(table: Table, attempts: seq<Attempt>, ip: Ip, from: Instant): nat
    decreases attempts
  {
    if attempts == [] then 0
    else
      var a := attempts[0];
      var (rest, answer) := Judge(table, a);
      (if a.ip == ip && answer == Failed && from <= a.now < from + RATE_LIMIT_WINDOW then 1 else 0)
      + FailuresIn(rest, attempts[1..], ip, from)
  }

  /** The most failures still possible in the span, from a peer's entry at time `now`. */
  ghost function Budget(entry: Option<FailureEntry>, now: Instant, from: Instant): int {
    var F := RATE_LIMIT_FAILURES;
    var to := from + RATE_LIMIT_WINDOW;
    if now >= to then 0
    else if now < from then 2 * F - 2
    else match entry
      case None => F
      case Some(e) =>
        if e.blockedUntil.Some? then (if e.blockedUntil.value >= to then 0 else F)
        else if e.windowStart >= from then F - e.failures
        else 2 * F - 1 - e.failures
  }

  ghost predicate EntryOk(entry: Option<FailureEntry>, now: Instant) {
    entry.Some? ==> EntryInv(entry.value, now)
  }

  lemma BudgetShrinks(entry: Option<FailureEntry>, now: Instant, later: Instant, from: Instant)
    requires now <= later && EntryOk(entry, now)
    ensures Budget(entry, later, from) <= Budget(entry, now, from)
  {
  }

  /** A check costs the budget what it counts. */
  lemma JudgeSpendsBudget(table: Table, now: Instant, a: Attempt, from: Instant)
    requires EntryOk(EntryOf(table, a.ip), now) && now <= a.now && a.victim != Some(a.ip)
    ensures var (rest, answer) := Judge(table, a);
            && EntryOk(EntryOf(rest, a.ip), a.now)
            && (if answer == Failed && from <= a.now < from + RATE_LIMIT_WINDOW then 1 else 0)
               + Budget(EntryOf(rest, a.ip), a.now, from) <= Budget(EntryOf(table, a.ip), now, from)
  {
    BudgetShrinks(EntryOf(table, a.ip), now, a.now, from);
  }

  lemma {:induction false} FailuresWithinBudget(table: Table, now: Instant, attempts: seq<Attempt>, ip: Ip, from: Instant)
    requires EntryOk(EntryOf(table, ip), now) && Clocked(table, now, attempts) && NeverEvicted(ip, attempts)
    ensures FailuresIn(table, attempts, ip, from) <= Budget(EntryOf(table, ip), now, from)
    decreases attempts
  {
    if attempts != [] {
      var a := attempts[0];
      var rest := Judge(table, a).0;
      if a.ip == ip {
        JudgeSpendsBudget(table, now, a, from);
      } else {
        OthersDoNotMatter(table, a, ip);
        BudgetShrinks(EntryOf(table, ip), now, a.now, from);
      }
      FailuresWithinBudget(rest, a.now, attempts[1..], ip, from);
    }
  }

  /**
    A peer that is not evicted gets at most `2F - 2` checks judged as failures
    in any half-open span as long as the window, wherever the span starts.
   */
  lemma SlidingWindowBound(table: Table, now: Instant, attempts: seq<Attempt>, ip: Ip, from: Instant)
    requires Inv(table, now) && Clocked(table, now, attempts) && NeverEvicted(ip, attempts)
    ensures FailuresIn(table, attempts, ip, from) <= 2 * RATE_LIMIT_FAILURES - 2
  {
    FailuresWithinBudget(table, now, attempts, ip, from);
  }

  // ---- the block --------------------------------------------------------------

  /** Every answer the peer gets in the run is to wait until that moment. */
  ghost predicate WaitsUntil(table: Table, attempts: seq<Attempt>, ip: Ip, until: Instant)
    decreases attempts
  {
    attempts == []
    || ((attempts[0].ip == ip ==> Judge(table, attempts[0]).1 == RateLimited(until - attempts[0].now))
        && WaitsUntil(Judge(table, attempts[0]).0, attempts[1..], ip, until))
  }

  lemma {:induction false} BlockedUntil(table: Table, attempts: seq<Attempt>, ip: Ip, until: Instant)
    requires ip in table && table[ip].blockedUntil == Some(until) && NeverEvicted(ip, attempts)
    requires forall i :: 0 <= i < |attempts| ==> attempts[i].now < until
    ensures WaitsUntil(table, attempts, ip, until)
    decreases attempts
  {
    if attempts != [] {
      if attempts[0].ip != ip { OthersDoNotMatter(table, attempts[0], ip); }
      BlockedUntil(Judge(table, attempts[0]).0, attempts[1..], ip, until);
    }
  }

  /** After the failure that reaches the limit, every check of that peer within the window is refused unjudged, and told how long remains. */
  lemma BlockedForTheWindow(table: Table, now: Instant, last: Attempt, attempts: seq<Attempt>)
    requires Inv(table, now) && now <= last.now && Proper(table, last)
    requires Judge(table, last).1 == Failed && Judge(table, last).0[last.ip].failures == RATE_LIMIT_FAILURES
    requires NeverEvicted(last.ip, attempts)
    requires forall i :: 0 <= i < |attempts| ==> attempts[i].now < last.now + RATE_LIMIT_WINDOW
    ensures WaitsUntil(Judge(table, last).0, attempts, last.ip, last.now + 60_000_000_000)
  {
    BlockedUntil(Judge(table, last).0, attempts, last.ip, last.now + RATE_LIMIT_WINDOW);
  }

  // ---- the bound is reached ----------------------------------------------------

  /** `n` failures of one peer at one instant. */
  function Burst(ip: Ip, now: Instant, n: nat): (r: seq<Attempt>)
    ensures |r| == n
  {
    seq(n, _ => Attempt(ip, now, true, None))
  }

  lemma {:induction false} BurstCounts(entry: FailureEntry, ip: Ip, now: Instant, n: nat, rest: seq<Attempt>, from: Instant)
    requires entry.blockedUntil.None? && entry.windowStart <= now < entry.windowStart + RATE_LIMIT_WINDOW
    requires entry.failures + n <= RATE_LIMIT_FAILURES && n >= 1
    requires from <= now < from + RATE_LIMIT_WINDOW
    ensures var total := entry.failures + n;
            var after := FailureEntry(entry.windowStart, total,
                                      if total == RATE_LIMIT_FAILURES then Some(now + RATE_LIMIT_WINDOW) else None, now);
            FailuresIn(map[ip := entry], Burst(ip, now, n) + rest, ip, from) == n + FailuresIn(map[ip := after], rest, ip, from)
    decreases n
  {
    var b := Burst(ip, now, n);
    var next := Counted(entry, now);
    assert (b + rest)[0] == Attempt(ip, now, true, None);
    assert map[ip := entry][ip := next] == map[ip := next];
    assert Judge(map[ip := entry], b[0]) == (map[ip := next], Failed);
    assert (b + rest)[1..] == Burst(ip, now, n - 1) + rest;
    if n > 1 {
      BurstCounts(next, ip, now, n - 1, rest, from);
    } else {
      assert Burst(ip, now, 0) + rest == rest;
    }
  }

  /** A run of one peer alone is one the bound is about, if its clock does not go back: nobody is evicted. */
  lemma {:induction false} AloneIsClocked(table: Table, now: Instant, attempts: seq<Attempt>, ip: Ip)
    requires table.Keys <= {ip}
    requires forall i :: 0 <= i < |attempts| ==> attempts[i].ip == ip && attempts[i].victim == None && now <= attempts[i].now
    requires forall i, j :: 0 <= i < j < |attempts| ==> attempts[i].now <= attempts[j].now
    ensures Clocked(table, now, attempts) && NeverEvicted(ip, attempts)
    decreases attempts
  {
    if attempts != [] {
      Sets.SubsetSize(table.Keys, {ip});
      assert Blocked(table, ip, attempts[0].now).0.Keys <= {ip};
      Sets.SubsetSize(Blocked(table, ip, attempts[0].now).0.Keys, {ip});
      AloneIsClocked(Judge(table, attempts[0]).0, attempts[0].now, attempts[1..], ip);
    }
  }

  /** The bound is exact: one failure just before the span, then 8 and 10 inside it, in a run the bound is about. */
  lemma SlidingWindowBoundReached(ip: Ip)
    ensures var W := RATE_LIMIT_WINDOW;
            var attempts := Burst(ip, 0, 1) + (Burst(ip, 1, 8) + Burst(ip, W, 10));
            && Inv(map[], 0) && Clocked(map[], 0, attempts) && NeverEvicted(ip, attempts)
            && FailuresIn(map[], attempts, ip, 1) == 2 * RATE_LIMIT_FAILURES - 2
  {
    AloneIsClocked(map[], 0, Burst(ip, 0, 1) + (Burst(ip, 1, 8) + Burst(ip, RATE_LIMIT_WINDOW, 10)), ip);
    ThreeBursts(ip);
    hide Clocked, FailuresIn;
  }

  lemma ThreeBursts(ip: Ip)
    ensures var W := RATE_LIMIT_WINDOW;
            FailuresIn(map[], Burst(ip, 0, 1) + (Burst(ip, 1, 8) + Burst(ip, W, 10)), ip, 1) == 2 * RATE_LIMIT_FAILURES - 2
  {
    var W := RATE_LIMIT_WINDOW;
    var rest := Burst(ip, 1, 8) + Burst(ip, W, 10);
    var first := FailureEntry(0, 1, None, 0);
    assert Burst(ip, 0, 1) + rest == [Attempt(ip, 0, true, None)] + rest;
    assert Judge(map[], Attempt(ip, 0, true, None)) == (map[ip := first], Failed);
    BurstCounts(first, ip, 1, 8, Burst(ip, W, 10), 1);
    var ninth := FailureEntry(0, 9, None, 1);
    var second := Burst(ip, W, 10);
    assert second[1..] == Burst(ip, W, 9);
    var restarted := FailureEntry(W, 1, None, W);
    assert map[ip := ninth][ip := restarted] == map[ip := restarted];
    assert Judge(map[ip := ninth], second[0]) == (map[ip := restarted], Failed);
    assert Burst(ip, W, 9) + [] == Burst(ip, W, 9);
    BurstCounts(restarted, ip, W, 9, [], 1);
  }
}
