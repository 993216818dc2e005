/**
  When the reach check refuses a peer unjudged, for how long, and what it
  remembers of it, told from the peer's earlier checks (`reach_check.rs`).
 */
module ReachAnswers {
  import opened Text
  import opened ReachLimiter

  lemma {:induction false} RunMore(table: Table, attempts: seq<Attempt>, a: Attempt)
    ensures Run(table, attempts + [a]) == Judge(Run(table, attempts), a).0
    decreases attempts
  {
    hide Judge;
    if attempts == [] {
      assert [] + [a] == [a] && [a][1..] == [];
      assert Run(Judge(table, a).0, []) == Judge(table, a).0;
    } else {
      assert (attempts + [a])[1..] == attempts[1..] + [a];
      RunMore(Judge(table, attempts[0]).0, attempts[1..], a);
    }
  }

  /** What the last check of a run is answered. */
  function LastAnswer(attempts: seq<Attempt>): Answer
    requires attempts != []
  {
    var n := |attempts| - 1;
    Judge(Run(map[], attempts[..n]), attempts[n]).1
  }

  /** How many of the peer's checks up to here were judged and failed at times from `from` to less than `to`. */
  function Failures(attempts: seq<Attempt>, ip: Ip, from: Instant, to: Instant): nat
    decreases |attempts|
  {
    if attempts == [] then 0
    else
      var n := |attempts| - 1;
      Failures(attempts[..n], ip, from, to)
      + (if attempts[n].ip == ip && LastAnswer(attempts) == Failed && from <= attempts[n].now < to then 1 else 0)
  }

  /** The clock does not go back. */
  predicate Ordered(attempts: seq<Attempt>) {
    forall i, j :: 0 <= i < j < |attempts| ==> attempts[i].now <= attempts[j].now
  }

  /** The last time the peer was refused unjudged or failed; that is what an eviction goes by. */
  function LastCounted(attempts: seq<Attempt>, ip: Ip): Option<Instant>
    decreases |attempts|
  {
    if attempts == [] then None
    else
      var n := |attempts| - 1;
      if attempts[n].ip == ip && LastAnswer(attempts) != Passed then Some(attempts[n].now) else LastCounted(attempts[..n], ip)
  }

  /** When the peer last failed. */
  function LastFailure(attempts: seq<Attempt>, ip: Ip): Option<Instant>
    decreases |attempts|
  {
    if attempts == [] then None
    else
      var n := |attempts| - 1;
      if attempts[n].ip == ip && LastAnswer(attempts) == Failed then Some(attempts[n].now) else LastFailure(attempts[..n], ip)
  }

  /** A peer's entry in terms of its earlier checks. */
  ghost predicate Tells(attempts: seq<Attempt>, ip: Ip, entry: FailureEntry) {
    && LastCounted(attempts, ip) == Some(entry.lastSeen)
    && LastFailure(attempts, ip).Some?
    && var last := LastFailure(attempts, ip).value;
       && entry.windowStart <= last < entry.windowStart + 60_000_000_000
       && 1 <= entry.failures <= 10
       && entry.failures <= Failures(attempts, ip, entry.windowStart, entry.windowStart + 60_000_000_000)
       && entry.blockedUntil == (if entry.failures == 10 then Some(last + 60_000_000_000) else None)
  }

  ghost predicate AllTell(attempts: seq<Attempt>) {
    forall ip :: ip in Run(map[], attempts) ==> Tells(attempts, ip, Run(map[], attempts)[ip])
  }

  /** What one more check does to all that is read from the run. */
  lemma OneMore(attempts: seq<Attempt>, a: Attempt, ip: Ip)
    ensures var more, answer := attempts + [a], Judge(Run(map[], attempts), a).1;
            && LastAnswer(more) == answer
            && LastCounted(more, ip) == (if a.ip == ip && answer != Passed then Some(a.now) else LastCounted(attempts, ip))
            && LastFailure(more, ip) == (if a.ip == ip && answer == Failed then Some(a.now) else LastFailure(attempts, ip))
            && forall from, to :: Failures(more, ip, from, to)
                 == Failures(attempts, ip, from, to) + (if a.ip == ip && answer == Failed && from <= a.now < to then 1 else 0)
  {
    var more := attempts + [a];
    assert more[..|attempts|] == attempts && more[|attempts|] == a;
    hide Judge, Run;
  }

  lemma {:induction false} LastFailureIsEarlier(attempts: seq<Attempt>, ip: Ip)
    requires LastFailure(attempts, ip).Some?
    ensures exists k :: 0 <= k < |attempts| && attempts[k].now == LastFailure(attempts, ip).value
    decreases |attempts|
  {
    var n := |attempts| - 1;
    if attempts[n].ip == ip && LastAnswer(attempts) == Failed {
      assert attempts[n].now == LastFailure(attempts, ip).value;
    } else {
      LastFailureIsEarlier(attempts[..n], ip);
      var k :| 0 <= k < |attempts[..n]| && attempts[..n][k].now == LastFailure(attempts[..n], ip).value;
      assert attempts[k] == attempts[..n][k];
    }
  }

  /** What a check makes of the peer's own entry. */
  lemma OwnEntry(table: Table, a: Attempt)
    requires a.ip in Judge(table, a).0
    ensures var entry, answer := Judge(table, a).0[a.ip], Judge(table, a).1;
            match answer
            case RateLimited(wait) =>
              && a.ip in table && table[a.ip].blockedUntil == Some(a.now + wait) && wait > 0
              && entry == table[a.ip].(lastSeen := a.now)
            case Passed => a.ip in table && entry == table[a.ip]
            case Failed =>
              || entry == FailureEntry(a.now, 1, None, a.now)
              || (a.ip in table && table[a.ip].blockedUntil.None? && Since(a.now, table[a.ip].windowStart) < RATE_LIMIT_WINDOW
                  && var n := table[a.ip].failures + 1;
                     entry == FailureEntry(table[a.ip].windowStart, n, if n >= 10 then Some(a.now + RATE_LIMIT_WINDOW) else None, a.now))
  {
  }

  lemma OthersEntry(table: Table, a: Attempt, ip: Ip)
    requires a.ip != ip && ip in Judge(table, a).0
    ensures ip in table && Judge(table, a).0[ip] == table[ip]
  {
  }

  lemma MoreTells(attempts: seq<Attempt>, a: Attempt, ip: Ip)
    requires AllTell(attempts) && ip in Judge(Run(map[], attempts), a).0
    requires Ordered(attempts + [a])
    ensures Tells(attempts + [a], ip, Judge(Run(map[], attempts), a).0[ip])
  {
    hide Judge, Run, LastAnswer, LastCounted, LastFailure, Failures;
    var table := Run(map[], attempts);
    OneMore(attempts, a, ip);
    if a.ip == ip { OwnEntry(table, a); } else { OthersEntry(table, a, ip); }
    if ip in table {
      assert Tells(attempts, ip, table[ip]);
      LastFailureIsEarlier(attempts, ip);
      var k :| 0 <= k < |attempts| && attempts[k].now == LastFailure(attempts, ip).value;
      assert (attempts + [a])[k].now <= (attempts + [a])[|attempts|].now;
    }
    NeverNegative(attempts, ip, a.now, a.now + 60_000_000_000);
  }

  lemma NeverNegative(attempts: seq<Attempt>, ip: Ip, from: Instant, to: Instant)
    ensures Failures(attempts, ip, from, to) >= 0
  {
  }

  lemma {:induction false} RunTells(attempts: seq<Attempt>)
    requires Ordered(attempts)
    ensures AllTell(attempts)
    decreases |attempts|
  {
    if attempts != [] {
      var n := |attempts| - 1;
      RunTells(attempts[..n]);
      assert attempts == attempts[..n] + [attempts[n]];
      RunMore(map[], attempts[..n], attempts[n]);
      hide Run, Judge, Tells;
      forall ip | ip in Judge(Run(map[], attempts[..n]), attempts[n]).0 ensures Tells(attempts, ip, Run(map[], attempts)[ip]) {
        MoreTells(attempts[..n], attempts[n], ip);
      }
    }
  }

  /** Ten failures of the peer in the window from `start`, `last` among them. */
  ghost predicate TenWithin(attempts: seq<Attempt>, ip: Ip, start: Instant, last: Instant) {
    start <= last < start + 60_000_000_000 && Failures(attempts, ip, start, start + 60_000_000_000) >= 10
  }

  /**
    In every run under a clock that does not go back: what is remembered of a peer
    was seen when it was last refused or failed; and a peer is refused unjudged only
    after ten of its checks failed within one window, until exactly one window after
    the last of them.
   */
  lemma RefusedOnlyAfterTen(attempts: seq<Attempt>, a: Attempt)
    requires Ordered(attempts + [a])
    ensures forall ip :: ip in Run(map[], attempts) ==>
              LastCounted(attempts, ip) == Some(Run(map[], attempts)[ip].lastSeen)
    ensures var answer := Judge(Run(map[], attempts), a).1;
            answer.RateLimited? ==>
              && LastFailure(attempts, a.ip).Some?
              && var last := LastFailure(attempts, a.ip).value;
                 && a.now < last + 60_000_000_000 && answer.retryAfter == last + 60_000_000_000 - a.now
                 && exists start: Instant :: TenWithin(attempts, a.ip, start, last)
  {
    assert Ordered(attempts) by {
      forall i, j | 0 <= i < j < |attempts| ensures attempts[i].now <= attempts[j].now {
        assert (attempts + [a])[i].now <= (attempts + [a])[j].now;
      }
    }
    RunTells(attempts);
    var table := Run(map[], attempts);
    if Judge(table, a).1.RateLimited? {
      assert a.ip in table && Tells(attempts, a.ip, table[a.ip]);
      assert TenWithin(attempts, a.ip, table[a.ip].windowStart, LastFailure(attempts, a.ip).value);
    }
    hide Run, Failures, LastFailure, LastCounted;
  }

  /** Once the block is over the next check is judged, and if it fails a new window begins with it. */
  lemma JudgedAfterTheBlock(table: Table, a: Attempt, until: Instant)
    requires a.ip in table && table[a.ip].blockedUntil == Some(until) && until <= a.now
    ensures var (rest, answer) := Judge(table, a);
            && answer == (if a.fails then Failed else Passed)
            && (a.fails ==> a.ip in rest && rest[a.ip].windowStart == a.now && rest[a.ip].failures == 1)
            && (!a.fails ==> a.ip !in rest)
  {
  }
}
