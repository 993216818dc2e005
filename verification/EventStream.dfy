/**
  One open event stream (`events.rs`): broadcast events, and a re-check of the
  session that is due one period after the previous check finished. Times are
  milliseconds of the stream's own clock.
 */
module EventStream {
  const REVALIDATE_INTERVAL: nat := 15_000
  const REVALIDATE_TIMEOUT: nat := 5_000

  /** What `auth.revalidate` answered: still valid, no longer valid, or the store failed. */
  datatype Answer = StillValid | NoLongerValid | StoreError

  /**
    What one turn of the loop finds, and when. A re-check starts at `at`, its
    lookup would take `takes`, and the loop runs on `resume` later.
   */
  datatype Turn =
    | Recheck(at: nat, takes: nat, answer: Answer, resume: nat)
    | Deliver(at: nat, event: string)
    | Lagged(at: nat)
    | Closed(at: nat)
    | Shutdown(at: nat)

  datatype Check = Check(start: nat, end: nat, timedOut: bool, answer: Answer)

  /** `next` is the deadline of the re-check; `now` the time the loop has reached. */
  datatype Stream = Stream(next: nat, now: nat, ended: bool, delivered: seq<string>, checks: seq<Check>)

  function Open(at: nat, period: nat): Stream {
    Stream(at + period, at, false, [], [])
  }

  /** A lookup that takes longer than the timeout is abandoned then. */
  function CheckOf(t: Turn, timeout: nat): Check
    requires t.Recheck?
  {
    Check(t.at, t.at + (if t.takes <= timeout then t.takes else timeout), t.takes > timeout, t.answer)
  }

  /** Only an answer in time that the session is no longer valid ends the stream. */
  predicate Ends(c: Check) {
    !c.timedOut && c.answer == NoLongerValid
  }

  /** What a turn may be: `biased` takes a due re-check before any event, and none before it is due. */
  predicate Possible(s: Stream, t: Turn) {
    && s.now <= t.at
    && (t.Recheck? ==> s.next <= t.at)
    && (t.Deliver? || t.Lagged? || t.Closed? ==> t.at < s.next)
  }

  function Step(s: Stream, t: Turn, period: nat, timeout: nat): Stream {
    if s.ended then s
    else
      match t
      case Recheck(_, _, _, resume) =>
        var c := CheckOf(t, timeout);
        s.(next := c.end + resume + period, now := c.end + resume, ended := Ends(c), checks := s.checks + [c])
      case Deliver(at, event) => s.(now := at, delivered := s.delivered + [event])
      case Lagged(at) => s.(now := at)
      case Closed(at) => s.(now := at, ended := true)
      case Shutdown(at) => s.(now := at, ended := true)
  }

  function Run(s: Stream, turns: seq<Turn>, period: nat, timeout: nat): Stream
    decreases turns
  {
    if turns == [] then s else Run(Step(s, turns[0], period, timeout), turns[1..], period, timeout)
  }

  ghost predicate PossibleRun(s: Stream, turns: seq<Turn>, period: nat, timeout: nat)
    decreases turns
  {
    turns == [] || s.ended
    || (Possible(s, turns[0]) && PossibleRun(Step(s, turns[0], period, timeout), turns[1..], period, timeout))
  }

  // ---- the gap between checks ------------------------------------------------------

  ghost predicate GapInv(s: Stream, period: nat) {
    && (forall i :: 0 <= i < |s.checks| - 1 ==> s.checks[i].end + period <= s.checks[i + 1].start)
    && (s.checks != [] ==> s.checks[|s.checks| - 1].end + period <= s.next)
  }

  /**
    However long the checks take and however slowly the stream is polled, a whole
    period lies between the end of a check and the start of the next: events are
    never starved.
   */
  lemma {:induction false} ChecksKeepTheirDistance(s: Stream, turns: seq<Turn>, period: nat, timeout: nat)
    requires GapInv(s, period) && PossibleRun(s, turns, period, timeout)
    ensures GapInv(Run(s, turns, period, timeout), period)
    decreases turns
  {
    if turns != [] {
      var s' := Step(s, turns[0], period, timeout);
      assert GapInv(s', period);
      if s.ended {
        RunOfEnded(s, turns, period, timeout);
      } else {
        ChecksKeepTheirDistance(s', turns[1..], period, timeout);
      }
    }
  }

  lemma {:induction false} RunOfEnded(s: Stream, turns: seq<Turn>, period: nat, timeout: nat)
    requires s.ended
    ensures Run(s, turns, period, timeout) == s
    decreases turns
  {
    if turns != [] { RunOfEnded(s, turns[1..], period, timeout); }
  }

  /** The channel closes, the server shuts down, or a lookup says in time that the session is no longer valid. */
  predicate EndsIt(t: Turn, timeout: nat) {
    t.Closed? || t.Shutdown? || (t.Recheck? && t.takes <= timeout && t.answer == NoLongerValid)
  }

  lemma {:induction false} OpenUntilEnded(s: Stream, turns: seq<Turn>, period: nat, timeout: nat)
    requires !s.ended && forall i :: 0 <= i < |turns| ==> !EndsIt(turns[i], timeout)
    ensures !Run(s, turns, period, timeout).ended
    decreases turns
  {
    if turns != [] { OpenUntilEnded(Step(s, turns[0], period, timeout), turns[1..], period, timeout); }
  }

  /** The first turn that ends the stream ends it there and then. */
  lemma {:induction false} EndsAtTheFirst(s: Stream, turns: seq<Turn>, period: nat, timeout: nat, i: nat)
    requires !s.ended && i < |turns| && EndsIt(turns[i], timeout)
    requires forall j :: 0 <= j < i ==> !EndsIt(turns[j], timeout)
    ensures var s' := Run(s, turns, period, timeout);
            && s'.ended && s' == Run(s, turns[..i + 1], period, timeout)
            && !Run(s, turns[..i], period, timeout).ended
    decreases turns
  {
    var s1, rest := Step(s, turns[0], period, timeout), turns[1..];
    if i == 0 {
      RunOfEnded(s1, rest, period, timeout);
      RunOfEnded(s1, [], period, timeout);
      assert turns[..1] == [turns[0]];
    } else {
      EndsAtTheFirst(s1, rest, period, timeout, i - 1);
      assert turns[..i + 1][1..] == rest[..i] && turns[..i][1..] == rest[..i - 1];
    }
  }

  /**
    Over any run: a stream has ended if and only if one of its turns ends it, and
    then at the first of them. So a store that fails or does not answer in time
    never ends a stream, however often it does.
   */
  lemma EndedIff(s: Stream, turns: seq<Turn>, period: nat, timeout: nat)
    requires !s.ended
    ensures Run(s, turns, period, timeout).ended <==> exists i :: 0 <= i < |turns| && EndsIt(turns[i], timeout)
    ensures forall i :: 0 <= i < |turns| && EndsIt(turns[i], timeout) && (forall j :: 0 <= j < i ==> !EndsIt(turns[j], timeout)) ==>
              && Run(s, turns[..i + 1], period, timeout) == Run(s, turns, period, timeout)
              && !Run(s, turns[..i], period, timeout).ended
  {
    if i :| 0 <= i < |turns| && EndsIt(turns[i], timeout) {
      var k := FirstEnding(turns, timeout, i);
      EndsAtTheFirst(s, turns, period, timeout, k);
    } else {
      OpenUntilEnded(s, turns, period, timeout);
    }
    hide Run;
  }

  lemma {:induction false} FirstEnding(turns: seq<Turn>, timeout: nat, i: nat) returns (k: nat)
    requires i < |turns| && EndsIt(turns[i], timeout)
    ensures k <= i && EndsIt(turns[k], timeout) && forall j :: 0 <= j < k ==> !EndsIt(turns[j], timeout)
  {
    if j :| 0 <= j < i && EndsIt(turns[j], timeout) {
      k := FirstEnding(turns, timeout, j);
    } else {
      k := i;
    }
  }

  /** The events of these turns, in order. */
  function EventsOf(turns: seq<Turn>): seq<string> {
    if turns == [] then [] else (if turns[0].Deliver? then [turns[0].event] else []) + EventsOf(turns[1..])
  }

  lemma EventsOfMore(first: Turn, rest: seq<Turn>)
    ensures EventsOf([first] + rest) == (if first.Deliver? then [first.event] else []) + EventsOf(rest)
  {
    assert ([first] + rest)[1..] == rest;
  }

  /** Every event taken is delivered, once and in order, until the stream ends after the first `n` turns. */
  lemma {:induction false} DeliversInOrder(s: Stream, turns: seq<Turn>, period: nat, timeout: nat) returns (n: nat)
    requires !s.ended
    ensures var s' := Run(s, turns, period, timeout);
            && n <= |turns| && s'.delivered == s.delivered + EventsOf(turns[..n])
            && (!s'.ended ==> n == |turns|)
            && Run(s, turns[..n], period, timeout) == s'
    decreases turns
  {
    if turns == [] {
      n := 0;
    } else {
      var s1, rest := Step(s, turns[0], period, timeout), turns[1..];
      if s1.ended {
        n := 1;
        RunOfEnded(s1, rest, period, timeout);
        RunOfEnded(s1, [], period, timeout);
        assert turns[..1] == [turns[0]] + [];
        EventsOfMore(turns[0], []);
      } else {
        var m := DeliversInOrder(s1, rest, period, timeout);
        n := m + 1;
        assert turns[..n] == [turns[0]] + rest[..m];
        EventsOfMore(turns[0], rest[..m]);
        assert turns[..n][1..] == rest[..m];
      }
    }
  }

  // ---- clock, deadline and checks ---------------------------------------------------------

  /** When the loop runs on after a turn. */
  function Until(t: Turn, timeout: nat): nat {
    if t.Recheck? then t.at + (if t.takes > timeout then timeout else t.takes) + t.resume else t.at
  }

  /** The checks these turns make, one for each re-check, no longer than the timeout. */
  function ChecksOf(turns: seq<Turn>, timeout: nat): seq<Check> {
    if turns == [] then []
    else
      var n := |turns| - 1;
      ChecksOf(turns[..n], timeout)
      + (if turns[n].Recheck?
         then [Check(turns[n].at, turns[n].at + (if turns[n].takes > timeout then timeout else turns[n].takes),
                     turns[n].takes > timeout, turns[n].answer)]
         else [])
  }

  /** The deadline after these turns: a period after the last re-check's turn was over. */
  function DeadlineAfter(turns: seq<Turn>, first: nat, period: nat, timeout: nat): nat {
    if turns == [] then first
    else
      var n := |turns| - 1;
      if turns[n].Recheck? then Until(turns[n], timeout) + period else DeadlineAfter(turns[..n], first, period, timeout)
  }

  lemma {:induction false} RunMore(s: Stream, turns: seq<Turn>, t: Turn, period: nat, timeout: nat)
    ensures Run(s, turns + [t], period, timeout) == Step(Run(s, turns, period, timeout), t, period, timeout)
    decreases turns
  {
    hide Step;
    if turns == [] {
      assert [] + [t] == [t] && [t][1..] == [];
      assert Run(Step(s, t, period, timeout), [], period, timeout) == Step(s, t, period, timeout);
    } else {
      assert (turns + [t])[1..] == turns[1..] + [t];
      RunMore(Step(s, turns[0], period, timeout), turns[1..], t, period, timeout);
    }
  }

  /**
    Over any run that is not over before its last turn: the clock, the deadline and
    the checks made are those of its turns.
   */
  lemma {:induction false} ClockAndChecks(s: Stream, turns: seq<Turn>, period: nat, timeout: nat)
    requires !s.ended && forall i :: 0 <= i < |turns| - 1 ==> !EndsIt(turns[i], timeout)
    ensures var s' := Run(s, turns, period, timeout);
            && s'.now == (if turns == [] then s.now else Until(turns[|turns| - 1], timeout))
            && s'.next == DeadlineAfter(turns, s.next, period, timeout)
            && s'.checks == s.checks + ChecksOf(turns, timeout)
    decreases |turns|
  {
    if turns != [] {
      var n := |turns| - 1;
      ClockAndChecks(s, turns[..n], period, timeout);
      OpenUntilEnded(s, turns[..n], period, timeout);
      assert turns == turns[..n] + [turns[n]];
      RunMore(s, turns[..n], turns[n], period, timeout);
      hide Run;
    }
  }

  // ---- how soon a revoked session loses its stream -------------------------------------

  /** The stream is polled as soon as something is due. */
  predicate Prompt(s: Stream, t: Turn) {
    && (t.Recheck? ==> t.resume == 0 && t.at == (if s.now <= s.next then s.next else s.now))
    && t.at <= (if s.now <= s.next then s.next else s.now)
  }

  /** A lookup that starts after `r` says so in time; an earlier one may say anything, or hang. */
  predicate AnswersFrom(t: Turn, r: nat, timeout: nat) {
    t.Recheck? && r < t.at ==> t.takes <= timeout && t.answer == NoLongerValid
  }

  ghost predicate RevokedRun(s: Stream, turns: seq<Turn>, period: nat, timeout: nat, r: nat)
    decreases turns
  {
    turns == [] || s.ended
    || (Possible(s, turns[0]) && Prompt(s, turns[0]) && AnswersFrom(turns[0], r, timeout)
        && RevokedRun(Step(s, turns[0], period, timeout), turns[1..], period, timeout, r))
  }

  ghost predicate RevokedInv(s: Stream, period: nat, timeout: nat, r: nat) {
    if s.ended then s.now <= r + period + 2 * timeout
    else s.now <= s.next <= r + period + timeout
  }

  lemma {:induction false} RevokedRunKeeps(s: Stream, turns: seq<Turn>, period: nat, timeout: nat, r: nat)
    requires RevokedInv(s, period, timeout, r) && RevokedRun(s, turns, period, timeout, r)
    ensures RevokedInv(Run(s, turns, period, timeout), period, timeout, r)
    decreases turns
  {
    if turns != [] {
      if s.ended {
        RunOfEnded(s, turns, period, timeout);
      } else {
        RevokedRunKeeps(Step(s, turns[0], period, timeout), turns[1..], period, timeout, r);
      }
    }
  }

  /**
    A session revoked at `r`, promptly polled, with lookups that answer in time
    from then on: while the stream is open its next check is due by
    `r + period + timeout`, and it ends by `r + period + 2 * timeout`.
   */
  lemma RevokedStreamEnds(start: nat, turns: seq<Turn>, period: nat, timeout: nat, r: nat)
    requires start <= r && RevokedRun(Open(start, period), turns, period, timeout, r)
    ensures var s := Run(Open(start, period), turns, period, timeout);
            if s.ended then s.now <= r + period + 2 * timeout else s.now <= s.next <= r + period + timeout
  {
    RevokedRunKeeps(Open(start, period), turns, period, timeout, r);
  }

  /** The bound is reached: the check running at `r` times out, and the one after it takes all its time. */
  lemma RevokedBoundReached(r: nat, period: nat, timeout: nat)
    requires period <= r
    ensures var turns := [Recheck(r, timeout + 1, StillValid, 0),
                          Recheck(r + timeout + period, timeout, NoLongerValid, 0)];
            var s := Run(Open(r - period, period), turns, period, timeout);
            RevokedRun(Open(r - period, period), turns, period, timeout, r)
            && s.ended && s.now == r + period + 2 * timeout
  {
    var first, second := Recheck(r, timeout + 1, StillValid, 0), Recheck(r + timeout + period, timeout, NoLongerValid, 0);
    var s := Open(r - period, period);
    var s1 := Step(s, first, period, timeout);
    var s2 := Step(s1, second, period, timeout);
    assert [first, second][1..] == [second] && [second][1..] == [];
    assert Run(s2, [], period, timeout) == s2;
    assert Run(s1, [second], period, timeout) == s2;
    assert RevokedRun(s1, [second], period, timeout, r);
  }

  // ---- the loop ------------------------------------------------------------------------

  class Schedule {
    const period: nat
    var next: nat

    constructor Every(period: nat, now: nat)
      ensures this.period == period && next == now + period
    {
      this.period := period;
      next := now + period;
    }

    /** The next deadline, after a check has finished. */
    method Rearm(now: nat)
      modifies this
      ensures next == now + period
    {
      next := now + period;
    }
  }

  /** `event_stream`: what it delivers and when it stops, for the turns its `select` finds. */
  method Serve(schedule: Schedule, now: nat, timeout: nat, turns: seq<Turn>)
    returns (delivered: seq<string>, ended: bool, time: nat)
    modifies schedule
    ensures var s := Run(Stream(old(schedule.next), now, false, [], []), turns, schedule.period, timeout);
            delivered == s.delivered && ended == s.ended && time == s.now && schedule.next == s.next
  {
    delivered, ended, time := [], false, now;
    var i := 0;
    ghost var checks: seq<Check> := [];
    while i < |turns| && !ended
      invariant 0 <= i <= |turns|
      invariant Run(Stream(schedule.next, time, ended, delivered, checks), turns[i..], schedule.period, timeout)
                == Run(Stream(old(schedule.next), now, false, [], []), turns, schedule.period, timeout)
      decreases |turns| - i
    {
      var turn := turns[i];
      assert turns[i..][1..] == turns[i + 1..];
      match turn {
        case Shutdown(at) => ended, time := true, at;
        case Recheck(at, takes, answer, resume) =>
          var timedOut := takes > timeout;
          time := at + (if timedOut then timeout else takes) + resume;
          schedule.Rearm(time);
          checks := checks + [CheckOf(turn, timeout)];
          if !timedOut && answer == NoLongerValid { ended := true; }
        case Deliver(at, event) => delivered, time := delivered + [event], at;
        case Lagged(at) => time := at;
        case Closed(at) => ended, time := true, at;
      }
      i := i + 1;
    }
    if ended { RunOfEnded(Stream(schedule.next, time, ended, delivered, checks), turns[i..], schedule.period, timeout); }
  }
}
