/**
  The rules of the reach check in the terms of requests and addresses: which
  authority and which peer is accepted, what an issuance and a new generation
  change, and which answer a check gets (`reach_check.rs`).
 */
module ReachRules {
  import opened Text
  import opened ReachLimiter
  import opened ReachStore

  // ---- addresses and authorities -----------------------------------------------------

  /** The address in IPv4 if it is one mapped into IPv6 (`::ffff:a.b.c.d`). */
  predicate IsMapped(ip: Ip, octets: seq<nat>) {
    ip.V6? && |octets| == 4
    && ip.segments == [0, 0, 0, 0, 0, 65535, octets[0] * 256 + octets[1], octets[2] * 256 + octets[3]]
  }

  /** Octets are bytes, segments 16 bits. */
  predicate WellFormed(ip: Ip) {
    match ip
    case V4(o) => |o| == 4 && forall i :: 0 <= i < 4 ==> o[i] < 256
    case V6(s) => |s| == 8 && forall i :: 0 <= i < 8 ==> s[i] < 65536
  }

  /** A mapped address stands for its IPv4 address, every other one for itself. */
  lemma CanonicalIff(ip: Ip, octets: seq<nat>)
    requires |octets| == 4 && forall i :: 0 <= i < 4 ==> octets[i] < 256
    requires WellFormed(ip)
    ensures CanonicalIp(ip) == V4(octets) <==> ip == V4(octets) || IsMapped(ip, octets)
    ensures CanonicalIp(ip).V6? ==> CanonicalIp(ip) == ip
  {
    if ip.V6? {
      var s := ip.segments;
      assert s == s[..6] + [s[6], s[7]];
      if IsMapped(ip, octets) { assert s[..6] == [0, 0, 0, 0, 0, 65535]; }
    }
  }

  /** This machine, as a peer: 127.x.y.z, that address mapped, or ::1. */
  lemma LoopbackIff(ip: Ip)
    requires WellFormed(ip)
    ensures IsLoopback(CanonicalIp(ip)) <==>
              || (ip.V4? && ip.octets[0] == 127)
              || (ip.V6? && ip.segments == [0, 0, 0, 0, 0, 0, 0, 1])
              || (ip.V6? && ip.segments[..6] == [0, 0, 0, 0, 0, 65535] && ip.segments[6] / 256 == 127)
  {
    if ip.V6? && ip.segments == [0, 0, 0, 0, 0, 0, 0, 1] { assert ip.segments[..6][5] == 0; }
  }

  /** The same character, or an ASCII letter in the other case. */
  predicate SameLetter(a: char, b: char) {
    || a == b
    || ('A' <= a <= 'Z' && b as int == a as int + 32)
    || ('A' <= b <= 'Z' && a as int == b as int + 32)
  }

  lemma SameCaseIff(a: string, b: string)
    ensures EqIgnoreAsciiCase(a, b) <==> |a| == |b| && forall i :: 0 <= i < |a| ==> SameLetter(a[i], b[i])
  {
    if |a| == |b| {
      forall i | 0 <= i < |a| ensures Lower(a[i]) == Lower(b[i]) <==> SameLetter(a[i], b[i]) {
        LowerIff(a[i], b[i]);
      }
    }
    hide Lower, SameLetter;
  }

  lemma LowerIff(a: char, b: char)
    ensures Lower(a) == Lower(b) <==> SameLetter(a, b)
  {
    var m, n := Lower(a) as int, Lower(b) as int;
    assert m == n ==> Lower(a) == Lower(b);
  }

  /** What may follow the host: nothing for port 80, or a colon and the port's digits. */
  ghost predicate NamesPort(suffix: string, port: nat) {
    || (suffix == "" && port == 80)
    || exists digits: string :: suffix == ":" + digits && digits != "" && AllDigits(digits) && Value(digits) == port && port <= 65535
  }

  lemma NamesPortIff(suffix: string, port: nat)
    ensures PortOf(suffix) == Some(port) <==> NamesPort(suffix, port)
  {
    if suffix != "" {
      assert suffix == [suffix[0]] + suffix[1..];
      if PortOf(suffix) == Some(port) { assert suffix == ":" + suffix[1..]; }
      if NamesPort(suffix, port) {
        var digits: string :| suffix == ":" + digits && digits != "" && AllDigits(digits) && Value(digits) == port && port <= 65535;
        assert suffix[1..] == digits;
      }
    }
  }

  /** An authority is accepted for a host and port if and only if it is that host, in any case, with that port. */
  lemma AuthorityIff(authority: string, host: string, port: nat)
    ensures AuthorityMatches(authority, host, port) <==>
              exists name: string, suffix: string ::
                authority == name + suffix && UrlHost(name) && EqIgnoreAsciiCase(name, host) && NamesPort(suffix, port)
  {
    hide EqIgnoreAsciiCase, PortOf, NamesPort;
    if AuthorityMatches(authority, host, port) {
      var end := NameEnd(authority).value;
      var name, suffix := authority[..end], authority[end..];
      assert authority == name + suffix;
      NameIsUrlHost(authority);
      NamesPortIff(suffix, port);
    }
    if name: string, suffix: string :|
      authority == name + suffix && UrlHost(name) && EqIgnoreAsciiCase(name, host) && NamesPort(suffix, port)
    {
      NamesPortIff(suffix, port);
      SuffixBegins(suffix, port);
      AuthorityOfUrlHost(name, host, suffix, port);
    }
  }

  lemma SuffixBegins(suffix: string, port: nat)
    requires NamesPort(suffix, port)
    ensures suffix == [] || suffix[0] == ':'
  {
  }

  lemma NameIsUrlHost(authority: string)
    requires NameEnd(authority).Some? && NameEnd(authority).value > 0 && NameEnd(authority).value <= |authority|
    requires authority[0] == '[' ==> ']' in authority
    ensures UrlHost(authority[..NameEnd(authority).value])
  {
    var end := NameEnd(authority).value;
    var name := authority[..end];
    if authority[0] == '[' {
      var (inside, rest) := SplitOnce(authority, ']').value;
      assert authority == inside + [']'] + rest;
      assert name == inside + [']'] && name[..|name| - 1] == inside;
    } else {
      match SplitOnce(authority, ':')
      case None => assert name == authority;
      case Some((before, rest)) => assert authority == before + [':'] + rest && name == before;
    }
  }

  // ---- what an issuance and a new generation do ---------------------------------------

  /** Every listed address of this machine is a loopback one: it has no address on the network. */
  ghost predicate OnlyLoopback(addrs: set<Ip>) {
    forall ip :: ip in addrs ==> IsLoopback(CanonicalIp(ip))
  }

  /**
    An issuance is refused exactly without an address on the network, or for another
    generation, and then changes nothing. Otherwise it replaces token and last
    issuance: a new number, five minutes, pending, no self access seen; records and
    failures stay.
   */
  lemma IssueDoes(s: Store, generation: nat, target: ReachTarget, targetIp: Option<Ip>, localAddrs: set<Ip>,
                  token: string, now: Instant, wallMs: int)
    ensures var (s', answer) := Issue(s, generation, target, targetIp, localAddrs, token, now, wallMs);
            && (answer == LocalAddressesUnavailable <==> OnlyLoopback(localAddrs))
            && (answer == StaleGeneration <==> !OnlyLoopback(localAddrs) && generation != s.generation)
            && (!answer.Issued? ==> s' == s)
            && (answer.Issued? ==>
                  && answer == Issued(s.nextIssueId + 1, token) && s'.nextIssueId == s.nextIssueId + 1
                  && s'.active.Some? && s'.lastIssue.Some?
                  && var (active, issue) := (s'.active.value, s'.lastIssue.value);
                     && active.token == token && active.generation == generation && active.issueId == issue.issueId == answer.issueId
                     && active.target == issue.target == target
                     && active.expiresAt == issue.expiresAt == now + 300_000_000_000 && issue.expiresAtMs == wallMs + 300_000
                     && issue.outcome == Pending
                     && (forall ip :: ip in active.selfAddrs <==>
                           (exists a :: a in localAddrs && ip == CanonicalIp(a))
                           || (targetIp.Some? && ip == CanonicalIp(targetIp.value)))
                     && s'.selfAccessAtMs == None && s'.generation == s.generation
                     && s'.records == s.records && s'.failures == s.failures)
  {
    hide IsLoopback, CanonicalIp;
  }

  /** A new listener generation forgets token, issuance, records and self access; numbering and failures go on. */
  lemma BeginDoes(s: Store, generation: nat)
    ensures var s' := BeginGeneration(s, generation);
            && s'.generation == generation && s'.active == None && s'.lastIssue == None
            && s'.records == [] && s'.selfAccessAtMs == None
            && s'.nextIssueId == s.nextIssueId && s'.failures == s.failures
  {
  }

  // ---- which answer a check gets ---------------------------------------------------------

  /** The request carries the live token, in time, on its generation. */
  ghost predicate HasToken(s: Store, r: Request) {
    && s.active.Some? && r.token == s.active.value.token && r.now < s.active.value.expiresAt
    && r.routerGeneration == s.active.value.generation == s.generation
  }

  /** It came in on the token's port and under its host. */
  ghost predicate RightAddress(s: Store, r: Request)
    requires s.active.Some?
  {
    && r.routerPort == s.active.value.target.port
    && r.host.Some? && AuthorityMatches(r.host.value, s.active.value.target.host, r.routerPort)
  }

  /** The peer is this machine. */
  ghost predicate FromHere(s: Store, ip: Ip)
    requires s.active.Some?
  {
    IsLoopback(ip) || ip in s.active.value.selfAddrs
  }

  /**
    Every check: no peer, a blocked peer, no such token, the wrong address, this
    machine itself, or recorded - in this order and no other way - and what each
    leaves of token, records and self access.
   */
  lemma CheckAnswers(s: Store, r: Request)
    requires StoreInv(s)
    ensures var (s', answer) := Check(s, r);
            if r.peer.None? then answer == NoPeer && s' == s
            else
              var ip := CanonicalIp(r.peer.value);
              var wait := Blocked(s.failures, ip, r.now).1;
              if wait.Some? then answer == CheckOutcome.RateLimited(wait.value) && s'.(failures := s.failures) == s
              else if !HasToken(s, r) then
                answer == Unusable && s'.records == s.records && s'.selfAccessAtMs == s.selfAccessAtMs
                && (s'.active == s.active || (s'.active == None && r.now >= s.active.value.expiresAt))
              else if !RightAddress(s, r) then answer == HostMismatch && s'.(failures := s.failures) == s
              else if FromHere(s, ip) then
                answer == SelfAccess && s'.selfAccessAtMs == Some(r.wallMs)
                && s'.(failures := s.failures, selfAccessAtMs := s.selfAccessAtMs) == s
              else
                answer == CheckOutcome.Recorded && s'.active == None && s'.selfAccessAtMs == s.selfAccessAtMs
                && s'.records != []
                && s'.records[0] == ReachRecord(s.active.value.issueId, r.wallMs, ip, s.active.value.target.host, r.routerPort)
                && s'.records[1..] == (if |s.records| < 8 then s.records else s.records[..7])
  {
    hide Blocked, CountFailure, AuthorityMatches, CanonicalIp, IsLoopback;
  }

  // ---- what status shows of an issuance ----------------------------------------------------

  /** Nothing issued and no generation begun, and the clock does not go back from `from` to `to`. */
  predicate Between(events: seq<Event>, from: Instant, to: Instant) {
    if events == [] then from <= to
    else match events[0]
      case DoCheck(r) => from <= r.now && Between(events[1..], r.now, to)
      case DoStatus(now) => from <= now && Between(events[1..], now, to)
      case _ => false
  }

  /** Recorded if a check recorded it; otherwise expired or pending by the time. */
  ghost predicate Shows(s: Store, id: nat, expiresAt: Instant, recorded: bool, now: Instant) {
    && s.lastIssue.Some? && s.lastIssue.value.issueId == id && s.lastIssue.value.expiresAt == expiresAt
    && (s.lastIssue.value.outcome == ReachOutcome.Recorded <==> recorded)
    && (s.lastIssue.value.outcome == Expired ==> expiresAt <= now)
  }

  lemma CheckShows(s: Store, r: Request, id: nat, expiresAt: Instant, recorded: bool)
    requires StoreInv(s) && Shows(s, id, expiresAt, recorded, r.now)
    ensures Shows(Check(s, r).0, id, expiresAt, recorded || Recording(s, DoCheck(r)) == Some(id), r.now)
  {
    hide Blocked, CountFailure, AuthorityMatches, CanonicalIp, IsLoopback, Truncate;
  }

  lemma {:induction false} RunShows(s: Store, events: seq<Event>, id: nat, expiresAt: Instant, recorded: bool, from: Instant, to: Instant)
    requires StoreInv(s) && Shows(s, id, expiresAt, recorded, from) && Between(events, from, to)
    ensures Shows(ReachStore.Run(s, events), id, expiresAt, recorded || TimesRecorded(s, events, id) > 0, to)
    decreases events
  {
    if events != [] {
      StepKeepsInv(s, events[0]);
      hide StoreInv, Check, Recording;
      match events[0] {
        case DoCheck(r) =>
          CheckShows(s, r, id, expiresAt, recorded);
          RunShows(Step(s, events[0]), events[1..], id, expiresAt, recorded || Recording(s, events[0]) == Some(id), r.now, to);
        case DoStatus(now) =>
          StatusRecordsNothing(s, now, id);
          RunShows(Step(s, events[0]), events[1..], id, expiresAt, recorded, now, to);
      }
    }
  }

  lemma StatusRecordsNothing(s: Store, now: Instant, id: nat)
    ensures Recording(s, DoStatus(now)) != Some(id)
  {
  }

  /**
    What status shows of the last issuance, whatever checks and status reads came in
    between: recorded if and only if one of them recorded it, else expired if and
    only if its five minutes are over, else pending.
   */
  lemma StatusIff(s: Store, issued: Event, events: seq<Event>, now: Instant)
    requires StoreInv(s) && issued.DoIssue? && Step(s, issued).nextIssueId == s.nextIssueId + 1
    requires Between(events, issued.now, now)
    ensures var id := s.nextIssueId + 1;
            var issue := Step(ReachStore.Run(Step(s, issued), events), DoStatus(now)).lastIssue;
            var recorded := TimesRecorded(Step(s, issued), events, id) > 0;
            && issue.Some? && issue.value.issueId == id
            && (issue.value.outcome == ReachOutcome.Recorded <==> recorded)
            && (issue.value.outcome == Expired <==> !recorded && now >= issued.now + 300_000_000_000)
  {
    StepKeepsInv(s, issued);
    RunShows(Step(s, issued), events, s.nextIssueId + 1, issued.now + 300_000_000_000, false, issued.now, now);
    hide ReachStore.Run, TimesRecorded, CanonicalIp, IsLoopback;
  }
}
