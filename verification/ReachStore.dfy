/**
  The LAN reach check store (`reach_check.rs`): one one-time token at a time,
  bound to a listener generation and a URL, and a bounded list of reaches.
 */
module ReachStore {
  import opened Text
  import opened ReachLimiter

  const TOKEN_TTL: Instant := 300_000_000_000
  const TOKEN_TTL_MS := 300_000
  const MAX_RECORDS := 8

  datatype ReachTarget = ReachTarget(host: string, port: nat)

  datatype ActiveToken = ActiveToken(
    token: string, generation: nat, issueId: nat, target: ReachTarget, expiresAt: Instant, selfAddrs: set<Ip>)

  datatype ReachOutcome = Pending | Recorded | Expired

  datatype IssueSummary = IssueSummary(
    issueId: nat, target: ReachTarget, expiresAt: Instant, expiresAtMs: int, outcome: ReachOutcome)

  datatype ReachRecord = ReachRecord(issueId: nat, atMs: int, peerIp: Ip, host: string, port: nat)

  datatype Store = Store(
    generation: nat,
    nextIssueId: nat,
    active: Option<ActiveToken>,
    lastIssue: Option<IssueSummary>,
    records: seq<ReachRecord>,
    selfAccessAtMs: Option<int>,
    failures: Table)

  // ---- addresses and authorities ------------------------------------------

  /** An IPv4-mapped IPv6 address is its IPv4 address. */
  function CanonicalIp(ip: Ip): Ip {
    match ip
    case V4(_) => ip
    case V6(s) =>
      if |s| == 8 && s[..6] == [0, 0, 0, 0, 0, 0xFFFF]
      then V4([s[6] / 256, s[6] % 256, s[7] / 256, s[7] % 256])
      else ip
  }

  predicate IsLoopback(ip: Ip) {
    match ip
    case V4(o) => |o| == 4 && o[0] == 127
    case V6(s) => s == [0, 0, 0, 0, 0, 0, 0, 1]
  }

  predicate EqIgnoreAsciiCase(a: string, b: string) {
    |a| == |b| && forall i :: 0 <= i < |a| ==> Lower(a[i]) == Lower(b[i])
  }

  /** The index just after the name part of an authority: after `]`, or before the first `:`. */
  function NameEnd(authority: string): Option<nat> {
    if authority != [] && authority[0] == '[' then
      (match SplitOnce(authority, ']') case None => None case Some((inside, _)) => Some(|inside| + 1))
    else
      (match SplitOnce(authority, ':') case None => Some(|authority|) case Some((name, _)) => Some(|name|))
  }

  /** A missing port is the scheme default, 80. */
  function PortOf(part: string): Option<nat> {
    if part == [] then Some(80)
    else if part[0] == ':' && |part| > 1 && AllDigits(part[1..]) && Value(part[1..]) < 0x1_0000
    then Some(Value(part[1..]))
    else None
  }

  predicate AuthorityMatches(authority: string, host: string, port: nat) {
    match NameEnd(authority)
    case None => false
    case Some(end) =>
      end <= |authority|
      && PortOf(authority[end..]) == Some(port)
      && end > 0
      && EqIgnoreAsciiCase(authority[..end], host)
  }

  /** A host as it stands in a URL: an IPv6 literal in brackets, otherwise no colon and no bracket in front. */
  predicate UrlHost(host: string) {
    if host != [] && host[0] == '['
    then host[|host| - 1] == ']' && ']' !in host[..|host| - 1]
    else host != [] && ':' !in host
  }

  /** For such a host the check accepts exactly the host, in any case, with the port - which 80 may leave out. */
  lemma AuthorityOfUrlHost(name: string, host: string, suffix: string, port: nat)
    requires UrlHost(name) && (suffix == [] || suffix[0] == ':')
    ensures AuthorityMatches(name + suffix, host, port) <==> EqIgnoreAsciiCase(name, host) && PortOf(suffix) == Some(port)
  {
    var authority := name + suffix;
    assert authority[0] == name[0];
    assert NameEnd(authority) == Some(|name|) by {
      if name[0] == '[' {
        var inside := name[..|name| - 1];
        assert authority == inside + [']'] + suffix;
        SplitOnceFirst(inside, ']', suffix);
      } else if suffix == [] {
        assert authority == name;
      } else {
        assert authority == name + [':'] + suffix[1..];
        SplitOnceFirst(name, ':', suffix[1..]);
      }
    }
    assert authority[..|name|] == name && authority[|name|..] == suffix;
  }

  /** The port printed in a URL is the port read back. */
  lemma PrintedPort(port: nat)
    requires port < 0x1_0000
    ensures PortOf(":" + Decimal(port)) == Some(port)
  {
    assert (":" + Decimal(port))[1..] == Decimal(port);
    ValueOfDecimal(port);
  }

  /** The token comparison folds every byte; it is equality all the same. */
  method ConstantTimeEq(a: seq<bv8>, b: seq<bv8>) returns (equal: bool)
    ensures equal <==> a == b
  {
    if |a| != |b| { return false; }
    var diff: bv8 := 0;
    var i := 0;
    while i < |a|
      invariant 0 <= i <= |a|
      invariant diff == 0 <==> a[..i] == b[..i]
    {
      assert a[..i + 1] == a[..i] + [a[i]] && b[..i + 1] == b[..i] + [b[i]];
      FoldByte(diff, a[i], b[i]);
      diff := diff | (a[i] ^ b[i]);
      i := i + 1;
    }
    assert a[..i] == a && b[..i] == b;
    equal := diff == 0;
  }

  lemma FoldByte(acc: bv8, x: bv8, y: bv8)
    ensures acc | (x ^ y) == 0 <==> acc == 0 && x == y
  {
  }

  // ---- the operations, as functions of the store ---------------------------

  function Expire(s: Store, now: Instant): Store {
    s.(active := if s.active.Some? && now >= s.active.value.expiresAt then None else s.active,
       lastIssue := if s.lastIssue.Some? && s.lastIssue.value.outcome == Pending && now >= s.lastIssue.value.expiresAt
                    then Some(s.lastIssue.value.(outcome := Expired)) else s.lastIssue)
  }

  function BeginGeneration(s: Store, generation: nat): Store {
    s.(generation := generation, active := None, lastIssue := None, records := [], selfAccessAtMs := None)
  }

  datatype IssueAnswer = Issued(issueId: nat, token: string) | StaleGeneration | LocalAddressesUnavailable

  /** `token` is the freshly drawn UUID; `targetIp` the target host when it is an IP literal. */
  function Issue(s: Store, generation: nat, target: ReachTarget, targetIp: Option<Ip>, localAddrs: set<Ip>,
                 token: string, now: Instant, wallMs: int): (Store, IssueAnswer)
  {
    var local := set ip | ip in localAddrs :: CanonicalIp(ip);
    if forall ip :: ip in local ==> IsLoopback(ip) then (s, LocalAddressesUnavailable)
    else if s.generation != generation then (s, StaleGeneration)
    else
      var selfAddrs := if targetIp.Some? then local + {CanonicalIp(targetIp.value)} else local;
      var id := s.nextIssueId + 1;
      (s.(nextIssueId := id,
          active := Some(ActiveToken(token, generation, id, target, now + TOKEN_TTL, selfAddrs)),
          selfAccessAtMs := None,
          lastIssue := Some(IssueSummary(id, target, now + TOKEN_TTL, wallMs + TOKEN_TTL_MS, Pending))),
       Issued(id, token))
  }

  datatype CheckOutcome = Recorded | SelfAccess | NoPeer | Unusable | HostMismatch | RateLimited(retryAfter: Instant)

  /** One `POST /api/reach-check` and when it is judged. */
  datatype Request = Request(
    peer: Option<Ip>, routerGeneration: nat, routerPort: nat, host: Option<string>, token: string,
    now: Instant, wallMs: int, victim: Option<Ip>)

  function Fail(s: Store, ip: Ip, r: Request, outcome: CheckOutcome): (Store, CheckOutcome) {
    (s.(failures := CountFailure(s.failures, ip, r.now, r.victim)), outcome)
  }

  function Check(s: Store, r: Request): (Store, CheckOutcome) {
    if r.peer.None? then (s, NoPeer)
    else
      var ip := CanonicalIp(r.peer.value);
      var (failures, retry) := Blocked(s.failures, ip, r.now);
      var s1 := s.(failures := failures);
      if retry.Some? then (s1, CheckOutcome.RateLimited(retry.value))
      else if s1.active.None? || s1.active.value.token != r.token then Fail(s1, ip, r, Unusable)
      else
        var s2 := Expire(s1, r.now);
        if s2.active.None? then Fail(s2, ip, r, Unusable)
        else
          var active := s2.active.value;
          if active.generation != r.routerGeneration || active.generation != s2.generation then Fail(s2, ip, r, Unusable)
          else if active.target.port != r.routerPort || r.host.None?
                  || !AuthorityMatches(r.host.value, active.target.host, r.routerPort) then Fail(s2, ip, r, HostMismatch)
          else if IsLoopback(ip) || ip in active.selfAddrs then (s2.(selfAccessAtMs := Some(r.wallMs)), SelfAccess)
          else
            var record := ReachRecord(active.issueId, r.wallMs, ip, active.target.host, r.routerPort);
            (s2.(active := None,
                 lastIssue := if s2.lastIssue.Some? && s2.lastIssue.value.issueId == active.issueId
                              then Some(s2.lastIssue.value.(outcome := ReachOutcome.Recorded)) else s2.lastIssue,
                 records := Truncate([record] + s2.records)),
             CheckOutcome.Recorded)
  }

  function Truncate(records: seq<ReachRecord>): seq<ReachRecord> {
    if |records| > MAX_RECORDS then records[..MAX_RECORDS] else records
  }

  // ---- what every operation keeps -------------------------------------------

  /** The live token is the last issuance while it is pending, under the store's own generation. */
  ghost predicate TokenInv(s: Store) {
    && (s.active.Some? <==> s.lastIssue.Some? && s.lastIssue.value.outcome == Pending)
    && (s.active.Some? ==>
          && s.active.value.generation == s.generation
          && s.active.value.issueId == s.lastIssue.value.issueId
          && s.active.value.target == s.lastIssue.value.target
          && s.active.value.expiresAt == s.lastIssue.value.expiresAt)
    && (s.lastIssue.Some? ==> s.lastIssue.value.issueId == s.nextIssueId)
  }

  /** At most eight reaches, newest first, each older than the live token's issuance. */
  ghost predicate RecordsInv(s: Store) {
    && |s.records| <= MAX_RECORDS
    && (forall i, j :: 0 <= i < j < |s.records| ==> s.records[i].issueId > s.records[j].issueId)
    && (forall i :: 0 <= i < |s.records| ==>
          s.records[i].issueId <= s.nextIssueId && (s.active.Some? ==> s.records[i].issueId < s.nextIssueId))
  }

  ghost predicate StoreInv(s: Store) {
    TokenInv(s) && RecordsInv(s)
  }

  datatype Event =
    | DoIssue(generation: nat, target: ReachTarget, targetIp: Option<Ip>, localAddrs: set<Ip>, token: string,
              now: Instant, wallMs: int)
    | DoBegin(generation: nat)
    | DoStatus(now: Instant)
    | DoCheck(request: Request)

  function Step(s: Store, e: Event): Store {
    match e
    case DoIssue(generation, target, targetIp, localAddrs, token, now, wallMs) =>
      Issue(s, generation, target, targetIp, localAddrs, token, now, wallMs).0
    case DoBegin(generation) => BeginGeneration(s, generation)
    case DoStatus(now) => Expire(s, now)
    case DoCheck(request) => Check(s, request).0
  }

  function Run(s: Store, events: seq<Event>): Store
    decreases events
  {
    if events == [] then s else Run(Step(s, events[0]), events[1..])
  }

  lemma CheckKeepsInv(s: Store, r: Request)
    requires StoreInv(s)
    ensures StoreInv(Check(s, r).0)
  {
    hide Blocked, CountFailure, AuthorityMatches, CanonicalIp, IsLoopback;
  }

  lemma StepKeepsInv(s: Store, e: Event)
    requires StoreInv(s)
    ensures StoreInv(Step(s, e))
  {
    if e.DoCheck? { CheckKeepsInv(s, e.request); }
  }

  /** In every run: the token is live exactly while the last issuance is pending; the records are bounded and ordered. */
  lemma {:induction false} RunKeepsInv(s: Store, events: seq<Event>)
    requires StoreInv(s)
    ensures StoreInv(Run(s, events))
    decreases events
  {
    if events != [] {
      StepKeepsInv(s, events[0]);
      RunKeepsInv(Step(s, events[0]), events[1..]);
    }
  }

  // ---- expiry is lazy ------------------------------------------------------------

  /** The times of checks and status reads do not go back, and start at `from`. */
  predicate ClockedFrom(events: seq<Event>, from: Instant) {
    events == []
    || (match events[0]
        case DoCheck(r) => from <= r.now && ClockedFrom(events[1..], r.now)
        case DoStatus(now) => from <= now && ClockedFrom(events[1..], now)
        case DoIssue(_, _, _, _, _, _, _) => ClockedFrom(events[1..], from)
        case DoBegin(_) => ClockedFrom(events[1..], from))
  }

  /** What the checks of a run are answered. */
  function Answers(s: Store, events: seq<Event>): seq<CheckOutcome>
    decreases events
  {
    if events == [] then []
    else
      (if events[0].DoCheck? then [Check(s, events[0].request).1] else [])
      + Answers(Step(s, events[0]), events[1..])
  }

  /** The states differ at most by what has expired by `now`. */
  predicate SameBut(a: Store, b: Store, now: Instant) {
    Expire(a, now) == Expire(b, now)
  }

  lemma CheckSeesNoDifference(a: Store, b: Store, r: Request)
    requires SameBut(a, b, r.now)
    ensures Check(a, r).1 == Check(b, r).1 && SameBut(Check(a, r).0, Check(b, r).0, r.now)
  {
    hide Blocked, CountFailure, AuthorityMatches, CanonicalIp, IsLoopback, Truncate;
  }

  lemma StaysSame(a: Store, b: Store, from: Instant, now: Instant)
    requires SameBut(a, b, from) && from <= now
    ensures SameBut(a, b, now)
  {
  }

  lemma OtherStepsStaySame(a: Store, b: Store, e: Event, now: Instant)
    requires SameBut(a, b, now) && !e.DoCheck? && (e.DoStatus? ==> e.now == now)
    ensures SameBut(Step(a, e), Step(b, e), now)
  {
    hide CanonicalIp, IsLoopback;
  }

  lemma {:induction false} SameAnswers(a: Store, b: Store, from: Instant, events: seq<Event>) returns (last: Instant)
    requires SameBut(a, b, from) && ClockedFrom(events, from)
    ensures Answers(a, events) == Answers(b, events)
    ensures from <= last && SameBut(Run(a, events), Run(b, events), last)
    decreases events
  {
    last := from;
    if events != [] {
      var now := match events[0] case DoCheck(r) => r.now case DoStatus(t) => t case _ => from;
      StaysSame(a, b, from, now);
      if events[0].DoCheck? {
        CheckSeesNoDifference(a, b, events[0].request);
      } else {
        OtherStepsStaySame(a, b, events[0], now);
      }
      hide SameBut, Check, Issue, Expire;
      last := SameAnswers(Step(a, events[0]), Step(b, events[0]), now, events[1..]);
    }
  }

  /**
    When expiry is carried out cannot be told: an expiry more at any time changes
    no answer of any later check, and leaves the same store once that expires too.
   */
  lemma ExpiryIsLazy(s: Store, now: Instant, events: seq<Event>) returns (last: Instant)
    requires ClockedFrom(events, now)
    ensures Answers(Expire(s, now), events) == Answers(s, events)
    ensures now <= last && Expire(Run(Expire(s, now), events), last) == Expire(Run(s, events), last)
  {
    assert SameBut(Expire(s, now), s, now);
    last := SameAnswers(Expire(s, now), s, now, events);
  }

  // ---- a token is used once ----------------------------------------------------

  /** The issuance a check records, if it records one. */
  function Recording(s: Store, e: Event): Option<nat> {
    if e.DoCheck? && Check(s, e.request).1 == CheckOutcome.Recorded && s.active.Some?
    then Some(s.active.value.issueId)
    else None
  }

  /** How often the run records issuance `id`. */
  function TimesRecorded(s: Store, events: seq<Event>, id: nat): nat
    decreases events
  {
    if events == [] then 0
    else (if Recording(s, events[0]) == Some(id) then 1 else 0) + TimesRecorded(Step(s, events[0]), events[1..], id)
  }

  /** Issuance `id` can still be recorded: it is the live one, or not issued yet. */
  predicate Recordable(s: Store, id: nat) {
    id > s.nextIssueId || (s.active.Some? && s.active.value.issueId == id)
  }

  lemma RecordingConsumes(s: Store, e: Event, id: nat)
    requires StoreInv(s)
    ensures Recording(s, e) == Some(id) ==> Recordable(s, id) && !Recordable(Step(s, e), id)
    ensures !Recordable(s, id) ==> !Recordable(Step(s, e), id)
  {
  }

  /** Each issuance is recorded at most once in a whole run, and never once its token is gone. */
  lemma {:induction false} RecordedAtMostOnce(s: Store, events: seq<Event>, id: nat)
    requires StoreInv(s)
    ensures TimesRecorded(s, events, id) <= (if Recordable(s, id) then 1 else 0)
    decreases events
  {
    if events != [] {
      StepKeepsInv(s, events[0]);
      RecordingConsumes(s, events[0], id);
      RecordedAtMostOnce(Step(s, events[0]), events[1..], id);
    }
  }

  /** Exactly the requests that get a reach recorded, and what is recorded. */
  lemma RecordedIff(s: Store, r: Request)
    requires StoreInv(s)
    ensures Check(s, r).1 == CheckOutcome.Recorded <==>
            && r.peer.Some? && Blocked(s.failures, CanonicalIp(r.peer.value), r.now).1.None?
            && s.lastIssue.Some? && s.lastIssue.value.outcome == Pending && r.now < s.lastIssue.value.expiresAt
            && r.token == s.active.value.token && r.routerGeneration == s.generation
            && r.routerPort == s.lastIssue.value.target.port
            && r.host.Some? && AuthorityMatches(r.host.value, s.lastIssue.value.target.host, r.routerPort)
            && !IsLoopback(CanonicalIp(r.peer.value)) && CanonicalIp(r.peer.value) !in s.active.value.selfAddrs
    ensures Check(s, r).1 == CheckOutcome.Recorded ==>
              var s' := Check(s, r).0;
              var host := s.lastIssue.value.target.host;
              && s'.active == None && s'.lastIssue.value.outcome == ReachOutcome.Recorded
              && s'.records
                 == Truncate([ReachRecord(s.nextIssueId, r.wallMs, CanonicalIp(r.peer.value), host, r.routerPort)] + s.records)
  {
  }

  /** A token is never altered: it stays as issued, is dropped, or gives way to a later issuance's. */
  lemma StepKeepsActive(s: Store, e: Event)
    requires StoreInv(s)
    ensures var s' := Step(s, e);
            && s.nextIssueId <= s'.nextIssueId
            && (s'.active.Some? ==> s'.active == s.active || s'.active.value.issueId > s.nextIssueId)
  {
    hide Blocked, CountFailure, AuthorityMatches, CanonicalIp, IsLoopback;
  }

  lemma {:induction false} RunKeepsActive(s: Store, events: seq<Event>)
    requires StoreInv(s)
    ensures var s' := Run(s, events);
            && s.nextIssueId <= s'.nextIssueId
            && (s'.active.Some? ==> s'.active == s.active || s'.active.value.issueId > s.nextIssueId)
    decreases events
  {
    hide Step, StoreInv;
    if events != [] {
      StepKeepsActive(s, events[0]);
      StepKeepsInv(s, events[0]);
      RunKeepsActive(Step(s, events[0]), events[1..]);
    }
  }

  /**
    A reach recorded for an issuance, however long after it and whatever happened
    in between: the issued token, on the generation and port it was issued for,
    under the URL it was issued for, in time, from none of this machine's addresses.
   */
  lemma RecordedReachIsGenuine(s: Store, issued: Event, events: seq<Event>, r: Request)
    requires StoreInv(s) && issued.DoIssue? && Step(s, issued).nextIssueId == s.nextIssueId + 1
    requires Recording(Run(Step(s, issued), events), DoCheck(r)) == Some(s.nextIssueId + 1)
    ensures issued.generation == s.generation == r.routerGeneration && r.token == issued.token
    ensures r.routerPort == issued.target.port && r.now < issued.now + TOKEN_TTL
    ensures r.host.Some? && AuthorityMatches(r.host.value, issued.target.host, issued.target.port)
    ensures var peer := CanonicalIp(r.peer.value);
            && !IsLoopback(peer)
            && (forall ip :: ip in issued.localAddrs ==> peer != CanonicalIp(ip))
            && (issued.targetIp.Some? ==> peer != CanonicalIp(issued.targetIp.value))
  {
    var s1 := Step(s, issued);
    var s2 := Run(s1, events);
    StepKeepsInv(s, issued);
    RunKeepsInv(s1, events);
    RunKeepsActive(s1, events);
    RecordedIff(s2, r);
    hide Run, Check, Blocked, AuthorityMatches, CanonicalIp, IsLoopback, Truncate;
    IssuedActive(s, issued);
  }

  /** What an issuance binds its token to. */
  lemma IssuedActive(s: Store, issued: Event)
    requires issued.DoIssue?
    ensures var s1 := Step(s, issued);
            && (s1.nextIssueId == s.nextIssueId ==> s1 == s)
            && (s1.nextIssueId != s.nextIssueId ==>
                  && s1.nextIssueId == s.nextIssueId + 1 && issued.generation == s.generation
                  && s1.active.Some? && s1.active.value.issueId == s1.nextIssueId
                  && s1.active.value.token == issued.token && s1.active.value.target == issued.target
                  && s1.active.value.generation == issued.generation
                  && s1.active.value.expiresAt == issued.now + TOKEN_TTL
                  && (forall ip :: ip in issued.localAddrs ==> CanonicalIp(ip) in s1.active.value.selfAddrs)
                  && (issued.targetIp.Some? ==> CanonicalIp(issued.targetIp.value) in s1.active.value.selfAddrs))
  {
    hide CanonicalIp, IsLoopback;
  }

  /** A check treats the failure table as one attempt that fails exactly for `Unusable` and `HostMismatch`. */
  lemma CheckIsAttempt(s: Store, r: Request)
    requires r.peer.Some?
    ensures var (s', outcome) := Check(s, r);
            var fails := outcome == Unusable || outcome == HostMismatch;
            var (table, answer) := Judge(s.failures, Attempt(CanonicalIp(r.peer.value), r.now, fails, r.victim));
            && s'.failures == table
            && (answer.RateLimited? <==> outcome.RateLimited?)
            && (answer.RateLimited? ==> answer.retryAfter == outcome.retryAfter)
            && (answer == Failed <==> fails)
  {
  }

  /** The run as the failure counter sees it: its checks from a known peer, each with its judgment. */
  function AttemptsOf(s: Store, events: seq<Event>): seq<Attempt>
    decreases events
  {
    if events == [] then []
    else (if events[0].DoCheck? && events[0].request.peer.Some? then [AttemptOf(s, events[0].request)] else [])
         + AttemptsOf(Step(s, events[0]), events[1..])
  }

  function AttemptOf(s: Store, r: Request): Attempt
    requires r.peer.Some?
  {
    var outcome := Check(s, r).1;
    Attempt(CanonicalIp(r.peer.value), r.now, outcome == Unusable || outcome == HostMismatch, r.victim)
  }

  /** How many checks of `ip` in the span are answered `Unusable` or `HostMismatch`. */
  function RefusedIn(s: Store, events: seq<Event>, ip: Ip, from: Instant): nat
    decreases events
  {
    if events == [] then 0
    else (if events[0].DoCheck? && events[0].request.peer.Some?
             && CanonicalIp(events[0].request.peer.value) == ip
             && AttemptOf(s, events[0].request).fails
             && from <= events[0].request.now < from + RATE_LIMIT_WINDOW then 1 else 0)
         + RefusedIn(Step(s, events[0]), events[1..], ip, from)
  }

  lemma {:induction false} RefusedAreFailures(s: Store, events: seq<Event>, ip: Ip, from: Instant)
    ensures RefusedIn(s, events, ip, from) == FailuresIn(s.failures, AttemptsOf(s, events), ip, from)
    decreases events
  {
    if events != [] {
      var s' := Step(s, events[0]);
      RefusedAreFailures(s', events[1..], ip, from);
      if events[0].DoCheck? && events[0].request.peer.Some? {
        CheckIsAttempt(s, events[0].request);
        var rest := AttemptsOf(s', events[1..]);
        assert ([AttemptOf(s, events[0].request)] + rest)[1..] == rest;
      } else {
        assert [] + AttemptsOf(s', events[1..]) == AttemptsOf(s', events[1..]);
        assert s'.failures == s.failures;
      }
    }
  }

  /**
    Guessing is bounded: at most `2F - 2` refused checks of a peer that is not
    evicted in any window, whatever else the store does.
   */
  lemma RefusalsBounded(s: Store, now: Instant, events: seq<Event>, ip: Ip, from: Instant)
    requires Inv(s.failures, now) && Clocked(s.failures, now, AttemptsOf(s, events)) && NeverEvicted(ip, AttemptsOf(s, events))
    ensures RefusedIn(s, events, ip, from) <= 2 * RATE_LIMIT_FAILURES - 2
  {
    RefusedAreFailures(s, events, ip, from);
    SlidingWindowBound(s.failures, now, AttemptsOf(s, events), ip, from);
  }

  // ---- the store -----------------------------------------------------------------

  /** `ReachCheckState`: every method runs under the store's one lock. */
  class ReachCheckState {
    var generation: nat
    var nextIssueId: nat
    var active: Option<ActiveToken>
    var lastIssue: Option<IssueSummary>
    var records: seq<ReachRecord>
    var selfAccessAtMs: Option<int>
    var failures: Table

    function Abs(): Store
      reads this
    {
      Store(generation, nextIssueId, active, lastIssue, records, selfAccessAtMs, failures)
    }

    constructor ()
      ensures Abs() == Store(0, 0, None, None, [], None, map[]) && StoreInv(Abs())
    {
      generation, nextIssueId := 0, 0;
      active, lastIssue, records, selfAccessAtMs := None, None, [], None;
      failures := map[];
    }

    method ExpireNow(now: Instant)
      modifies this
      ensures Abs() == Expire(old(Abs()), now)
    {
      if active.Some? && now >= active.value.expiresAt { active := None; }
      if lastIssue.Some? && lastIssue.value.outcome == Pending && now >= lastIssue.value.expiresAt {
        lastIssue := Some(lastIssue.value.(outcome := Expired));
      }
    }

    method BeginNewGeneration(newGeneration: nat)
      requires StoreInv(Abs())
      modifies this
      ensures Abs() == BeginGeneration(old(Abs()), newGeneration) && StoreInv(Abs())
    {
      generation := newGeneration;
      active := None;
      lastIssue := None;
      records := [];
      selfAccessAtMs := None;
    }

    method IssueWithLocalAddrs(observed: nat, target: ReachTarget, targetIp: Option<Ip>, localAddrs: set<Ip>,
                               token: string, now: Instant, wallMs: int) returns (answer: IssueAnswer)
      requires StoreInv(Abs())
      modifies this
      ensures (Abs(), answer) == Issue(old(Abs()), observed, target, targetIp, localAddrs, token, now, wallMs)
      ensures StoreInv(Abs())
    {
      var selfAddrs := set ip | ip in localAddrs :: CanonicalIp(ip);
      if forall ip :: ip in selfAddrs ==> IsLoopback(ip) { return LocalAddressesUnavailable; }
      if targetIp.Some? { selfAddrs := selfAddrs + {CanonicalIp(targetIp.value)}; }
      if generation != observed { return StaleGeneration; }
      nextIssueId := nextIssueId + 1;
      active := Some(ActiveToken(token, observed, nextIssueId, target, now + TOKEN_TTL, selfAddrs));
      selfAccessAtMs := None;
      lastIssue := Some(IssueSummary(nextIssueId, target, now + TOKEN_TTL, wallMs + TOKEN_TTL_MS, Pending));
      answer := Issued(nextIssueId, token);
    }

    /** The failure counter of a refused check. */
    method Count(ip: Ip, now: Instant) returns (ghost victim: Option<Ip>)
      modifies this`failures
      ensures EvictsOldest(old(failures), ip, victim)
      ensures failures == CountFailure(old(failures), ip, now, victim)
    {
      var oldest := OldestSeen(failures, ip);
      victim := oldest;
      if oldest.Some? { failures := failures - {oldest.value}; }
      var entry := if ip in failures then failures[ip] else FailureEntry(now, 0, None, now);
      if Since(now, entry.windowStart) >= RATE_LIMIT_WINDOW {
        entry := entry.(windowStart := now, failures := 0);
      }
      entry := entry.(failures := entry.failures + 1, lastSeen := now);
      if entry.failures >= RATE_LIMIT_FAILURES {
        entry := entry.(blockedUntil := Some(now + RATE_LIMIT_WINDOW));
      }
      failures := failures[ip := entry];
    }

    /** `check`. The ghost result is the peer the failure counter evicted, if it did. */
    method CheckRequest(peer: Option<Ip>, routerGeneration: nat, routerPort: nat, host: Option<string>, token: string,
                        now: Instant, wallMs: int) returns (outcome: CheckOutcome, ghost victim: Option<Ip>)
      requires StoreInv(Abs())
      modifies this
      ensures (Abs(), outcome)
              == Check(old(Abs()), Request(peer, routerGeneration, routerPort, host, token, now, wallMs, victim))
      ensures StoreInv(Abs())
      ensures peer.Some? ==>
                var fails := outcome == Unusable || outcome == HostMismatch;
                Proper(old(failures), Attempt(CanonicalIp(peer.value), now, fails, victim))
    {
      hide CountFailure, AuthorityMatches, CanonicalIp, IsLoopback, EvictsOldest;
      victim := None;
      if peer.None? { return NoPeer, None; }
      ghost var before := Abs();
      var ip := CanonicalIp(peer.value);
      var (table, retry) := Blocked(failures, ip, now);
      failures := table;
      if retry.Some? { return CheckOutcome.RateLimited(retry.value), None; }
      if active.None? || active.value.token != token {
        victim := Count(ip, now);
        CheckKeepsInv(before, Request(peer, routerGeneration, routerPort, host, token, now, wallMs, victim));
        return Unusable, victim;
      }
      ExpireNow(now);
      if active.None? || active.value.generation != routerGeneration || active.value.generation != generation {
        victim := Count(ip, now);
        CheckKeepsInv(before, Request(peer, routerGeneration, routerPort, host, token, now, wallMs, victim));
        return Unusable, victim;
      }
      if active.value.target.port != routerPort || host.None?
         || !AuthorityMatches(host.value, active.value.target.host, routerPort) {
        victim := Count(ip, now);
        CheckKeepsInv(before, Request(peer, routerGeneration, routerPort, host, token, now, wallMs, victim));
        return HostMismatch, victim;
      }
      CheckKeepsInv(before, Request(peer, routerGeneration, routerPort, host, token, now, wallMs, None));
      if IsLoopback(ip) || ip in active.value.selfAddrs {
        selfAccessAtMs := Some(wallMs);
        return SelfAccess, None;
      }
      var taken := active.value;
      active := None;
      if lastIssue.Some? && lastIssue.value.issueId == taken.issueId {
        lastIssue := Some(lastIssue.value.(outcome := ReachOutcome.Recorded));
      }
      records := Truncate([ReachRecord(taken.issueId, wallMs, ip, taken.target.host, routerPort)] + records);
      outcome := CheckOutcome.Recorded;
    }
  }
}
