/**
  Credential-less sessions (`grant.rs`, and the token side in `auth/state.rs`):
  many issuers, each parked between observing a kind's generation, judging its
  condition and inserting a token, against closing the condition and revoking.
 */
module Grants {
  import opened Sets
  import opened Text

  type Kind = string
  type Token = nat

  datatype Spec = Spec(maxSessions: nat, requireLoopbackPeer: bool)

  datatype GrantQueue = GrantQueue(generation: nat, tokens: seq<Token>)

  /** The auth state: who issued each live token (`None`: an account login), and each kind's queue. */
  datatype Auth = Auth(tokens: map<Token, Option<Kind>>, grants: map<Kind, GrantQueue>, nextToken: Token)

  function QueueOf(auth: Auth, kind: Kind): GrantQueue {
    if kind in auth.grants then auth.grants[kind] else GrantQueue(0, [])
  }

  function Generation(auth: Auth, kind: Kind): nat {
    QueueOf(auth, kind).generation
  }

  function Cap(spec: Spec): (cap: nat)
    ensures cap >= 1
  {
    if spec.maxSessions >= 1 then spec.maxSessions else 1
  }

  function Elements(s: seq<Token>): set<Token> {
    set i | 0 <= i < |s| :: s[i]
  }

  /** How many of a kind's oldest tokens a new one pushes out. */
  function Surplus(queue: seq<Token>, cap: nat): nat {
    if |queue| + 1 > cap then |queue| + 1 - cap else 0
  }

  /** The kind's tokens after `token` is issued, oldest first, and those it pushes out. */
  function Queued(queue: seq<Token>, token: Token, cap: nat): seq<Token>
    requires cap >= 1
  {
    (queue + [token])[Surplus(queue, cap)..]
  }

  function Evicted(queue: seq<Token>, token: Token, cap: nat): set<Token>
    requires cap >= 1
  {
    Elements((queue + [token])[..Surplus(queue, cap)])
  }

  /** `issue_grant_token`: under one lock, insert only at the observed generation, then evict the oldest. */
  function Issue(auth: Auth, kind: Kind, spec: Spec, observed: nat, expired: set<Token>): (Auth, Option<Token>) {
    var queue := QueueOf(auth, kind);
    if queue.generation != observed then (auth.(grants := auth.grants[kind := queue]), None)
    else
      var token := auth.nextToken;
      (Auth((auth.tokens - expired)[token := Some(kind)] - Evicted(queue.tokens, token, Cap(spec)),
            auth.grants[kind := queue.(tokens := Queued(queue.tokens, token, Cap(spec)))],
            token + 1),
       Some(token))
  }

  /** `revoke_grant_tokens`: drop the kind's tokens and advance its generation under the same lock. */
  function Revoke(auth: Auth, kind: Kind): Auth {
    var queue := QueueOf(auth, kind);
    auth.(tokens := map t | t in auth.tokens && t !in queue.tokens && auth.tokens[t] != Some(kind) :: auth.tokens[t],
          grants := auth.grants[kind := GrantQueue(queue.generation + 1, [])])
  }

  // ---- the protocol --------------------------------------------------------

  /** An issuing request: parked after reading the generation, or after the judgment accepted it. */
  datatype Issuer = Observed(kind: Kind, generation: nat) | Judged(kind: Kind, generation: nat)

  /** `open` is the persisted condition of every kind. */
  datatype State = State(auth: Auth, open: set<Kind>, issuers: map<nat, Issuer>)

  datatype Event =
    | Observe(issuer: nat, kind: Kind)
    | Judge(issuer: nat, loopbackPeer: bool, conditionFails: bool)
    | Insert(issuer: nat, expired: set<Token>)
    | PersistOpen(kind: Kind)
    | PersistClosed(kind: Kind)
    | RevokeKind(kind: Kind)
    | Login
    | Logout(token: Token)
    | Expire(expired: set<Token>)

  datatype Judgment = Allowed | Forbidden | ConditionError

  /** The judgment status and issuance share: the peer first, then the condition. */
  function Verdict(spec: Spec, loopbackPeer: bool, conditionFails: bool, open: bool): Judgment {
    if spec.requireLoopbackPeer && !loopbackPeer then Forbidden
    else if conditionFails then ConditionError
    else if open then Allowed
    else Forbidden
  }

  function Step(registry: map<Kind, Spec>, s: State, e: Event): State {
    match e
    case Observe(i, kind) =>
      if kind in registry && i !in s.issuers
      then s.(issuers := s.issuers[i := Issuer.Observed(kind, Generation(s.auth, kind))])
      else s
    case Judge(i, loopback, fails) =>
      if i in s.issuers && s.issuers[i].Observed? && s.issuers[i].kind in registry then
        var Observed(kind, generation) := s.issuers[i];
        if Verdict(registry[kind], loopback, fails, kind in s.open) == Allowed
        then s.(issuers := s.issuers[i := Issuer.Judged(kind, generation)])
        else s.(issuers := s.issuers - {i})
      else s
    case Insert(i, expired) =>
      if i in s.issuers && s.issuers[i].Judged? && s.issuers[i].kind in registry then
        var Judged(kind, generation) := s.issuers[i];
        s.(auth := Issue(s.auth, kind, registry[kind], generation, expired).0, issuers := s.issuers - {i})
      else s
    case PersistOpen(kind) => s.(open := s.open + {kind})
    case PersistClosed(kind) => s.(open := s.open - {kind})
    case RevokeKind(kind) => s.(auth := Revoke(s.auth, kind))
    case Login => s.(auth := s.auth.(tokens := s.auth.tokens[s.auth.nextToken := None], nextToken := s.auth.nextToken + 1))
    case Logout(token) => s.(auth := s.auth.(tokens := s.auth.tokens - {token}))
    case Expire(expired) => s.(auth := s.auth.(tokens := s.auth.tokens - expired))
  }

  function Run(registry: map<Kind, Spec>, s: State, events: seq<Event>): State
    decreases events
  {
    if events == [] then s else Run(registry, Step(registry, s, events[0]), events[1..])
  }

  // ---- invariants ------------------------------------------------------------

  function Live(auth: Auth, kind: Kind): set<Token> {
    set t | t in auth.tokens && auth.tokens[t] == Some(kind)
  }

  /** Every token is older than the counter, and a grant's token is in its kind's queue. */
  ghost predicate TokensInv(auth: Auth) {
    forall t :: t in auth.tokens ==>
      t < auth.nextToken && (auth.tokens[t].Some? ==> t in QueueOf(auth, auth.tokens[t].value).tokens)
  }

  /** A kind's queue names no live token of anything else, and is within the kind's cap. */
  ghost predicate QueueInv(registry: map<Kind, Spec>, auth: Auth, kind: Kind) {
    && (forall t :: t in QueueOf(auth, kind).tokens ==>
          t < auth.nextToken && (t in auth.tokens ==> auth.tokens[t] == Some(kind)))
    && (kind in registry ==> |QueueOf(auth, kind).tokens| <= Cap(registry[kind]))
  }

  ghost predicate AuthInv(registry: map<Kind, Spec>, auth: Auth) {
    TokensInv(auth) && forall kind :: QueueInv(registry, auth, kind)
  }

  ghost predicate Inv(registry: map<Kind, Spec>, s: State) {
    && AuthInv(registry, s.auth)
    && forall i :: i in s.issuers ==> s.issuers[i].generation <= Generation(s.auth, s.issuers[i].kind)
  }

  lemma {:induction false} ElementsOf(s: seq<Token>, t: Token)
    ensures t in Elements(s) <==> t in s
  {
  }

  /** Every token is kept or pushed out, never both if they were issued in order; the new one is kept. */
  lemma QueueSplits(queue: seq<Token>, token: Token, cap: nat, t: Token)
    requires cap >= 1
    ensures |Queued(queue, token, cap)| <= cap && token in Queued(queue, token, cap)
    ensures t in queue || t == token <==> t in Queued(queue, token, cap) || t in Evicted(queue, token, cap)
  {
    var all, n := queue + [token], Surplus(queue, cap);
    assert all[n..][|all| - n - 1] == token;
    assert all == all[..n] + all[n..];
    ElementsOf(all[..n], t);
    assert t in all <==> t in all[..n] || t in all[n..];
  }

  /** The queues after an issuance at the current generation. */
  lemma IssuedQueue(auth: Auth, kind: Kind, spec: Spec, expired: set<Token>, k: Kind)
    ensures var queue := QueueOf(auth, kind);
            QueueOf(Issue(auth, kind, spec, Generation(auth, kind), expired).0, k)
            == if k == kind then queue.(tokens := Queued(queue.tokens, auth.nextToken, Cap(spec))) else QueueOf(auth, k)
  {
    hide Queued, Evicted;
  }

  /** The tokens after it. */
  lemma IssuedToken(auth: Auth, kind: Kind, spec: Spec, expired: set<Token>, t: Token)
    ensures var (auth', token) := Issue(auth, kind, spec, Generation(auth, kind), expired);
            && token == Some(auth.nextToken) && auth'.nextToken == auth.nextToken + 1
            && (t in auth'.tokens <==>
                  (t == auth.nextToken || (t in auth.tokens && t !in expired))
                  && t !in Evicted(QueueOf(auth, kind).tokens, auth.nextToken, Cap(spec)))
            && (t in auth'.tokens ==> auth'.tokens[t] == if t == auth.nextToken then Some(kind) else auth.tokens[t])
  {
    hide Queued, Evicted;
  }

  lemma IssueKeepsQueue(registry: map<Kind, Spec>, auth: Auth, kind: Kind, expired: set<Token>, k: Kind)
    requires QueueInv(registry, auth, k) && QueueInv(registry, auth, kind) && kind in registry
    ensures QueueInv(registry, Issue(auth, kind, registry[kind], Generation(auth, kind), expired).0, k)
  {
    var auth' := Issue(auth, kind, registry[kind], Generation(auth, kind), expired).0;
    var queue, cap := QueueOf(auth, kind).tokens, Cap(registry[kind]);
    IssuedQueue(auth, kind, registry[kind], expired, k);
    QueueSplits(queue, auth.nextToken, cap, auth.nextToken);
    IssuedToken(auth, kind, registry[kind], expired, 0);
    hide Queued, Evicted, Issue, QueueOf, Cap;
    forall t | t in QueueOf(auth', k).tokens
      ensures t < auth'.nextToken && (t in auth'.tokens ==> auth'.tokens[t] == Some(k)) {
      assert k == kind ==> t in Queued(queue, auth.nextToken, cap);
      QueueSplits(queue, auth.nextToken, cap, t);
      IssuedToken(auth, kind, registry[kind], expired, t);
    }
  }

  lemma IssueKeepsTokens(registry: map<Kind, Spec>, auth: Auth, kind: Kind, expired: set<Token>)
    requires TokensInv(auth) && kind in registry
    ensures TokensInv(Issue(auth, kind, registry[kind], Generation(auth, kind), expired).0)
  {
    hide Queued, Evicted, Issue, QueueOf, Cap;
    var auth' := Issue(auth, kind, registry[kind], Generation(auth, kind), expired).0;
    forall t | t in auth'.tokens
      ensures t < auth'.nextToken && (auth'.tokens[t].Some? ==> t in QueueOf(auth', auth'.tokens[t].value).tokens) {
      QueueSplits(QueueOf(auth, kind).tokens, auth.nextToken, Cap(registry[kind]), t);
      IssuedToken(auth, kind, registry[kind], expired, t);
      if auth'.tokens[t].Some? { IssuedQueue(auth, kind, registry[kind], expired, auth'.tokens[t].value); }
    }
  }

  lemma IssueKeepsInv(registry: map<Kind, Spec>, auth: Auth, kind: Kind, observed: nat, expired: set<Token>)
    requires AuthInv(registry, auth) && kind in registry
    ensures AuthInv(registry, Issue(auth, kind, registry[kind], observed, expired).0)
  {
    var auth' := Issue(auth, kind, registry[kind], observed, expired).0;
    if observed != Generation(auth, kind) {
      SameQueuesKeepInv(registry, auth, auth');
    } else {
      hide Issue, QueueInv, TokensInv;
      IssueKeepsTokens(registry, auth, kind, expired);
      forall k ensures QueueInv(registry, auth', k) {
        assert QueueInv(registry, auth, k) && QueueInv(registry, auth, kind);
        IssueKeepsQueue(registry, auth, kind, expired, k);
      }
    }
  }

  lemma RevokeKeepsQueue(registry: map<Kind, Spec>, auth: Auth, kind: Kind, k: Kind)
    requires QueueInv(registry, auth, k)
    ensures QueueInv(registry, Revoke(auth, kind), k)
    ensures QueueOf(Revoke(auth, kind), k) == if k == kind then GrantQueue(Generation(auth, kind) + 1, []) else QueueOf(auth, k)
  {
    var auth' := Revoke(auth, kind);
    assert QueueOf(auth', k) == if k == kind then GrantQueue(Generation(auth, kind) + 1, []) else QueueOf(auth, k);
    assert forall t :: t in auth'.tokens ==> t in auth.tokens && auth'.tokens[t] == auth.tokens[t];
    hide Revoke, QueueOf;
  }

  lemma RevokeKeepsInv(registry: map<Kind, Spec>, auth: Auth, kind: Kind)
    requires AuthInv(registry, auth)
    ensures AuthInv(registry, Revoke(auth, kind))
  {
    var auth' := Revoke(auth, kind);
    forall k ensures QueueInv(registry, auth', k) && (k != kind ==> QueueOf(auth', k) == QueueOf(auth, k)) {
      RevokeKeepsQueue(registry, auth, kind, k);
    }
    hide QueueInv, QueueOf;
    assert TokensInv(auth');
  }

  /** Dropping tokens, or adding a login, leaves every queue right. */
  lemma SameQueuesKeepInv(registry: map<Kind, Spec>, auth: Auth, auth': Auth)
    requires AuthInv(registry, auth)
    requires (forall k :: QueueOf(auth', k) == QueueOf(auth, k)) && auth'.nextToken >= auth.nextToken
    requires forall t :: t in auth'.tokens ==>
                           (t in auth.tokens && auth'.tokens[t] == auth.tokens[t])
                           || (t == auth.nextToken < auth'.nextToken && auth'.tokens[t] == None)
    ensures AuthInv(registry, auth')
  {
    forall k ensures QueueInv(registry, auth', k) && QueueOf(auth', k) == QueueOf(auth, k) {
      assert QueueInv(registry, auth, k);
      forall t | t in QueueOf(auth, k).tokens
        ensures t < auth'.nextToken && (t in auth'.tokens ==> auth'.tokens[t] == Some(k))
      {
      }
    }
  }

  lemma StepKeepsInv(registry: map<Kind, Spec>, s: State, e: Event)
    requires Inv(registry, s)
    ensures Inv(registry, Step(registry, s, e))
  {
    var s' := Step(registry, s, e);
    match e {
      case Insert(i, expired) =>
        if i in s.issuers && s.issuers[i].Judged? && s.issuers[i].kind in registry {
          IssueKeepsInv(registry, s.auth, s.issuers[i].kind, s.issuers[i].generation, expired);
        }
      case RevokeKind(kind) => RevokeKeepsInv(registry, s.auth, kind);
      case _ => SameQueuesKeepInv(registry, s.auth, s'.auth);
    }
    assert forall k :: Generation(s'.auth, k) >= Generation(s.auth, k);
  }

  lemma {:induction false} RunKeepsInv(registry: map<Kind, Spec>, s: State, events: seq<Event>)
    requires Inv(registry, s)
    ensures Inv(registry, Run(registry, s, events))
    decreases events
  {
    if events != [] {
      StepKeepsInv(registry, s, events[0]);
      RunKeepsInv(registry, Step(registry, s, events[0]), events[1..]);
    }
  }

  lemma {:induction false} ElementsCount(s: seq<Token>)
    ensures |Elements(s)| <= |s|
  {
    if s != [] {
      ElementsCount(s[1..]);
      assert Elements(s) <= {s[0]} + Elements(s[1..]) by {
        forall t | t in Elements(s) ensures t in {s[0]} + Elements(s[1..]) {
          var i :| 0 <= i < |s| && s[i] == t;
          if i > 0 { assert s[1..][i - 1] == t; }
        }
      }
      SubsetSize(Elements(s), {s[0]} + Elements(s[1..]));
    }
  }

  /** In every run, a kind's live tokens never exceed its cap. */
  lemma LiveWithinCap(registry: map<Kind, Spec>, s: State, events: seq<Event>, kind: Kind)
    requires Inv(registry, s) && kind in registry
    ensures |Live(Run(registry, s, events).auth, kind)| <= Cap(registry[kind])
  {
    RunKeepsInv(registry, s, events);
    var auth := Run(registry, s, events).auth;
    var queue := QueueOf(auth, kind).tokens;
    assert QueueInv(registry, auth, kind);
    assert Live(auth, kind) <= Elements(queue);
    SubsetSize(Live(auth, kind), Elements(queue));
    ElementsCount(queue);
  }

  /** Issuing touches no other kind and no account session, expiry aside; it evicts the oldest of its own kind. */
  lemma IssueTouchesOnlyItsKind(registry: map<Kind, Spec>, auth: Auth, kind: Kind, observed: nat, expired: set<Token>, t: Token)
    requires AuthInv(registry, auth) && kind in registry
    requires t in auth.tokens && auth.tokens[t] != Some(kind) && t !in expired
    ensures var auth' := Issue(auth, kind, registry[kind], observed, expired).0;
            t in auth'.tokens && auth'.tokens[t] == auth.tokens[t]
  {
    assert QueueInv(registry, auth, kind);
    assert t !in QueueOf(auth, kind).tokens + [auth.nextToken];
  }

  /** Every queue is in the order of issue. */
  ghost predicate QueuesSorted(auth: Auth) {
    forall kind :: QueueSorted(QueueOf(auth, kind).tokens, auth.nextToken)
  }

  ghost predicate QueueSorted(tokens: seq<Token>, next: Token) {
    && (forall i, j :: 0 <= i < j < |tokens| ==> tokens[i] < tokens[j])
    && (forall i :: 0 <= i < |tokens| ==> tokens[i] < next)
  }

  lemma QueuedStaysSorted(queue: seq<Token>, token: Token, cap: nat)
    requires cap >= 1 && QueueSorted(queue, token)
    ensures QueueSorted(Queued(queue, token, cap), token + 1)
    ensures forall gone, kept :: gone in Evicted(queue, token, cap) && kept in Queued(queue, token, cap) ==> gone < kept
  {
    var all, n := queue + [token], Surplus(queue, cap);
    forall gone, kept | gone in Evicted(queue, token, cap) && kept in Queued(queue, token, cap) ensures gone < kept {
      var i :| 0 <= i < n && all[..n][i] == gone;
      var j :| 0 <= j < |all| - n && all[n..][j] == kept;
      assert all[i] == gone && all[n + j] == kept;
    }
  }

  lemma SortedBelow(tokens: seq<Token>, next: Token)
    requires QueueSorted(tokens, next)
    ensures QueueSorted(tokens, next + 1)
  {
  }

  lemma IssueKeepsSorted(auth: Auth, kind: Kind, spec: Spec, observed: nat, expired: set<Token>)
    requires QueuesSorted(auth)
    ensures QueuesSorted(Issue(auth, kind, spec, observed, expired).0)
  {
    var auth' := Issue(auth, kind, spec, observed, expired).0;
    assert QueueSorted(QueueOf(auth, kind).tokens, auth.nextToken);
    QueuedStaysSorted(QueueOf(auth, kind).tokens, auth.nextToken, Cap(spec));
    IssuedToken(auth, kind, spec, expired, 0);
    if observed == Generation(auth, kind) {
      hide Queued, Evicted, Issue, QueueOf, Generation, Cap;
      forall k ensures QueueSorted(QueueOf(auth', k).tokens, auth'.nextToken) {
        assert QueueSorted(QueueOf(auth, k).tokens, auth.nextToken);
        IssuedQueue(auth, kind, spec, expired, k);
        SortedBelow(QueueOf(auth, k).tokens, auth.nextToken);
      }
    } else {
      forall k ensures QueueSorted(QueueOf(auth', k).tokens, auth'.nextToken) {
        assert QueueOf(auth', k) == QueueOf(auth, k) && QueueSorted(QueueOf(auth, k).tokens, auth.nextToken);
      }
    }
  }

  lemma StepKeepsSorted(registry: map<Kind, Spec>, s: State, e: Event)
    requires QueuesSorted(s.auth)
    ensures QueuesSorted(Step(registry, s, e).auth)
  {
    var auth' := Step(registry, s, e).auth;
    match e {
      case Insert(i, expired) =>
        if i in s.issuers && s.issuers[i].Judged? && s.issuers[i].kind in registry {
          IssueKeepsSorted(s.auth, s.issuers[i].kind, registry[s.issuers[i].kind], s.issuers[i].generation, expired);
        }
      case _ =>
        hide Issue;
        forall k ensures QueueSorted(QueueOf(auth', k).tokens, auth'.nextToken) {
          assert QueueSorted(QueueOf(s.auth, k).tokens, s.auth.nextToken);
        }
    }
  }

  lemma {:induction false} RunKeepsSorted(registry: map<Kind, Spec>, s: State, events: seq<Event>)
    requires QueuesSorted(s.auth)
    ensures QueuesSorted(Run(registry, s, events).auth)
    decreases events
  {
    hide Step, QueuesSorted;
    if events != [] {
      StepKeepsSorted(registry, s, events[0]);
      RunKeepsSorted(registry, Step(registry, s, events[0]), events[1..]);
    }
  }

  /** An issuance at the current generation yields a live token, and every token it evicts is older than every one it keeps. */
  lemma IssueEvictsTheOldest(registry: map<Kind, Spec>, auth: Auth, kind: Kind, expired: set<Token>, gone: Token, kept: Token)
    requires AuthInv(registry, auth) && QueuesSorted(auth) && kind in registry
    ensures var (auth', token) := Issue(auth, kind, registry[kind], Generation(auth, kind), expired);
            && token.Some? && token.value !in auth.tokens && token.value in Live(auth', kind)
            && (gone in Live(auth, kind) && gone !in expired && gone !in auth'.tokens && kept in Live(auth', kind) ==>
                  gone < kept)
  {
    var queue, cap := QueueOf(auth, kind).tokens, Cap(registry[kind]);
    assert QueueSorted(queue, auth.nextToken);
    QueuedStaysSorted(queue, auth.nextToken, cap);
    QueueSplits(queue, auth.nextToken, cap, auth.nextToken);
    QueueSplits(queue, auth.nextToken, cap, kept);
    QueueSplits(queue, auth.nextToken, cap, gone);
    IssuedToken(auth, kind, registry[kind], expired, auth.nextToken);
    IssuedToken(auth, kind, registry[kind], expired, kept);
    IssuedToken(auth, kind, registry[kind], expired, gone);
    assert QueueInv(registry, auth, kind);
    hide Queued, Evicted, Issue, QueueSorted, QueuesSorted, QueueInv, Cap;
  }

  // ---- revocation ------------------------------------------------------------

  /** Closed, empty, and with no parked issuer that could still insert. */
  ghost predicate Sealed(s: State, kind: Kind) {
    && kind !in s.open
    && Live(s.auth, kind) == {}
    && forall i :: i in s.issuers && s.issuers[i].Judged? && s.issuers[i].kind == kind ==>
                     s.issuers[i].generation < Generation(s.auth, kind)
  }

  lemma RevokeSeals(registry: map<Kind, Spec>, s: State, kind: Kind)
    requires Inv(registry, s) && kind !in s.open
    ensures Sealed(Step(registry, s, RevokeKind(kind)), kind)
  {
  }

  lemma StepKeepsSealed(registry: map<Kind, Spec>, s: State, e: Event, kind: Kind)
    requires Sealed(s, kind) && e != PersistOpen(kind)
    ensures Sealed(Step(registry, s, e), kind)
  {
    var s' := Step(registry, s, e);
    assert Generation(s'.auth, kind) >= Generation(s.auth, kind);
    assert Live(s'.auth, kind) <= Live(s.auth, kind);
  }

  lemma {:induction false} RunKeepsSealed(registry: map<Kind, Spec>, s: State, events: seq<Event>, kind: Kind)
    requires Sealed(s, kind) && PersistOpen(kind) !in events
    ensures Sealed(Run(registry, s, events), kind)
    decreases events
  {
    if events != [] {
      StepKeepsSealed(registry, s, events[0], kind);
      RunKeepsSealed(registry, Step(registry, s, events[0]), events[1..], kind);
    }
  }

  /**
    Persist the closed condition, then revoke: from there on, and until the
    condition is persisted open again, no token of the kind is live - whatever
    any number of issuers had already observed or been granted.
   */
  lemma ClosedThenRevokedStaysEmpty(registry: map<Kind, Spec>, s: State, between: seq<Event>, after: seq<Event>, kind: Kind)
    requires Inv(registry, s)
    requires PersistOpen(kind) !in between && PersistOpen(kind) !in after
    ensures var closed := Run(registry, Step(registry, s, PersistClosed(kind)), between);
            var revoked := Step(registry, closed, RevokeKind(kind));
            Live(Run(registry, revoked, after).auth, kind) == {}
  {
    var s' := Step(registry, s, PersistClosed(kind));
    StepKeepsInv(registry, s, PersistClosed(kind));
    RunKeepsInv(registry, s', between);
    RunKeepsClosed(registry, s', between, kind);
    var closed := Run(registry, s', between);
    RevokeSeals(registry, closed, kind);
    RunKeepsSealed(registry, Step(registry, closed, RevokeKind(kind)), after, kind);
  }

  lemma {:induction false} RunKeepsClosed(registry: map<Kind, Spec>, s: State, events: seq<Event>, kind: Kind)
    requires kind !in s.open && PersistOpen(kind) !in events
    ensures kind !in Run(registry, s, events).open
    decreases events
  {
    if events != [] { RunKeepsClosed(registry, Step(registry, s, events[0]), events[1..], kind); }
  }

  /** In the reverse order a request judged between the two leaves a live token behind a closed condition. */
  lemma RevokedThenClosedLeavesAToken(kind: Kind)
    ensures var registry := map[kind := Spec(256, false)];
            var s := State(Auth(map[], map[], 0), {kind}, map[]);
            var end := Run(registry, s, [RevokeKind(kind), Observe(0, kind), Judge(0, false, false),
                                         PersistClosed(kind), Insert(0, {})]);
            kind !in end.open && Live(end.auth, kind) == {0}
  {
    var registry := map[kind := Spec(256, false)];
    var s := State(Auth(map[], map[], 0), {kind}, map[]);
    var e1, e2, e3, e4, e5 := RevokeKind(kind), Observe(0, kind), Judge(0, false, false), PersistClosed(kind), Insert(0, {});
    var judged := State(Auth(map[], map[kind := GrantQueue(1, [])], 0), {}, map[0 := Issuer.Judged(kind, 1)]);
    ParkedByFour(kind);
    RunOne(registry, s, e1, [e2, e3, e4, e5]);
    RunOne(registry, Step(registry, s, e1), e2, [e3, e4, e5]);
    RunOne(registry, Step(registry, Step(registry, s, e1), e2), e3, [e4, e5]);
    RunOne(registry, Step(registry, Step(registry, Step(registry, s, e1), e2), e3), e4, [e5]);
    RunOne(registry, judged, e5, []);
    hide Step;
    assert [e1] + [e2, e3, e4, e5] == [e1, e2, e3, e4, e5] && [e2] + [e3, e4, e5] == [e2, e3, e4, e5];
    assert [e3] + [e4, e5] == [e3, e4, e5] && [e4] + [e5] == [e4, e5] && [e5] + [] == [e5];
    assert Run(registry, Step(registry, judged, e5), []) == Step(registry, judged, e5);
    InsertIntoClosed(kind);
  }

  lemma RunOne(registry: map<Kind, Spec>, s: State, e: Event, rest: seq<Event>)
    ensures Run(registry, s, [e] + rest) == Run(registry, Step(registry, s, e), rest)
  {
    assert ([e] + rest)[1..] == rest;
  }

  /** Revoked, observed, judged while open, closed: the issuer is parked with the current generation. */
  lemma ParkedByFour(kind: Kind)
    ensures var registry := map[kind := Spec(256, false)];
            var s := State(Auth(map[], map[], 0), {kind}, map[]);
            var observed := Step(registry, Step(registry, s, RevokeKind(kind)), Observe(0, kind));
            Step(registry, Step(registry, observed, Judge(0, false, false)), PersistClosed(kind))
            == State(Auth(map[], map[kind := GrantQueue(1, [])], 0), {}, map[0 := Issuer.Judged(kind, 1)])
  {
    var registry := map[kind := Spec(256, false)];
    var s := State(Auth(map[], map[], 0), {kind}, map[]);
    var s1 := Step(registry, s, RevokeKind(kind));
    assert s1 == State(Auth(map[], map[kind := GrantQueue(1, [])], 0), {kind}, map[]);
    var s2 := Step(registry, s1, Observe(0, kind));
    assert s2 == s1.(issuers := map[0 := Issuer.Observed(kind, 1)]);
    var s3 := Step(registry, s2, Judge(0, false, false));
    assert s3 == s1.(issuers := map[0 := Issuer.Judged(kind, 1)]);
    hide Revoke;
  }

  lemma InsertIntoClosed(kind: Kind)
    ensures var s := Step(map[kind := Spec(256, false)],
                          State(Auth(map[], map[kind := GrantQueue(1, [])], 0), {}, map[0 := Issuer.Judged(kind, 1)]),
                          Insert(0, {}));
            kind !in s.open && Live(s.auth, kind) == {0}
  {
    var auth := Auth(map[], map[kind := GrantQueue(1, [])], 0);
    assert Evicted([], 0, 256) == {};
    assert Issue(auth, kind, Spec(256, false), 1, {}).0.tokens == map[0 := Some(kind)];
  }

  // ---- the shared state and the registry --------------------------------------

  /** The part of `AuthState` the grants use. */
  class AuthState {
    var auth: Auth

    method IssueGrantToken(kind: Kind, spec: Spec, observed: nat, expired: set<Token>) returns (token: Option<Token>)
      modifies this
      ensures (auth, token) == Issue(old(auth), kind, spec, observed, expired)
    {
      var queue := QueueOf(auth, kind);
      if queue.generation != observed {
        auth := auth.(grants := auth.grants[kind := queue]);
        return None;
      }
      var minted := auth.nextToken;
      var tokens := (auth.tokens - expired)[minted := Some(kind)];
      var all := queue.tokens + [minted];
      ghost var inserted := tokens;
      var evicted := 0;
      while |all| - evicted > Cap(spec)
        invariant 0 <= evicted <= Surplus(queue.tokens, Cap(spec))
        invariant tokens == inserted - Elements(all[..evicted])
      {
        assert all[..evicted + 1] == all[..evicted] + [all[evicted]];
        assert Elements(all[..evicted + 1]) == Elements(all[..evicted]) + {all[evicted]};
        tokens := tokens - {all[evicted]};
        evicted := evicted + 1;
      }
      auth := Auth(tokens, auth.grants[kind := queue.(tokens := all[evicted..])], auth.nextToken + 1);
      token := Some(minted);
    }

    method RevokeGrantTokens(kind: Kind) returns (removed: nat)
      modifies this
      ensures auth == Revoke(old(auth), kind)
      ensures removed == |old(auth).tokens| - |auth.tokens|
    {
      var queue := QueueOf(auth, kind);
      var tokens := auth.tokens;
      var i := 0;
      while i < |queue.tokens|
        invariant 0 <= i <= |queue.tokens|
        invariant tokens == map t | t in auth.tokens && t !in queue.tokens[..i] :: auth.tokens[t]
      {
        assert queue.tokens[..i + 1] == queue.tokens[..i] + [queue.tokens[i]];
        tokens := tokens - {queue.tokens[i]};
        i := i + 1;
      }
      assert queue.tokens[..i] == queue.tokens;
      tokens := map t | t in tokens && tokens[t] != Some(kind) :: tokens[t];
      MapCount(tokens, auth.tokens);
      removed := |auth.tokens| - |tokens|;
      auth := auth.(tokens := tokens, grants := auth.grants[kind := GrantQueue(queue.generation + 1, [])]);
    }
  }

  lemma MapCount(a: map<Token, Option<Kind>>, b: map<Token, Option<Kind>>)
    requires a.Keys <= b.Keys
    ensures |a| <= |b|
  {
    SubsetSize(a.Keys, b.Keys);
  }

  datatype RegisterError = Reserved | AlreadyRegistered | NoSessions

  const RESERVED := {"account", "local"}

  function Registered(specs: map<Kind, Spec>, kind: Kind, spec: Spec): (map<Kind, Spec>, Option<RegisterError>) {
    if kind in RESERVED then (specs, Some(Reserved))
    else if kind in specs then (specs, Some(AlreadyRegistered))
    else if spec.maxSessions == 0 then (specs, Some(NoSessions))
    else (specs[kind := spec], None)
  }

  datatype Registration = Registration(kind: Kind, spec: Spec)

  /** The registry after these calls of `register`, of which any may have been refused. */
  function RegistryOf(calls: seq<Registration>): map<Kind, Spec> {
    if calls == [] then map[]
    else
      var n := |calls| - 1;
      Registered(RegistryOf(calls[..n]), calls[n].kind, calls[n].spec).0
  }

  predicate Acceptable(r: Registration) {
    r.kind !in RESERVED && r.spec.maxSessions > 0
  }

  /** The first call that could register this kind. */
  predicate FirstFor(calls: seq<Registration>, kind: Kind, i: nat)
    requires i < |calls|
  {
    && calls[i].kind == kind && Acceptable(calls[i])
    && forall j :: 0 <= j < i ==> calls[j].kind != kind || !Acceptable(calls[j])
  }

  /**
    Whatever is registered in whatever order: a kind is in the registry if and only
    if some call for it was neither reserved nor without sessions, with what the
    first such call said; so the least cap of one session is never called for.
   */
  lemma {:induction false} FirstRegistrationStands(calls: seq<Registration>, kind: Kind)
    ensures kind in RegistryOf(calls) <==> exists i :: 0 <= i < |calls| && FirstFor(calls, kind, i)
    ensures forall i :: 0 <= i < |calls| && FirstFor(calls, kind, i) ==>
              kind in RegistryOf(calls) && RegistryOf(calls)[kind] == calls[i].spec
    ensures kind in RegistryOf(calls) ==>
              kind !in RESERVED && Cap(RegistryOf(calls)[kind]) == RegistryOf(calls)[kind].maxSessions
  {
    if calls != [] {
      var n := |calls| - 1;
      var earlier := calls[..n];
      FirstRegistrationStands(earlier, kind);
      forall i | 0 <= i < n ensures FirstFor(calls, kind, i) <==> FirstFor(earlier, kind, i) {
        assert forall j :: 0 <= j <= i ==> calls[j] == earlier[j];
      }
      if kind in RegistryOf(earlier) {
        var i :| 0 <= i < n && FirstFor(earlier, kind, i);
        assert FirstFor(calls, kind, i) && !FirstFor(calls, kind, n);
      } else if calls[n].kind == kind && Acceptable(calls[n]) {
        forall i | 0 <= i < n ensures !FirstFor(calls, kind, i) { assert !FirstFor(earlier, kind, i); }
        NoneBefore(calls, kind, n);
        assert RegistryOf(calls)[kind] == calls[n].spec;
      } else {
        assert kind !in RegistryOf(calls);
        forall i | 0 <= i < n ensures !FirstFor(calls, kind, i) { assert !FirstFor(earlier, kind, i); }
      }
    }
  }

  /** If no call is the first, none could register the kind. */
  lemma NoneBefore(calls: seq<Registration>, kind: Kind, n: nat)
    requires n < |calls| && calls[n].kind == kind && Acceptable(calls[n])
    requires forall i :: 0 <= i < n ==> !FirstFor(calls, kind, i)
    ensures FirstFor(calls, kind, n)
  {
    forall j | 0 <= j < n ensures calls[j].kind != kind || !Acceptable(calls[j]) {
      NotAcceptable(calls, kind, j);
    }
  }

  lemma {:induction false} NotAcceptable(calls: seq<Registration>, kind: Kind, n: nat)
    requires n < |calls| && forall i :: 0 <= i <= n ==> !FirstFor(calls, kind, i)
    ensures calls[n].kind != kind || !Acceptable(calls[n])
    decreases n
  {
    forall j | 0 <= j < n ensures calls[j].kind != kind || !Acceptable(calls[j]) {
      NotAcceptable(calls, kind, j);
    }
    assert !FirstFor(calls, kind, n);
  }

  class GrantRegistry {
    var specs: map<Kind, Spec>

    method Register(kind: Kind, spec: Spec) returns (error: Option<RegisterError>)
      modifies this
      ensures (specs, error) == Registered(old(specs), kind, spec)
    {
      if kind in RESERVED { return Some(Reserved); }
      if kind in specs { return Some(AlreadyRegistered); }
      if spec.maxSessions == 0 { return Some(NoSessions); }
      specs := specs[kind := spec];
      error := None;
    }

    /** Status reports a kind available exactly when an issuance judged now would be allowed. */
    method Availability(loopbackPeer: bool, fails: set<Kind>, open: set<Kind>) returns (available: map<Kind, bool>)
      ensures available.Keys == specs.Keys
      ensures forall k :: k in specs ==>
                (available[k] <==> Verdict(specs[k], loopbackPeer, k in fails, k in open) == Allowed)
      ensures forall k :: k in specs ==>
                (available[k] <==> (specs[k].requireLoopbackPeer ==> loopbackPeer) && k !in fails && k in open)
    {
      available := map[];
      var todo := specs.Keys;
      while todo != {}
        invariant todo <= specs.Keys && available.Keys == specs.Keys - todo
        invariant forall k :: k in available ==>
                    (available[k] <==> Verdict(specs[k], loopbackPeer, k in fails, k in open) == Allowed)
        decreases |todo|
      {
        var k :| k in todo;
        available := available[k := Verdict(specs[k], loopbackPeer, k in fails, k in open) == Allowed];
        todo := todo - {k};
      }
    }
  }
}
