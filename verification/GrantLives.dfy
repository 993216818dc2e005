/**
  Who is given a grant token and how long it lives, told from the events of a run
  alone: what was persisted, judged, revoked, issued, logged out and expired.
 */
module GrantLives {
  import opened Text
  import opened Grants

  lemma {:induction false} RunAppend(registry: map<Kind, Spec>, s: State, a: seq<Event>, b: seq<Event>)
    ensures Run(registry, s, a + b) == Run(registry, Run(registry, s, a), b)
    decreases a
  {
    hide Step;
    if a == [] {
      assert a + b == b;
    } else {
      assert (a + b)[1..] == a[1..] + b;
      RunAppend(registry, Step(registry, s, a[0]), a[1..], b);
    }
  }

  /** The state before the last event of a run. */
  lemma LastStep(registry: map<Kind, Spec>, s: State, events: seq<Event>)
    requires events != []
    ensures var n := |events| - 1;
            Run(registry, s, events) == Step(registry, Run(registry, s, events[..n]), events[n])
  {
    var n := |events| - 1;
    hide Step;
    assert events == events[..n] + [events[n]];
    RunAppend(registry, s, events[..n], [events[n]]);
  }

  /** Nobody has a session, nothing was ever issued, and no request is under way. */
  ghost predicate Fresh(s: State) {
    s.auth == Auth(map[], map[], 0) && s.issuers == map[]
  }

  // ---- who is let through -------------------------------------------------------------

  /** A kind's condition after these events: what was persisted last. */
  predicate OpenAfter(open: bool, kind: Kind, events: seq<Event>) {
    if events == [] then open
    else
      var n := |events| - 1;
      match events[n]
      case PersistOpen(k) => k == kind || OpenAfter(open, kind, events[..n])
      case PersistClosed(k) => k != kind && OpenAfter(open, kind, events[..n])
      case _ => OpenAfter(open, kind, events[..n])
  }

  /** How far a request has come, and whether its kind was revoked since it began. */
  datatype Progress = NotThere | Reading(kind: Kind, revoked: bool) | Passed(kind: Kind, revoked: bool)

  /** The rules a request goes by: the peer, the condition, and no revocation; `open` says which conditions hold. */
  function Noted(registry: map<Kind, Spec>, open: Kind -> bool, e: Event, i: nat, p: Progress): Progress {
    match e
    case Observe(j, kind) => if j == i && p.NotThere? && kind in registry then Reading(kind, false) else p
    case Judge(j, loopback, fails) =>
      if j != i || !p.Reading? then p
      else if p.kind in registry && (registry[p.kind].requireLoopbackPeer ==> loopback) && !fails && open(p.kind)
      then Passed(p.kind, p.revoked)
      else NotThere
    case Insert(j, _) => if j == i && p.Passed? then NotThere else p
    case RevokeKind(kind) => if p.NotThere? then p else p.(revoked := p.revoked || p.kind == kind)
    case _ => p
  }

  function ProgressOf(registry: map<Kind, Spec>, open: set<Kind>, events: seq<Event>, i: nat): Progress {
    if events == [] then NotThere
    else
      var n := |events| - 1;
      Noted(registry, k => OpenAfter(k in open, k, events[..n]), events[n], i, ProgressOf(registry, open, events[..n], i))
  }

  /** The request is where its progress says, and holds the current generation exactly if nothing revoked its kind. */
  ghost predicate Tells(registry: map<Kind, Spec>, s: State, i: nat, p: Progress) {
    if p.NotThere? then i !in s.issuers
    else
      && p.kind in registry && i in s.issuers && s.issuers[i].kind == p.kind
      && (p.Reading? <==> s.issuers[i].Observed?)
      && s.issuers[i].generation <= Generation(s.auth, p.kind)
      && (p.revoked <==> s.issuers[i].generation != Generation(s.auth, p.kind))
  }

  lemma StepTells(registry: map<Kind, Spec>, s: State, e: Event, i: nat, p: Progress)
    requires Tells(registry, s, i, p)
    ensures Tells(registry, Step(registry, s, e), i, Noted(registry, k => k in s.open, e, i, p))
  {
    hide Queued, Evicted;
  }

  lemma {:induction false} RunOpen(registry: map<Kind, Spec>, s: State, events: seq<Event>, kind: Kind)
    ensures kind in Run(registry, s, events).open <==> OpenAfter(kind in s.open, kind, events)
    decreases |events|
  {
    if events != [] {
      LastStep(registry, s, events);
      RunOpen(registry, s, events[..|events| - 1], kind);
      hide Run, Issue, Revoke, Verdict;
    }
  }

  lemma SameNoted(registry: map<Kind, Spec>, a: Kind -> bool, b: Kind -> bool, e: Event, i: nat, p: Progress)
    requires forall k :: a(k) <==> b(k)
    ensures Noted(registry, a, e, i, p) == Noted(registry, b, e, i, p)
  {
  }

  lemma {:induction false} RunTells(registry: map<Kind, Spec>, s: State, events: seq<Event>, i: nat)
    requires s.issuers == map[]
    ensures Tells(registry, Run(registry, s, events), i, ProgressOf(registry, s.open, events, i))
    decreases |events|
  {
    if events != [] {
      var n := |events| - 1;
      var before, p := Run(registry, s, events[..n]), ProgressOf(registry, s.open, events[..n], i);
      RunTells(registry, s, events[..n], i);
      StepTells(registry, before, events[n], i, p);
      forall k ensures k in before.open <==> OpenAfter(k in s.open, k, events[..n]) { RunOpen(registry, s, events[..n], k); }
      SameNoted(registry, k => k in before.open, k => OpenAfter(k in s.open, k, events[..n]), events[n], i, p);
      LastStep(registry, s, events);
      hide Run, Step, Tells, Noted, OpenAfter;
    }
  }

  /** The kind an event mints a token of: that of a request let through whose kind was not revoked since it began. */
  function MintedKind(registry: map<Kind, Spec>, open: set<Kind>, events: seq<Event>, e: Event): Option<Kind> {
    if !e.Insert? then None
    else match ProgressOf(registry, open, events, e.issuer)
      case Passed(kind, revoked) => if revoked then None else Some(kind)
      case _ => None
  }

  /**
    In every run: a request is let through to its insertion if and only if it was
    judged, with its kind's condition open at that moment and not failing, from a
    loopback peer or for a kind that does not ask for one; and its insertion mints a
    token, of that kind, if and only if also the kind was not revoked since the
    request began. Nothing else but a login hands out a token.
   */
  lemma MintedIff(registry: map<Kind, Spec>, s: State, events: seq<Event>, e: Event)
    requires Fresh(s)
    ensures var before := Run(registry, s, events);
            var after, minted := Step(registry, before, e), MintedKind(registry, s.open, events, e);
            var t := before.auth.nextToken;
            && (forall i :: i in before.issuers && before.issuers[i].Judged? <==> ProgressOf(registry, s.open, events, i).Passed?)
            && t !in before.auth.tokens
            && (t in after.auth.tokens <==> minted.Some? || e.Login?)
            && (t in after.auth.tokens ==> after.auth.tokens[t] == minted)
            && after.auth.nextToken == t + (if minted.Some? || e.Login? then 1 else 0)
  {
    var before := Run(registry, s, events);
    FreshInv(registry, s);
    RunKeepsInv(registry, s, events);
    RunKeepsSorted(registry, s, events);
    forall i ensures i in before.issuers && before.issuers[i].Judged? <==> ProgressOf(registry, s.open, events, i).Passed? {
      RunTells(registry, s, events, i);
    }
    MintedIsTold(registry, s, events, e);
    StepMints(registry, before, e);
    hide Run, Step, ProgressOf, Inv, QueuesSorted;
  }

  lemma FreshInv(registry: map<Kind, Spec>, s: State)
    requires Fresh(s)
    ensures Inv(registry, s) && QueuesSorted(s.auth)
  {
  }

  /** What an event mints, by the state. */
  function MintedNow(registry: map<Kind, Spec>, s: State, e: Event): Option<Kind> {
    if e.Insert? && e.issuer in s.issuers && s.issuers[e.issuer].Judged? && s.issuers[e.issuer].kind in registry
       && s.issuers[e.issuer].generation == Generation(s.auth, s.issuers[e.issuer].kind)
    then Some(s.issuers[e.issuer].kind)
    else None
  }

  lemma MintedIsTold(registry: map<Kind, Spec>, s: State, events: seq<Event>, e: Event)
    requires s.issuers == map[]
    ensures MintedKind(registry, s.open, events, e) == MintedNow(registry, Run(registry, s, events), e)
  {
    if e.Insert? { RunTells(registry, s, events, e.issuer); }
    hide Run, ProgressOf;
  }

  lemma StepMints(registry: map<Kind, Spec>, s: State, e: Event)
    requires Inv(registry, s) && QueuesSorted(s.auth)
    ensures var s', minted := Step(registry, s, e), MintedNow(registry, s, e);
            var t := s.auth.nextToken;
            && t !in s.auth.tokens
            && (t in s'.auth.tokens <==> minted.Some? || e.Login?)
            && (t in s'.auth.tokens ==> s'.auth.tokens[t] == minted)
            && s'.auth.nextToken == t + (if minted.Some? || e.Login? then 1 else 0)
  {
    var minted := MintedNow(registry, s, e);
    if minted.Some? {
      IssueEvictsTheOldest(registry, s.auth, minted.value, e.expired, 0, s.auth.nextToken);
      IssuedToken(s.auth, minted.value, registry[minted.value], e.expired, s.auth.nextToken);
    }
    hide Queued, Evicted, QueuesSorted, QueueInv;
  }

  // ---- how long a token lives ------------------------------------------------------------

  /** A token's life: an account session, or a grant of a kind with so many of that kind minted after it. */
  datatype Life = Unborn | Session(ended: bool) | Grant(kind: Kind, later: nat, ended: bool)

  function Ended(life: Life, now: bool): Life {
    if life.Unborn? || !now then life else life.(ended := true)
  }

  /** What an event does to token `t`; `next` is the token it would give out, `minted` the kind it mints one of. */
  function Lived(e: Event, minted: Option<Kind>, next: Token, t: Token, life: Life): Life {
    match e
    case Login => if next == t then Session(false) else life
    case Insert(_, expired) =>
      if minted.None? then life
      else if next == t then Grant(minted.value, 0, false)
      else
        var swept := Ended(life, t in expired);
        if swept.Grant? && swept.kind == minted.value then swept.(later := swept.later + 1) else swept
    case RevokeKind(kind) => Ended(life, life.Grant? && life.kind == kind)
    case Logout(x) => Ended(life, x == t)
    case Expire(expired) => Ended(life, t in expired)
    case _ => life
  }

  function LifeOf(registry: map<Kind, Spec>, s: State, events: seq<Event>, t: Token): Life {
    if events == [] then Unborn
    else
      var n := |events| - 1;
      Lived(events[n], MintedKind(registry, s.open, events[..n], events[n]),
            Run(registry, s, events[..n]).auth.nextToken, t, LifeOf(registry, s, events[..n], t))
  }

  /** Not ended, and a grant has fewer than its kind's cap of newer ones. */
  predicate Alive(registry: map<Kind, Spec>, life: Life) {
    match life
    case Unborn => false
    case Session(ended) => !ended
    case Grant(kind, later, ended) => !ended && kind in registry && later < Cap(registry[kind])
  }

  /** The token's place in its kind's queue is by how many came later. */
  ghost predicate InPlace(registry: map<Kind, Spec>, auth: Auth, t: Token, life: Life)
    requires life.Grant? && life.kind in registry
  {
    !life.ended && life.later < Cap(registry[life.kind]) ==>
      var queue := QueueOf(auth, life.kind).tokens;
      |queue| > life.later && queue[|queue| - 1 - life.later] == t
  }

  ghost predicate Placed(registry: map<Kind, Spec>, auth: Auth, t: Token, life: Life) {
    && (life.Unborn? <==> auth.nextToken <= t)
    && (t in auth.tokens <==> Alive(registry, life))
    && (t in auth.tokens ==> auth.tokens[t] == if life.Grant? then Some(life.kind) else None)
    && (life.Grant? ==> life.kind in registry)
    && (life.Grant? ==> InPlace(registry, auth, t, life))
  }

  /** The kinds' queues and the new token: where a token of this kind stands after the next one is queued. */
  lemma KeptInQueue(queue: seq<Token>, next: Token, cap: nat, t: Token, later: nat)
    requires cap >= 1 && |queue| <= cap && QueueSorted(queue, next) && t < next
    requires later < |queue| && queue[|queue| - 1 - later] == t
    ensures var queue' := Queued(queue, next, cap);
            if later + 1 < cap
            then |queue'| > later + 1 && queue'[|queue'| - 2 - later] == t && t !in Evicted(queue, next, cap)
            else t in Evicted(queue, next, cap)
  {
    var all, n := queue + [next], Surplus(queue, cap);
    assert all[|queue| - 1 - later] == t;
    ElementsOf(all[..n], t);
    if later + 1 >= cap { assert all[..n][|queue| - 1 - later] == t; }
  }

  lemma EvictedAreOfTheKind(registry: map<Kind, Spec>, auth: Auth, kind: Kind, t: Token)
    requires AuthInv(registry, auth) && kind in registry && t in auth.tokens && t < auth.nextToken
    requires t in Evicted(QueueOf(auth, kind).tokens, auth.nextToken, Cap(registry[kind]))
    ensures auth.tokens[t] == Some(kind)
  {
    var queue := QueueOf(auth, kind).tokens;
    assert QueueInv(registry, auth, kind);
    ElementsOf((queue + [auth.nextToken])[..Surplus(queue, Cap(registry[kind]))], t);
  }

  lemma IssueKeepsInPlace(registry: map<Kind, Spec>, auth: Auth, kind: Kind, expired: set<Token>, t: Token, life: Life)
    requires AuthInv(registry, auth) && QueuesSorted(auth) && kind in registry && t < auth.nextToken
    requires life.Grant? && life.kind in registry && InPlace(registry, auth, t, life)
    ensures InPlace(registry, Issue(auth, kind, registry[kind], Generation(auth, kind), expired).0, t,
                    if life.kind == kind then life.(later := life.later + 1) else life)
    ensures life.kind == kind && !life.ended && life.later < Cap(registry[kind]) ==>
              (t in Evicted(QueueOf(auth, kind).tokens, auth.nextToken, Cap(registry[kind])) <==> life.later + 1 >= Cap(registry[kind]))
  {
    var queue, cap := QueueOf(auth, kind).tokens, Cap(registry[kind]);
    IssuedQueue(auth, kind, registry[kind], expired, life.kind);
    if life.kind == kind && !life.ended && life.later < cap {
      assert QueueInv(registry, auth, kind) && QueueSorted(queue, auth.nextToken);
      KeptInQueue(queue, auth.nextToken, cap, t, life.later);
    }
    hide Queued, Evicted, Issue, QueueInv, QueueSorted, QueuesSorted, AuthInv;
  }

  lemma IssuePlaces(registry: map<Kind, Spec>, auth: Auth, kind: Kind, expired: set<Token>, t: Token, life: Life)
    requires AuthInv(registry, auth) && QueuesSorted(auth) && kind in registry && Placed(registry, auth, t, life)
    requires t < auth.nextToken
    ensures Placed(registry, Issue(auth, kind, registry[kind], Generation(auth, kind), expired).0, t,
                   Lived(Insert(0, expired), Some(kind), auth.nextToken, t, life))
  {
    IssuedToken(auth, kind, registry[kind], expired, t);
    if t in auth.tokens && t in Evicted(QueueOf(auth, kind).tokens, auth.nextToken, Cap(registry[kind])) {
      EvictedAreOfTheKind(registry, auth, kind, t);
    }
    var auth' := Issue(auth, kind, registry[kind], Generation(auth, kind), expired).0;
    var life' := Lived(Insert(0, expired), Some(kind), auth.nextToken, t, life);
    hide Queued, Evicted, Issue, AuthInv, QueuesSorted, QueueOf, Generation, Cap;
    if life.Grant? {
      IssueKeepsInPlace(registry, auth, kind, expired, t, life);
      assert life' == Grant(life.kind, if life.kind == kind then life.later + 1 else life.later, life.ended || t in expired);
      assert InPlace(registry, auth', t, life');
    } else {
      assert life' == Ended(life, t in expired);
    }
    hide InPlace;
  }

  lemma StepPlaces(registry: map<Kind, Spec>, s: State, e: Event, t: Token, life: Life)
    requires Inv(registry, s) && QueuesSorted(s.auth) && Placed(registry, s.auth, t, life)
    ensures Placed(registry, Step(registry, s, e).auth, t, Lived(e, MintedNow(registry, s, e), s.auth.nextToken, t, life))
  {
    var minted := MintedNow(registry, s, e);
    if minted.Some? {
      if t < s.auth.nextToken {
        IssuePlaces(registry, s.auth, minted.value, e.expired, t, life);
      } else {
        NewlyPlaced(registry, s.auth, minted.value, e.expired, t);
      }
    } else if e.RevokeKind? {
      RevokePlaces(registry, s.auth, e.kind, t, life);
    } else {
      hide Issue, Revoke;
      OthersPlace(registry, s, e, t, life);
    }
    hide Placed, Issue, Revoke, Inv, QueuesSorted;
  }

  lemma NewlyPlaced(registry: map<Kind, Spec>, auth: Auth, kind: Kind, expired: set<Token>, t: Token)
    requires AuthInv(registry, auth) && QueuesSorted(auth) && kind in registry && auth.nextToken <= t
    ensures Placed(registry, Issue(auth, kind, registry[kind], Generation(auth, kind), expired).0, t,
                   if t == auth.nextToken then Grant(kind, 0, false) else Unborn)
  {
    IssueEvictsTheOldest(registry, auth, kind, expired, 0, auth.nextToken);
    IssuedToken(auth, kind, registry[kind], expired, t);
    IssuedQueue(auth, kind, registry[kind], expired, kind);
    var queue, cap := QueueOf(auth, kind).tokens, Cap(registry[kind]);
    var all := queue + [auth.nextToken];
    assert Queued(queue, auth.nextToken, cap)[|Queued(queue, auth.nextToken, cap)| - 1] == all[|all| - 1];
    hide Queued, Evicted, Issue, QueuesSorted, QueueInv;
  }

  lemma RevokePlaces(registry: map<Kind, Spec>, auth: Auth, kind: Kind, t: Token, life: Life)
    requires AuthInv(registry, auth) && Placed(registry, auth, t, life)
    ensures Placed(registry, Revoke(auth, kind), t, Ended(life, life.Grant? && life.kind == kind))
  {
    assert QueueInv(registry, auth, kind);
  }

  lemma OthersPlace(registry: map<Kind, Spec>, s: State, e: Event, t: Token, life: Life)
    requires Placed(registry, s.auth, t, life) && MintedNow(registry, s, e).None? && !e.RevokeKind?
    ensures Placed(registry, Step(registry, s, e).auth, t, Lived(e, None, s.auth.nextToken, t, life))
  {
  }

  lemma {:induction false} RunPlaces(registry: map<Kind, Spec>, s: State, events: seq<Event>, t: Token)
    requires Fresh(s)
    ensures Placed(registry, Run(registry, s, events).auth, t, LifeOf(registry, s, events, t))
    decreases |events|
  {
    if events != [] {
      var n := |events| - 1;
      RunPlaces(registry, s, events[..n], t);
      FreshInv(registry, s);
      RunKeepsInv(registry, s, events[..n]);
      RunKeepsSorted(registry, s, events[..n]);
      StepPlaces(registry, Run(registry, s, events[..n]), events[n], t, LifeOf(registry, s, events[..n], t));
      MintedIsTold(registry, s, events[..n], events[n]);
      LastStep(registry, s, events);
      hide Run, Step, Placed, Lived, MintedKind, MintedNow, Inv, QueuesSorted;
    }
  }

  /**
    In every run: a session is live if and only if its token was handed out and has
    not been logged out or expired since, and - if a grant's - its kind has not been
    revoked since and fewer of that kind than its cap were minted after it. Account
    sessions and other kinds make no difference.
   */
  lemma LiveIff(registry: map<Kind, Spec>, s: State, events: seq<Event>, t: Token)
    requires Fresh(s)
    ensures var tokens, life := Run(registry, s, events).auth.tokens, LifeOf(registry, s, events, t);
            && (t in tokens <==> Alive(registry, life))
            && (t in tokens ==> tokens[t] == if life.Grant? then Some(life.kind) else None)
  {
    RunPlaces(registry, s, events, t);
    hide Run, LifeOf, Alive;
  }
}
