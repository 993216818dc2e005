/**
  The browser's event stream client (`events.ts`, `createSseEventProvider`):
  one subscription, its timer, its one connection attempt, and the token it
  reads from storage, which others may change at any time.
 */
module SseClient {
  import opened Text

  const RECONNECT_DELAY_MS: nat := 3000
  const TOKEN_WAIT_DELAY_MS: nat := 500

  type Token = nat

  /** What the stream carries: an application event, or text that is none. */
  datatype Payload = AppEvent(event: string) | Malformed

  /** A running `connectOnce`: waiting for the response, for a chunk of the stream, or working through one. */
  datatype Attempt = Fetching(token: Token) | Reading(token: Token) | Dispatching(token: Token, todo: seq<Payload>)

  /** What happened, in order: what the client saw, sent and reported. */
  datatype Happened =
    | Observed(stored: Option<Token>)
    | Sent(token: Token)
    | Answered401(token: Token)
    | Succeeded(token: Token)
    | ToldUnauthorized(token: Token)
    | ToldCleared(token: Token)
    | ToldReconnected(token: Token)
    | Handled(event: string)
    | Lost(token: Token)
    | Unsubscribed

  datatype Client = Client(
    stored: Option<Token>, stopped: bool, timer: Option<nat>, attempt: Option<Attempt>,
    rejected: Option<Token>, used: Option<Token>, hasConnected: bool, history: seq<Happened>)

  /** The response of the fetch; `Failed` is any other status, a missing body, a network error or an abort. */
  datatype Response = Unauthorized | Failed | Connected

  datatype Event =
    | Store(token: Option<Token>)
    | TimerFires
    | Respond(response: Response)
    | ReadChunk(payloads: seq<Payload>)
    | Dispatch
    | NextRead
    | StreamEnds
    | Unsubscribe

  function Scheduled(c: Client, delay: nat): Client {
    if c.stopped then c else c.(timer := Some(delay))
  }

  /** The state after `connectOnce` up to its fetch. */
  function Connecting(c: Client): Client {
    var seen := c.(history := c.history + [Observed(c.stored)]);
    var cleared :=
      if c.stored.None? && c.used.Some? then
        seen.(used := None, hasConnected := false,
              history := if c.stopped then seen.history else seen.history + [ToldCleared(c.used.value)])
      else seen;
    if c.stored.None? || c.stored == c.rejected then Scheduled(cleared, TOKEN_WAIT_DELAY_MS)
    else
      cleared.(hasConnected := cleared.hasConnected && (cleared.used.None? || cleared.used == c.stored),
               used := c.stored,
               attempt := Some(Fetching(c.stored.value)),
               history := cleared.history + [Sent(c.stored.value)])
  }

  /** The state after `connectOnce` has its response. */
  function Responded(c: Client, r: Response): Client
    requires c.attempt.Some?
  {
    var token := c.attempt.value.token;
    match r
    case Unauthorized =>
      Scheduled(
        c.(attempt := None, rejected := Some(token), used := None, hasConnected := false,
           history := c.history + [Answered401(token)] + (if c.stopped then [] else [ToldUnauthorized(token)])),
        TOKEN_WAIT_DELAY_MS)
    case Failed => Scheduled(c.(attempt := None, history := c.history + [Lost(token)]), RECONNECT_DELAY_MS)
    case Connected =>
      c.(attempt := if c.stopped then None else Some(Reading(token)), hasConnected := true,
         history := c.history + [Succeeded(token)]
                    + (if c.hasConnected && !c.stopped && c.stored == Some(token) then [ToldReconnected(token)] else []))
  }

  /** The events the handler is given, in order. */
  function EventsOf(payloads: seq<Payload>): seq<Happened> {
    if payloads == [] then []
    else (if payloads[0].AppEvent? then [Handled(payloads[0].event)] else []) + EventsOf(payloads[1..])
  }

  function Step(c: Client, e: Event): Client {
    match e
    case Store(token) => c.(stored := token)
    case TimerFires => if c.timer.Some? && !c.stopped then Connecting(c.(timer := None)) else c
    case Respond(r) => if c.attempt.Some? && c.attempt.value.Fetching? then Responded(c, r) else c
    case ReadChunk(payloads) =>
      if c.attempt.Some? && c.attempt.value.Reading? then c.(attempt := Some(Dispatching(c.attempt.value.token, payloads))) else c
    case Dispatch =>
      if c.attempt.Some? && c.attempt.value.Dispatching? && c.attempt.value.todo != [] then
        var todo := c.attempt.value.todo;
        c.(attempt := Some(Dispatching(c.attempt.value.token, todo[1..])),
           history := c.history + (if todo[0].AppEvent? then [Handled(todo[0].event)] else []))
      else c
    case NextRead =>
      if c.attempt.Some? && c.attempt.value.Dispatching? && c.attempt.value.todo == [] then
        c.(attempt := if c.stopped then None else Some(Reading(c.attempt.value.token)))
      else c
    case StreamEnds =>
      if c.attempt.Some? && c.attempt.value.Reading?
      then Scheduled(c.(attempt := None, history := c.history + [Lost(c.attempt.value.token)]), RECONNECT_DELAY_MS)
      else c
    case Unsubscribe =>
      c.(stopped := true, timer := None, history := if c.stopped then c.history else c.history + [Unsubscribed])
  }

  /** `subscribe` connects at once. */
  function Subscribe(stored: Option<Token>): Client {
    Connecting(Client(stored, false, None, None, None, None, false, []))
  }

  function Run(c: Client, events: seq<Event>): Client
    decreases events
  {
    if events == [] then c else Run(Step(c, events[0]), events[1..])
  }

  // ---- reading the history ------------------------------------------------------------

  /** The last token answered with 401. */
  function LastRejected(h: seq<Happened>): Option<Token> {
    if h == [] then None
    else match h[|h| - 1]
      case Answered401(t) => Some(t)
      case _ => LastRejected(h[..|h| - 1])
  }

  /** The last attempt with `t` has not ended in a 401. */
  predicate LastAttemptNot401(h: seq<Happened>, t: Token) {
    h != [] &&
    var last := h[|h| - 1];
    if last == Answered401(t) then false
    else last == Sent(t) || LastAttemptNot401(h[..|h| - 1], t)
  }

  /** What ends the session a stream of `t` belonged to: a 401, storage seen empty, an attempt with another token. */
  predicate Breaks(x: Happened, t: Token) {
    x.Answered401? || x == Observed(None) || (x.Sent? && x.token != t)
  }

  /** A stream of `t` was established, and its session has not been seen to end since. */
  ghost predicate SessionGoesOn(h: seq<Happened>, t: Token) {
    exists j :: 0 <= j < |h| && h[j] == Succeeded(t) && forall k :: j < k < |h| ==> !Breaks(h[k], t)
  }

  lemma GoesOnAfter(h: seq<Happened>, x: Happened, t: Token)
    ensures SessionGoesOn(h + [x], t) <==> x == Succeeded(t) || (SessionGoesOn(h, t) && !Breaks(x, t))
  {
    var h' := h + [x];
    if x == Succeeded(t) {
      assert h'[|h|] == Succeeded(t);
    }
    if SessionGoesOn(h, t) && !Breaks(x, t) {
      var j :| 0 <= j < |h| && h[j] == Succeeded(t) && forall k :: j < k < |h| ==> !Breaks(h[k], t);
      assert h'[j] == Succeeded(t);
    }
    if SessionGoesOn(h', t) && x != Succeeded(t) {
      var j :| 0 <= j < |h'| && h'[j] == Succeeded(t) && forall k :: j < k < |h'| ==> !Breaks(h'[k], t);
      assert h[j] == Succeeded(t) && !Breaks(h'[|h|], t);
      assert forall k :: j < k < |h| ==> h'[k] == h[k];
    }
  }

  /** No request after `h[..k]` used the token last rejected by then. */
  ghost predicate NeverSendsRejected(h: seq<Happened>) {
    forall k :: 0 <= k < |h| && h[k].Sent? ==> LastRejected(h[..k]) != Some(h[k].token)
  }

  ghost predicate ClearedNever401(h: seq<Happened>) {
    forall k :: 0 <= k < |h| && h[k].ToldCleared? ==> LastAttemptNot401(h[..k], h[k].token)
  }

  ghost predicate Inv(c: Client) {
    && !(c.timer.Some? && c.attempt.Some?)
    && (!c.stopped ==> c.timer.Some? || c.attempt.Some?)
    && (c.stopped ==> c.timer.None?)
    && (c.attempt.Some? ==> c.used == Some(c.attempt.value.token))
    && (c.hasConnected ==> c.used.Some?)
    && c.rejected == LastRejected(c.history)
    && (c.used.Some? ==> LastAttemptNot401(c.history, c.used.value))
    && (forall t: Token :: SessionGoesOn(c.history, t) <==> c.used == Some(t) && c.hasConnected)
    && NeverSendsRejected(c.history)
    && ClearedNever401(c.history)
  }

  // ---- every step keeps it ---------------------------------------------------------------

  /** What one more happening does to everything read from the history. */
  lemma OneMore(h: seq<Happened>, x: Happened)
    ensures LastRejected(h + [x]) == if x.Answered401? then Some(x.token) else LastRejected(h)
    ensures forall t: Token :: LastAttemptNot401(h + [x], t)
              <==> x == Sent(t) || (LastAttemptNot401(h, t) && x != Answered401(t))
    ensures forall t: Token :: SessionGoesOn(h + [x], t) <==> x == Succeeded(t) || (SessionGoesOn(h, t) && !Breaks(x, t))
    ensures NeverSendsRejected(h) && (x.Sent? ==> LastRejected(h) != Some(x.token)) ==> NeverSendsRejected(h + [x])
    ensures ClearedNever401(h) && (x.ToldCleared? ==> LastAttemptNot401(h, x.token)) ==> ClearedNever401(h + [x])
  {
    var h' := h + [x];
    assert h'[..|h|] == h;
    forall t: Token ensures SessionGoesOn(h', t) <==> x == Succeeded(t) || (SessionGoesOn(h, t) && !Breaks(x, t)) {
      GoesOnAfter(h, x, t);
    }
    hide SessionGoesOn;
    assert forall k :: 0 <= k < |h| ==> h'[..k] == h[..k] && h'[k] == h[k];
  }

  lemma ConnectKeepsInv(c: Client)
    requires !c.stopped && c.attempt.None? && Inv(c.(timer := Some(0)))
    ensures Inv(Connecting(c.(timer := None)))
  {
    hide LastRejected, LastAttemptNot401, SessionGoesOn, NeverSendsRejected, ClearedNever401;
    var h := c.history;
    var h1 := h + [Observed(c.stored)];
    OneMore(h, Observed(c.stored));
    if c.stored.None? && c.used.Some? {
      OneMore(h1, ToldCleared(c.used.value));
    } else if c.stored.Some? && c.stored != c.rejected {
      OneMore(h1, Sent(c.stored.value));
    }
  }

  lemma ResponseKeepsInv(c: Client, r: Response)
    requires Inv(c) && c.attempt.Some? && c.attempt.value.Fetching?
    ensures Inv(Responded(c, r))
  {
    hide LastRejected, LastAttemptNot401, SessionGoesOn, NeverSendsRejected, ClearedNever401;
    var h := c.history;
    var token := c.attempt.value.token;
    match r {
      case Unauthorized =>
        OneMore(h, Answered401(token));
        OneMore(h + [Answered401(token)], ToldUnauthorized(token));
        assert h + [Answered401(token)] + [] == h + [Answered401(token)];
      case Failed => OneMore(h, Lost(token));
      case Connected =>
        OneMore(h, Succeeded(token));
        OneMore(h + [Succeeded(token)], ToldReconnected(token));
        assert h + [Succeeded(token)] + [] == h + [Succeeded(token)];
    }
  }

  lemma StepKeepsInv(c: Client, e: Event)
    requires Inv(c)
    ensures Inv(Step(c, e))
  {
    hide LastRejected, LastAttemptNot401, SessionGoesOn, NeverSendsRejected, ClearedNever401;
    match e {
      case TimerFires =>
        if c.timer.Some? && !c.stopped {
          assert Inv(c.(timer := Some(0)));
          hide Inv;
          ConnectKeepsInv(c.(timer := None));
          assert c.(timer := None).(timer := None) == c.(timer := None);
          assert c.(timer := None).(timer := Some(0)) == c.(timer := Some(0));
        }
      case Respond(r) => if c.attempt.Some? && c.attempt.value.Fetching? { ResponseKeepsInv(c, r); }
      case Dispatch => DispatchKeepsInv(c);
      case ReadChunk(_) =>
      case NextRead =>
      case Store(_) =>
      case StreamEnds => if c.attempt.Some? { OneMore(c.history, Lost(c.attempt.value.token)); }
      case Unsubscribe => OneMore(c.history, Unsubscribed);
    }
  }

  lemma DispatchKeepsInv(c: Client)
    requires Inv(c)
    ensures Inv(Step(c, Dispatch))
  {
    hide LastRejected, LastAttemptNot401, SessionGoesOn, NeverSendsRejected, ClearedNever401;
    assert c.history + [] == c.history;
    if c.attempt.Some? && c.attempt.value.Dispatching? && c.attempt.value.todo != [] && c.attempt.value.todo[0].AppEvent? {
      OneMore(c.history, Handled(c.attempt.value.todo[0].event));
    }
  }

  lemma SubscribeInv(stored: Option<Token>)
    ensures Inv(Subscribe(stored))
  {
    var c := Client(stored, false, None, None, None, None, false, []);
    assert Inv(c.(timer := Some(0)));
    hide Inv;
    ConnectKeepsInv(c);
    assert c.(timer := None) == c;
  }

  lemma {:induction false} RunKeepsInv(c: Client, events: seq<Event>)
    requires Inv(c)
    ensures Inv(Run(c, events))
    decreases events
  {
    hide Inv, Step;
    if events != [] {
      StepKeepsInv(c, events[0]);
      RunKeepsInv(Step(c, events[0]), events[1..]);
    }
  }

  // ---- what the client promises ------------------------------------------------------------

  /** At most one attempt or timer, and exactly one until the unsubscribe; the rejected token is never sent. */
  lemma OneAttemptOrTimer(stored: Option<Token>, events: seq<Event>)
    ensures var c := Run(Subscribe(stored), events);
            && !(c.timer.Some? && c.attempt.Some?)
            && (!c.stopped ==> c.timer.Some? || c.attempt.Some?)
            && NeverSendsRejected(c.history)
            && ClearedNever401(c.history)
  {
    SubscribeInv(stored);
    RunKeepsInv(Subscribe(stored), events);
  }

  // ---- after the unsubscribe ----------------------------------------------------------------

  /** The events handed over. */
  function HandledIn(h: seq<Happened>): seq<Happened> {
    if h == [] then [] else (if h[0].Handled? then [h[0]] else []) + HandledIn(h[1..])
  }

  /** The first chunk that is read. */
  function FirstChunk(events: seq<Event>): seq<Payload> {
    if events == [] then [] else if events[0].ReadChunk? then events[0].payloads else FirstChunk(events[1..])
  }

  /** What is still to be dispatched of the chunk a stopped client is at, or will be given by the read under way. */
  function LastChunk(c: Client, events: seq<Event>): seq<Payload> {
    match c.attempt
    case None => []
    case Some(Fetching(_)) => []
    case Some(Reading(_)) => FirstChunk(events)
    case Some(Dispatching(_, todo)) => todo
  }

  /** Only answers and events handed over: nothing is read from storage or sent, and no hook is called. */
  predicate Quiet(h: seq<Happened>) {
    forall k :: 0 <= k < |h| ==> h[k].Answered401? || h[k].Succeeded? || h[k].Lost? || h[k].Handled?
  }

  /** What one step of a stopped client adds, and what it leaves to be dispatched. */
  lemma StoppedStep(c: Client, e: Event, rest: seq<Event>) returns (added: seq<Happened>)
    requires c.stopped && c.timer.None?
    ensures var c' := Step(c, e);
            && c'.stopped && c'.timer.None? && c'.history == c.history + added && Quiet(added)
            && HandledIn(added) + EventsOf(LastChunk(c', rest)) <= EventsOf(LastChunk(c, [e] + rest))
  {
    added := Step(c, e).history[|c.history|..];
    assert ([e] + rest)[1..] == rest;
    if e.Dispatch? && c.attempt.Some? && c.attempt.value.Dispatching? && c.attempt.value.todo != [] {
      var todo := c.attempt.value.todo;
      if todo[0].AppEvent? {
        assert added == [Handled(todo[0].event)];
        OneHandled(todo[0].event);
      } else {
        assert added == [];
      }
    } else if e.Respond? && c.attempt.Some? && c.attempt.value.Fetching? {
      if e.response == Unauthorized { NoneHandled(Answered401(c.attempt.value.token)); }
      if e.response == Connected { NoneHandled(Succeeded(c.attempt.value.token)); }
      if e.response == Failed { NoneHandled(Lost(c.attempt.value.token)); }
      assert added == [Lost(c.attempt.value.token)] || added == [Answered401(c.attempt.value.token)]
             || added == [Succeeded(c.attempt.value.token)];
    } else if e.StreamEnds? && c.attempt.Some? && c.attempt.value.Reading? {
      NoneHandled(Lost(c.attempt.value.token));
      assert added == [Lost(c.attempt.value.token)];
    } else {
      assert added == [];
    }
  }

  lemma OneHandled(event: string)
    ensures HandledIn([Handled(event)]) == [Handled(event)]
  {
    assert [Handled(event)][1..] == [];
  }

  lemma NoneHandled(x: Happened)
    requires !x.Handled?
    ensures HandledIn([x]) == []
  {
    assert [x][1..] == [];
  }

  lemma {:induction false} HandledConcat(a: seq<Happened>, b: seq<Happened>)
    ensures HandledIn(a + b) == HandledIn(a) + HandledIn(b)
  {
    if a == [] {
      assert a + b == b;
    } else {
      assert (a + b)[0] == a[0] && (a + b)[1..] == a[1..] + b;
      HandledConcat(a[1..], b);
      var first := if a[0].Handled? then [a[0]] else [];
      assert HandledIn(a + b) == first + HandledIn(a[1..] + b);
      assert HandledIn(a) == first + HandledIn(a[1..]);
      hide HandledIn;
      assert first + (HandledIn(a[1..]) + HandledIn(b)) == first + HandledIn(a[1..]) + HandledIn(b);
    }
  }

  /**
    After the unsubscribe, in every run: only answers still arrive and only the
    events of one chunk are handed over, in order and none twice - the rest of the
    chunk it came in the middle of, or the one chunk whose read was under way.
   */
  lemma {:induction false} QuietAfterUnsubscribe(c: Client, events: seq<Event>) returns (added: seq<Happened>)
    requires c.stopped && c.timer.None?
    ensures var c' := Run(c, events);
            && c'.stopped && c'.timer.None? && c'.history == c.history + added && Quiet(added)
            && HandledIn(added) <= EventsOf(LastChunk(c, events))
    decreases events
  {
    hide Step;
    if events == [] {
      added := [];
    } else {
      var rest := events[1..];
      assert events == [events[0]] + rest;
      var first := StoppedStep(c, events[0], rest);
      var more := QuietAfterUnsubscribe(Step(c, events[0]), rest);
      hide LastChunk, EventsOf;
      added := first + more;
      HandledConcat(first, more);
      assert c.history + first + more == c.history + added;
    }
  }

  lemma SuccessReports(c: Client, r: Response)
    requires Inv(c) && c.attempt.Some? && c.attempt.value.Fetching?
    ensures var t := c.attempt.value.token;
            (Responded(c, r).history == c.history + [Succeeded(t), ToldReconnected(t)])
            <==> (r == Connected && !c.stopped && c.stored == Some(t) && SessionGoesOn(c.history, t))
  {
    hide SessionGoesOn, NeverSendsRejected, ClearedNever401, LastRejected, LastAttemptNot401;
    var h, t := c.history, c.attempt.value.token;
    assert h + [Succeeded(t)] + [ToldReconnected(t)] == h + [Succeeded(t), ToldReconnected(t)];
    assert (h + [Succeeded(t), ToldReconnected(t)])[|h|] == Succeeded(t);
  }

  /**
    `onReconnected` is called at a success exactly when the client is subscribed,
    the token is still the stored one, and a stream of the same token was
    established before with no 401, no empty storage seen and no attempt with
    another token in between.
   */
  lemma ReconnectedExactly(stored: Option<Token>, events: seq<Event>, r: Response)
    requires var c := Run(Subscribe(stored), events); c.attempt.Some? && c.attempt.value.Fetching?
    ensures var c := Run(Subscribe(stored), events);
            var c' := Step(c, Respond(r));
            var t := c.attempt.value.token;
            (c'.history == c.history + [Succeeded(t), ToldReconnected(t)])
            <==> (r == Connected && !c.stopped && c.stored == Some(t) && SessionGoesOn(c.history, t))
  {
    SubscribeInv(stored);
    RunKeepsInv(Subscribe(stored), events);
    hide Inv, SessionGoesOn, Run, Subscribe, Responded;
    SuccessReports(Run(Subscribe(stored), events), r);
  }

  // ---- a token seen in between that does not count ---------------------------------------

  /** As `SessionGoesOn`, and no other token was even seen in storage. */
  ghost predicate GoesOnUnseen(h: seq<Happened>, t: Token) {
    exists j :: 0 <= j < |h| && h[j] == Succeeded(t) && forall k :: j < k < |h| ==> !Breaks(h[k], t) && !SeesOther(h[k], t)
  }

  predicate SeesOther(x: Happened, t: Token) {
    x.Observed? && x.stored.Some? && x.stored.value != t
  }

  /** The index of the last success of `t`, or -1. */
  function LastSuccess(h: seq<Happened>, t: Token): (j: int)
    ensures -1 <= j < |h| && (j >= 0 ==> h[j] == Succeeded(t))
    ensures forall k :: j < k < |h| ==> h[k] != Succeeded(t)
  {
    if h == [] then -1 else if h[|h| - 1] == Succeeded(t) then |h| - 1 else LastSuccess(h[..|h| - 1], t)
  }

  /** Since the last success of `t`, storage was seen to hold the token rejected last. */
  ghost predicate RejectedSeen(h: seq<Happened>, t: Token) {
    exists k :: LastSuccess(h, t) < k < |h| && SeesOther(h[k], t) && LastRejected(h[..k]) == h[k].stored
  }

  /** The token a subscription watches: the last one sent, unless answered with 401 or seen gone since. */
  function InUse(h: seq<Happened>): Option<Token> {
    if h == [] then None
    else match h[|h| - 1]
      case Sent(t) => Some(t)
      case Answered401(_) => None
      case Observed(stored) => if stored.None? then None else InUse(h[..|h| - 1])
      case _ => InUse(h[..|h| - 1])
  }

  /**
    What the client must do at once when `x` happens after `h`: send a token it sees
    unless it is the one rejected last; while subscribed, report a token in use that
    it sees gone, and report a 401.
   */
  function Reaction(h: seq<Happened>, x: Happened): Option<Happened> {
    match x
    case Observed(Some(t)) => if LastRejected(h) != Some(t) then Some(Sent(t)) else None
    case Observed(None) => if InUse(h).Some? && Unsubscribed !in h then Some(ToldCleared(InUse(h).value)) else None
    case Answered401(t) => if Unsubscribed !in h then Some(ToldUnauthorized(t)) else None
    case _ => None
  }

  predicate IsReaction(x: Happened) {
    x.Sent? || x.ToldCleared? || x.ToldUnauthorized?
  }

  /** What is called for by the `k`th happening comes at once, and that was called for if it is a reaction. */
  ghost predicate ReactsAt(h: seq<Happened>, k: nat)
    requires k < |h|
  {
    && (Reaction(h[..k], h[k]).Some? ==> k + 1 < |h| && h[k + 1] == Reaction(h[..k], h[k]).value)
    && (IsReaction(h[k]) ==> k > 0 && Reaction(h[..k - 1], h[k - 1]) == Some(h[k]))
  }

  ghost predicate Reacts(h: seq<Happened>) {
    forall k :: 0 <= k < |h| ==> ReactsAt(h, k)
  }

  lemma StillReacts(h: seq<Happened>, more: seq<Happened>, k: nat)
    requires k < |h| && ReactsAt(h, k)
    ensures ReactsAt(h + more, k)
  {
    var h' := h + more;
    assert h'[..k] == h[..k] && h'[k] == h[k];
    if k > 0 { assert h'[..k - 1] == h[..k - 1] && h'[k - 1] == h[k - 1]; }
    hide Reaction;
  }

  /** Something happens, and the reaction if one is called for. */
  lemma ReactsMore(h: seq<Happened>, x: Happened)
    requires Reacts(h) && !IsReaction(x)
    ensures Reacts(h + [x] + (if Reaction(h, x).Some? then [Reaction(h, x).value] else []))
  {
    var more := [x] + (if Reaction(h, x).Some? then [Reaction(h, x).value] else []);
    var h' := h + more;
    assert h' == h + [x] + (if Reaction(h, x).Some? then [Reaction(h, x).value] else []);
    assert h'[..|h|] == h && h'[|h|] == x;
    forall k | 0 <= k < |h'| ensures ReactsAt(h', k) {
      if k < |h| {
        StillReacts(h, more, k);
      } else if k == |h| + 1 {
        NoReactionToAReaction(h'[..k], h'[k]);
      }
    }
    hide InUse, LastRejected;
  }

  lemma NoReactionToAReaction(h: seq<Happened>, x: Happened)
    requires IsReaction(x)
    ensures Reaction(h, x).None?
  {
  }

  lemma SeenIsSent(h: seq<Happened>, k: nat)
    requires Reacts(h) && k < |h| && h[k].Observed? && h[k].stored.Some? && LastRejected(h[..k]) != h[k].stored
    ensures k + 1 < |h| && h[k + 1] == Sent(h[k].stored.value)
  {
    assert ReactsAt(h, k);
  }

  /** What the fields mean, as far as reactions depend on them. */
  ghost predicate Watches(c: Client) {
    && Reacts(c.history)
    && c.rejected == LastRejected(c.history) && c.used == InUse(c.history)
    && (c.stopped <==> Unsubscribed in c.history)
    && (c.timer.Some? ==>
          && c.history != []
          && var last := c.history[|c.history| - 1];
             if last.Lost? then c.timer == Some(3000)
             else c.timer == Some(500) && (last.Observed? || last.ToldCleared? || last.ToldUnauthorized?))
  }

  lemma OneMoreWatched(h: seq<Happened>, x: Happened)
    ensures LastRejected(h + [x]) == if x.Answered401? then Some(x.token) else LastRejected(h)
    ensures InUse(h + [x]) == (if x.Sent? then Some(x.token) else if x.Answered401? || x == Observed(None) then None else InUse(h))
    ensures Unsubscribed in h + [x] <==> x == Unsubscribed || Unsubscribed in h
  {
    assert (h + [x])[..|h|] == h;
  }

  lemma ConnectWatches(c: Client)
    requires !c.stopped && c.timer.None? && Watches(c)
    ensures Watches(Connecting(c))
  {
    hide Reacts, LastRejected, InUse;
    var h, x := c.history, Observed(c.stored);
    ReactsMore(h, x);
    OneMoreWatched(h, x);
    if Reaction(h, x).Some? { OneMoreWatched(h + [x], Reaction(h, x).value); }
    assert h + [x] + [] == h + [x];
    hide Reacts, LastRejected, InUse;
  }

  lemma ResponseWatches(c: Client, r: Response)
    requires Watches(c) && c.attempt.Some? && c.timer.None?
    ensures Watches(Responded(c, r))
  {
    var h, t := c.history, c.attempt.value.token;
    match r {
      case Unauthorized =>
        ReactsMore(h, Answered401(t));
        OneMoreWatched(h, Answered401(t));
        OneMoreWatched(h + [Answered401(t)], ToldUnauthorized(t));
        assert h + [Answered401(t)] + [] == h + [Answered401(t)];
      case Failed =>
        ReactsMore(h, Lost(t));
        OneMoreWatched(h, Lost(t));
        assert h + [Lost(t)] + [] == h + [Lost(t)];
      case Connected =>
        ReactsMore(h, Succeeded(t));
        OneMoreWatched(h, Succeeded(t));
        assert h + [Succeeded(t)] + [] == h + [Succeeded(t)];
        ReactsMore(h + [Succeeded(t)], ToldReconnected(t));
        OneMoreWatched(h + [Succeeded(t)], ToldReconnected(t));
        assert h + [Succeeded(t)] + [ToldReconnected(t)] + [] == h + [Succeeded(t)] + [ToldReconnected(t)];
    }
    hide Reacts, LastRejected, InUse;
  }

  lemma PlainWatches(c: Client, x: Happened)
    requires Watches(c) && c.timer.None? && (x.Handled? || x.Lost? || x == Unsubscribed)
    ensures Reacts(c.history + [x])
    ensures LastRejected(c.history + [x]) == c.rejected && InUse(c.history + [x]) == c.used
    ensures Unsubscribed in c.history + [x] <==> x == Unsubscribed || c.stopped
  {
    ReactsMore(c.history, x);
    OneMoreWatched(c.history, x);
    assert c.history + [x] + [] == c.history + [x];
    hide Reacts, LastRejected, InUse;
  }

  lemma StepWatches(c: Client, e: Event)
    requires Watches(c) && !(c.timer.Some? && c.attempt.Some?)
    ensures Watches(Step(c, e))
  {
    match e {
      case TimerFires => if c.timer.Some? && !c.stopped { ConnectWatches(c.(timer := None)); }
      case Respond(r) => if c.attempt.Some? { ResponseWatches(c, r); }
      case Dispatch =>
        assert c.history + [] == c.history;
        if c.attempt.Some? && c.attempt.value.Dispatching? && c.attempt.value.todo != [] && c.attempt.value.todo[0].AppEvent? {
          PlainWatches(c, Handled(c.attempt.value.todo[0].event));
        }
      case StreamEnds => if c.attempt.Some? { PlainWatches(c, Lost(c.attempt.value.token)); }
      case Unsubscribe => PlainWatches(c.(timer := None), Unsubscribed);
      case ReadChunk(_) =>
      case NextRead =>
      case Store(_) =>
    }
    hide Reacts, LastRejected, InUse, Connecting, Responded;
  }

  lemma {:induction false} RunWatches(c: Client, events: seq<Event>)
    requires Inv(c) && Watches(c)
    ensures Watches(Run(c, events))
    decreases events
  {
    if events != [] {
      StepKeepsInv(c, events[0]);
      assert !(c.timer.Some? && c.attempt.Some?);
      hide Inv, Step, Watches;
      StepWatches(c, events[0]);
      RunWatches(Step(c, events[0]), events[1..]);
    }
  }

  lemma SubscribeWatches(stored: Option<Token>)
    ensures Watches(Subscribe(stored))
  {
    var c := Client(stored, false, None, None, None, None, false, []);
    assert Reacts([]);
    ConnectWatches(c);
  }

  /**
    In every run, exactly when called for and at once: a token seen in storage is
    sent unless it is the one rejected last; while subscribed, storage seen empty
    after a token was in use is reported, and so is a 401. None of these happens
    otherwise.
   */
  lemma ReactsExactly(stored: Option<Token>, events: seq<Event>)
    ensures Reacts(Run(Subscribe(stored), events).history)
    ensures var c := Run(Subscribe(stored), events); c.stopped <==> Unsubscribed in c.history
  {
    SubscribeInv(stored);
    SubscribeWatches(stored);
    RunWatches(Subscribe(stored), events);
    hide Run, Subscribe, Reacts;
  }

  /** The next try is three seconds away after a failed attempt or an ended stream, and half a second in every other case. */
  lemma DelayIff(stored: Option<Token>, events: seq<Event>)
    requires Run(Subscribe(stored), events).timer.Some?
    ensures var c := Run(Subscribe(stored), events);
            && c.history != [] && c.timer == Some(if c.history[|c.history| - 1].Lost? then 3000 else 500)
            && !c.history[|c.history| - 1].Sent?
  {
    SubscribeInv(stored);
    SubscribeWatches(stored);
    RunWatches(Subscribe(stored), events);
    hide Run, Subscribe, Reacts;
  }

  /**
    The session of a success is taken to go on although another token was seen
    in between exactly when that token was the one rejected last.
   */
  lemma OnlyTheRejectedTokenGoesUnnoticed(stored: Option<Token>, events: seq<Event>, t: Token)
    ensures var h := Run(Subscribe(stored), events).history;
            GoesOnUnseen(h, t) <==> SessionGoesOn(h, t) && !RejectedSeen(h, t)
  {
    var c := Run(Subscribe(stored), events);
    ReactsExactly(stored, events);
    hide Run, Subscribe;
    var h, j := c.history, LastSuccess(c.history, t);
    if SessionGoesOn(h, t) && !RejectedSeen(h, t) {
      forall k | j < k < |h| ensures !Breaks(h[k], t) && !SeesOther(h[k], t) {
        assert k + 1 < |h| ==> !Breaks(h[k + 1], t);
        if h[k].Observed? && h[k].stored.Some? && LastRejected(h[..k]) != h[k].stored { SeenIsSent(h, k); }
      }
      assert h[j] == Succeeded(t);
    }
    if GoesOnUnseen(h, t) {
      var i :| 0 <= i < |h| && h[i] == Succeeded(t) && forall k :: i < k < |h| ==> !Breaks(h[k], t) && !SeesOther(h[k], t);
      assert i <= j;
    }
  }

  lemma RunThree(c: Client, e: Event, f: Event, g: Event)
    ensures Run(c, [e, f, g]) == Step(Step(Step(c, e), f), g)
  {
    hide Step;
    assert [e, f, g][1..] == [f, g] && [f, g][1..] == [g] && [g][1..] == [];
    var c1 := Step(c, e);
    assert Run(Step(Step(c1, f), g), []) == Step(Step(c1, f), g);
    assert Run(Step(c1, f), [g]) == Step(Step(c1, f), g);
  }

  /** `a` is rejected, and the login that follows is connecting with `b`. */
  lemma RejectedThenNewLogin(a: Token, b: Token)
    requires a != b
    ensures var c := Run(Subscribe(Some(a)), [Respond(Unauthorized), Store(Some(b)), TimerFires]);
            Inv(c) && !c.stopped && c.attempt == Some(Fetching(b)) && c.rejected == Some(a)
  {
    var c := Subscribe(Some(a));
    SubscribeInv(Some(a));
    RunKeepsInv(c, [Respond(Unauthorized), Store(Some(b)), TimerFires]);
    RunThree(c, Respond(Unauthorized), Store(Some(b)), TimerFires);
    hide Inv;
  }

  /** The stream of `b` is established, ends, and at the next attempt storage holds `a`: nothing is sent. */
  lemma RejectedTokenIsWaitedOut(c: Client, a: Token, b: Token)
    requires !c.stopped && c.attempt == Some(Fetching(b)) && c.used == Some(b) && c.rejected == Some(a) && a != b
    ensures var c1 := Step(Step(Step(c, Respond(Connected)), StreamEnds), Store(Some(a)));
            var c2 := Step(c1, TimerFires);
            && c2.history == c1.history + [Observed(Some(a))]
            && c2.hasConnected && c2.used == Some(b) && c2.rejected == Some(a) && !c2.stopped
            && c2.timer.Some? && c2.attempt.None? && c1.rejected == Some(a)
  {
  }

  /** With `b` back in storage the client connects again, and reports the success as a reconnect. */
  lemma ConnectsAgain(c: Client, b: Token)
    requires !c.stopped && c.timer.Some? && c.used == Some(b) && c.hasConnected && c.rejected != Some(b)
    ensures var c' := Step(Step(c, Store(Some(b))), TimerFires);
            && c'.attempt == Some(Fetching(b)) && c'.hasConnected
            && c'.history == c.history + [Observed(Some(b)), Sent(b)]
            && Step(c', Respond(Connected)).history == c'.history + [Succeeded(b), ToldReconnected(b)]
  {
    var c' := Step(Step(c, Store(Some(b))), TimerFires);
    assert c'.history + [Succeeded(b)] + [ToldReconnected(b)] == c'.history + [Succeeded(b), ToldReconnected(b)];
  }

  /**
    It does happen: a rejected `a` shows up in storage between two streams of
    `b`, and the success of the second one is still reported as a reconnect.
   */
  lemma RejectedTokenSeenInBetween(c: Client, a: Token, b: Token)
    requires Inv(c) && !c.stopped && c.attempt == Some(Fetching(b)) && c.rejected == Some(a) && a != b
    ensures var c1 := Step(Step(Step(Step(c, Respond(Connected)), StreamEnds), Store(Some(a))), TimerFires);
            var c2 := Step(Step(c1, Store(Some(b))), TimerFires);
            && RejectedSeen(c2.history, b)
            && Step(c2, Respond(Connected)).history == c2.history + [Succeeded(b), ToldReconnected(b)]
  {
    var c0 := Step(Step(Step(c, Respond(Connected)), StreamEnds), Store(Some(a)));
    var c1 := Step(c0, TimerFires);
    var c2 := Step(Step(c1, Store(Some(b))), TimerFires);
    RejectedTokenIsWaitedOut(c, a, b);
    StepKeepsInv(c, Respond(Connected));
    StepKeepsInv(Step(c, Respond(Connected)), StreamEnds);
    StepKeepsInv(Step(Step(c, Respond(Connected)), StreamEnds), Store(Some(a)));
    ConnectsAgain(c1, b);
    LastRejectedIs(c0, a);
    hide Step, Inv, LastRejected;
    var h, k := c2.history, |c0.history|;
    assert h == c0.history + [Observed(Some(a)), Observed(Some(b)), Sent(b)];
    assert h[..k] == c0.history && h[k] == Observed(Some(a));
    assert SeesOther(h[k], b);
    assert forall i :: k <= i < |h| ==> h[i] != Succeeded(b);
    assert LastSuccess(h, b) < k;
  }

  lemma LastRejectedIs(c: Client, a: Token)
    requires Inv(c) && c.rejected == Some(a)
    ensures LastRejected(c.history) == Some(a)
  {
  }

  lemma RunNone(c: Client)
    ensures Run(c, []) == c
  {
  }

  lemma RunCons(c: Client, e: Event, rest: seq<Event>)
    ensures Run(c, [e] + rest) == Run(Step(c, e), rest)
  {
    assert ([e] + rest)[1..] == rest;
    hide Step;
  }

  lemma {:induction false} Extend(c: Client, events: seq<Event>, e: Event)
    ensures Run(c, events + [e]) == Step(Run(c, events), e)
    decreases events
  {
    hide Step;
    if events == [] {
      RunCons(c, e, []);
      assert [] + [e] == [e] + [];
    } else {
      assert (events + [e])[1..] == events[1..] + [e];
      Extend(Step(c, events[0]), events[1..], e);
    }
  }

  lemma HandledFirst(h: seq<Happened>, payloads: seq<Payload>)
    requires payloads != []
    ensures h + EventsOf(payloads)
         == h + (if payloads[0].AppEvent? then [Handled(payloads[0].event)] else []) + EventsOf(payloads[1..])
  {
  }

  // ---- every chunk is handed over ------------------------------------------------------------

  /** The payloads the run reads: of each chunk that arrives while a read is under way. */
  function ReadIn(c: Client, events: seq<Event>): seq<Payload>
    decreases events
  {
    if events == [] then []
    else ReadNow(c, events[0]) + ReadIn(Step(c, events[0]), events[1..])
  }

  /** What is still to be handed over of the chunk at hand. */
  function AtHand(c: Client): seq<Payload> {
    if c.attempt.Some? && c.attempt.value.Dispatching? then c.attempt.value.todo else []
  }

  lemma {:induction false} EventsConcat(a: seq<Payload>, b: seq<Payload>)
    ensures EventsOf(a + b) == EventsOf(a) + EventsOf(b)
  {
    if a == [] {
      assert a + b == b;
    } else {
      assert (a + b)[0] == a[0] && (a + b)[1..] == a[1..] + b;
      EventsConcat(a[1..], b);
      var first := if a[0].AppEvent? then [Handled(a[0].event)] else [];
      assert EventsOf(a + b) == first + EventsOf(a[1..] + b);
      assert EventsOf(a) == first + EventsOf(a[1..]);
      hide EventsOf;
      assert first + (EventsOf(a[1..]) + EventsOf(b)) == first + EventsOf(a[1..]) + EventsOf(b);
    }
  }

  lemma OneMoreHandled(h: seq<Happened>, x: Happened)
    ensures HandledIn(h + [x]) == HandledIn(h) + (if x.Handled? then [x] else [])
  {
    HandledConcat(h, [x]);
    assert [x][1..] == [];
  }

  lemma ConnectHandsNothing(c: Client)
    requires AtHand(c) == []
    ensures HandledIn(Connecting(c).history) == HandledIn(c.history) && AtHand(Connecting(c)) == []
  {
    hide HandledIn;
    var h := c.history + [Observed(c.stored)];
    OneMoreHandled(c.history, Observed(c.stored));
    if c.used.Some? { OneMoreHandled(h, ToldCleared(c.used.value)); }
    if c.stored.Some? { OneMoreHandled(h, Sent(c.stored.value)); }
  }

  lemma RespondHandsNothing(c: Client, r: Response)
    requires c.attempt.Some?
    ensures HandledIn(Responded(c, r).history) == HandledIn(c.history) && AtHand(Responded(c, r)) == []
  {
    hide HandledIn;
    var h, t := c.history, c.attempt.value.token;
    OneMoreHandled(h, Answered401(t));
    OneMoreHandled(h + [Answered401(t)], ToldUnauthorized(t));
    OneMoreHandled(h, Lost(t));
    OneMoreHandled(h, Succeeded(t));
    OneMoreHandled(h + [Succeeded(t)], ToldReconnected(t));
    assert h + [Answered401(t)] + [] == h + [Answered401(t)] && h + [Succeeded(t)] + [] == h + [Succeeded(t)];
  }

  lemma DispatchHandsOne(c: Client)
    ensures var c' := Step(c, Dispatch);
            HandledIn(c'.history) + EventsOf(AtHand(c')) == HandledIn(c.history) + EventsOf(AtHand(c))
  {
    hide HandledIn;
    assert c.history + [] == c.history;
    if AtHand(c) != [] {
      var todo := AtHand(c);
      var first := if todo[0].AppEvent? then [Handled(todo[0].event)] else [];
      assert EventsOf(todo) == first + EventsOf(todo[1..]);
      if todo[0].AppEvent? { OneMoreHandled(c.history, Handled(todo[0].event)); }
      assert HandledIn(Step(c, Dispatch).history) == HandledIn(c.history) + first;
      assert AtHand(Step(c, Dispatch)) == todo[1..];
      hide EventsOf, Step, AtHand;
      assert HandledIn(c.history) + first + EventsOf(todo[1..]) == HandledIn(c.history) + (first + EventsOf(todo[1..]));
    }
  }

  function ReadNow(c: Client, e: Event): seq<Payload> {
    if e.ReadChunk? && c.attempt.Some? && c.attempt.value.Reading? then e.payloads else []
  }

  lemma StepHandsOver(c: Client, e: Event)
    requires c.timer.Some? ==> c.attempt.None?
    ensures var c' := Step(c, e);
            HandledIn(c'.history) + EventsOf(AtHand(c')) == HandledIn(c.history) + EventsOf(AtHand(c)) + EventsOf(ReadNow(c, e))
  {
    hide HandledIn, Connecting, Responded;
    match e {
      case TimerFires => if c.timer.Some? && !c.stopped { ConnectHandsNothing(c.(timer := None)); }
      case Respond(r) => if c.attempt.Some? && c.attempt.value.Fetching? { RespondHandsNothing(c, r); }
      case Dispatch => DispatchHandsOne(c);
      case StreamEnds => if c.attempt.Some? { OneMoreHandled(c.history, Lost(c.attempt.value.token)); }
      case Unsubscribe => OneMoreHandled(c.history, Unsubscribed);
      case ReadChunk(_) =>
      case NextRead =>
      case Store(_) =>
    }
  }

  /**
    In every run: the events handed over so far, and those still at hand, are the
    events of all the chunks read, in order - none lost, none twice.
   */
  lemma {:induction false} EveryChunkIsHandedOver(c: Client, events: seq<Event>)
    requires Inv(c)
    ensures var c' := Run(c, events);
            HandledIn(c'.history) + EventsOf(AtHand(c'))
            == HandledIn(c.history) + EventsOf(AtHand(c)) + EventsOf(ReadIn(c, events))
    decreases events
  {
    if events == [] {
      assert EventsOf([]) == [];
    } else {
      assert c.timer.Some? ==> c.attempt.None?;
      hide Step, EventsOf, HandledIn, AtHand, Inv, ReadNow;
      StepHandsOver(c, events[0]);
      StepKeepsInv(c, events[0]);
      EveryChunkIsHandedOver(Step(c, events[0]), events[1..]);
      var c1, c' := Step(c, events[0]), Run(c, events);
      assert ReadIn(c, events) == ReadNow(c, events[0]) + ReadIn(c1, events[1..]) && c' == Run(c1, events[1..]);
      Chained(HandledIn(c.history) + EventsOf(AtHand(c)), HandledIn(c1.history) + EventsOf(AtHand(c1)),
              HandledIn(c'.history) + EventsOf(AtHand(c')), ReadNow(c, events[0]), ReadIn(c1, events[1..]));
    }
  }

  lemma Chained(a: seq<Happened>, b: seq<Happened>, c: seq<Happened>, first: seq<Payload>, rest: seq<Payload>)
    requires b == a + EventsOf(first) && c == b + EventsOf(rest)
    ensures c == a + EventsOf(first + rest)
  {
    EventsConcat(first, rest);
    hide EventsOf;
  }

  /** A chunk that has been handed over is followed by the next read, unless the subscription is over; a lost stream by a timer. */
  lemma ReadsOn(c: Client)
    requires Inv(c) && c.attempt.Some? && c.attempt.value.Dispatching? && c.attempt.value.todo == []
    ensures var c' := Step(c, NextRead);
            && c'.attempt == (if c.stopped then None else Some(Reading(c.attempt.value.token)))
            && (!c.stopped ==> Step(c', StreamEnds).timer == Some(3000))
  {
  }

  // ---- the subscription as it runs ---------------------------------------------------------

  class Subscription {
    var stored: Option<Token>
    var stopped: bool
    var timer: Option<nat>
    var attempt: Option<Attempt>
    var rejectedToken: Option<Token>
    var usedToken: Option<Token>
    var hasConnected: bool
    ghost var history: seq<Happened>

    ghost function State(): Client
      reads this
    {
      Client(stored, stopped, timer, attempt, rejectedToken, usedToken, hasConnected, history)
    }

    /** `subscribe`: connects at once. */
    constructor (stored: Option<Token>)
      ensures State() == Subscribe(stored)
    {
      this.stored, stopped, timer, attempt := stored, false, None, None;
      rejectedToken, usedToken, hasConnected, history := None, None, false, [];
      new;
      ConnectOnce();
    }

    method ScheduleReconnect(delay: nat)
      modifies `timer
      ensures State() == Scheduled(old(State()), delay)
    {
      if stopped { return; }
      timer := Some(delay);
    }

    /** `connectOnce`, up to its `fetch`. */
    method ConnectOnce()
      modifies this
      ensures State() == Connecting(old(State()))
    {
      var token := stored;
      history := history + [Observed(token)];
      if token.None? && usedToken.Some? {
        if !stopped { history := history + [ToldCleared(usedToken.value)]; }
        usedToken := None;
        hasConnected := false;
      }
      if token.None? || token == rejectedToken {
        ScheduleReconnect(TOKEN_WAIT_DELAY_MS);
        return;
      }
      if usedToken.Some? && usedToken != token { hasConnected := false; }
      usedToken := token;
      attempt := Some(Fetching(token.value));
      history := history + [Sent(token.value)];
    }

    /** `connectOnce`, when the response is there or the fetch has failed. */
    method OnResponse(response: Response)
      requires attempt.Some? && attempt.value.Fetching?
      modifies this
      ensures State() == Step(old(State()), Respond(response))
    {
      var token := attempt.value.token;
      match response {
        case Unauthorized =>
          history := history + [Answered401(token)];
          rejectedToken := Some(token);
          usedToken := None;
          hasConnected := false;
          attempt := None;
          if !stopped { history := history + [ToldUnauthorized(token)]; }
          ScheduleReconnect(TOKEN_WAIT_DELAY_MS);
        case Failed =>
          attempt := None;
          history := history + [Lost(token)];
          ScheduleReconnect(RECONNECT_DELAY_MS);
        case Connected =>
          history := history + [Succeeded(token)];
          var wasReconnect := hasConnected;
          hasConnected := true;
          if wasReconnect && !stopped && stored == Some(token) { history := history + [ToldReconnected(token)]; }
          attempt := if stopped then None else Some(Reading(token));
      }
    }

    /** `dispatch`: hand one payload to the handler, which may end the subscription. */
    method DispatchOne(payload: Payload, rest: seq<Payload>, token: Token, unsubscribes: bool,
                       ghost start: Client, ghost events: seq<Event>)
      returns (ghost more: seq<Event>)
      requires State() == Run(start, events) && attempt == Some(Dispatching(token, [payload] + rest))
      requires forall e :: e in events ==> e.Dispatch? || e.Unsubscribe?
      modifies this
      ensures State() == Run(start, more) && attempt == Some(Dispatching(token, rest))
      ensures forall e :: e in more ==> e.Dispatch? || e.Unsubscribe?
      ensures HandledIn(history) == HandledIn(old(history)) + (if payload.AppEvent? then [Handled(payload.event)] else [])
    {
      hide Run;
      Extend(start, events, Dispatch);
      assert ([payload] + rest)[1..] == rest;
      if payload.AppEvent? {
        HandledConcat(history, [Handled(payload.event)]);
        OneHandled(payload.event);
        history := history + [Handled(payload.event)];
      }
      attempt := Some(Dispatching(token, rest));
      more := events + [Dispatch];
      if payload.AppEvent? && unsubscribes {
        Extend(start, more, Event.Unsubscribe);
        HandledConcat(history, [Unsubscribed]);
        NoneHandled(Unsubscribed);
        Unsubscribe();
        more := more + [Event.Unsubscribe];
      }
    }

    /**
      A chunk of the stream: all its payloads are dispatched in one go, also when
      the handler of one of them (`unsubscribes`) ends the subscription.
     */
    method OnChunk(payloads: seq<Payload>, unsubscribes: nat -> bool) returns (ghost events: seq<Event>)
      requires attempt.Some? && attempt.value.Reading?
      modifies this
      ensures State() == Run(old(State()), [ReadChunk(payloads)] + events)
      ensures forall e :: e in events ==> e.Dispatch? || e.Unsubscribe? || e.NextRead?
      ensures attempt == if stopped then None else old(attempt)
      ensures HandledIn(history) == HandledIn(old(history)) + EventsOf(payloads)
    {
      hide Run;
      var token := attempt.value.token;
      ghost var start := State();
      ghost var begun := Step(start, ReadChunk(payloads));
      RunCons(start, ReadChunk(payloads), []);
      attempt, events := Some(Dispatching(token, payloads)), [];
      RunNone(begun);
      var i := 0;
      assert payloads[0..] == payloads;
      while i < |payloads|
        invariant 0 <= i <= |payloads|
        invariant State() == Run(begun, events) && forall e :: e in events ==> e.Dispatch? || e.Unsubscribe?
        invariant attempt == Some(Dispatching(token, payloads[i..]))
        invariant HandledIn(history) + EventsOf(payloads[i..]) == HandledIn(old(history)) + EventsOf(payloads)
      {
        ghost var handled := HandledIn(history);
        assert payloads[i..] == [payloads[i]] + payloads[i + 1..];
        events := DispatchOne(payloads[i], payloads[i + 1..], token, unsubscribes(i), begun, events);
        HandledFirst(handled, payloads[i..]);
        i := i + 1;
      }
      Extend(begun, events, NextRead);
      attempt := if stopped then None else Some(Reading(token));
      events := events + [NextRead];
      RunCons(start, ReadChunk(payloads), events);
    }

    /** The reader loop is over. */
    method OnStreamEnd()
      requires attempt.Some? && attempt.value.Reading?
      modifies this
      ensures State() == Step(old(State()), StreamEnds)
    {
      history := history + [Lost(attempt.value.token)];
      attempt := None;
      ScheduleReconnect(RECONNECT_DELAY_MS);
    }

    method OnTimer()
      requires timer.Some? && !stopped
      modifies this
      ensures State() == Step(old(State()), TimerFires)
    {
      timer := None;
      ConnectOnce();
    }

    method Unsubscribe()
      modifies this
      ensures State() == Step(old(State()), Event.Unsubscribe)
    {
      if !stopped { history := history + [Unsubscribed]; }
      stopped := true;
      timer := None;
    }
  }
}
