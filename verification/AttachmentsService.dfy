/**
  One upload or delete of `banto-attachments` as the methods that carry it out.
  Between two of its actions any run of other calls' actions takes place
  (`Others`); what each method does is itself a run of `AttachmentStore`.
 */
module AttachmentsService {
  import opened Text
  import opened AttachmentStore
  import Sets

  datatype DeleteResult = Removed | NotFound | StorageError

  /** How an action is answered, and whether one that answers an error takes effect all the same. */
  datatype Answer = Answer(ok: bool, took: bool) {
    predicate Takes() { ok || took }
  }

  /** None of the events is an action of these calls. */
  ghost predicate NoneOf(events: seq<Event>, mine: set<nat>) {
    forall e :: e in events ==> e.call !in mine
  }

  lemma {:induction false} OthersLeaveCall(s: Store, events: seq<Event>, me: nat)
    requires NoneOf(events, {me}) && me in s.calls
    ensures var s' := Run(s, events);
            me in s'.calls && s'.calls[me] == s.calls[me]
    decreases events
  {
    if events != [] {
      assert events[0] in events;
      StepMovesOne(s, events[0], me);
      hide Step;
      OthersLeaveCall(Step(s, events[0]), events[1..], me);
    }
  }

  predicate Finished(c: Call) {
    if c.Upload? then c.up.Stored? || c.up.Rejected? || c.up.Abandoned?
    else c.down.Deleted? || c.down.Missing? || c.down.Errored?
  }

  lemma FinishedRests(s: Store, e: Event, p: nat)
    requires p in s.calls && Finished(s.calls[p]) && e.call == p
    ensures Step(s, e) == s
  {
    if s.calls[p].Delete? { hide UploadStep; } else { hide DeleteStep; }
  }

  /** A call that has returned stays as it is, and its number stays used. */
  lemma {:induction false} FinishedForever(s: Store, events: seq<Event>, p: nat)
    requires p in s.calls && Finished(s.calls[p])
    ensures p in Run(s, events).calls && Run(s, events).calls[p] == s.calls[p]
    decreases events
  {
    if events != [] {
      if events[0].call != p { StepMovesOne(s, events[0], p); } else { FinishedRests(s, events[0], p); }
      hide Step;
      FinishedForever(Step(s, events[0]), events[1..], p);
    }
  }

  /** The id has been given out, and no upload is about to create its body file. */
  ghost predicate NotCreating(s: Store, id: nat) {
    id < s.nextId && forall p :: Owns(s, p, id) ==> !s.calls[p].up.Inserted?
  }

  /** The id was given out, and its row is gone for good. */
  ghost predicate GoneForGood(s: Store, id: nat) {
    id < s.nextId && id !in s.rows
  }

  lemma StepKeepsGone(was: map<nat, Body>, s: Store, e: Event, id: nat)
    requires Inv(was, s)
    ensures s.nextId <= Step(s, e).nextId
    ensures GoneForGood(s, id) ==> GoneForGood(Step(s, e), id)
    ensures NotCreating(s, id) ==> NotCreating(Step(s, e), id)
    ensures NotCreating(s, id) && id !in s.bodies ==> id !in Step(s, e).bodies
  {
    var s' := Step(s, e);
    if e.Go? && e.call in s.calls {
      assert CallInv(was, s, s.calls[e.call]);
      if s.calls[e.call].Upload? {
        UploadStepIds(was, s, e.call, e.ok, e.took);
        UploadCreatesItsOwn(s, e.call, e.ok, e.took, id);
      } else {
        DeleteStepMoves(s, e.call, e.ok, e.took);
      }
      assert s.calls[e.call].Delete? ==> s'.bodies.Keys <= s.bodies.Keys;
      forall p | NotCreating(s, id) && Owns(s', p, id) ensures !s'.calls[p].up.Inserted? {
        if p != e.call || HasId(s.calls[p]) { assert Owns(s, p, id); }
      }
      hide UploadStep, CallInv, Inv;
    } else {
      forall p | NotCreating(s, id) && Owns(s', p, id) ensures !s'.calls[p].up.Inserted? {
        assert Owns(s, p, id);
      }
    }
  }

  lemma StoringCreatesItsOwn(s: Store, call: nat, ok: bool, took: bool, id: nat)
    requires call in s.calls && s.calls[call].Upload? && Storing(s.calls[call].up)
    ensures var s' := StoringStep(s, call, ok, took);
            && call in s'.calls && s'.calls[call].Upload?
            && (id in s'.bodies && id !in s.bodies ==> s.calls[call].up == Inserted(id))
            && (HasId(s.calls[call]) ==> !s'.calls[call].up.Inserted?)
  {
  }

  lemma ThumbCreatesNothing(s: Store, call: nat, ok: bool, took: bool, id: nat)
    requires call in s.calls && s.calls[call].Upload? && !Storing(s.calls[call].up)
    ensures var s' := ThumbStep(s, call, ok, took);
            && call in s'.calls && s'.calls[call].Upload?
            && (id in s'.bodies && id !in s.bodies ==> s.calls[call].up == Inserted(id))
            && (HasId(s.calls[call]) ==> !s'.calls[call].up.Inserted?)
  {
  }

  lemma UploadCreatesItsOwn(s: Store, call: nat, ok: bool, took: bool, id: nat)
    requires call in s.calls && s.calls[call].Upload?
    ensures var s' := UploadStep(s, call, ok, took);
            && call in s'.calls && s'.calls[call].Upload?
            && (id in s'.bodies && id !in s.bodies ==> s.calls[call].up == Inserted(id))
            && (HasId(s.calls[call]) ==> !s'.calls[call].up.Inserted?)
  {
    hide StoringStep, ThumbStep;
    if Storing(s.calls[call].up) {
      StoringCreatesItsOwn(s, call, ok, took, id);
    } else {
      ThumbCreatesNothing(s, call, ok, took, id);
    }
  }

  lemma {:induction false} RunKeepsGone(was: map<nat, Body>, s: Store, events: seq<Event>, id: nat)
    requires Inv(was, s)
    ensures s.nextId <= Run(s, events).nextId
    ensures GoneForGood(s, id) ==> GoneForGood(Run(s, events), id)
    ensures NotCreating(s, id) ==> NotCreating(Run(s, events), id)
    ensures NotCreating(s, id) && id !in s.bodies ==> id !in Run(s, events).bodies
    decreases events
  {
    hide Step, Inv, GoneForGood, NotCreating;
    if events != [] {
      StepKeepsInv(was, s, events[0]);
      StepKeepsGone(was, s, events[0], id);
      RunKeepsGone(was, Step(s, events[0]), events[1..], id);
    }
  }

  // ---- the actions, one by one ---------------------------------------------------------------

  lemma Insert(s: Store, me: nat, a: Answer)
    requires me in s.calls && s.calls[me].Upload? && s.calls[me].up.Validated?
    ensures var id := s.nextId;
            Step(s, Go(me, a.ok, a.took)) == s.(
              rows := if a.Takes() then s.rows[id := Row(s.calls[me].bytes.sha256, false)] else s.rows,
              nextId := if a.Takes() then id + 1 else id,
              calls := s.calls[me := s.calls[me].(
                up := if a.ok then Inserted(id) else if a.took then Abandoned(id) else Rejected)])
  {
  }

  lemma Create(s: Store, me: nat, a: Answer, id: nat)
    requires me in s.calls && s.calls[me].Upload? && s.calls[me].up == Inserted(id)
    ensures var created := a.ok && id !in s.bodies;
            Step(s, Go(me, a.ok, a.took)) == s.(
              bodies := if created then s.bodies[id := Torn] else s.bodies,
              calls := s.calls[me := s.calls[me].(up := if created then Created(id) else Undo(id))])
  {
  }

  lemma Fill(s: Store, me: nat, a: Answer, id: nat)
    requires me in s.calls && s.calls[me].Upload? && s.calls[me].up == Created(id)
    ensures Step(s, Go(me, a.ok, a.took)) == s.(
              bodies := if a.ok && id in s.bodies then s.bodies[id := Whole(s.calls[me].bytes)] else s.bodies,
              calls := s.calls[me := s.calls[me].(up := if a.ok then Written(id) else RemoveOwn(id))])
  {
  }

  lemma TakeBack(s: Store, me: nat, a: Answer, id: nat)
    requires me in s.calls && s.calls[me].Upload?
    ensures s.calls[me].up == RemoveOwn(id) ==>
              Step(s, Go(me, a.ok, a.took)) == s.(
                bodies := if a.Takes() then s.bodies - {id} else s.bodies,
                calls := s.calls[me := s.calls[me].(up := Undo(id))])
    ensures s.calls[me].up == Undo(id) ==>
              Step(s, Go(me, a.ok, a.took)) == s.(
                rows := if a.Takes() then s.rows - {id} else s.rows,
                calls := s.calls[me := s.calls[me].(up := Abandoned(id))])
  {
    hide ThumbStep, DeleteStep;
  }

  lemma PutThumbnail(s: Store, me: nat, a: Answer, id: nat)
    requires me in s.calls && s.calls[me].Upload? && s.calls[me].up == Written(id)
    ensures var c := s.calls[me];
            Step(s, Go(me, a.ok, a.took)) == s.(
              thumbs := if c.thumbnail && a.Takes() then s.thumbs + {id} else s.thumbs,
              calls := s.calls[me := c.(up := if c.thumbnail && a.ok then ThumbWritten(id) else Stored(id))])
  {
  }

  lemma Claim(s: Store, me: nat, a: Answer, id: nat)
    requires me in s.calls && s.calls[me].Upload? && s.calls[me].up == ThumbWritten(id)
    ensures Step(s, Go(me, a.ok, a.took)) == s.(
              rows := if a.Takes() && id in s.rows then s.rows[id := s.rows[id].(hasThumbnail := true)] else s.rows,
              calls := s.calls[me := s.calls[me].(up := if a.ok then Stored(id) else DropThumb(id))])
  {
  }

  lemma Unthumb(s: Store, me: nat, a: Answer, id: nat)
    requires me in s.calls && s.calls[me].Upload? && s.calls[me].up == DropThumb(id)
    ensures Step(s, Go(me, a.ok, a.took)) == s.(
              thumbs := if a.Takes() then s.thumbs - {id} else s.thumbs,
              calls := s.calls[me := s.calls[me].(up := Stored(id))])
  {
  }

  lemma Read(s: Store, me: nat, a: Answer)
    requires me in s.calls && s.calls[me].Delete? && s.calls[me].down.Asked?
    ensures var id := s.calls[me].target;
            Step(s, Go(me, a.ok, a.took)) == s.(calls := s.calls[me := s.calls[me].(
              down := if !a.ok then Errored else if id in s.rows then Got(s.rows[id].hasThumbnail) else Missing)])
  {
  }

  lemma RemoveRow(s: Store, me: nat, a: Answer)
    requires me in s.calls && s.calls[me].Delete? && s.calls[me].down.Got?
    ensures var id := s.calls[me].target;
            Step(s, Go(me, a.ok, a.took)) == s.(
              rows := if a.Takes() then s.rows - {id} else s.rows,
              calls := s.calls[me := s.calls[me].(
                down := if !a.ok then Errored else if id in s.rows then RowGone(s.calls[me].down.hasThumbnail) else Missing)])
  {
  }

  lemma RemoveFile(s: Store, me: nat, a: Answer)
    requires me in s.calls && s.calls[me].Delete?
    ensures var id, c := s.calls[me].target, s.calls[me];
            && (c.down.RowGone? ==> Step(s, Go(me, a.ok, a.took)) == s.(
                  bodies := if a.Takes() then s.bodies - {id} else s.bodies,
                  calls := s.calls[me := c.(down := BodyGone(c.down.hasThumbnail))]))
            && (c.down.BodyGone? ==> Step(s, Go(me, a.ok, a.took)) == s.(
                  thumbs := if c.down.hasThumbnail && a.Takes() then s.thumbs - {id} else s.thumbs,
                  calls := s.calls[me := c.(down := Deleted)]))
  {
  }

  /** Where a delete is when it has returned this. */
  function Ended(result: DeleteResult): DeletePhase {
    match result
    case Removed => Deleted
    case NotFound => Missing
    case StorageError => Errored
  }

  /** A delete's action leaves the uploads. */
  lemma SameFiles(s: Store, s': Store, me: nat, id: nat)
    requires me in s.calls && s.calls[me].Delete? && me in s'.calls && s'.calls[me].Delete?
    requires s'.calls == s.calls[me := s'.calls[me]] && s'.nextId == s.nextId
    ensures NotCreating(s, id) ==> NotCreating(s', id)
  {
    forall p | Owns(s', p, id) ensures Owns(s, p, id) && s'.calls[p] == s.calls[p] {
    }
  }

  lemma StaysGone(s: Store, s': Store, id: nat)
    requires GoneForGood(s, id) && s'.rows == s.rows && s'.nextId == s.nextId
    ensures GoneForGood(s', id)
  {
  }

  lemma BeginCreatesNothing(s: Store, me: nat, id: nat)
    requires me !in s.calls
    ensures NotCreating(s, id) ==> NotCreating(s.(calls := s.calls[me := Delete(id, Asked)]), id)
  {
    var s' := s.(calls := s.calls[me := Delete(id, Asked)]);
    forall p | Owns(s', p, id) ensures Owns(s, p, id) && s'.calls[p] == s.calls[p] {
    }
  }

  lemma RowIsGivenOut(was: map<nat, Body>, s: Store, id: nat)
    requires Inv(was, s) && id in s.rows
    ensures id < s.nextId
  {
  }

  // ---- the deletes of one record --------------------------------------------------------------

  /** The deletes with these numbers are distinct, have returned, and are of the first of these ids. */
  ghost predicate AreDeletesOf(calls: map<nat, Call>, mes: seq<nat>, ids: seq<nat>) {
    && |mes| <= |ids|
    && (forall k :: 0 <= k < |mes| ==>
          mes[k] in calls && calls[mes[k]].Delete? && calls[mes[k]].target == ids[k] && Finished(calls[mes[k]]))
    && (forall j, k :: 0 <= j < k < |mes| ==> mes[j] != mes[k])
  }

  /** How many of the deletes removed their row. */
  function Removals(calls: map<nat, Call>, mes: seq<nat>): nat {
    if mes == [] then 0
    else
      var n := |mes| - 1;
      Removals(calls, mes[..n]) + (if mes[n] in calls && HasRemoved(calls[mes[n]]) then 1 else 0)
  }

  lemma {:induction false} RemovalsStay(calls: map<nat, Call>, calls': map<nat, Call>, mes: seq<nat>)
    requires forall m :: m in mes ==> m in calls && m in calls' && calls'[m] == calls[m]
    ensures Removals(calls', mes) == Removals(calls, mes)
  {
    if mes != [] { RemovalsStay(calls, calls', mes[..|mes| - 1]); }
  }

  /** Whatever happens later, the returned deletes stay as they are, and no row returns. */
  lemma AnyRunLeaves(was: map<nat, Body>, s: Store, events: seq<Event>, mes: seq<nat>, ids: seq<nat>)
    requires Inv(was, s) && AreDeletesOf(s.calls, mes, ids)
    ensures var s' := Run(s, events);
            && Inv(was, s') && s.nextId <= s'.nextId
            && AreDeletesOf(s'.calls, mes, ids) && Removals(s'.calls, mes) == Removals(s.calls, mes)
            && (forall k :: 0 <= k < |mes| ==> s'.calls[mes[k]] == s.calls[mes[k]])
            && (forall id :: GoneForGood(s, id) ==> GoneForGood(s', id))
            && (forall p :: p in s.calls ==> p in s'.calls)
  {
    hide Run, Inv, GoneForGood;
    var s' := Run(s, events);
    RunKeepsInv(was, s, events);
    RunKeepsGone(was, s, events, 0);
    forall id | GoneForGood(s, id) ensures GoneForGood(s', id) { RunKeepsGone(was, s, events, id); }
    forall k | 0 <= k < |mes| ensures mes[k] in s'.calls && s'.calls[mes[k]] == s.calls[mes[k]] {
      FinishedForever(s, events, mes[k]);
    }
    forall p | p in s.calls ensures p in s'.calls { CallsStay(s, events, p); }
    RemovalsStay(s.calls, s'.calls, mes);
  }

  lemma {:induction false} CallsStay(s: Store, events: seq<Event>, p: nat)
    requires p in s.calls
    ensures p in Run(s, events).calls
    decreases events
  {
    if events != [] {
      CallStays(s, events[0], p);
      hide Step;
      CallsStay(Step(s, events[0]), events[1..], p);
    }
  }

  lemma CallStays(s: Store, e: Event, p: nat)
    requires p in s.calls
    ensures p in Step(s, e).calls
  {
    if e.call != p { StepMovesOne(s, e, p); }
    else { hide StoringStep, ThumbStep; GoKeepsCall(s, e); }
  }

  lemma GoKeepsCall(s: Store, e: Event)
    requires e.call in s.calls
    ensures e.call in Step(s, e).calls
  {
    if e.Go? && s.calls[e.call].Upload? { hide DeleteStep; }
  }

  /** One more delete of the next id. */
  lemma OneMore(calls: map<nat, Call>, mes: seq<nat>, ids: seq<nat>)
    requires mes != []
    ensures var n := |mes| - 1;
            Removals(calls, mes) == Removals(calls, mes[..n]) + (if mes[n] in calls && HasRemoved(calls[mes[n]]) then 1 else 0)
  {
  }

  /** A free body name was free before, and a stored body is whole while its row is there. */
  lemma UploadKnows(was: map<nat, Body>, s: Store, me: nat)
    requires Inv(was, s) && me in s.calls && HasId(s.calls[me])
    ensures var c := s.calls[me];
            var id := c.up.id;
            && id < s.nextId
            && (c.up.Inserted? && id in s.bodies ==> id in was)
            && (c.up.Stored? && id in s.rows ==>
                  id in s.bodies && s.bodies[id] == Whole(c.bytes) && s.rows[id].sha256 == c.bytes.sha256)
  {
    assert CallInv(was, s, s.calls[me]);
    hide OneOwner, OneRemover, RowsAreOwned, UnusedAsBefore;
  }

  lemma RunNone(s: Store)
    ensures Run(s, []) == s
  {
  }

  /** One database and its directory; `calls` is what is under way, `was` what the directory held before. */
  class AttachmentsService {
    var rows: map<nat, Row>
    var nextId: nat
    var bodies: map<nat, Body>
    var thumbs: set<nat>
    ghost var calls: map<nat, Call>
    ghost const was: map<nat, Body>

    ghost function State(): Store
      reads this
    {
      Store(rows, nextId, bodies, thumbs, calls)
    }

    ghost predicate Valid()
      reads this
    {
      Inv(was, State())
    }

    /** Any actions of other calls. */
    method Others(ghost mine: set<nat>) returns (ghost more: seq<Event>)
      modifies this
      ensures State() == Run(old(State()), more) && NoneOf(more, mine)
    {
      more := [];
    }

    /** Other calls act; what that leaves of this one, and of ids whose row is gone. */
    method Meanwhile(ghost me: nat, ghost start: Store, ghost events: seq<Event>) returns (ghost more: seq<Event>)
      requires Valid() && State() == Run(start, events) && me in calls
      modifies this
      ensures Valid() && State() == Run(start, more) && old(nextId) <= nextId
      ensures me in calls && calls[me] == old(calls)[me]
      ensures forall id :: GoneForGood(old(State()), id) ==> GoneForGood(State(), id)
      ensures forall id :: NotCreating(old(State()), id) ==> NotCreating(State(), id) && (id !in old(bodies) ==> id !in bodies)
    {
      hide Inv, Run, Step;
      ghost var before := State();
      ghost var others := Others({me});
      RunKeepsInv(was, before, others);
      OthersLeaveCall(before, others, me);
      RunAppend(start, events, others);
      more := events + others;
      forall id
        ensures GoneForGood(before, id) ==> GoneForGood(State(), id)
        ensures NotCreating(before, id) ==> NotCreating(State(), id) && (id !in before.bodies ==> id !in bodies)
      {
        RunKeepsGone(was, before, others, id);
      }
      RunKeepsGone(was, before, others, 0);
    }

    /** What was just done to the fields is this event. */
    ghost method Did(before: Store, start: Store, events: seq<Event>, e: Event) returns (more: seq<Event>)
      requires Inv(was, before) && before == Run(start, events)
      requires State().(calls := Step(before, e).calls) == Step(before, e)
      modifies this`calls
      ensures Valid() && State() == Step(before, e) && State() == Run(start, more)
    {
      hide Inv, Run, Step;
      StepKeepsInv(was, before, e);
      Extend(start, events, e);
      calls := Step(before, e).calls;
      more := events + [e];
    }

    /** `write_body`: a new file or an error, and no half-written file of its own is left if that can be helped. */
    method WriteBody(id: nat, bytes: Bytes, io: nat -> Answer, ghost me: nat, ghost start: Store, ghost events: seq<Event>)
      returns (ok: bool, ghost more: seq<Event>)
      requires Valid() && State() == Run(start, events)
      requires me in calls && calls[me].Upload? && calls[me].up == Inserted(id) && calls[me].bytes == bytes
      modifies this
      ensures Valid() && State() == Run(start, more) && old(nextId) <= nextId
      ensures me in calls && calls[me] == old(calls)[me].(up := if ok then Written(id) else Undo(id))
      ensures ok <==> io(1).ok && io(2).ok && id !in old(bodies)
      ensures id in old(bodies) || !io(1).ok ==> bodies == old(bodies)
    {
      hide Inv, Run, Step;
      ghost var before := State();
      var created := io(1).ok && id !in bodies;
      if created { bodies := bodies[id := Torn]; }
      Create(before, me, io(1), id);
      more := Did(before, start, events, Go(me, io(1).ok, io(1).took));
      if !created { return false, more; }
      more := Meanwhile(me, start, more);
      before := State();
      if io(2).ok && id in bodies { bodies := bodies[id := Whole(bytes)]; }
      Fill(before, me, io(2), id);
      more := Did(before, start, more, Go(me, io(2).ok, io(2).took));
      if io(2).ok { return true, more; }
      more := Meanwhile(me, start, more);
      before := State();
      if io(3).Takes() { bodies := bodies - {id}; }
      TakeBack(before, me, io(3), id);
      more := Did(before, start, more, Go(me, io(3).ok, io(3).took));
      ok := false;
    }

    /** A call begins, under a number not used before. */
    ghost method Begun(what: Call) returns (events: seq<Event>, me: nat)
      requires Valid() && (if what.Upload? then what.up.Validated? else what.down.Asked?)
      modifies this`calls
      ensures Valid() && State() == Run(old(State()), events)
      ensures me !in old(calls) && calls == old(calls)[me := what]
    {
      hide Inv, Run;
      me := Sets.Unused(calls.Keys);
      RunNone(State());
      events := Did(State(), State(), [], Begin(me, what));
    }

    /** The metadata row, which gives the upload its id. */
    method InsertRow(bytes: Bytes, thumbnail: bool, answer: Answer)
      returns (id: nat, ok: bool, ghost me: nat, ghost events: seq<Event>)
      requires Valid()
      modifies this
      ensures Valid() && State() == Run(old(State()), events)
      ensures me !in old(calls)
      ensures calls == old(calls)[me := AttachmentStore.Upload(bytes, thumbnail,
                                        if ok then Inserted(id) else if answer.took then Abandoned(id) else Rejected)]
      ensures id == old(nextId) && ok == answer.ok
    {
      hide Inv, Run, Step;
      ghost var start := State();
      events, me := Begun(AttachmentStore.Upload(bytes, thumbnail, Validated));
      ghost var before := State();
      id, ok := nextId, answer.ok;
      if answer.Takes() { rows, nextId := rows[id := Row(bytes.sha256, false)], nextId + 1; }
      Insert(before, me, answer);
      events := Did(before, start, events, Go(me, answer.ok, answer.took));
    }

    /** The row of a body that could not be written is removed again, if that can be helped. */
    method UndoRow(id: nat, answer: Answer, ghost me: nat, ghost start: Store, ghost events: seq<Event>)
      returns (ghost more: seq<Event>)
      requires Valid() && State() == Run(start, events)
      requires me in calls && calls[me].Upload? && calls[me].up == Undo(id)
      modifies this
      ensures Valid() && State() == Run(start, more)
      ensures calls == old(calls)[me := old(calls)[me].(up := Abandoned(id))]
      ensures rows == if answer.Takes() then old(rows) - {id} else old(rows)
    {
      hide Inv, Run, Step;
      ghost var before := State();
      if answer.Takes() { rows := rows - {id}; }
      TakeBack(before, me, answer, id);
      more := Did(before, start, events, Go(me, answer.ok, answer.took));
    }

    /** The thumbnail of a stored body; whatever goes wrong, the upload has succeeded. */
    method WriteThumbnail(id: nat, thumbnail: bool, io: nat -> Answer, ghost me: nat, ghost start: Store, ghost events: seq<Event>)
      returns (ghost more: seq<Event>)
      requires Valid() && State() == Run(start, events)
      requires me in calls && calls[me].Upload? && calls[me].up == Written(id) && calls[me].thumbnail == thumbnail
      modifies this
      ensures Valid() && State() == Run(start, more) && old(nextId) <= nextId
      ensures me in calls && calls[me] == old(calls)[me].(up := Stored(id))
    {
      hide Inv, Run, Step;
      ghost var before := State();
      if thumbnail && io(5).Takes() { thumbs := thumbs + {id}; }
      PutThumbnail(before, me, io(5), id);
      more := Did(before, start, events, Go(me, io(5).ok, io(5).took));
      if !thumbnail || !io(5).ok { return more; }
      more := Meanwhile(me, start, more);
      before := State();
      if io(6).Takes() && id in rows { rows := rows[id := rows[id].(hasThumbnail := true)]; }
      Claim(before, me, io(6), id);
      more := Did(before, start, more, Go(me, io(6).ok, io(6).took));
      if io(6).ok { return more; }
      more := Meanwhile(me, start, more);
      before := State();
      if io(7).Takes() { thumbs := thumbs - {id}; }
      Unthumb(before, me, io(7), id);
      more := Did(before, start, more, Go(me, io(7).ok, io(7).took));
    }

    /**
      `upload`: the id of a stored attachment, whose body - while its row is there -
      is whole and has the row's hash. With everything answered well it fails only
      at a file that was in the directory before.
     */
    method Upload(bytes: Bytes, thumbnail: bool, io: nat -> Answer)
      returns (stored: Option<nat>, ghost me: nat, ghost events: seq<Event>)
      requires Valid()
      modifies this
      ensures Valid() && State() == Run(old(State()), events)
      ensures me !in old(calls) && me in calls && calls[me].Upload? && calls[me].bytes == bytes
      ensures if stored.Some? then calls[me].up == Stored(stored.value) else calls[me].up.Rejected? || calls[me].up.Abandoned?
      ensures stored.Some? ==>
                var id := stored.value;
                && old(nextId) <= id < nextId
                && (id in rows ==> id in bodies && bodies[id] == Whole(bytes) && rows[id].sha256 == bytes.sha256)
      ensures if io(0).ok && io(1).ok && io(2).ok then stored.None? ==> calls[me].up.Abandoned? && calls[me].up.id in was
              else stored.None?
    {
      hide Inv, Run, Step, GoneForGood, NotCreating;
      ghost var start := State();
      var id, ok;
      id, ok, me, events := InsertRow(bytes, thumbnail, io(0));
      if !ok { return None, me, events; }
      events := Meanwhile(me, start, events);
      UploadKnows(was, State(), me);
      ok, events := WriteBody(id, bytes, io, me, start, events);
      events := Meanwhile(me, start, events);
      if !ok {
        events := UndoRow(id, io(4), me, start, events);
        return None, me, events;
      }
      events := WriteThumbnail(id, thumbnail, io, me, start, events);
      UploadKnows(was, State(), me);
      stored := Some(id);
    }

    /**
      `delete`: the row first, then its files; a file that cannot be removed is no
      error. The body is gone afterwards, unless its upload had yet to create it.
     */
    method Delete(id: nat, io: nat -> Answer) returns (result: DeleteResult, ghost me: nat, ghost events: seq<Event>)
      requires Valid()
      modifies this
      ensures Valid() && State() == Run(old(State()), events) && old(nextId) <= nextId
      ensures me !in old(calls) && me in calls && calls[me] == AttachmentStore.Delete(id, Ended(result))
      ensures result == StorageError <==> !io(0).ok || (id in old(rows) && !io(1).ok)
      ensures result != StorageError && id < old(nextId) ==> GoneForGood(State(), id)
      ensures result == Removed ==>
                id in old(rows) && (io(2).Takes() && NotCreating(old(State()), id) ==> id !in bodies)
    {
      hide Inv, Run, Step, NotCreating;
      ghost var start := State();
      events, me := Begun(AttachmentStore.Delete(id, Asked));
      BeginCreatesNothing(start, me, id);
      ghost var before := State();
      var found := id in rows;
      var thumb := found && rows[id].hasThumbnail;
      Read(before, me, io(0));
      events := Did(before, start, events, Go(me, io(0).ok, io(0).took));
      SameFiles(before, State(), me, id);
      if !io(0).ok { return StorageError, me, events; }
      if !found { return NotFound, me, events; }
      RowIsGivenOut(was, State(), id);
      events := Meanwhile(me, start, events);
      result, events := DeleteRow(id, thumb, io(1), me, start, events);
      if result == Removed {
        events := Meanwhile(me, start, events);
        events := DeleteFiles(id, thumb, io, me, start, events);
      }
    }

    method DeleteRow(id: nat, thumb: bool, answer: Answer, ghost me: nat, ghost start: Store, ghost events: seq<Event>)
      returns (result: DeleteResult, ghost more: seq<Event>)
      requires Valid() && State() == Run(start, events)
      requires me in calls && calls[me] == AttachmentStore.Delete(id, Got(thumb)) && id < nextId
      modifies this
      ensures Valid() && State() == Run(start, more) && nextId == old(nextId)
      ensures calls == old(calls)[me := AttachmentStore.Delete(id, if result == Removed then RowGone(thumb) else Ended(result))]
      ensures result == (if !answer.ok then StorageError else if id in old(rows) then Removed else NotFound)
      ensures rows == (if answer.Takes() then old(rows) - {id} else old(rows)) && bodies == old(bodies)
      ensures NotCreating(old(State()), id) ==> NotCreating(State(), id)
    {
      hide Inv, Run, Step, NotCreating;
      ghost var before := State();
      result := if !answer.ok then StorageError else if id in rows then Removed else NotFound;
      if answer.Takes() { rows := rows - {id}; }
      RemoveRow(before, me, answer);
      more := Did(before, start, events, Go(me, answer.ok, answer.took));
      SameFiles(before, State(), me, id);
    }

    method DeleteFiles(id: nat, thumb: bool, io: nat -> Answer, ghost me: nat, ghost start: Store, ghost events: seq<Event>)
      returns (ghost more: seq<Event>)
      requires Valid() && State() == Run(start, events)
      requires me in calls && calls[me] == AttachmentStore.Delete(id, RowGone(thumb)) && GoneForGood(State(), id)
      modifies this
      ensures Valid() && State() == Run(start, more) && old(nextId) <= nextId && GoneForGood(State(), id)
      ensures me in calls && calls[me] == AttachmentStore.Delete(id, Deleted)
      ensures io(2).Takes() && NotCreating(old(State()), id) ==> id !in bodies
    {
      hide Inv, Run, Step, NotCreating, GoneForGood;
      ghost var before := State();
      if io(2).Takes() { bodies := bodies - {id}; }
      RemoveFile(before, me, io(2));
      more := Did(before, start, events, Go(me, io(2).ok, io(2).took));
      StaysGone(before, State(), id);
      SameFiles(before, State(), me, id);
      more := Meanwhile(me, start, more);
      before := State();
      if thumb && io(3).Takes() { thumbs := thumbs - {id}; }
      RemoveFile(before, me, io(3));
      more := Did(before, start, more, Go(me, io(3).ok, io(3).took));
      StaysGone(before, State(), id);
    }

    /**
      `delete_for_record`: one delete for each listed id, up to the first error.
      `deleted` is the number of those that removed their row; one whose row was
      already gone is not counted and is no error.
     */
    method DeleteForRecord(ids: seq<nat>, io: (nat, nat) -> Answer)
      returns (deleted: nat, error: bool, ghost mes: seq<nat>, ghost events: seq<Event>)
      requires Valid() && forall id :: id in ids ==> id < nextId
      modifies this
      ensures Valid() && State() == Run(old(State()), events)
      ensures AreDeletesOf(calls, mes, ids) && forall m :: m in mes ==> m !in old(calls)
      ensures deleted == Removals(calls, mes)
      ensures !error ==> |mes| == |ids| && forall k :: 0 <= k < |mes| ==> calls[mes[k]].down.Deleted? || calls[mes[k]].down.Missing?
      ensures !error ==> forall id :: id in ids ==> GoneForGood(State(), id)
      ensures error ==> mes != [] && calls[mes[|mes| - 1]].down.Errored?
    {
      hide Inv, Run, GoneForGood;
      deleted, error, mes, events := 0, false, [], [];
      ghost var start := State();
      RunNone(start);
      for k := 0 to |ids|
        invariant Valid() && State() == Run(start, events) && start.nextId <= nextId && |mes| == k && !error
        invariant AreDeletesOf(calls, mes, ids) && deleted == Removals(calls, mes)
        invariant forall m :: m in mes ==> m !in start.calls
        invariant forall j :: 0 <= j < k ==> calls[mes[j]].down.Deleted? || calls[mes[j]].down.Missing?
        invariant forall j :: 0 <= j < k ==> GoneForGood(State(), ids[j])
        invariant forall p :: p in start.calls ==> p in calls
      {
        assert ids[k] in ids;
        ghost var before := State();
        ghost var others := Others({});
        AnyRunLeaves(was, before, others, mes, ids);
        RunAppend(start, events, others);
        events := events + others;
        before := State();
        var result;
        ghost var me, more;
        result, me, more := Delete(ids[k], (n: nat) => io(k, n));
        AnyRunLeaves(was, before, more, mes, ids);
        RunAppend(start, events, more);
        events := events + more;
        mes := mes + [me];
        OneMore(calls, mes, ids);
        if result == StorageError { return deleted, true, mes, events; }
        if result == Removed { deleted := deleted + 1; }
      }
      forall id | id in ids ensures GoneForGood(State(), id) {
        var j :| 0 <= j < |ids| && ids[j] == id;
      }
    }
  }
}
