/**
  What uploads and deletes of `AttachmentStore` leave in the end, told from what
  happened to an id in the run, and the runs in which something is left behind.
 */
module AttachmentHistory {
  import opened AttachmentStore

  /**
    What happened to an id. `deleted`: a delete removed its row. `undone`: its
    upload, having failed, removed it. `bodyGone`: a delete removed the body that
    the upload created. `made`: the thumbnail was written. `claimed`: the UPDATE of
    `has_thumbnail` took effect. `unsure`: it did but answered an error. `dropped`:
    the thumbnail was then removed.
   */
  datatype History = History(deleted: bool, undone: bool, bodyGone: bool, made: bool, claimed: bool, unsure: bool, dropped: bool)

  function Noted(s: Store, e: Event, id: nat, h: History): History {
    if e.Begin? || e.call !in s.calls then h
    else
      var c, effect := s.calls[e.call], e.ok || e.took;
      if c.Delete? then
        if c.target != id || !effect then h
        else h.(deleted := h.deleted || (c.down.Got? && id in s.rows),
                bodyGone := h.bodyGone || (c.down.RowGone? && id in s.bodies))
      else if !HasId(c) || c.up.id != id then h
      else if c.up.Inserted? && e.ok && id !in s.bodies then h.(bodyGone := false)
      else if c.up.Undo? then h.(undone := effect && id in s.rows)
      else if c.up.Written? then h.(made := c.thumbnail && effect)
      else if c.up.ThumbWritten? then h.(claimed := effect, unsure := !e.ok && e.took)
      else if c.up.DropThumb? then h.(dropped := effect)
      else h
  }

  function HistoryOf(s: Store, events: seq<Event>, id: nat): History
    decreases |events|
  {
    if events == [] then History(false, false, false, false, false, false, false)
    else
      var n := |events| - 1;
      Noted(Run(s, events[..n]), events[n], id, HistoryOf(s, events[..n], id))
  }

  /** Row and body of an upload's id, by what happened to them. */
  ghost predicate FilesTell(s: Store, c: Call, h: History)
    requires HasId(c)
  {
    var id := c.up.id;
    && (id in s.rows <==> !h.deleted && !h.undone)
    && (h.undone ==> c.up.Abandoned?)
    && (c.up.Created? || PastWrite(c.up) ==> (id in s.bodies <==> !h.bodyGone))
    && (PastWrite(c.up) && id in s.bodies ==> s.bodies[id] == Whole(c.bytes))
  }

  /** The row's claim of a thumbnail and the thumbnail, by what happened to them. */
  ghost predicate ThumbTells(s: Store, c: Call, h: History)
    requires HasId(c)
  {
    var id := c.up.id;
    && (h.unsure || h.claimed ==> c.up.DropThumb? || c.up.Stored?)
    && (h.made ==> c.up.ThumbWritten? || c.up.DropThumb? || c.up.Stored?)
    && (h.dropped ==> c.up.Stored?)
    && (id in s.rows ==>
          && (s.rows[id].hasThumbnail <==> h.claimed)
          && (h.made && !h.dropped ==> id in s.thumbs)
          && (c.up.ThumbWritten? || c.up.DropThumb? ==> id in s.thumbs)
          && (c.up.DropThumb? ==> (s.rows[id].hasThumbnail <==> h.unsure))
          && (c.up.Stored? ==> (s.rows[id].hasThumbnail && id !in s.thumbs <==> h.unsure && h.dropped)))
  }

  ghost predicate Tells(s: Store, id: nat, h: History) {
    && (id >= s.nextId ==> !h.deleted && !h.undone && !h.made && !h.claimed && !h.unsure && !h.dropped)
    && (forall p :: Owns(s, p, id) ==> FilesTell(s, s.calls[p], h) && ThumbTells(s, s.calls[p], h))
  }

  lemma StoringStepTells(was: map<nat, Body>, s: Store, call: nat, ok: bool, took: bool, h: History)
    requires call in s.calls && HasId(s.calls[call]) && Storing(s.calls[call].up) && CallInv(was, s, s.calls[call])
    requires FilesTell(s, s.calls[call], h) && ThumbTells(s, s.calls[call], h)
    ensures var s', h' := StoringStep(s, call, ok, took), Noted(s, Go(call, ok, took), s.calls[call].up.id, h);
            FilesTell(s', s'.calls[call], h') && ThumbTells(s', s'.calls[call], h')
  {
  }

  lemma ThumbStepTells(was: map<nat, Body>, s: Store, call: nat, ok: bool, took: bool, h: History)
    requires call in s.calls && HasId(s.calls[call]) && !Storing(s.calls[call].up) && CallInv(was, s, s.calls[call])
    requires FilesTell(s, s.calls[call], h) && ThumbTells(s, s.calls[call], h)
    ensures var s', h' := ThumbStep(s, call, ok, took), Noted(s, Go(call, ok, took), s.calls[call].up.id, h);
            FilesTell(s', s'.calls[call], h') && ThumbTells(s', s'.calls[call], h')
  {
  }

  /** A new id starts with nothing to tell. */
  lemma InsertTells(was: map<nat, Body>, s: Store, call: nat, ok: bool, took: bool, h: History)
    requires call in s.calls && s.calls[call].Upload? && s.calls[call].up.Validated?
    requires !h.deleted && !h.undone && !h.made && !h.claimed && !h.unsure && !h.dropped
    ensures var s' := StoringStep(s, call, ok, took);
            HasId(s'.calls[call]) ==> FilesTell(s', s'.calls[call], h) && ThumbTells(s', s'.calls[call], h)
  {
  }

  /** An upload leaves what the others' ids have to tell. */
  lemma UploadStepTellsOthers(s: Store, call: nat, ok: bool, took: bool, c: Call, h: History)
    requires call in s.calls && s.calls[call].Upload? && HasId(c) && c.up.id < s.nextId
    requires HasId(s.calls[call]) ==> c.up.id != s.calls[call].up.id
    requires FilesTell(s, c, h) && ThumbTells(s, c, h)
    ensures FilesTell(UploadStep(s, call, ok, took), c, h) && ThumbTells(UploadStep(s, call, ok, took), c, h)
    ensures Noted(s, Go(call, ok, took), c.up.id, h) == h
  {
  }

  lemma DeleteStepTells(was: map<nat, Body>, s: Store, call: nat, ok: bool, took: bool, c: Call, h: History)
    requires call in s.calls && s.calls[call].Delete? && CallInv(was, s, s.calls[call])
    requires HasId(c) && FilesTell(s, c, h) && ThumbTells(s, c, h)
    ensures var s', h' := DeleteStep(s, call, ok, took), Noted(s, Go(call, ok, took), c.up.id, h);
            FilesTell(s', c, h') && ThumbTells(s', c, h')
  {
  }

  lemma UnusedTellsNothing(was: map<nat, Body>, s: Store, e: Event, id: nat, h: History)
    requires Inv(was, s) && Tells(s, id, h) && id >= s.nextId
    ensures var h' := Noted(s, e, id, h);
            !h'.deleted && !h'.undone && !h'.made && !h'.claimed && !h'.unsure && !h'.dropped
  {
    if e.Go? && e.call in s.calls { assert CallInv(was, s, s.calls[e.call]); }
    hide OneOwner, OneRemover, UnusedAsBefore;
  }

  lemma GoTells(was: map<nat, Body>, s: Store, call: nat, ok: bool, took: bool, id: nat, h: History, p: nat)
    requires Inv(was, s) && Tells(s, id, h) && call in s.calls && Owns(Step(s, Go(call, ok, took)), p, id)
    ensures var s', h' := Step(s, Go(call, ok, took)), Noted(s, Go(call, ok, took), id, h);
            FilesTell(s', s'.calls[p], h') && ThumbTells(s', s'.calls[p], h')
  {
    var s' := Step(s, Go(call, ok, took));
    assert CallInv(was, s, s.calls[call]);
    if s.calls[call].Delete? {
      DeleteStepMoves(s, call, ok, took);
      assert Owns(s, p, id);
      DeleteStepTells(was, s, call, ok, took, s.calls[p], h);
    } else {
      UploadStepIds(was, s, call, ok, took);
      if p != call {
        assert Owns(s, p, id);
        assert CallInv(was, s, s.calls[p]);
        UploadStepTellsOthers(s, call, ok, took, s.calls[p], h);
      } else if !HasId(s.calls[call]) {
        UnusedTellsNothing(was, s, Go(call, ok, took), id, h);
        InsertTells(was, s, call, ok, took, Noted(s, Go(call, ok, took), id, h));
      } else {
        assert Owns(s, p, id);
        if Storing(s.calls[call].up) {
          StoringStepTells(was, s, call, ok, took, h);
        } else {
          ThumbStepTells(was, s, call, ok, took, h);
        }
      }
    }
    hide StoringStep, ThumbStep, DeleteStep, FilesTell, ThumbTells, Noted, CallInv;
  }

  lemma StepTells(was: map<nat, Body>, s: Store, e: Event, id: nat, h: History)
    requires Inv(was, s) && Tells(s, id, h)
    ensures Tells(Step(s, e), id, Noted(s, e, id, h))
  {
    var s' := Step(s, e);
    if e.Go? && e.call in s.calls {
      assert CallInv(was, s, s.calls[e.call]);
      forall p | Owns(s', p, id) ensures FilesTell(s', s'.calls[p], Noted(s, e, id, h)) && ThumbTells(s', s'.calls[p], Noted(s, e, id, h)) {
        GoTells(was, s, e.call, e.ok, e.took, id, h, p);
      }
      assert s'.nextId >= s.nextId by {
        if s.calls[e.call].Upload? { UploadStepIds(was, s, e.call, e.ok, e.took); } else { DeleteStepMoves(s, e.call, e.ok, e.took); }
        hide UploadStep, DeleteStep;
      }
      if id >= s.nextId { UnusedTellsNothing(was, s, e, id, h); }
      hide Step, Noted, Inv;
    } else {
      forall p | Owns(s', p, id) ensures FilesTell(s', s'.calls[p], h) && ThumbTells(s', s'.calls[p], h) {
        assert Owns(s, p, id);
      }
    }
  }

  lemma {:induction false} RunTells(s: Store, events: seq<Event>, id: nat)
    requires Fresh(s)
    ensures Tells(Run(s, events), id, HistoryOf(s, events, id))
    decreases |events|
  {
    if events != [] {
      var n := |events| - 1;
      RunTells(s, events[..n], id);
      RunKeepsInv(s.bodies, s, events[..n]);
      StepTells(s.bodies, Run(s, events[..n]), events[n], id, HistoryOf(s, events[..n], id));
      LastStep(s, events);
      assert Inv(s.bodies, s);
      hide Run, Step, Tells, Noted, Inv;
    }
  }

  /**
    In every run: after an upload that returned the attachment, its row is there
    if and only if no delete removed it, and its body - whole - if and only if no
    delete removed that. So the body is an orphan exactly if only the row went.
   */
  lemma StoredUploadLeaves(s: Store, events: seq<Event>, p: nat, id: nat)
    requires Fresh(s) && Owns(Run(s, events), p, id) && Run(s, events).calls[p].up.Stored?
    ensures var s', h := Run(s, events), HistoryOf(s, events, id);
            && (id in s'.rows <==> !h.deleted)
            && (id in s'.bodies <==> !h.bodyGone)
            && (id in s'.bodies && id !in s'.rows <==> h.deleted && !h.bodyGone)
            && (id in s'.bodies ==> s'.bodies[id] == Whole(s'.calls[p].bytes))
  {
    RunTells(s, events, id);
    hide Run, HistoryOf, ThumbTells;
  }

  /**
    After an upload that returned an error, its row is there if and only if its
    clean-up did not remove it and no delete did; nothing is under its id then but
    an unfinished body it could not remove, or what was there before.
   */
  lemma AbandonedUploadLeaves(s: Store, events: seq<Event>, p: nat, id: nat)
    requires Fresh(s) && Owns(Run(s, events), p, id) && Run(s, events).calls[p].up.Abandoned?
    ensures var s', h := Run(s, events), HistoryOf(s, events, id);
            && (id in s'.rows <==> !h.undone && !h.deleted)
            && (id in s'.rows && id in s'.bodies ==> s'.bodies[id] == if id in s.bodies then s.bodies[id] else Torn)
  {
    RunTells(s, events, id);
    RunKeepsInv(s.bodies, s, events);
    assert CallInv(s.bodies, Run(s, events), Run(s, events).calls[p]);
    hide Run, HistoryOf, ThumbTells, Inv;
  }

  /**
    In every run: a row that is there claims a thumbnail if and only if its UPDATE
    took effect; a thumbnail that was made for it is there unless it was dropped; and
    the row claims one that is missing if and only if the UPDATE answered an error
    although it took effect and the thumbnail was then removed.
   */
  lemma ThumbnailMissingIff(s: Store, events: seq<Event>, id: nat)
    requires Fresh(s) && id in Run(s, events).rows
    ensures var s', h := Run(s, events), HistoryOf(s, events, id);
            && (s'.rows[id].hasThumbnail <==> h.claimed)
            && (h.made && !h.dropped ==> id in s'.thumbs)
            && (s'.rows[id].hasThumbnail && id !in s'.thumbs <==> h.unsure && h.dropped)
  {
    RunTells(s, events, id);
    RunKeepsInv(s.bodies, s, events);
    var p :| Owns(Run(s, events), p, id);
    assert FilesTell(Run(s, events), Run(s, events).calls[p], HistoryOf(s, events, id));
    hide Run, HistoryOf, FilesTell, CallInv, OneOwner, OneRemover, UnusedAsBefore;
  }

  /**
    What an upload's database and file-system actions change, whatever they answer:
    each takes effect if it succeeds, or if it errs and `took` says so - but for
    creating and filling the body, which take effect only if they succeed.
   */
  lemma ActionsTakeEffect(was: map<nat, Body>, s: Store, call: nat, ok: bool, took: bool)
    requires Inv(was, s) && call in s.calls && s.calls[call].Upload?
    ensures var s', c, effect := Step(s, Go(call, ok, took)), s.calls[call], ok || took;
            match c.up
            case Validated => s'.rows == if effect then s.rows[s.nextId := Row(c.bytes.sha256, false)] else s.rows
            case Inserted(id) => s'.bodies == if ok && id !in s.bodies then s.bodies[id := Torn] else s.bodies
            case Created(id) => s'.bodies == if ok && id in s.bodies then s.bodies[id := Whole(c.bytes)] else s.bodies
            case RemoveOwn(id) => s'.bodies == if effect then s.bodies - {id} else s.bodies
            case Undo(id) => s'.rows == if effect then s.rows - {id} else s.rows
            case Written(id) => s'.thumbs == if c.thumbnail && effect then s.thumbs + {id} else s.thumbs
            case ThumbWritten(id) =>
              s'.rows == if effect && id in s.rows then s.rows[id := s.rows[id].(hasThumbnail := true)] else s.rows
            case DropThumb(id) => s'.thumbs == if effect then s.thumbs - {id} else s.thumbs
            case _ => s' == s
  {
  }

  // ---- each of these happens --------------------------------------------------------------------

  /** The next action of a call, answered and taken effect. */
  function Goes(call: nat): Event {
    Go(call, true, true)
  }

  lemma RunThree(s: Store, a: Event, b: Event, c: Event)
    ensures Run(s, [a, b, c]) == Step(Step(Step(s, a), b), c)
  {
    hide Step;
    assert [a, b, c] == [] + [a] + [b] + [c];
    Extend(s, [], a);
    Extend(s, [a], b);
    Extend(s, [a, b], c);
  }

  /** An upload up to its row. */
  function Inserting(call: nat, bytes: Bytes, thumbnail: bool): seq<Event> {
    [Begin(call, Upload(bytes, thumbnail, Validated)), Goes(call)]
  }

  lemma RowIsInserted(s: Store, call: nat, bytes: Bytes, thumbnail: bool)
    requires call !in s.calls
    ensures Run(s, Inserting(call, bytes, thumbnail)) ==
              s.(rows := s.rows[s.nextId := Row(bytes.sha256, false)], nextId := s.nextId + 1,
                 calls := s.calls[call := Upload(bytes, thumbnail, Inserted(s.nextId))])
  {
    var begin := Begin(call, Upload(bytes, thumbnail, Validated));
    Extend(s, [], begin);
    Extend(s, [begin], Goes(call));
    assert Inserting(call, bytes, thumbnail) == [begin] + [Goes(call)];
    assert s.calls[call := Upload(bytes, thumbnail, Validated)][call := Upload(bytes, thumbnail, Inserted(s.nextId))]
        == s.calls[call := Upload(bytes, thumbnail, Inserted(s.nextId))];
  }

  /** An upload with every action answered well, with or without a thumbnail. */
  lemma UndisturbedUpload(s: Store, bytes: Bytes, thumbnail: bool)
    requires Fresh(s) && s.nextId !in s.bodies
    ensures var id := s.nextId;
            var events := Inserting(0, bytes, thumbnail) + [Goes(0), Goes(0), Goes(0)] + (if thumbnail then [Goes(0)] else []);
            var s' := Run(s, events);
            && s'.calls == map[0 := Upload(bytes, thumbnail, Stored(id))]
            && s'.rows == map[id := Row(bytes.sha256, thumbnail)]
            && s'.bodies == s.bodies[id := Whole(bytes)] && (thumbnail ==> id in s'.thumbs)
  {
    var id, rest := s.nextId, [Goes(0), Goes(0), Goes(0)] + (if thumbnail then [Goes(0)] else []);
    RowIsInserted(s, 0, bytes, thumbnail);
    RunAppend(s, Inserting(0, bytes, thumbnail), rest);
    assert Inserting(0, bytes, thumbnail) + [Goes(0), Goes(0), Goes(0)] + (if thumbnail then [Goes(0)] else [])
        == Inserting(0, bytes, thumbnail) + rest;
    RestOfUpload(Run(s, Inserting(0, bytes, thumbnail)), bytes, thumbnail, id);
    hide Run, Step, Inserting;
  }

  lemma RestOfUpload(s: Store, bytes: Bytes, thumbnail: bool, id: nat)
    requires s.calls == map[0 := Upload(bytes, thumbnail, Inserted(id))] && s.rows == map[id := Row(bytes.sha256, false)]
    requires id !in s.bodies
    ensures var s' := Run(s, [Goes(0), Goes(0), Goes(0)] + (if thumbnail then [Goes(0)] else []));
            && s'.calls == map[0 := Upload(bytes, thumbnail, Stored(id))]
            && s'.rows == map[id := Row(bytes.sha256, thumbnail)]
            && s'.bodies == s.bodies[id := Whole(bytes)] && (thumbnail ==> id in s'.thumbs)
  {
    hide Run, Step;
    var three := [Goes(0), Goes(0), Goes(0)];
    UploadCompletes(s, 0, id);
    if thumbnail {
      Extend(s, three, Goes(0));
      ClaimCompletes(Run(s, three), 0, id);
    } else {
      assert three + [] == three;
    }
  }

  lemma ClaimCompletes(s: Store, call: nat, id: nat)
    requires call in s.calls && s.calls[call].Upload? && s.calls[call].up == ThumbWritten(id) && id in s.rows
    ensures Step(s, Goes(call)) == s.(rows := s.rows[id := s.rows[id].(hasThumbnail := true)],
                                      calls := s.calls[call := s.calls[call].(up := Stored(id))])
  {
  }

  /** A delete with every action answered well: row, body and thumbnail are gone, and nothing else. */
  lemma UndisturbedDelete(s: Store, call: nat, id: nat)
    requires call !in s.calls && id in s.rows
    ensures var s' := Run(s, [Begin(call, Delete(id, Asked)), Goes(call)] + [Goes(call), Goes(call), Goes(call)]);
            && s' == s.(rows := s.rows - {id}, bodies := s.bodies - {id},
                        thumbs := if s.rows[id].hasThumbnail then s.thumbs - {id} else s.thumbs,
                        calls := s.calls[call := Delete(id, Deleted)])
  {
    DeleteReads(s, call, id);
    RunAppend(s, [Begin(call, Delete(id, Asked)), Goes(call)], [Goes(call), Goes(call), Goes(call)]);
    var s1 := Run(s, [Begin(call, Delete(id, Asked)), Goes(call)]);
    FilesAreRemoved(s1, call, id, s.rows[id].hasThumbnail);
    assert s1.calls[call := Delete(id, Deleted)] == s.calls[call := Delete(id, Deleted)];
    hide Run, Step;
  }

  lemma FilesAreRemoved(s: Store, call: nat, id: nat, thumb: bool)
    requires call in s.calls && s.calls[call] == Delete(id, Got(thumb)) && id in s.rows
    ensures Run(s, [Goes(call), Goes(call), Goes(call)])
         == s.(rows := s.rows - {id}, bodies := s.bodies - {id}, thumbs := if thumb then s.thumbs - {id} else s.thumbs,
               calls := s.calls[call := Delete(id, Deleted)])
  {
    RunThree(s, Goes(call), Goes(call), Goes(call));
    assert s.calls[call := Delete(id, RowGone(thumb))][call := Delete(id, BodyGone(thumb))][call := Delete(id, Deleted)]
        == s.calls[call := Delete(id, Deleted)];
  }

  /** A row outlives its body: the file cannot be created, and the clean-up cannot remove the row. */
  lemma RowWithoutBody(s: Store, bytes: Bytes)
    requires Fresh(s) && s.nextId !in s.bodies
    ensures var s' := Run(s, Inserting(0, bytes, false) + [Go(0, false, false), Go(0, false, false)]);
            0 in s'.calls && s'.calls[0] == Upload(bytes, false, Abandoned(s.nextId)) && s.nextId in s'.rows && s.nextId !in s'.bodies
  {
    var fails := Go(0, false, false);
    RowIsInserted(s, 0, bytes, false);
    RunAppend(s, Inserting(0, bytes, false), [fails, fails]);
    var s1 := Run(s, Inserting(0, bytes, false));
    Extend(s1, [], fails);
    Extend(s1, [fails], fails);
    assert [fails] + [fails] == [fails, fails];
  }

  lemma UploadCompletes(s: Store, call: nat, id: nat)
    requires call in s.calls && s.calls[call].Upload? && s.calls[call].up == Inserted(id)
    requires id !in s.bodies
    ensures var s' := Run(s, [Goes(call), Goes(call), Goes(call)]);
            && s'.calls == s.calls[call := s.calls[call].(up := if s.calls[call].thumbnail then ThumbWritten(id) else Stored(id))]
            && s'.rows == s.rows && s'.bodies == s.bodies[id := Whole(s.calls[call].bytes)]
            && (s.calls[call].thumbnail ==> id in s'.thumbs)
  {
    RunThree(s, Goes(call), Goes(call), Goes(call));
  }

  lemma DeleteCompletes(s: Store, call: nat, id: nat)
    requires call in s.calls && s.calls[call] == Delete(id, Got(false)) && id in s.rows
    ensures var s' := Run(s, [Goes(call), Goes(call), Goes(call)]);
            && s'.calls == s.calls[call := Delete(id, Deleted)]
            && s'.rows == s.rows - {id} && s'.bodies == s.bodies - {id} && s'.thumbs == s.thumbs
  {
    RunThree(s, Goes(call), Goes(call), Goes(call));
  }

  /** A delete between the INSERT and the write leaves the body an orphan, and the upload still reports success. */
  lemma DeletedWhileUploading(s: Store, bytes: Bytes)
    requires Fresh(s) && s.nextId !in s.bodies
    ensures var id := s.nextId;
            var events := Inserting(0, bytes, false) + [Begin(1, Delete(id, Asked)), Goes(1)]
                          + [Goes(1), Goes(1), Goes(1)] + [Goes(0), Goes(0), Goes(0)];
            var s' := Run(s, events);
            && s'.calls == map[0 := Upload(bytes, false, Stored(id)), 1 := Delete(id, Deleted)]
            && id !in s'.rows && s'.bodies == s.bodies[id := Whole(bytes)]
  {
    var id := s.nextId;
    var a, b := Inserting(0, bytes, false), [Begin(1, Delete(id, Asked)), Goes(1)];
    var down, up := [Goes(1), Goes(1), Goes(1)], [Goes(0), Goes(0), Goes(0)];
    RowIsInserted(s, 0, bytes, false);
    DeleteReads(Run(s, a), 1, id);
    RunAppend(s, a, b);
    RunAppend(s, a + b, down + up);
    assert a + b + down + up == a + b + (down + up);
    DeleteThenUpload(Run(s, a + b), bytes, id);
    hide Run, Step, Inserting;
  }

  lemma DeleteThenUpload(s: Store, bytes: Bytes, id: nat)
    requires s.calls == map[0 := Upload(bytes, false, Inserted(id)), 1 := Delete(id, Got(false))]
    requires id in s.rows && id !in s.bodies
    ensures var s' := Run(s, [Goes(1), Goes(1), Goes(1)] + [Goes(0), Goes(0), Goes(0)]);
            && s'.calls == map[0 := Upload(bytes, false, Stored(id)), 1 := Delete(id, Deleted)]
            && id !in s'.rows && s'.bodies == s.bodies[id := Whole(bytes)]
  {
    hide Run, Step;
    DeleteCompletes(s, 1, id);
    assert s.bodies - {id} == s.bodies;
    UploadCompletes(Run(s, [Goes(1), Goes(1), Goes(1)]), 0, id);
    RunAppend(s, [Goes(1), Goes(1), Goes(1)], [Goes(0), Goes(0), Goes(0)]);
  }

  lemma DeleteReads(s: Store, call: nat, id: nat)
    requires call !in s.calls && id in s.rows
    ensures Run(s, [Begin(call, Delete(id, Asked)), Goes(call)])
         == s.(calls := s.calls[call := Delete(id, Got(s.rows[id].hasThumbnail))])
  {
    var begin := Begin(call, Delete(id, Asked));
    Extend(s, [], begin);
    Extend(s, [begin], Goes(call));
    assert [begin] + [Goes(call)] == [begin, Goes(call)];
    assert s.calls[call := Delete(id, Asked)][call := Delete(id, Got(s.rows[id].hasThumbnail))]
        == s.calls[call := Delete(id, Got(s.rows[id].hasThumbnail))];
  }

  /** The `UPDATE` takes effect but answers an error, and the thumbnail is dropped: the row claims a missing file. */
  lemma DishonestUpdateLosesAThumbnail(s: Store, bytes: Bytes)
    requires Fresh(s) && s.nextId !in s.bodies
    ensures var id := s.nextId;
            var s' := Run(s, Inserting(0, bytes, true) + [Goes(0), Goes(0), Goes(0)] + [Go(0, false, true), Goes(0)]);
            && s'.calls == map[0 := Upload(bytes, true, Stored(id))]
            && id in s'.rows && s'.rows[id].hasThumbnail && id !in s'.thumbs
  {
    var id := s.nextId;
    var a, up, last := Inserting(0, bytes, true), [Goes(0), Goes(0), Goes(0)], [Go(0, false, true), Goes(0)];
    RowIsInserted(s, 0, bytes, true);
    RunAppend(s, a, up + last);
    assert a + up + last == a + (up + last);
    UploadThenLost(Run(s, a), bytes, id);
    hide Run, Step, Inserting;
  }

  lemma UploadThenLost(s: Store, bytes: Bytes, id: nat)
    requires s.calls == map[0 := Upload(bytes, true, Inserted(id))] && id in s.rows && id !in s.bodies
    ensures var s' := Run(s, [Goes(0), Goes(0), Goes(0)] + [Go(0, false, true), Goes(0)]);
            && s'.calls == map[0 := Upload(bytes, true, Stored(id))]
            && id in s'.rows && s'.rows[id].hasThumbnail && id !in s'.thumbs
  {
    hide Run, Step;
    UploadCompletes(s, 0, id);
    ThumbIsLost(Run(s, [Goes(0), Goes(0), Goes(0)]), 0, id);
    RunAppend(s, [Goes(0), Goes(0), Goes(0)], [Go(0, false, true), Goes(0)]);
  }

  lemma ThumbIsLost(s: Store, call: nat, id: nat)
    requires call in s.calls && s.calls[call].Upload? && s.calls[call].up == ThumbWritten(id) && id in s.rows
    ensures var s' := Run(s, [Go(call, false, true), Goes(call)]);
            && s'.calls == s.calls[call := s.calls[call].(up := Stored(id))]
            && id in s'.rows && s'.rows[id].hasThumbnail && id !in s'.thumbs
  {
    Extend(s, [], Go(call, false, true));
    Extend(s, [Go(call, false, true)], Goes(call));
    assert [Go(call, false, true)] + [Goes(call)] == [Go(call, false, true), Goes(call)];
  }
}
