/**
  Uploading and deleting attachments (`banto-attachments`): a row in the
  database, a body file and perhaps a thumbnail in the directory. Any number of
  calls run at once, one database or file-system action at a time; any action
  may fail, also after it took effect, and a call that crashes takes no further
  step. The directory may hold files from before.
 */
module AttachmentStore {
  import opened Text

  datatype Bytes = Bytes(data: nat, sha256: nat)

  datatype Row = Row(sha256: nat, hasThumbnail: bool)

  /** A body file that is being written holds no complete content yet. */
  datatype Body = Torn | Whole(bytes: Bytes)

  /**
    Where an upload is; `id` is the one its INSERT was given. `Stored` has returned
    the attachment, `Rejected` and `Abandoned` an error; an abandoned upload has
    had a row, whether it knows of it or not.
   */
  datatype UploadPhase =
    | Validated | Inserted(id: nat) | Created(id: nat) | RemoveOwn(id: nat) | Undo(id: nat)
    | Written(id: nat) | ThumbWritten(id: nat) | DropThumb(id: nat) | Stored(id: nat)
    | Rejected | Abandoned(id: nat)

  datatype DeletePhase = Asked | Got(hasThumbnail: bool) | RowGone(hasThumbnail: bool) | BodyGone(hasThumbnail: bool)
                       | Deleted | Missing | Errored

  datatype Call = Upload(bytes: Bytes, thumbnail: bool, up: UploadPhase) | Delete(target: nat, down: DeletePhase)

  datatype Store = Store(rows: map<nat, Row>, nextId: nat, bodies: map<nat, Body>, thumbs: set<nat>, calls: map<nat, Call>)

  /** `ok`: what the action answered; `took`: whether one that answered an error took effect all the same. */
  datatype Event = Begin(call: nat, what: Call) | Go(call: nat, ok: bool, took: bool)

  predicate HasId(c: Call) {
    c.Upload? && !c.up.Validated? && !c.up.Rejected?
  }

  /** The body was written to its end. */
  predicate PastWrite(up: UploadPhase) {
    up.Written? || up.ThumbWritten? || up.DropThumb? || up.Stored?
  }

  /** A delete whose statement removed the row. */
  predicate HasRemoved(c: Call) {
    c.Delete? && (c.down.RowGone? || c.down.BodyGone? || c.down.Deleted?)
  }

  function At(s: Store, call: nat, up: UploadPhase): Store
    requires call in s.calls && s.calls[call].Upload?
  {
    s.(calls := s.calls[call := s.calls[call].(up := up)])
  }

  /** Storing the row and the body, or taking them back. */
  predicate Storing(up: UploadPhase) {
    up.Validated? || up.Inserted? || up.Created? || up.RemoveOwn? || up.Undo?
  }

  function StoringStep(s: Store, call: nat, ok: bool, took: bool): Store
    requires call in s.calls && s.calls[call].Upload? && Storing(s.calls[call].up)
  {
    var c := s.calls[call];
    match c.up
    case Validated =>
      var inserted := s.(rows := s.rows[s.nextId := Row(c.bytes.sha256, false)], nextId := s.nextId + 1);
      if ok then At(inserted, call, Inserted(s.nextId))
      else if took then At(inserted, call, Abandoned(s.nextId))
      else At(s, call, Rejected)
    case Inserted(id) =>
      if ok && id !in s.bodies then At(s, call, Created(id)).(bodies := s.bodies[id := Torn]) else At(s, call, Undo(id))
    case Created(id) =>
      if ok then At(s, call, Written(id)).(bodies := if id in s.bodies then s.bodies[id := Whole(c.bytes)] else s.bodies)
      else At(s, call, RemoveOwn(id))
    case RemoveOwn(id) => At(s, call, Undo(id)).(bodies := if ok || took then s.bodies - {id} else s.bodies)
    case Undo(id) => At(s, call, Abandoned(id)).(rows := if ok || took then s.rows - {id} else s.rows)
  }

  /** The thumbnail of a stored body: none of it fails the upload. */
  function ThumbStep(s: Store, call: nat, ok: bool, took: bool): Store
    requires call in s.calls && s.calls[call].Upload? && !Storing(s.calls[call].up)
  {
    var c := s.calls[call];
    match c.up
    case Written(id) =>
      if !c.thumbnail then At(s, call, Stored(id))
      else
        At(s, call, if ok then ThumbWritten(id) else Stored(id))
        .(thumbs := if ok || took then s.thumbs + {id} else s.thumbs)
    case ThumbWritten(id) =>
      At(s, call, if ok then Stored(id) else DropThumb(id))
      .(rows := if (ok || took) && id in s.rows then s.rows[id := s.rows[id].(hasThumbnail := true)] else s.rows)
    case DropThumb(id) => At(s, call, Stored(id)).(thumbs := if ok || took then s.thumbs - {id} else s.thumbs)
    case Stored(_) => s
    case Rejected => s
    case Abandoned(_) => s
  }

  /** The next action of an upload. */
  function UploadStep(s: Store, call: nat, ok: bool, took: bool): Store
    requires call in s.calls && s.calls[call].Upload?
  {
    if Storing(s.calls[call].up) then StoringStep(s, call, ok, took) else ThumbStep(s, call, ok, took)
  }

  function DownAt(s: Store, call: nat, down: DeletePhase): Store
    requires call in s.calls && s.calls[call].Delete?
  {
    s.(calls := s.calls[call := s.calls[call].(down := down)])
  }

  /** The next action of a delete: the row first, then its files. */
  function DeleteStep(s: Store, call: nat, ok: bool, took: bool): Store
    requires call in s.calls && s.calls[call].Delete?
  {
    var id := s.calls[call].target;
    match s.calls[call].down
    case Asked =>
      if !ok then DownAt(s, call, Errored)
      else if id in s.rows then DownAt(s, call, Got(s.rows[id].hasThumbnail))
      else DownAt(s, call, Missing)
    case Got(thumb) =>
      DownAt(s, call, if !ok then Errored else if id in s.rows then RowGone(thumb) else Missing)
      .(rows := if ok || took then s.rows - {id} else s.rows)
    case RowGone(thumb) => DownAt(s, call, BodyGone(thumb)).(bodies := if ok || took then s.bodies - {id} else s.bodies)
    case BodyGone(thumb) =>
      DownAt(s, call, Deleted).(thumbs := if thumb && (ok || took) then s.thumbs - {id} else s.thumbs)
    case Deleted => s
    case Missing => s
    case Errored => s
  }

  function Step(s: Store, e: Event): Store {
    match e
    case Begin(call, what) =>
      if call in s.calls || (what.Upload? && what.up != Validated) || (what.Delete? && what.down != Asked)
      then s else s.(calls := s.calls[call := what])
    case Go(call, ok, took) =>
      if call !in s.calls then s
      else if s.calls[call].Upload? then UploadStep(s, call, ok, took)
      else DeleteStep(s, call, ok, took)
  }

  function Run(s: Store, events: seq<Event>): Store
    decreases events
  {
    if events == [] then s else Run(Step(s, events[0]), events[1..])
  }

  /** A step moves one call only. */
  lemma StepMovesOne(s: Store, e: Event, p: nat)
    requires p in s.calls && e.call != p
    ensures p in Step(s, e).calls && Step(s, e).calls[p] == s.calls[p]
  {
    if e.Go? && e.call in s.calls {
      if s.calls[e.call].Delete? { hide UploadStep; }
      else if Storing(s.calls[e.call].up) { hide ThumbStep, DeleteStep; }
      else { hide StoringStep, DeleteStep; }
    }
  }

  lemma {:induction false} RunAppend(s: Store, a: seq<Event>, b: seq<Event>)
    ensures Run(s, a + b) == Run(Run(s, a), b)
    decreases a
  {
    hide Step;
    if a == [] {
      assert a + b == b;
    } else {
      assert (a + b)[1..] == a[1..] + b;
      RunAppend(Step(s, a[0]), a[1..], b);
    }
  }

  lemma Extend(s: Store, events: seq<Event>, e: Event)
    ensures Run(s, events + [e]) == Step(Run(s, events), e)
  {
    hide Step;
    RunAppend(s, events, [e]);
  }

  /** The state before the last event of a run. */
  lemma LastStep(s: Store, events: seq<Event>)
    requires events != []
    ensures var n := |events| - 1;
            Run(s, events) == Step(Run(s, events[..n]), events[n])
  {
    var n := |events| - 1;
    assert events == events[..n] + [events[n]];
    Extend(s, events[..n], events[n]);
  }

  // ---- invariants ---------------------------------------------------------------------

  ghost predicate Owns(s: Store, p: nat, id: nat) {
    p in s.calls && HasId(s.calls[p]) && s.calls[p].up.id == id
  }

  /** The body file of a row, by how far its upload got; a file that was in the directory before, `was`, stops the upload. */
  ghost predicate BodyAsFar(was: map<nat, Body>, bodies: map<nat, Body>, bytes: Bytes, up: UploadPhase)
    requires !up.Validated? && !up.Rejected?
  {
    if up.id in was then
      up.id in bodies && bodies[up.id] == was[up.id] && (up.Inserted? || up.Undo? || up.Abandoned?)
    else if PastWrite(up) then up.id in bodies && bodies[up.id] == Whole(bytes)
    else if up.Created? || up.RemoveOwn? then up.id in bodies && bodies[up.id] == Torn
    else if up.Inserted? then up.id !in bodies
    else up.id in bodies ==> bodies[up.id] == Torn
  }

  /** What is known of an upload's row and body, while the row is there. */
  ghost predicate UploadInv(was: map<nat, Body>, s: Store, c: Call) {
    HasId(c) ==>
      && c.up.id < s.nextId
      && (c.up.Inserted? && c.up.id !in was ==> c.up.id !in s.bodies)
      && (c.up.id in s.rows ==> s.rows[c.up.id].sha256 == c.bytes.sha256 && BodyAsFar(was, s.bodies, c.bytes, c.up))
  }

  /** A delete removes files only of a row that is gone for good. */
  ghost predicate DeleteInv(s: Store, c: Call) {
    && (HasRemoved(c) ==> c.target < s.nextId && c.target !in s.rows)
    && (c.Delete? && c.down.Got? ==> c.target < s.nextId)
  }

  ghost predicate CallInv(was: map<nat, Body>, s: Store, c: Call) {
    UploadInv(was, s, c) && DeleteInv(s, c)
  }

  ghost predicate OneOwner(s: Store) {
    forall p, q ::
      p in s.calls && q in s.calls && HasId(s.calls[p]) && HasId(s.calls[q]) && s.calls[p].up.id == s.calls[q].up.id ==>
        p == q
  }

  ghost predicate OneRemover(s: Store) {
    forall p, q ::
      && p in s.calls && q in s.calls && HasRemoved(s.calls[p]) && HasRemoved(s.calls[q])
      && s.calls[p].target == s.calls[q].target ==>
        p == q
  }

  ghost predicate RowsAreOwned(s: Store) {
    forall id :: id in s.rows ==> id < s.nextId && exists p :: Owns(s, p, id)
  }

  /** Under the ids still to come the directory is as it was. */
  ghost predicate UnusedAsBefore(was: map<nat, Body>, s: Store) {
    forall id :: id >= s.nextId ==> (id in s.bodies <==> id in was) && (id in was ==> s.bodies[id] == was[id])
  }

  ghost predicate Inv(was: map<nat, Body>, s: Store) {
    && RowsAreOwned(s) && OneOwner(s) && OneRemover(s) && UnusedAsBefore(was, s)
    && (forall p :: p in s.calls ==> CallInv(was, s, s.calls[p]))
  }

  /** An upload gets its id once, from the counter; only that uses the counter up. */
  ghost predicate IdsMove(s: Store, s': Store, call: nat)
    requires call in s.calls
  {
    && call in s'.calls
    && var c, c' := s.calls[call], s'.calls[call];
    && s'.calls == s.calls[call := c'] && c.Upload? && c'.Upload? && c'.bytes == c.bytes && s.nextId <= s'.nextId <= s.nextId + 1
    && (HasId(c) ==> HasId(c') && c'.up.id == c.up.id && s'.nextId == s.nextId)
    && (HasId(c') && !HasId(c) ==> c'.up.id == s.nextId < s'.nextId)
    && (s.nextId < s'.nextId ==> HasId(c') && !HasId(c))
    && s'.rows.Keys <= s.rows.Keys + (if s.nextId < s'.nextId then {s.nextId} else {})
    && (forall id :: id >= s'.nextId ==> (id in s'.bodies <==> id in s.bodies) && (id in s.bodies ==> s'.bodies[id] == s.bodies[id]))
  }

  lemma StoringStepIds(was: map<nat, Body>, s: Store, call: nat, ok: bool, took: bool)
    requires call in s.calls && s.calls[call].Upload? && Storing(s.calls[call].up) && CallInv(was, s, s.calls[call])
    ensures IdsMove(s, StoringStep(s, call, ok, took), call)
  {
  }

  lemma ThumbStepIds(was: map<nat, Body>, s: Store, call: nat, ok: bool, took: bool)
    requires call in s.calls && s.calls[call].Upload? && !Storing(s.calls[call].up) && CallInv(was, s, s.calls[call])
    ensures IdsMove(s, ThumbStep(s, call, ok, took), call)
  {
  }

  lemma UploadStepIds(was: map<nat, Body>, s: Store, call: nat, ok: bool, took: bool)
    requires call in s.calls && s.calls[call].Upload? && CallInv(was, s, s.calls[call])
    ensures IdsMove(s, UploadStep(s, call, ok, took), call)
  {
    hide IdsMove, StoringStep, ThumbStep;
    if Storing(s.calls[call].up) { StoringStepIds(was, s, call, ok, took); } else { ThumbStepIds(was, s, call, ok, took); }
  }

  lemma MovingKeepsOwners(was: map<nat, Body>, s: Store, s': Store, call: nat)
    requires Inv(was, s) && call in s.calls && s.calls[call].Upload? && IdsMove(s, s', call)
    ensures RowsAreOwned(s') && OneOwner(s') && OneRemover(s') && UnusedAsBefore(was, s')
  {
    forall p | p in s.calls && HasId(s.calls[p]) ensures s.calls[p].up.id < s.nextId {
      assert CallInv(was, s, s.calls[p]);
    }
    forall id | id in s'.rows ensures id < s'.nextId && exists p :: Owns(s', p, id) {
      if id in s.rows {
        var p :| Owns(s, p, id);
        assert Owns(s', p, id);
      } else {
        assert Owns(s', call, id);
      }
    }
    hide CallInv, HasId, Inv;
  }

  lemma StoringStepKeepsItself(was: map<nat, Body>, s: Store, call: nat, ok: bool, took: bool)
    requires call in s.calls && s.calls[call].Upload? && Storing(s.calls[call].up) && CallInv(was, s, s.calls[call])
    requires UnusedAsBefore(was, s)
    ensures CallInv(was, StoringStep(s, call, ok, took), StoringStep(s, call, ok, took).calls[call])
  {
  }

  lemma ThumbStepKeepsItself(was: map<nat, Body>, s: Store, call: nat, ok: bool, took: bool)
    requires call in s.calls && s.calls[call].Upload? && !Storing(s.calls[call].up) && CallInv(was, s, s.calls[call])
    ensures CallInv(was, ThumbStep(s, call, ok, took), ThumbStep(s, call, ok, took).calls[call])
  {
  }

  lemma UploadStepKeepsItself(was: map<nat, Body>, s: Store, call: nat, ok: bool, took: bool)
    requires call in s.calls && s.calls[call].Upload? && CallInv(was, s, s.calls[call])
    requires UnusedAsBefore(was, s)
    ensures CallInv(was, UploadStep(s, call, ok, took), UploadStep(s, call, ok, took).calls[call])
  {
    hide CallInv, StoringStep, ThumbStep;
    if Storing(s.calls[call].up) {
      StoringStepKeepsItself(was, s, call, ok, took);
    } else {
      ThumbStepKeepsItself(was, s, call, ok, took);
    }
  }

  lemma StoringStepKeepsOthers(was: map<nat, Body>, s: Store, call: nat, ok: bool, took: bool, c: Call)
    requires call in s.calls && s.calls[call].Upload? && Storing(s.calls[call].up) && CallInv(was, s, c)
    requires HasId(c) && HasId(s.calls[call]) ==> c.up.id != s.calls[call].up.id
    ensures CallInv(was, StoringStep(s, call, ok, took), c)
  {
  }

  lemma ThumbStepKeepsOthers(was: map<nat, Body>, s: Store, call: nat, ok: bool, took: bool, c: Call)
    requires call in s.calls && s.calls[call].Upload? && !Storing(s.calls[call].up) && CallInv(was, s, c)
    requires HasId(c) && HasId(s.calls[call]) ==> c.up.id != s.calls[call].up.id
    ensures CallInv(was, ThumbStep(s, call, ok, took), c)
  {
  }

  lemma UploadStepKeepsOthers(was: map<nat, Body>, s: Store, call: nat, ok: bool, took: bool, c: Call)
    requires call in s.calls && s.calls[call].Upload? && CallInv(was, s, c)
    requires HasId(c) && HasId(s.calls[call]) ==> c.up.id != s.calls[call].up.id
    ensures CallInv(was, UploadStep(s, call, ok, took), c)
  {
    hide CallInv, StoringStep, ThumbStep;
    if Storing(s.calls[call].up) {
      StoringStepKeepsOthers(was, s, call, ok, took, c);
    } else {
      ThumbStepKeepsOthers(was, s, call, ok, took, c);
    }
  }

  lemma DeleteStepKeepsItself(was: map<nat, Body>, s: Store, call: nat, ok: bool, took: bool)
    requires call in s.calls && s.calls[call].Delete? && CallInv(was, s, s.calls[call])
    requires forall id :: id in s.rows ==> id < s.nextId
    ensures CallInv(was, DeleteStep(s, call, ok, took), DeleteStep(s, call, ok, took).calls[call])
  {
  }

  lemma DeleteStepKeepsOthers(was: map<nat, Body>, s: Store, call: nat, ok: bool, took: bool, c: Call)
    requires call in s.calls && s.calls[call].Delete? && CallInv(was, s, s.calls[call]) && CallInv(was, s, c)
    ensures CallInv(was, DeleteStep(s, call, ok, took), c)
  {
  }

  /** A delete takes rows and files of its target only, a row only by becoming its remover. */
  ghost predicate DeleteMoves(s: Store, s': Store, call: nat)
    requires call in s.calls && s.calls[call].Delete?
  {
    && call in s'.calls
    && var c, c' := s.calls[call], s'.calls[call];
    && s'.calls == s.calls[call := c'] && c'.Delete? && c'.target == c.target && s'.nextId == s.nextId
    && s'.rows.Keys <= s.rows.Keys
    && (HasRemoved(c') ==> HasRemoved(c) || c.target in s.rows)
    && (forall id :: id != c.target || (c.target in s.rows && !HasRemoved(c)) ==>
          (id in s'.bodies <==> id in s.bodies) && (id in s.bodies ==> s'.bodies[id] == s.bodies[id]))
    && (s'.bodies != s.bodies ==> HasRemoved(c))
  }

  lemma DeleteStepMoves(s: Store, call: nat, ok: bool, took: bool)
    requires call in s.calls && s.calls[call].Delete?
    ensures DeleteMoves(s, DeleteStep(s, call, ok, took), call)
  {
  }

  lemma DeletingKeepsOwners(was: map<nat, Body>, s: Store, s': Store, call: nat)
    requires Inv(was, s) && call in s.calls && s.calls[call].Delete? && DeleteMoves(s, s', call)
    ensures RowsAreOwned(s') && OneOwner(s') && OneRemover(s') && UnusedAsBefore(was, s')
  {
    assert CallInv(was, s, s.calls[call]);
    forall p | p in s.calls && HasRemoved(s.calls[p]) ensures s.calls[p].target !in s.rows {
      assert CallInv(was, s, s.calls[p]);
    }
    forall id | id in s'.rows ensures id < s'.nextId && exists p :: Owns(s', p, id) {
      var p :| Owns(s, p, id);
      assert Owns(s', p, id);
    }
    hide Inv, RowsAreOwned;
  }

  lemma StepKeepsInv(was: map<nat, Body>, s: Store, e: Event)
    requires Inv(was, s)
    ensures Inv(was, Step(s, e))
  {
    hide UploadStep, DeleteStep, IdsMove, DeleteMoves;
    match e {
      case Begin(call, what) => BeginKeepsInv(was, s, call, what);
      case Go(call, ok, took) =>
        if call in s.calls {
          assert CallInv(was, s, s.calls[call]);
          if s.calls[call].Upload? {
            UploadKeepsInv(was, s, call, ok, took);
          } else {
            DeleteKeepsInv(was, s, call, ok, took);
          }
        }
    }
    hide Inv;
  }

  lemma BeginKeepsInv(was: map<nat, Body>, s: Store, call: nat, what: Call)
    requires Inv(was, s)
    ensures Inv(was, Step(s, Begin(call, what)))
  {
    var s' := Step(s, Begin(call, what));
    if s' != s {
      assert CallInv(was, s', what);
      forall p | p in s.calls ensures CallInv(was, s', s'.calls[p]) {
        assert CallInv(was, s, s.calls[p]);
      }
      forall id | id in s'.rows ensures exists p :: Owns(s', p, id) {
        var p :| Owns(s, p, id);
        assert Owns(s', p, id);
      }
    }
  }

  lemma UploadKeepsInv(was: map<nat, Body>, s: Store, call: nat, ok: bool, took: bool)
    requires Inv(was, s) && call in s.calls && s.calls[call].Upload?
    ensures Inv(was, UploadStep(s, call, ok, took))
  {
    var s' := UploadStep(s, call, ok, took);
    assert CallInv(was, s, s.calls[call]);
    UploadStepIds(was, s, call, ok, took);
    MovingKeepsOwners(was, s, s', call);
    UploadStepKeepsItself(was, s, call, ok, took);
    assert s'.calls == s.calls[call := s'.calls[call]];
    forall p | p in s.calls && p != call ensures CallInv(was, s', s.calls[p]) {
      assert CallInv(was, s, s.calls[p]);
      UploadStepKeepsOthers(was, s, call, ok, took, s.calls[p]);
    }
    hide UploadStep, CallInv, HasId, RowsAreOwned, UnusedAsBefore, IdsMove, OneRemover;
  }

  lemma DeleteKeepsInv(was: map<nat, Body>, s: Store, call: nat, ok: bool, took: bool)
    requires Inv(was, s) && call in s.calls && s.calls[call].Delete?
    ensures Inv(was, DeleteStep(s, call, ok, took))
  {
    var s' := DeleteStep(s, call, ok, took);
    assert CallInv(was, s, s.calls[call]);
    DeleteStepMoves(s, call, ok, took);
    DeletingKeepsOwners(was, s, s', call);
    DeleteStepKeepsItself(was, s, call, ok, took);
    assert s'.calls == s.calls[call := s'.calls[call]];
    forall p | p in s.calls && p != call ensures CallInv(was, s', s.calls[p]) {
      assert CallInv(was, s, s.calls[p]);
      DeleteStepKeepsOthers(was, s, call, ok, took, s.calls[p]);
    }
    hide DeleteStep, CallInv, HasRemoved, UnusedAsBefore, DeleteMoves, OneOwner;
  }

  lemma {:induction false} RunKeepsInv(was: map<nat, Body>, s: Store, events: seq<Event>)
    requires Inv(was, s)
    ensures Inv(was, Run(s, events))
    decreases events
  {
    hide Inv, Step;
    if events != [] {
      StepKeepsInv(was, s, events[0]);
      RunKeepsInv(was, Step(s, events[0]), events[1..]);
    }
  }

  // ---- rows and bodies ---------------------------------------------------------------------

  /** A database without rows yet, over a directory that may hold anything. */
  ghost predicate Fresh(s: Store) {
    s.rows == map[] && s.calls == map[]
  }

  /** The row's body file is there, whole, and what the row's hash says. */
  ghost predicate HasItsBody(s: Store, id: nat)
    requires id in s.rows
  {
    id in s.bodies && s.bodies[id].Whole? && s.bodies[id].bytes.sha256 == s.rows[id].sha256
  }

  /** In every run, each row there is was inserted by exactly one upload. */
  lemma RowHasOneUpload(s: Store, events: seq<Event>, id: nat)
    requires Fresh(s) && id in Run(s, events).rows
    ensures exists p :: Owns(Run(s, events), p, id)
    ensures forall p, q :: Owns(Run(s, events), p, id) && Owns(Run(s, events), q, id) ==> p == q
  {
    RunKeepsInv(s.bodies, s, events);
  }

  /**
    In every run, for every row there is: it carries its upload's hash, and its
    body is whole with that hash if and only if the upload got past the write - or
    stopped at a file that was there before and happens to have this hash.
   */
  lemma RowHasItsBodyIff(s: Store, events: seq<Event>, p: nat, id: nat)
    requires Fresh(s) && Owns(Run(s, events), p, id) && id in Run(s, events).rows
    ensures var s' := Run(s, events);
            var c := s'.calls[p];
            && s'.rows[id].sha256 == c.bytes.sha256
            && (HasItsBody(s', id) <==>
                  PastWrite(c.up) || (id in s.bodies && s.bodies[id].Whole? && s.bodies[id].bytes.sha256 == c.bytes.sha256))
            && (PastWrite(c.up) ==> s'.bodies[id] == Whole(c.bytes))
  {
    RunKeepsInv(s.bodies, s, events);
    assert CallInv(s.bodies, Run(s, events), Run(s, events).calls[p]);
  }

  /** The call is a delete that removed this id's row. */
  ghost predicate Removes(s: Store, p: nat, id: nat) {
    p in s.calls && HasRemoved(s.calls[p]) && s.calls[p].target == id
  }

  /** In every run, at most one delete of an id finds its row, removes it and returns it. */
  lemma RemovedOnce(s: Store, events: seq<Event>, id: nat, p: nat, q: nat)
    requires Fresh(s) && Removes(Run(s, events), p, id) && Removes(Run(s, events), q, id)
    ensures p == q
  {
    RunKeepsInv(s.bodies, s, events);
    hide Run;
  }

  /** The upload that is still writing this body, or taking back one it could not write. */
  ghost predicate BeingWritten(s: Store, id: nat) {
    exists p :: p in s.calls && s.calls[p].Upload? && (s.calls[p].up == Created(id) || s.calls[p].up == RemoveOwn(id))
  }

  /** No step changes a finished body file, wherever it came from; it goes only once no row claims it. */
  lemma BodiesAreNeverOverwritten(was: map<nat, Body>, s: Store, e: Event, id: nat)
    requires Inv(was, s) && id in s.bodies && !BeingWritten(s, id)
    ensures var s' := Step(s, e);
            if id in s'.bodies then s'.bodies[id] == s.bodies[id] else id !in s.rows && id !in s'.rows
  {
    if e.Go? && e.call in s.calls {
      assert CallInv(was, s, s.calls[e.call]);
      if s.calls[e.call].Upload? {
        UploadLeavesBody(s, e.call, e.ok, e.took, id);
      }
      hide Inv, UploadStep, UploadInv;
    }
  }

  lemma UploadLeavesBody(s: Store, call: nat, ok: bool, took: bool, id: nat)
    requires call in s.calls && s.calls[call].Upload? && id in s.bodies
    requires s.calls[call].up != Created(id) && s.calls[call].up != RemoveOwn(id)
    ensures id in UploadStep(s, call, ok, took).bodies && UploadStep(s, call, ok, took).bodies[id] == s.bodies[id]
  {
  }
}
