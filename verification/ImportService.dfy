/**
  One import of `banto-attachments` as the loop it is. Between two of its actions
  any run of other imports' and writers' actions takes place (`Others`); what
  each method does is itself a run of `LegacyImport`.
 */
module ImportService {
  import opened Text
  import opened LegacyImport

  /** What the legacy directory turns out to be. */
  datatype LegacyDir = Absent | BaseItself | Separate

  /** None of the events is an action of this import. */
  ghost predicate NoneOf(events: seq<Event>, me: nat) {
    forall e :: e in events ==> (e.Go? || e.Begin? ==> e.importer != me)
  }

  /** Other participants leave an import where it is, and its temporary files alone. */
  ghost predicate Leaves(w: World, w': World, me: nat) {
    && me in w.importers && me in w'.importers && w'.importers[me] == w.importers[me]
    && forall k :: (Temp(me, k) in w.dir <==> Temp(me, k) in w'.dir)
                   && (Temp(me, k) in w.dir ==> w'.dir[Temp(me, k)] == w.dir[Temp(me, k)])
  }

  lemma MoveAddsNoTemp(w: World, i: nat, ok: bool, me: nat, k: nat)
    requires i in w.importers && w.importers[i].next < |w.importers[i].rows| && i != me && Temp(me, k) !in w.dir
    ensures Temp(me, k) !in Move(w.dir, w.legacy, i, w.importers[i], ok).0
  {
  }

  lemma StepLeaves(w: World, e: Event, me: nat)
    requires me in w.importers && (e.Go? || e.Begin? ==> e.importer != me)
    ensures Leaves(w, Step(w, e), me)
  {
    var w' := Step(w, e);
    forall k
      ensures Temp(me, k) in w.dir <==> Temp(me, k) in w'.dir
      ensures Temp(me, k) in w.dir ==> w'.dir[Temp(me, k)] == w.dir[Temp(me, k)]
    {
      if e.Go? && e.importer in w.importers && w.importers[e.importer].next < |w.importers[e.importer].rows| {
        if Temp(me, k) in w.dir {
          MoveReplacesNothing(w.dir, w.legacy, e.importer, w.importers[e.importer], e.ok, Temp(me, k));
        } else {
          MoveAddsNoTemp(w, e.importer, e.ok, me, k);
        }
      }
    }
    hide Move;
  }

  lemma {:induction false} OthersLeave(w: World, events: seq<Event>, me: nat)
    requires NoneOf(events, me) && me in w.importers
    ensures Leaves(w, Run(w, events), me)
    decreases events
  {
    if events != [] {
      assert events[0] in events;
      StepLeaves(w, events[0], me);
      OthersLeave(Step(w, events[0]), events[1..], me);
    }
    hide Step;
  }

  predicate HasLegacyBody(row: Row, legacy: map<Name, Content>) {
    Body(row.id) in legacy && legacy[Body(row.id)].sha256 == row.sha256
  }

  /** The three actions that place a body or a thumbnail. */
  lemma WriteMoves(dir: map<Name, Content>, legacy: map<Name, Content>, owner: nat, im: Importer, target: Name, bytes: Content, ok: bool)
    requires IsToPlace(im, target, WriteBody(bytes), WriteThumb(bytes))
    ensures var temp, next := Temp(owner, im.tempSeq + 1), im.(tempSeq := im.tempSeq + 1);
            Move(dir, legacy, owner, im, ok)
            == if ok && temp !in dir
               then (dir[temp := bytes], next.(pc := if target.Body? then LinkBody(bytes) else LinkThumb(bytes)))
               else (dir, if target.Body? then BodyPlaced(next, LinkFailed) else ThumbPlaced(next, LinkFailed))
  {
  }

  lemma LinkMoves(dir: map<Name, Content>, legacy: map<Name, Content>, owner: nat, im: Importer, target: Name, bytes: Content, ok: bool)
    requires IsToPlace(im, target, LinkBody(bytes), LinkThumb(bytes))
    ensures var (dir', link) := HardLink(dir, Temp(owner, im.tempSeq), target, ok);
            Move(dir, legacy, owner, im, ok)
            == (dir', im.(pc := if target.Body? then CleanBody(link) else CleanThumb(link)))
  {
  }

  lemma CleanMoves(dir: map<Name, Content>, legacy: map<Name, Content>, owner: nat, im: Importer, target: Name, link: Link, ok: bool)
    requires IsToPlace(im, target, CleanBody(link), CleanThumb(link))
    ensures Move(dir, legacy, owner, im, ok)
            == (if ok then dir - {Temp(owner, im.tempSeq)} else dir,
                if target.Body? then BodyPlaced(im, link) else ThumbPlaced(im, link))
  {
  }

  /** Once it has placed a file, it no longer matters which action of the import did. */
  lemma PlacedFromAnywhere(im: Importer, pc: Pc, link: Link)
    requires im.next < |im.rows|
    ensures BodyPlaced(im.(pc := pc), link) == BodyPlaced(im, link) && ThumbPlaced(im.(pc := pc), link) == ThumbPlaced(im, link)
  {
  }

  lemma ReadMoves(dir: map<Name, Content>, legacy: map<Name, Content>, owner: nat, im: Importer, ok: bool)
    requires im.next < |im.rows| && im.pc == ReadLegacy
    ensures var row := im.rows[im.next];
            Move(dir, legacy, owner, im, ok)
            == (dir, if !ok then BodyFailed(im)
                     else if Body(row.id) !in legacy then NextRow(im, im.report.(missing := im.report.missing + 1))
                     else if !HasLegacyBody(row, legacy) then NextRow(im, im.report.(mismatched := im.report.mismatched + 1))
                     else im.(pc := WriteBody(legacy[Body(row.id)])))
  {
  }

  lemma ThumbMoves(dir: map<Name, Content>, legacy: map<Name, Content>, owner: nat, im: Importer, ok: bool)
    requires im.next < |im.rows|
    ensures var thumb := Thumb(im.rows[im.next].id);
            && (im.pc == AtThumb ==>
                  Move(dir, legacy, owner, im, ok)
                  == (dir, if !ok then ThumbFailed(im) else if thumb in dir then NextRow(im, im.report) else im.(pc := ReadThumb)))
            && (im.pc == ReadThumb ==>
                  Move(dir, legacy, owner, im, ok)
                  == (dir, if ok && thumb in legacy then im.(pc := WriteThumb(legacy[thumb])) else ThumbFailed(im)))
  {
  }

  /** The import is about to take this action for its row's body, or that one for its thumbnail. */
  ghost predicate IsToPlace(im: Importer, target: Name, body: Pc, thumb: Pc) {
    && im.next < |im.rows|
    && ((target == Body(im.rows[im.next].id) && im.pc == body) || (target == Thumb(im.rows[im.next].id) && im.pc == thumb))
  }

  /** The temporary file to be linked holds the bytes. */
  lemma TempIsThere(w: World, owner: nat, target: Name, bytes: Content)
    requires Inv(w) && owner in w.importers && IsToPlace(w.importers[owner], target, LinkBody(bytes), LinkThumb(bytes))
    ensures var temp := Temp(owner, w.importers[owner].tempSeq);
            temp in w.dir && w.dir[temp] == bytes
  {
    assert ImporterInv(w.dir, w.legacy, owner, w.importers[owner]);
  }

  /** Where an import is when it has judged the body of its row. */
  function Judged(im: Importer, inPlace: bool, report: Report, tempSeq: nat): Importer
    requires im.next < |im.rows|
  {
    if inPlace then BodyDone(im.(tempSeq := tempSeq), report) else NextRow(im.(tempSeq := tempSeq), report)
  }

  /** The directory of one database, shared with everybody else. */
  class AttachmentsDir {
    var dir: map<Name, Content>
    const legacy: map<Name, Content>
    ghost var importers: map<nat, Importer>

    ghost function State(): World
      reads this
    {
      World(dir, legacy, importers)
    }

    ghost predicate Valid()
      reads this
    {
      Inv(State())
    }

    /** The import is at this point of a row, with this report. */
    ghost predicate At(owner: nat, pc: Pc, row: Row, report: Report, tempSeq: nat)
      reads this
    {
      && owner in importers
      && var im := importers[owner];
         im.next < |im.rows| && im.rows[im.next] == row && im.pc == pc && im.report == report && im.tempSeq == tempSeq
    }

    /** Any actions of other imports and writers. */
    method Others(ghost owner: nat) returns (ghost more: seq<Event>)
      modifies this
      ensures State() == Run(old(State()), more) && NoneOf(more, owner)
    {
      more := [];
    }

    method Meanwhile(ghost owner: nat, ghost start: World, ghost events: seq<Event>) returns (ghost more: seq<Event>)
      requires Valid() && State() == Run(start, events) && owner in importers
      modifies this
      ensures Valid() && State() == Run(start, more) && Leaves(old(State()), State(), owner)
    {
      hide Inv, Run, Leaves;
      ghost var before := State();
      ghost var others := Others(owner);
      RunKeepsInv(before, others);
      OthersLeave(before, others, owner);
      RunAppend(start, events, others);
      more := events + others;
    }

    /** What was just done to the directory is this import's next action. */
    ghost method Did(before: World, start: World, events: seq<Event>, owner: nat, ok: bool) returns (more: seq<Event>)
      requires Inv(before) && before == Run(start, events) && before.importers == importers && before.legacy == legacy
      requires owner in importers && importers[owner].next < |importers[owner].rows|
      requires dir == Move(before.dir, legacy, owner, importers[owner], ok).0
      modifies this`importers
      ensures Valid() && State() == Run(start, more)
      ensures importers == old(importers)[owner := Move(before.dir, legacy, owner, old(importers)[owner], ok).1]
    {
      hide Inv, Run, Move;
      StepKeepsInv(before, Go(owner, ok));
      Extend(start, events, Go(owner, ok));
      importers := importers[owner := Move(before.dir, legacy, owner, importers[owner], ok).1];
      more := events + [Go(owner, ok)];
    }

    /**
      `place_imported`: temporary file, hard link, and the temporary file is
      removed again. `before` and `after` are the directory around the link.
     */
    method PlaceImported(owner: nat, tempSeq: nat, target: Name, bytes: Content, writes: bool, links: bool, removes: bool,
                         ghost start: World, ghost events: seq<Event>)
      returns (link: Link, ghost before: map<Name, Content>, ghost after: map<Name, Content>, ghost more: seq<Event>)
      requires Valid() && State() == Run(start, events) && owner in importers && importers[owner].tempSeq == tempSeq
      requires IsToPlace(importers[owner], target, WriteBody(bytes), WriteThumb(bytes))
      modifies this
      ensures Valid() && State() == Run(start, more)
      ensures var im := old(importers)[owner].(tempSeq := tempSeq + 1);
              owner in importers && importers[owner] == if target.Body? then BodyPlaced(im, link) else ThumbPlaced(im, link)
      ensures link == Committed ==> target !in before && after == before[target := bytes]
      ensures link == AlreadyExists ==> target in before && after == before
      ensures link == LinkFailed ==> after == before
      ensures removes && Temp(owner, tempSeq + 1) !in old(dir) ==> Temp(owner, tempSeq + 1) !in dir
    {
      hide Inv, Run, Move, BodyPlaced, ThumbPlaced;
      ghost var im, now := importers[owner], State();
      before, after := dir, dir;
      var temp := Temp(owner, tempSeq + 1);
      var written := writes && temp !in dir;
      if written { dir := dir[temp := bytes]; }
      WriteMoves(now.dir, legacy, owner, im, target, bytes, writes);
      more := Did(now, start, events, owner, writes);
      if !written { return LinkFailed, before, after, more; }
      more := Meanwhile(owner, start, more);
      link, before, after, more := LinkAndClean(owner, temp, target, bytes, links, removes, start, more);
      PlacedFromAnywhere(im.(tempSeq := tempSeq + 1), if target.Body? then LinkBody(bytes) else LinkThumb(bytes), link);
    }

    method LinkAndClean(owner: nat, temp: Name, target: Name, bytes: Content, links: bool, removes: bool,
                        ghost start: World, ghost events: seq<Event>)
      returns (link: Link, ghost before: map<Name, Content>, ghost after: map<Name, Content>, ghost more: seq<Event>)
      requires Valid() && State() == Run(start, events) && owner in importers
      requires temp == Temp(owner, importers[owner].tempSeq)
      requires IsToPlace(importers[owner], target, LinkBody(bytes), LinkThumb(bytes))
      modifies this
      ensures Valid() && State() == Run(start, more)
      ensures var im := old(importers)[owner];
              owner in importers && importers[owner] == if target.Body? then BodyPlaced(im, link) else ThumbPlaced(im, link)
      ensures link == Committed ==> target !in before && after == before[target := bytes]
      ensures link == AlreadyExists ==> target in before && after == before
      ensures link == LinkFailed ==> after == before
      ensures removes ==> temp !in dir
    {
      hide Inv, Run, Move, BodyPlaced, ThumbPlaced;
      ghost var im, now := importers[owner], State();
      TempIsThere(now, owner, target, bytes);
      before := dir;
      if target in dir {
        link := AlreadyExists;
      } else if links {
        dir := dir[target := dir[temp]];
        link := Committed;
      } else {
        link := LinkFailed;
      }
      after := dir;
      LinkMoves(now.dir, legacy, owner, im, target, bytes, links);
      more := Did(now, start, events, owner, links);
      PlacedFromAnywhere(im, if target.Body? then CleanBody(link) else CleanThumb(link), link);
      more := Meanwhile(owner, start, more);
      im, now := importers[owner], State();
      if removes { dir := dir - {temp}; }
      CleanMoves(now.dir, legacy, owner, im, target, link, removes);
      more := Did(now, start, more, owner, removes);
    }

    /** `import_body`: copy one body whose target did not exist when it was looked for. */
    method ImportBody(owner: nat, tempSeq: nat, row: Row, report: Report, io: nat -> bool,
                      ghost start: World, ghost events: seq<Event>)
      returns (inPlace: bool, more: Report, used: nat, ghost actions: seq<Event>)
      requires Valid() && State() == Run(start, events) && At(owner, ReadLegacy, row, report, tempSeq)
      modifies this
      ensures Valid() && State() == Run(start, actions)
      ensures owner in importers && importers[owner] == Judged(old(importers)[owner], inPlace, more, used)
      ensures inPlace <==> more.copied + more.alreadyPresent == report.copied + report.alreadyPresent + 1
      ensures report.copied <= more.copied <= report.copied + (if HasLegacyBody(row, legacy) then 1 else 0)
    {
      hide Inv, Run, Move;
      ReadMoves(dir, legacy, owner, importers[owner], io(0));
      actions := Did(State(), start, events, owner, io(0));
      used := tempSeq;
      if !io(0) { return false, report.(failed := report.failed + 1), used, actions; }
      if Body(row.id) !in legacy { return false, report.(missing := report.missing + 1), used, actions; }
      var bytes := legacy[Body(row.id)];
      if bytes.sha256 != row.sha256 { return false, report.(mismatched := report.mismatched + 1), used, actions; }
      var link;
      ghost var before, after;
      link, before, after, actions := PlaceImported(owner, tempSeq, Body(row.id), bytes, io(1), io(2), io(3), start, actions);
      used := tempSeq + 1;
      match link {
        case Committed => return true, report.(copied := report.copied + 1), used, actions;
        case LinkFailed => return false, report.(failed := report.failed + 1), used, actions;
        case AlreadyExists =>
          actions := Meanwhile(owner, start, actions);
          inPlace, more, actions := JudgeExistingBody(owner, used, row, report, io(4), start, actions);
      }
    }

    /** The body that appeared after it was looked for is judged like one that was there. */
    method JudgeExistingBody(owner: nat, tempSeq: nat, row: Row, report: Report, ok: bool,
                             ghost start: World, ghost events: seq<Event>)
      returns (inPlace: bool, more: Report, ghost actions: seq<Event>)
      requires Valid() && State() == Run(start, events) && At(owner, JudgeAgain, row, report, tempSeq)
      modifies this
      ensures Valid() && State() == Run(start, actions) && dir == old(dir)
      ensures owner in importers && importers[owner] == Judged(old(importers)[owner], inPlace, more, tempSeq)
      ensures inPlace <==> ok && Body(row.id) in dir && dir[Body(row.id)].sha256 == row.sha256
      ensures inPlace <==> more.copied + more.alreadyPresent == report.copied + report.alreadyPresent + 1
      ensures more.copied == report.copied
    {
      hide Inv, Run;
      actions := Did(State(), start, events, owner, ok);
      if !ok || Body(row.id) !in dir { return false, report.(failed := report.failed + 1), actions; }
      inPlace, more := JudgeExisting(row, report);
    }

    /** `judge_existing`: whether the body that is there is the row's. */
    method JudgeExisting(row: Row, report: Report) returns (inPlace: bool, more: Report)
      requires Body(row.id) in dir
      ensures inPlace <==> dir[Body(row.id)].sha256 == row.sha256
      ensures more == if inPlace then report.(alreadyPresent := report.alreadyPresent + 1)
                      else report.(existingMismatched := report.existingMismatched + 1)
    {
      if dir[Body(row.id)].sha256 == row.sha256 { return true, report.(alreadyPresent := report.alreadyPresent + 1); }
      return false, report.(existingMismatched := report.existingMismatched + 1);
    }

    /** `import_thumbnail`: copy one thumbnail if it is missing. */
    method ImportThumbnail(owner: nat, tempSeq: nat, row: Row, report: Report, io: nat -> bool,
                           ghost start: World, ghost events: seq<Event>)
      returns (more: Report, used: nat, ghost actions: seq<Event>)
      requires Valid() && State() == Run(start, events) && At(owner, AtThumb, row, report, tempSeq)
      modifies this
      ensures Valid() && State() == Run(start, actions)
      ensures owner in importers && importers[owner] == NextRow(old(importers)[owner].(tempSeq := used), more)
      ensures more.(thumbnailsCopied := report.thumbnailsCopied, thumbnailsFailed := report.thumbnailsFailed) == report
      ensures report.thumbnailsCopied <= more.thumbnailsCopied
              <= report.thumbnailsCopied + (if Thumb(row.id) in legacy then 1 else 0)
    {
      hide Inv, Run, Move;
      var failed := report.(thumbnailsFailed := report.thumbnailsFailed + 1);
      used := tempSeq;
      ThumbMoves(dir, legacy, owner, importers[owner], io(0));
      actions := Did(State(), start, events, owner, io(0));
      if !io(0) { return failed, used, actions; }
      if Thumb(row.id) in dir { return report, used, actions; }
      actions := Meanwhile(owner, start, actions);
      more, used, actions := CopyThumbnail(owner, tempSeq, row, report, (k: nat) => io(k + 1), start, actions);
    }

    method CopyThumbnail(owner: nat, tempSeq: nat, row: Row, report: Report, io: nat -> bool,
                         ghost start: World, ghost events: seq<Event>)
      returns (more: Report, used: nat, ghost actions: seq<Event>)
      requires Valid() && State() == Run(start, events) && At(owner, ReadThumb, row, report, tempSeq)
      modifies this
      ensures Valid() && State() == Run(start, actions)
      ensures owner in importers && importers[owner] == NextRow(old(importers)[owner].(tempSeq := used), more)
      ensures more.(thumbnailsCopied := report.thumbnailsCopied, thumbnailsFailed := report.thumbnailsFailed) == report
      ensures report.thumbnailsCopied <= more.thumbnailsCopied
              <= report.thumbnailsCopied + (if Thumb(row.id) in legacy then 1 else 0)
    {
      hide Inv, Run, Move;
      var failed := report.(thumbnailsFailed := report.thumbnailsFailed + 1);
      ThumbMoves(dir, legacy, owner, importers[owner], io(0));
      actions := Did(State(), start, events, owner, io(0));
      if !io(0) || Thumb(row.id) !in legacy { return failed, tempSeq, actions; }
      var link;
      ghost var before, after;
      link, before, after, actions :=
        PlaceImported(owner, tempSeq, Thumb(row.id), legacy[Thumb(row.id)], io(1), io(2), io(3), start, actions);
      used := tempSeq + 1;
      match link {
        case Committed => more := report.(thumbnailsCopied := report.thumbnailsCopied + 1);
        case AlreadyExists => more := report;
        case LinkFailed => more := failed;
      }
    }

    /** One row: its body, then - if that is in place - its thumbnail. */
    method ImportRow(owner: nat, tempSeq: nat, row: Row, report: Report, io: nat -> bool,
                     ghost start: World, ghost events: seq<Event>)
      returns (more: Report, used: nat, ghost actions: seq<Event>)
      requires Valid() && State() == Run(start, events) && At(owner, AtBody, row, report, tempSeq)
      modifies this
      ensures Valid() && State() == Run(start, actions)
      ensures owner in importers && importers[owner] == NextRow(old(importers)[owner].(tempSeq := used), more)
      ensures more.copied == report.copied || (more.copied == report.copied + 1 && HasLegacyBody(row, legacy))
    {
      hide Inv, Run;
      var inPlace;
      inPlace, more, used, actions := ImportRowBody(owner, tempSeq, row, report, io, start, events);
      if inPlace && row.hasThumbnail {
        actions := Meanwhile(owner, start, actions);
        more, used, actions := ImportThumbnail(owner, used, row, more, (k: nat) => io(k + 6), start, actions);
      }
    }

    method ImportRowBody(owner: nat, tempSeq: nat, row: Row, report: Report, io: nat -> bool,
                         ghost start: World, ghost events: seq<Event>)
      returns (inPlace: bool, more: Report, used: nat, ghost actions: seq<Event>)
      requires Valid() && State() == Run(start, events) && At(owner, AtBody, row, report, tempSeq)
      modifies this
      ensures Valid() && State() == Run(start, actions)
      ensures owner in importers && importers[owner] == Judged(old(importers)[owner], inPlace, more, used)
      ensures report.copied <= more.copied <= report.copied + (if HasLegacyBody(row, legacy) then 1 else 0)
    {
      hide Inv, Run;
      actions := Meanwhile(owner, start, events);
      var there := Body(row.id) in dir;
      if there { inPlace, more := JudgeExisting(row, report); }
      actions := Did(State(), start, actions, owner, io(0));
      used := tempSeq;
      if !io(0) { return false, report.(failed := report.failed + 1), used, actions; }
      if !there {
        hide Move;
        actions := Meanwhile(owner, start, actions);
        inPlace, more, used, actions := ImportBody(owner, tempSeq, row, report, (k: nat) => io(k + 1), start, actions);
      }
    }

    /** An import that has not begun yet begins. */
    ghost method Begun(owner: nat, rows: seq<Row>) returns (events: seq<Event>)
      requires Valid() && owner !in importers
      modifies this`importers
      ensures Valid() && State() == Run(old(State()), events)
      ensures importers == old(importers)[owner := Importer(rows, 0, AtBody, 0, NoReport)]
    {
      hide Inv, Run;
      StepKeepsInv(State(), Begin(owner, rows));
      RunNone(State());
      Extend(State(), [], Begin(owner, rows));
      events := [] + [Begin(owner, rows)];
      importers := importers[owner := Importer(rows, 0, AtBody, 0, NoReport)];
    }

    /**
      `import_legacy_files`: nothing to do without a separate legacy directory;
      otherwise every row of the table (`rows`, if it can be read) is gone through,
      whatever the I/O of each row (`io`) and other writers do. What it did is a run
      of import `owner`, whose report is the one returned; a body is copied only for
      a row whose legacy file has the row's hash.
     */
    method ImportLegacyFiles(owner: nat, where: LegacyDir, rows: Option<seq<Row>>, io: (nat, nat) -> bool)
      returns (report: Option<Report>, ghost committed: seq<Row>, ghost events: seq<Event>)
      requires Valid() && owner !in importers
      modifies this
      ensures Valid() && State() == Run(old(State()), events)
      ensures where != Separate ==> report == Some(NoReport) && State() == old(State())
      ensures where == Separate && rows.None? ==> report.None? && State() == old(State())
      ensures where == Separate && rows.Some? ==>
                && report.Some? && owner in importers
                && importers[owner].(tempSeq := 0) == Importer(rows.value, |rows.value|, AtBody, 0, report.value)
                && BodyTotal(report.value) == |rows.value| && |committed| == report.value.copied
                && forall row :: row in committed ==> row in rows.value && HasLegacyBody(row, legacy)
    {
      hide Inv, Run, HasLegacyBody, BodyTotal;
      ghost var start := State();
      RunNone(start);
      committed, events := [], [];
      if where != Separate { return Some(NoReport), [], []; }
      if rows.None? { return None, [], []; }
      events := Begun(owner, rows.value);
      var sum, next, tempSeq := NoReport, 0, 0;
      while next < |rows.value|
        invariant 0 <= next <= |rows.value| && |committed| == sum.copied
        invariant Valid() && State() == Run(start, events)
        invariant owner in importers && importers[owner] == Importer(rows.value, next, AtBody, tempSeq, sum)
        invariant forall row :: row in committed ==> row in rows.value && HasLegacyBody(row, legacy)
      {
        ghost var copied := sum.copied;
        sum, tempSeq, events :=
          ImportRow(owner, tempSeq, rows.value[next], sum, (k: nat) => io(next, k), start, events);
        if sum.copied > copied { committed := committed + [rows.value[next]]; }
        next := next + 1;
      }
      ReportCounts(State(), owner);
      report := Some(sum);
    }
  }

  lemma ReportCounts(w: World, i: nat)
    requires Inv(w) && i in w.importers && w.importers[i].next == |w.importers[i].rows|
    ensures BodyTotal(w.importers[i].report) == |w.importers[i].rows|
  {
    assert ImporterInv(w.dir, w.legacy, i, w.importers[i]);
  }
}
