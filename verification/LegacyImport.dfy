/**
  Importing attachment files from a legacy directory (`banto-attachments`): any
  number of imports, each one file-system action at a time, and another writer
  in the same directory that may put, replace or remove any attachment file.
  Temporary names belong to the import that made them.
 */
module LegacyImport {
  import opened Text

  /** A file's bytes and their SHA-256; distinct contents may share a hash. */
  datatype Content = Content(bytes: nat, sha256: nat)

  datatype Name = Body(id: nat) | Thumb(id: nat) | Temp(owner: nat, seqNo: nat)

  datatype Row = Row(id: nat, sha256: nat, hasThumbnail: bool)

  datatype Report = Report(
    copied: nat, alreadyPresent: nat, existingMismatched: nat, missing: nat, mismatched: nat, failed: nat,
    thumbnailsCopied: nat, thumbnailsFailed: nat)

  function BodyTotal(r: Report): nat {
    r.copied + r.alreadyPresent + r.existingMismatched + r.missing + r.mismatched + r.failed
  }

  const NoReport := Report(0, 0, 0, 0, 0, 0, 0, 0)

  /** What a hard link from the temporary file answered. */
  datatype Link = Committed | AlreadyExists | LinkFailed

  /** The next file-system action of an import, within its current row. */
  datatype Pc =
    | AtBody | ReadLegacy | WriteBody(body: Content) | LinkBody(body: Content) | CleanBody(link: Link) | JudgeAgain
    | AtThumb | ReadThumb | WriteThumb(thumb: Content) | LinkThumb(thumb: Content) | CleanThumb(link: Link)

  datatype Importer = Importer(rows: seq<Row>, next: nat, pc: Pc, tempSeq: nat, report: Report)

  datatype World = World(dir: map<Name, Content>, legacy: map<Name, Content>, importers: map<nat, Importer>)

  /** `Begin` starts an import over these rows; `Go` lets it take its next action, whose I/O succeeds if `ok`. */
  datatype Event = Begin(importer: nat, rows: seq<Row>) | Go(importer: nat, ok: bool) | Put(name: Name, content: Content) | Remove(name: Name)

  function NextRow(im: Importer, report: Report): Importer {
    im.(next := im.next + 1, pc := AtBody, report := report)
  }

  /** The body is in place with the row's hash: go on to its thumbnail, if it has one. */
  function BodyDone(im: Importer, report: Report): Importer
    requires im.next < |im.rows|
  {
    if im.rows[im.next].hasThumbnail then im.(pc := AtThumb, report := report) else NextRow(im, report)
  }

  function JudgeExisting(im: Importer, existing: Content): Importer
    requires im.next < |im.rows|
  {
    if existing.sha256 == im.rows[im.next].sha256
    then BodyDone(im, im.report.(alreadyPresent := im.report.alreadyPresent + 1))
    else NextRow(im, im.report.(existingMismatched := im.report.existingMismatched + 1))
  }

  function BodyFailed(im: Importer): Importer {
    NextRow(im, im.report.(failed := im.report.failed + 1))
  }

  function ThumbFailed(im: Importer): Importer {
    NextRow(im, im.report.(thumbnailsFailed := im.report.thumbnailsFailed + 1))
  }

  /** What an import makes of a body it has tried to place. */
  function BodyPlaced(im: Importer, link: Link): Importer
    requires im.next < |im.rows|
  {
    match link
    case Committed => BodyDone(im, im.report.(copied := im.report.copied + 1))
    case AlreadyExists => im.(pc := JudgeAgain)
    case LinkFailed => BodyFailed(im)
  }

  function ThumbPlaced(im: Importer, link: Link): Importer {
    match link
    case Committed => NextRow(im, im.report.(thumbnailsCopied := im.report.thumbnailsCopied + 1))
    case AlreadyExists => NextRow(im, im.report)
    case LinkFailed => ThumbFailed(im)
  }

  /** `create_new`: the temporary file appears only under a name nothing has. */
  function WriteTemp(dir: map<Name, Content>, owner: nat, im: Importer, bytes: Content, ok: bool): Option<map<Name, Content>> {
    var temp := Temp(owner, im.tempSeq + 1);
    if ok && temp !in dir then Some(dir[temp := bytes]) else None
  }

  /** A hard link never replaces its target. */
  function HardLink(dir: map<Name, Content>, temp: Name, target: Name, ok: bool): (map<Name, Content>, Link) {
    if target in dir then (dir, AlreadyExists)
    else if ok && temp in dir then (dir[target := dir[temp]], Committed)
    else (dir, LinkFailed)
  }

  /** One action of import `owner`. */
  function Move(dir: map<Name, Content>, legacy: map<Name, Content>, owner: nat, im: Importer, ok: bool)
    : (map<Name, Content>, Importer)
    requires im.next < |im.rows|
  {
    var row := im.rows[im.next];
    var temp := Temp(owner, im.tempSeq);
    match im.pc
    case AtBody =>
      if !ok then (dir, BodyFailed(im))
      else if Body(row.id) in dir then (dir, JudgeExisting(im, dir[Body(row.id)]))
      else (dir, im.(pc := ReadLegacy))
    case ReadLegacy =>
      if !ok then (dir, BodyFailed(im))
      else if Body(row.id) !in legacy then (dir, NextRow(im, im.report.(missing := im.report.missing + 1)))
      else if legacy[Body(row.id)].sha256 != row.sha256
      then (dir, NextRow(im, im.report.(mismatched := im.report.mismatched + 1)))
      else (dir, im.(pc := WriteBody(legacy[Body(row.id)])))
    case WriteBody(body) =>
      (match WriteTemp(dir, owner, im, body, ok)
       case None => (dir, BodyFailed(im.(tempSeq := im.tempSeq + 1)))
       case Some(dir') => (dir', im.(pc := LinkBody(body), tempSeq := im.tempSeq + 1)))
    case LinkBody(_) =>
      var (dir', link) := HardLink(dir, temp, Body(row.id), ok);
      (dir', im.(pc := CleanBody(link)))
    case CleanBody(link) => (if ok then dir - {temp} else dir, BodyPlaced(im, link))
    case JudgeAgain =>
      if ok && Body(row.id) in dir then (dir, JudgeExisting(im, dir[Body(row.id)])) else (dir, BodyFailed(im))
    case AtThumb =>
      if !ok then (dir, ThumbFailed(im))
      else if Thumb(row.id) in dir then (dir, NextRow(im, im.report))
      else (dir, im.(pc := ReadThumb))
    case ReadThumb =>
      if ok && Thumb(row.id) in legacy then (dir, im.(pc := WriteThumb(legacy[Thumb(row.id)]))) else (dir, ThumbFailed(im))
    case WriteThumb(thumb) =>
      (match WriteTemp(dir, owner, im, thumb, ok)
       case None => (dir, ThumbFailed(im.(tempSeq := im.tempSeq + 1)))
       case Some(dir') => (dir', im.(pc := LinkThumb(thumb), tempSeq := im.tempSeq + 1)))
    case LinkThumb(_) =>
      var (dir', link) := HardLink(dir, temp, Thumb(row.id), ok);
      (dir', im.(pc := CleanThumb(link)))
    case CleanThumb(link) => (if ok then dir - {temp} else dir, ThumbPlaced(im, link))
  }

  /** The other writer never uses an import's temporary names. */
  function Step(w: World, e: Event): World {
    match e
    case Begin(i, rows) =>
      if i in w.importers then w
      else w.(importers := w.importers[i := Importer(rows, 0, AtBody, 0, NoReport)])
    case Go(i, ok) =>
      if i in w.importers && w.importers[i].next < |w.importers[i].rows| then
        var (dir, im) := Move(w.dir, w.legacy, i, w.importers[i], ok);
        w.(dir := dir, importers := w.importers[i := im])
      else w
    case Put(name, content) => if name.Temp? then w else w.(dir := w.dir[name := content])
    case Remove(name) => if name.Temp? then w else w.(dir := w.dir - {name})
  }

  function Run(w: World, events: seq<Event>): World
    decreases events
  {
    if events == [] then w else Run(Step(w, events[0]), events[1..])
  }

  lemma {:induction false} RunAppend(w: World, a: seq<Event>, b: seq<Event>)
    ensures Run(w, a + b) == Run(Run(w, a), b)
    decreases a
  {
    hide Step;
    if a == [] {
      assert a + b == b;
    } else {
      assert (a + b)[1..] == a[1..] + b;
      RunAppend(Step(w, a[0]), a[1..], b);
    }
  }

  lemma Extend(w: World, events: seq<Event>, e: Event)
    ensures Run(w, events + [e]) == Step(Run(w, events), e)
  {
    hide Step;
    RunAppend(w, events, [e]);
  }

  // ---- what every step keeps ----------------------------------------------------

  predicate InThumb(pc: Pc) {
    pc.AtThumb? || pc.ReadThumb? || pc.WriteThumb? || pc.LinkThumb? || pc.CleanThumb?
  }

  /** Every row so far is counted once; a thumbnail is looked at once, for a row that has one and whose body is in place. */
  ghost predicate CountInv(im: Importer) {
    && im.next <= |im.rows|
    && (im.next == |im.rows| ==> im.pc == AtBody)
    && BodyTotal(im.report) == im.next + (if InThumb(im.pc) then 1 else 0)
    && (InThumb(im.pc) ==> im.rows[im.next].hasThumbnail)
    && im.report.thumbnailsCopied + im.report.thumbnailsFailed + (if InThumb(im.pc) then 1 else 0)
       <= im.report.copied + im.report.alreadyPresent
  }

  /** Bytes about to be committed are the row's legacy file, whole, in the import's own temporary file. */
  ghost predicate BytesInv(dir: map<Name, Content>, legacy: map<Name, Content>, owner: nat, im: Importer) {
    im.next < |im.rows| ==>
      var row := im.rows[im.next];
      var temp := Temp(owner, im.tempSeq);
      && (im.pc.WriteBody? || im.pc.LinkBody? ==>
            im.pc.body.sha256 == row.sha256 && Body(row.id) in legacy && legacy[Body(row.id)] == im.pc.body)
      && (im.pc.WriteThumb? || im.pc.LinkThumb? ==>
            Thumb(row.id) in legacy && legacy[Thumb(row.id)] == im.pc.thumb)
      && (im.pc.LinkBody? ==> temp in dir && dir[temp] == im.pc.body)
      && (im.pc.LinkThumb? ==> temp in dir && dir[temp] == im.pc.thumb)
  }

  ghost predicate ImporterInv(dir: map<Name, Content>, legacy: map<Name, Content>, owner: nat, im: Importer) {
    CountInv(im) && BytesInv(dir, legacy, owner, im)
  }

  ghost predicate Inv(w: World) {
    forall i :: i in w.importers ==> ImporterInv(w.dir, w.legacy, i, w.importers[i])
  }

  /** An import changes no file that is there, its own temporary ones included, and removes only the one it has linked. */
  lemma MoveReplacesNothing(dir: map<Name, Content>, legacy: map<Name, Content>, owner: nat, im: Importer, ok: bool, n: Name)
    requires im.next < |im.rows| && n in dir
    ensures var dir' := Move(dir, legacy, owner, im, ok).0;
            if n in dir' then dir'[n] == dir[n]
            else ok && n == Temp(owner, im.tempSeq) && (im.pc.CleanBody? || im.pc.CleanThumb?)
    ensures im.pc.CleanBody? || im.pc.CleanThumb? ==> (ok ==> Temp(owner, im.tempSeq) !in Move(dir, legacy, owner, im, ok).0)
  {
  }

  lemma JudgeCounts(im: Importer, existing: Content)
    requires im.next < |im.rows| && CountInv(im) && !InThumb(im.pc)
    ensures CountInv(JudgeExisting(im, existing))
  {
  }

  lemma PlacedCounts(im: Importer, link: Link)
    requires im.next < |im.rows| && CountInv(im) && !InThumb(im.pc)
    ensures CountInv(BodyPlaced(im, link)) && CountInv(BodyFailed(im)) && CountInv(BodyFailed(im.(tempSeq := im.tempSeq + 1)))
  {
  }

  lemma MoveCountsBody(dir: map<Name, Content>, legacy: map<Name, Content>, owner: nat, im: Importer, ok: bool)
    requires im.next < |im.rows| && CountInv(im) && !InThumb(im.pc)
    ensures CountInv(Move(dir, legacy, owner, im, ok).1)
  {
    hide WriteTemp, HardLink;
    forall existing ensures CountInv(JudgeExisting(im, existing)) { JudgeCounts(im, existing); }
    forall link ensures CountInv(BodyPlaced(im, link)) { PlacedCounts(im, link); }
    PlacedCounts(im, Committed);
    hide JudgeExisting, BodyPlaced, BodyFailed;
  }

  lemma MoveCountsThumb(dir: map<Name, Content>, legacy: map<Name, Content>, owner: nat, im: Importer, ok: bool)
    requires im.next < |im.rows| && CountInv(im) && InThumb(im.pc)
    ensures CountInv(Move(dir, legacy, owner, im, ok).1)
  {
    hide WriteTemp, HardLink;
  }

  lemma MoveKeepsBytes(dir: map<Name, Content>, legacy: map<Name, Content>, owner: nat, im: Importer, ok: bool)
    requires im.next < |im.rows| && BytesInv(dir, legacy, owner, im)
    ensures var (dir', im') := Move(dir, legacy, owner, im, ok);
            BytesInv(dir', legacy, owner, im')
  {
  }

  lemma MoveKeepsOthers(dir: map<Name, Content>, legacy: map<Name, Content>, owner: nat, im: Importer, ok: bool,
                        other: nat, o: Importer)
    requires im.next < |im.rows| && other != owner && ImporterInv(dir, legacy, other, o)
    ensures ImporterInv(Move(dir, legacy, owner, im, ok).0, legacy, other, o)
  {
    if o.pc.LinkBody? || o.pc.LinkThumb? {
      MoveReplacesNothing(dir, legacy, owner, im, ok, Temp(other, o.tempSeq));
    }
    hide Move;
  }

  lemma MoveKeepsItself(dir: map<Name, Content>, legacy: map<Name, Content>, owner: nat, im: Importer, ok: bool)
    requires im.next < |im.rows| && ImporterInv(dir, legacy, owner, im)
    ensures var (dir', im') := Move(dir, legacy, owner, im, ok);
            ImporterInv(dir', legacy, owner, im')
  {
    if InThumb(im.pc) { MoveCountsThumb(dir, legacy, owner, im, ok); } else { MoveCountsBody(dir, legacy, owner, im, ok); }
    MoveKeepsBytes(dir, legacy, owner, im, ok);
    hide Move, CountInv, BytesInv;
  }

  lemma StepKeepsInv(w: World, e: Event)
    requires Inv(w)
    ensures Inv(Step(w, e)) && Step(w, e).legacy == w.legacy
  {
    var w' := Step(w, e);
    forall i | i in w'.importers ensures ImporterInv(w'.dir, w'.legacy, i, w'.importers[i]) {
      if i in w.importers { assert ImporterInv(w.dir, w.legacy, i, w.importers[i]); }
      if e.Go? && e.importer in w.importers && w.importers[e.importer].next < |w.importers[e.importer].rows| {
        assert i in w.importers;
        if i == e.importer {
          MoveKeepsItself(w.dir, w.legacy, i, w.importers[i], e.ok);
        } else {
          MoveKeepsOthers(w.dir, w.legacy, e.importer, w.importers[e.importer], e.ok, i, w.importers[i]);
        }
        hide ImporterInv;
      } else {
        OthersKeepImporter(w, e, i);
      }
    }
    hide Move, ImporterInv, Inv;
  }

  lemma OthersKeepImporter(w: World, e: Event, i: nat)
    requires i in w.importers ==> ImporterInv(w.dir, w.legacy, i, w.importers[i])
    requires i in Step(w, e).importers
    requires e.Go? && e.importer in w.importers ==> w.importers[e.importer].next >= |w.importers[e.importer].rows|
    ensures ImporterInv(Step(w, e).dir, Step(w, e).legacy, i, Step(w, e).importers[i])
  {
    hide Move, ImporterInv;
    var w' := Step(w, e);
    if i !in w.importers {
      FreshImporter(w.dir, w.legacy, i, w'.importers[i].rows);
    } else {
      var im := w.importers[i];
      assert w'.importers[i] == im && w'.legacy == w.legacy;
      assert forall t: Name :: t.Temp? ==> (t in w.dir <==> t in w'.dir) && (t in w.dir ==> w'.dir[t] == w.dir[t]);
      TempsTell(w.dir, w'.dir, w.legacy, i, im);
    }
  }

  lemma FreshImporter(dir: map<Name, Content>, legacy: map<Name, Content>, owner: nat, rows: seq<Row>)
    ensures ImporterInv(dir, legacy, owner, Importer(rows, 0, AtBody, 0, NoReport))
  {
    FreshCounts(rows);
    hide CountInv;
  }

  lemma FreshCounts(rows: seq<Row>)
    ensures CountInv(Importer(rows, 0, AtBody, 0, NoReport))
  {
  }

  /** Of the directory only the import's own temporary files matter to it. */
  lemma TempsTell(dir: map<Name, Content>, dir': map<Name, Content>, legacy: map<Name, Content>, owner: nat, im: Importer)
    requires ImporterInv(dir, legacy, owner, im)
    requires forall t: Name :: t.Temp? ==> (t in dir <==> t in dir') && (t in dir ==> dir'[t] == dir[t])
    ensures ImporterInv(dir', legacy, owner, im)
  {
    hide CountInv;
  }

  /** In every run the invariant holds and the legacy directory is exactly as it was. */
  lemma {:induction false} RunKeepsInv(w: World, events: seq<Event>)
    requires Inv(w)
    ensures Inv(Run(w, events)) && Run(w, events).legacy == w.legacy
    decreases events
  {
    if events != [] {
      StepKeepsInv(w, events[0]);
      RunKeepsInv(Step(w, events[0]), events[1..]);
    }
  }

  /**
    A finished import's six body counters add up to the number of its rows, and
    it judged at most one thumbnail for each body in place.
   */
  lemma FinishedReportAddsUp(w: World, events: seq<Event>, i: nat)
    requires Inv(w) && i in Run(w, events).importers
    ensures var im := Run(w, events).importers[i];
            var r := im.report;
            && (im.next == |im.rows| ==> BodyTotal(r) == |im.rows|)
            && r.thumbnailsCopied + r.thumbnailsFailed <= r.copied + r.alreadyPresent
  {
    RunKeepsInv(w, events);
  }

  // ---- commits ------------------------------------------------------------------

  /** This step makes `n` appear, and it is an import's step. */
  predicate Commits(w: World, e: Event, n: Name) {
    e.Go? && !n.Temp? && n !in w.dir && n in Step(w, e).dir
  }

  /** An import's step never changes a file that is there, and removes none but the temporary one it has linked. */
  lemma ImportNeverReplaces(w: World, e: Event, n: Name)
    requires e.Go? && n in w.dir
    ensures if n in Step(w, e).dir then Step(w, e).dir[n] == w.dir[n]
            else e.importer in w.importers && n == Temp(e.importer, w.importers[e.importer].tempSeq)
                 && (w.importers[e.importer].pc.CleanBody? || w.importers[e.importer].pc.CleanThumb?)
  {
    if e.importer in w.importers && w.importers[e.importer].next < |w.importers[e.importer].rows| {
      MoveReplacesNothing(w.dir, w.legacy, e.importer, w.importers[e.importer], e.ok, n);
    }
    hide Move;
  }

  /** What a step commits is the whole legacy file of one of the import's rows, and a body has the row's hash. */
  lemma CommitIsTheRowsFile(w: World, e: Event, n: Name)
    requires Inv(w) && Commits(w, e, n)
    ensures var im := w.importers[e.importer];
            var row := im.rows[im.next];
            && n in w.legacy && Step(w, e).dir[n] == w.legacy[n]
            && (n == Body(row.id) || (n == Thumb(row.id) && row.hasThumbnail))
            && (n.Body? ==> Step(w, e).dir[n].sha256 == row.sha256)
  {
    assert ImporterInv(w.dir, w.legacy, e.importer, w.importers[e.importer]);
  }

  function CommitCount(w: World, events: seq<Event>, n: Name): nat
    decreases events
  {
    if events == [] then 0
    else (if Commits(w, events[0], n) then 1 else 0) + CommitCount(Step(w, events[0]), events[1..], n)
  }

  /** How often the other writer really removes `n`. */
  function RemovalCount(w: World, events: seq<Event>, n: Name): nat
    decreases events
  {
    if events == [] then 0
    else (if events[0] == Remove(n) && !n.Temp? && n in w.dir then 1 else 0)
         + RemovalCount(Step(w, events[0]), events[1..], n)
  }

  /**
    All imports together commit a target at most once more than the other writer
    removes it - so at most once if it removes nothing, and never if the target
    was there and stays.
   */
  lemma {:induction false} CommitsBounded(w: World, events: seq<Event>, n: Name)
    requires !n.Temp?
    ensures CommitCount(w, events, n) <= RemovalCount(w, events, n) + (if n in w.dir then 0 else 1)
    decreases events
  {
    if events != [] {
      if events[0].Go? && n in w.dir { ImportNeverReplaces(w, events[0], n); }
      CommitsBounded(Step(w, events[0]), events[1..], n);
    }
  }

  /** One import of row 1, from its start to its end, with every action answered well. */
  function OneImport(i: nat, sha256: nat): seq<Event> {
    [Begin(i, [Row(1, sha256, false)])] + [Go(i, true), Go(i, true), Go(i, true)] + [Go(i, true), Go(i, true)]
  }

  /** That many imports in turn, with the target removed after each of them. */
  function Rounds(n: nat, sha256: nat): seq<Event> {
    if n == 0 then [] else Rounds(n - 1, sha256) + (OneImport(n - 1, sha256) + [Remove(Body(1))])
  }

  /** Where such an import ends. */
  function Imported(sha256: nat): Importer {
    Importer([Row(1, sha256, false)], 1, AtBody, 1, NoReport.(copied := 1))
  }

  lemma RunThree(w: World, a: Event, b: Event, c: Event)
    ensures Run(w, [a, b, c]) == Step(Step(Step(w, a), b), c)
  {
    hide Step;
    assert [a, b, c] == [] + [a] + [b] + [c];
    Extend(w, [], a);
    Extend(w, [a], b);
    Extend(w, [a, b], c);
  }

  /** A world in which row 1 is still to be imported, by imports that have yet to begin. */
  ghost predicate Importable(w: World, sha256: nat, from: nat) {
    && Body(1) !in w.dir && Body(1) in w.legacy && w.legacy[Body(1)].sha256 == sha256
    && forall i: nat :: i >= from ==> i !in w.importers && Temp(i, 1) !in w.dir
  }

  lemma OneImportRuns(w: World, i: nat, sha256: nat)
    requires Importable(w, sha256, i)
    ensures Run(w, OneImport(i, sha256))
         == w.(dir := w.dir[Body(1) := w.legacy[Body(1)]], importers := w.importers[i := Imported(sha256)])
    ensures CommitCount(w, OneImport(i, sha256), Body(1)) == 1 && RemovalCount(w, OneImport(i, sha256), Body(1)) == 0
  {
    hide Run, CommitCount, RemovalCount, Move;
    var begin := [Begin(i, [Row(1, sha256, false)])];
    var copy, link := [Go(i, true), Go(i, true), Go(i, true)], [Go(i, true), Go(i, true)];
    var w1 := w.(importers := w.importers[i := Importer([Row(1, sha256, false)], 0, AtBody, 0, NoReport)]);
    RunNone(w);
    Extend(w, [], begin[0]);
    assert [] + begin == begin && Run(w, begin) == w1;
    CountOne(w, begin[0], Body(1));
    CopiesAndLinks(w1, i, sha256);
    RunAppend(w, begin, copy + link);
    CountAppend(w, begin, copy + link, Body(1));
    assert OneImport(i, sha256) == begin + (copy + link);
    assert w1.importers[i := Imported(sha256)] == w.importers[i := Imported(sha256)];
  }

  lemma RunNone(w: World)
    ensures Run(w, []) == w
  {
  }

  lemma CopiesAndLinks(w: World, i: nat, sha256: nat)
    requires i in w.importers && w.importers[i] == Importer([Row(1, sha256, false)], 0, AtBody, 0, NoReport)
    requires Body(1) !in w.dir && Body(1) in w.legacy && w.legacy[Body(1)].sha256 == sha256 && Temp(i, 1) !in w.dir
    ensures var gos := [Go(i, true), Go(i, true), Go(i, true)] + [Go(i, true), Go(i, true)];
            && Run(w, gos)
               == w.(dir := w.dir[Body(1) := w.legacy[Body(1)]], importers := w.importers[i := Imported(sha256)])
            && CommitCount(w, gos, Body(1)) == 1 && RemovalCount(w, gos, Body(1)) == 0
  {
    hide Run, CommitCount, RemovalCount, Step, Move;
    var copy, link, bytes := [Go(i, true), Go(i, true), Go(i, true)], [Go(i, true), Go(i, true)], w.legacy[Body(1)];
    Copies(w, i, sha256);
    var w2 := Run(w, copy);
    Links(w2, i, sha256, bytes);
    RunAppend(w, copy, link);
    CountAppend(w, copy, link, Body(1));
    assert w2.importers[i := Imported(sha256)] == w.importers[i := Imported(sha256)];
    assert w.dir[Temp(i, 1) := bytes][Body(1) := bytes] - {Temp(i, 1)} == w.dir[Body(1) := bytes];
  }

  /** Up to the temporary file. */
  lemma Copies(w: World, i: nat, sha256: nat)
    requires i in w.importers && w.importers[i] == Importer([Row(1, sha256, false)], 0, AtBody, 0, NoReport)
    requires Body(1) !in w.dir && Body(1) in w.legacy && w.legacy[Body(1)].sha256 == sha256 && Temp(i, 1) !in w.dir
    ensures var gos := [Go(i, true), Go(i, true), Go(i, true)];
            && Run(w, gos) == w.(dir := w.dir[Temp(i, 1) := w.legacy[Body(1)]],
                                 importers := w.importers[i := w.importers[i].(pc := LinkBody(w.legacy[Body(1)]), tempSeq := 1)])
            && CommitCount(w, gos, Body(1)) == 0 && RemovalCount(w, gos, Body(1)) == 0
  {
    var go, im := Go(i, true), w.importers[i];
    var w1 := w.(importers := w.importers[i := im.(pc := ReadLegacy)]);
    assert Step(w, go) == w1;
    var w2 := w.(importers := w.importers[i := im.(pc := WriteBody(w.legacy[Body(1)]))]);
    assert Step(w1, go) == w2 by { assert w1.importers[i := w2.importers[i]] == w2.importers; }
    RunThree(w, go, go, go);
    assert w2.importers[i := im.(pc := LinkBody(w.legacy[Body(1)]), tempSeq := 1)]
        == w.importers[i := im.(pc := LinkBody(w.legacy[Body(1)]), tempSeq := 1)];
    var w3 := Step(w2, go);
    CountThree(w, go, go, go, Body(1));
    assert !Commits(w, go, Body(1)) && !Commits(w1, go, Body(1)) && !Commits(w2, go, Body(1));
    hide Run, CommitCount, RemovalCount;
  }

  /** The link and the removal of the temporary file. */
  lemma Links(w: World, i: nat, sha256: nat, bytes: Content)
    requires i in w.importers && w.importers[i] == Importer([Row(1, sha256, false)], 0, LinkBody(bytes), 1, NoReport)
    requires Body(1) !in w.dir && Temp(i, 1) in w.dir && w.dir[Temp(i, 1)] == bytes
    ensures var gos := [Go(i, true), Go(i, true)];
            && Run(w, gos) == w.(dir := w.dir[Body(1) := bytes] - {Temp(i, 1)},
                                 importers := w.importers[i := Imported(sha256)])
            && CommitCount(w, gos, Body(1)) == 1 && RemovalCount(w, gos, Body(1)) == 0
  {
    var go := Go(i, true);
    var w1 := w.(dir := w.dir[Body(1) := bytes], importers := w.importers[i := w.importers[i].(pc := CleanBody(Committed))]);
    assert Step(w, go) == w1;
    Extend(w, [], go);
    Extend(w, [go], go);
    assert [go] + [go] == [go, go] && [] + [go] == [go];
    assert w1.importers[i := Imported(sha256)] == w.importers[i := Imported(sha256)];
    CountAppend(w, [go], [go], Body(1));
    CountOne(w, go, Body(1));
    CountOne(w1, go, Body(1));
    assert Commits(w, go, Body(1)) && !Commits(w1, go, Body(1));
    hide Run, CommitCount, RemovalCount;
  }

  lemma CountOne(w: World, e: Event, n: Name)
    ensures CommitCount(w, [e], n) == (if Commits(w, e, n) then 1 else 0)
    ensures RemovalCount(w, [e], n) == (if e == Remove(n) && !n.Temp? && n in w.dir then 1 else 0)
  {
    hide Step;
  }

  lemma CountThree(w: World, a: Event, b: Event, c: Event, n: Name)
    requires !a.Remove? && !b.Remove? && !c.Remove?
    requires !Commits(w, a, n) && !Commits(Step(w, a), b, n) && !Commits(Step(Step(w, a), b), c, n)
    ensures CommitCount(w, [a, b, c], n) == 0 && RemovalCount(w, [a, b, c], n) == 0
  {
    hide Step;
    CountAppend(w, [a], [b, c], n);
    CountAppend(Step(w, a), [b], [c], n);
    CountOne(w, a, n);
    CountOne(Step(w, a), b, n);
    CountOne(Step(Step(w, a), b), c, n);
    Extend(w, [], a);
    Extend(Step(w, a), [], b);
    assert [a] + [b, c] == [a, b, c] && [b] + [c] == [b, c] && [] + [a] == [a] && [] + [b] == [b];
  }

  lemma {:induction false} CountAppend(w: World, a: seq<Event>, b: seq<Event>, n: Name)
    ensures CommitCount(w, a + b, n) == CommitCount(w, a, n) + CommitCount(Run(w, a), b, n)
    ensures RemovalCount(w, a + b, n) == RemovalCount(w, a, n) + RemovalCount(Run(w, a), b, n)
    decreases a
  {
    hide Step, Commits;
    if a == [] {
      assert a + b == b;
    } else {
      assert (a + b)[1..] == a[1..] + b;
      CountAppend(Step(w, a[0]), a[1..], b, n);
    }
  }

  lemma {:induction false} RoundsRun(w: World, n: nat, sha256: nat)
    requires Importable(w, sha256, 0)
    ensures var w' := Run(w, Rounds(n, sha256));
            && w'.dir == w.dir && w'.legacy == w.legacy && Importable(w', sha256, n)
            && CommitCount(w, Rounds(n, sha256), Body(1)) == n && RemovalCount(w, Rounds(n, sha256), Body(1)) == n
  {
    if n > 0 {
      var m := n - 1;
      RoundsRun(w, m, sha256);
      var before := Run(w, Rounds(m, sha256));
      var one, remove := OneImport(m, sha256), [Remove(Body(1))];
      OneImportRuns(before, m, sha256);
      RunAppend(w, Rounds(m, sha256), one + remove);
      CountAppend(w, Rounds(m, sha256), one + remove, Body(1));
      CountAppend(before, one, remove, Body(1));
      var after := Run(before, one);
      Extend(before, one, Remove(Body(1)));
      assert before.dir[Body(1) := w.legacy[Body(1)]] - {Body(1)} == before.dir;
      CountOne(after, Remove(Body(1)), Body(1));
    }
    hide Run, OneImport, CommitCount, RemovalCount;
  }

  /** The bound is attained: any number of removals lets one more import commit the same target than there were removals. */
  lemma RemovalsAllowFurtherCommits(w: World, removals: nat, sha256: nat)
    requires Importable(w, sha256, 0)
    ensures var events := Rounds(removals, sha256) + OneImport(removals, sha256);
            && RemovalCount(w, events, Body(1)) == removals
            && CommitCount(w, events, Body(1)) == removals + 1
  {
    RoundsRun(w, removals, sha256);
    OneImportRuns(Run(w, Rounds(removals, sha256)), removals, sha256);
    CountAppend(w, Rounds(removals, sha256), OneImport(removals, sha256), Body(1));
    hide Run, OneImport, CommitCount, RemovalCount, Rounds, Importable;
  }

  // ---- what a report says -----------------------------------------------------------

  /** What can become of a row's body, and of its thumbnail. */
  datatype Verdict = Copied | Right | Wrong | NoLegacy | OtherLegacy | Failure | ThumbCopied | ThumbFailure

  function FoundAs(existing: Content, row: Row): Verdict {
    if existing.sha256 == row.sha256 then Right else Wrong
  }

  /**
    What an action of the import settles: a body copied at its link, one found in
    place, right or wrong by its hash, a legacy file that is missing or another's, or
    a failure of the file system; likewise for the thumbnail.
   */
  function Settles(w: World, e: Event, i: nat): Option<Verdict> {
    if !(e.Go? && e.importer == i && i in w.importers && w.importers[i].next < |w.importers[i].rows|) then None
    else
      var im := w.importers[i];
      var row := im.rows[im.next];
      var written := e.ok && Temp(i, im.tempSeq + 1) !in w.dir;
      match im.pc
      case AtBody => if !e.ok then Some(Failure) else if Body(row.id) in w.dir then Some(FoundAs(w.dir[Body(row.id)], row)) else None
      case ReadLegacy =>
        if !e.ok then Some(Failure)
        else if Body(row.id) !in w.legacy then Some(NoLegacy)
        else if w.legacy[Body(row.id)].sha256 != row.sha256 then Some(OtherLegacy)
        else None
      case WriteBody(_) => if written then None else Some(Failure)
      case LinkBody(_) => if Body(row.id) in w.dir then None else if e.ok then Some(Copied) else Some(Failure)
      case JudgeAgain => if e.ok && Body(row.id) in w.dir then Some(FoundAs(w.dir[Body(row.id)], row)) else Some(Failure)
      case AtThumb => if e.ok then None else Some(ThumbFailure)
      case ReadThumb => if e.ok && Thumb(row.id) in w.legacy then None else Some(ThumbFailure)
      case WriteThumb(_) => if written then None else Some(ThumbFailure)
      case LinkThumb(_) => if Thumb(row.id) in w.dir then None else if e.ok then Some(ThumbCopied) else Some(ThumbFailure)
      case CleanBody(_) => None
      case CleanThumb(_) => None
  }

  function Times(w: World, events: seq<Event>, i: nat, v: Verdict): nat
    decreases events
  {
    if events == [] then 0
    else (if Settles(w, events[0], i) == Some(v) then 1 else 0) + Times(Step(w, events[0]), events[1..], i, v)
  }

  function Counter(r: Report, v: Verdict): nat {
    match v
    case Copied => r.copied
    case Right => r.alreadyPresent
    case Wrong => r.existingMismatched
    case NoLegacy => r.missing
    case OtherLegacy => r.mismatched
    case Failure => r.failed
    case ThumbCopied => r.thumbnailsCopied
    case ThumbFailure => r.thumbnailsFailed
  }

  /** What is settled but will be counted only when the temporary file has been removed. */
  function Pending(pc: Pc): Option<Verdict> {
    match pc
    case CleanBody(Committed) => Some(Copied)
    case CleanBody(LinkFailed) => Some(Failure)
    case CleanThumb(Committed) => Some(ThumbCopied)
    case CleanThumb(LinkFailed) => Some(ThumbFailure)
    case _ => None
  }

  function Settled(w: World, i: nat, v: Verdict): nat {
    if i !in w.importers then 0
    else
      var im := w.importers[i];
      Counter(im.report, v) + (if im.next < |im.rows| && Pending(im.pc) == Some(v) then 1 else 0)
  }

  lemma MoveSettlesEarly(w: World, i: nat, ok: bool, v: Verdict)
    requires i in w.importers && w.importers[i].next < |w.importers[i].rows|
    requires BytesInv(w.dir, w.legacy, i, w.importers[i]) && (w.importers[i].pc.AtBody? || w.importers[i].pc.ReadLegacy? || w.importers[i].pc.WriteBody?)
    ensures Settled(Step(w, Go(i, ok)), i, v) == Settled(w, i, v) + (if Settles(w, Go(i, ok), i) == Some(v) then 1 else 0)
  {
  }

  lemma MoveSettlesLate(w: World, i: nat, ok: bool, v: Verdict)
    requires i in w.importers && w.importers[i].next < |w.importers[i].rows|
    requires BytesInv(w.dir, w.legacy, i, w.importers[i]) && (w.importers[i].pc.LinkBody? || w.importers[i].pc.CleanBody? || w.importers[i].pc.JudgeAgain?)
    ensures Settled(Step(w, Go(i, ok)), i, v) == Settled(w, i, v) + (if Settles(w, Go(i, ok), i) == Some(v) then 1 else 0)
  {
  }

  lemma MoveSettlesThumb(w: World, i: nat, ok: bool, v: Verdict)
    requires i in w.importers && w.importers[i].next < |w.importers[i].rows|
    requires BytesInv(w.dir, w.legacy, i, w.importers[i]) && InThumb(w.importers[i].pc)
    ensures Settled(Step(w, Go(i, ok)), i, v) == Settled(w, i, v) + (if Settles(w, Go(i, ok), i) == Some(v) then 1 else 0)
  {
  }

  lemma StepSettles(w: World, e: Event, i: nat, v: Verdict)
    requires Inv(w)
    ensures Settled(Step(w, e), i, v) == Settled(w, i, v) + (if Settles(w, e, i) == Some(v) then 1 else 0)
  {
    if e == Go(i, true) || e == Go(i, false) {
      if i in w.importers && w.importers[i].next < |w.importers[i].rows| {
        assert ImporterInv(w.dir, w.legacy, i, w.importers[i]);
        var pc := w.importers[i].pc;
        if InThumb(pc) { MoveSettlesThumb(w, i, e.ok, v); }
        else if pc.AtBody? || pc.ReadLegacy? || pc.WriteBody? { MoveSettlesEarly(w, i, e.ok, v); }
        else { MoveSettlesLate(w, i, e.ok, v); }
        hide Step, Settles, Settled;
      } else {
        hide Move;
      }
    } else {
      hide Move;
    }
  }

  /**
    In every run each of an import's eight counters is the number of its actions that
    settled a row, or its thumbnail, that way - but for one whose temporary file it
    has yet to remove.
   */
  lemma {:induction false} ReportIsTrue(w: World, events: seq<Event>, i: nat, v: Verdict)
    requires Inv(w)
    ensures Settled(Run(w, events), i, v) == Settled(w, i, v) + Times(w, events, i, v)
    decreases events
  {
    if events != [] {
      StepSettles(w, events[0], i, v);
      StepKeepsInv(w, events[0]);
      ReportIsTrue(Step(w, events[0]), events[1..], i, v);
    }
    hide Step, Inv, Settles, Settled;
  }

  /** An import's action makes a body or a thumbnail appear if and only if it settles one as copied, and then its row's. */
  lemma CommitsIffCopied(w: World, e: Event, i: nat, n: Name)
    requires Inv(w) && e.Go? && e.importer == i && !n.Temp?
    ensures Commits(w, e, n) <==>
              && Settles(w, e, i).Some? && i in w.importers && w.importers[i].next < |w.importers[i].rows|
              && var row := w.importers[i].rows[w.importers[i].next];
                 || (Settles(w, e, i) == Some(Copied) && n == Body(row.id))
                 || (Settles(w, e, i) == Some(ThumbCopied) && n == Thumb(row.id))
  {
    if i in w.importers { assert ImporterInv(w.dir, w.legacy, i, w.importers[i]); }
  }
}
