/**
  What one import does to the directory when nothing disturbs it: every action
  succeeds and nobody else acts (`banto-attachments`).
 */
module ImportAlone {
  import opened Text
  import opened LegacyImport

  /** The missing body, if the legacy directory has it with the row's hash. */
  function WithBody(dir: map<Name, Content>, legacy: map<Name, Content>, row: Row): map<Name, Content> {
    var body := Body(row.id);
    if body !in dir && body in legacy && legacy[body].sha256 == row.sha256 then dir[body := legacy[body]] else dir
  }

  predicate InPlace(dir: map<Name, Content>, row: Row) {
    Body(row.id) in dir && dir[Body(row.id)].sha256 == row.sha256
  }

  /** And the missing thumbnail, if the row has one and its right body is in place. */
  function WithThumb(dir: map<Name, Content>, legacy: map<Name, Content>, row: Row): map<Name, Content> {
    var thumb := Thumb(row.id);
    if row.hasThumbnail && InPlace(dir, row) && thumb !in dir && thumb in legacy then dir[thumb := legacy[thumb]] else dir
  }

  function WithRows(dir: map<Name, Content>, legacy: map<Name, Content>, rows: seq<Row>): map<Name, Content>
    decreases rows
  {
    if rows == [] then dir
    else WithRows(WithThumb(WithBody(dir, legacy, rows[0]), legacy, rows[0]), legacy, rows[1..])
  }

  function Gos(i: nat, n: nat): seq<Event> {
    seq(n, _ => Go(i, true))
  }

  predicate NoTemps(dir: map<Name, Content>, i: nat) {
    forall n :: n in dir && n.Temp? ==> n.owner != i
  }

  /** The import is at this point of its `k`th row. */
  predicate At(w: World, i: nat, rows: seq<Row>, k: nat, pc: Pc) {
    i in w.importers && w.importers[i].rows == rows && w.importers[i].next == k && w.importers[i].pc == pc
  }

  lemma OneGo(w: World, i: nat, n: nat)
    requires n > 0
    ensures Run(w, Gos(i, n)) == Run(Step(w, Go(i, true)), Gos(i, n - 1))
  {
    hide Step;
    assert Gos(i, n)[1..] == Gos(i, n - 1);
  }

  lemma NoGo(w: World, i: nat)
    ensures Run(w, Gos(i, 0)) == w
  {
  }

  lemma MoreGos(w: World, i: nat, m: nat, n: nat)
    ensures Run(w, Gos(i, m + n)) == Run(Run(w, Gos(i, m)), Gos(i, n))
  {
    hide Run, Step;
    RunAppend(w, Gos(i, m), Gos(i, n));
    assert Gos(i, m + n) == Gos(i, m) + Gos(i, n);
  }

  /** A world that differs in the directory and in this import only. */
  predicate Moved(w: World, w': World, i: nat, dir: map<Name, Content>) {
    w'.dir == dir && w'.legacy == w.legacy && i in w'.importers && w'.importers == w.importers[i := w'.importers[i]]
  }

  lemma LookAtBody(w: World, i: nat, rows: seq<Row>, k: nat)
    requires k < |rows| && At(w, i, rows, k, AtBody)
    ensures var w', row := Step(w, Go(i, true)), rows[k];
            && Moved(w, w', i, w.dir) && w'.importers[i].tempSeq == w.importers[i].tempSeq
            && (if Body(row.id) !in w.dir then At(w', i, rows, k, ReadLegacy)
                else if InPlace(w.dir, row) && row.hasThumbnail then At(w', i, rows, k, AtThumb)
                else At(w', i, rows, k + 1, AtBody))
  {
  }

  lemma LookAtLegacy(w: World, i: nat, rows: seq<Row>, k: nat)
    requires k < |rows| && At(w, i, rows, k, ReadLegacy)
    ensures var w', body := Step(w, Go(i, true)), Body(rows[k].id);
            && Moved(w, w', i, w.dir) && w'.importers[i].tempSeq == w.importers[i].tempSeq
            && (if body in w.legacy && w.legacy[body].sha256 == rows[k].sha256 then At(w', i, rows, k, WriteBody(w.legacy[body]))
                else At(w', i, rows, k + 1, AtBody))
  {
  }

  /** Temporary file, link, and the temporary file removed again. */
  lemma PlaceBody(w: World, i: nat, rows: seq<Row>, k: nat, bytes: Content)
    requires k < |rows| && At(w, i, rows, k, WriteBody(bytes)) && NoTemps(w.dir, i) && Body(rows[k].id) !in w.dir
    ensures var w' := Step(Step(Step(w, Go(i, true)), Go(i, true)), Go(i, true));
            && Moved(w, w', i, w.dir[Body(rows[k].id) := bytes])
            && (if rows[k].hasThumbnail then At(w', i, rows, k, AtThumb) else At(w', i, rows, k + 1, AtBody))
  {
    var w1 := Step(w, Go(i, true));
    var temp := Temp(i, w.importers[i].tempSeq + 1);
    assert w1 == w.(dir := w.dir[temp := bytes],
                    importers := w.importers[i := w.importers[i].(pc := LinkBody(bytes), tempSeq := w.importers[i].tempSeq + 1)]);
    var w2 := Step(w1, Go(i, true));
    assert w2.dir == w.dir[temp := bytes][Body(rows[k].id) := bytes];
    assert w.dir[temp := bytes][Body(rows[k].id) := bytes] - {temp} == w.dir[Body(rows[k].id) := bytes];
  }

  lemma LookAtThumb(w: World, i: nat, rows: seq<Row>, k: nat)
    requires k < |rows| && At(w, i, rows, k, AtThumb)
    ensures var w', thumb := Step(w, Go(i, true)), Thumb(rows[k].id);
            var w'' := Step(w', Go(i, true));
            && Moved(w, w', i, w.dir) && w'.importers[i].tempSeq == w.importers[i].tempSeq
            && (if thumb in w.dir then At(w', i, rows, k + 1, AtBody) else At(w', i, rows, k, ReadThumb))
            && (thumb !in w.dir ==>
                  Moved(w, w'', i, w.dir) && w''.importers[i].tempSeq == w.importers[i].tempSeq
                  && if thumb in w.legacy then At(w'', i, rows, k, WriteThumb(w.legacy[thumb])) else At(w'', i, rows, k + 1, AtBody))
  {
  }

  lemma PlaceThumb(w: World, i: nat, rows: seq<Row>, k: nat, bytes: Content)
    requires k < |rows| && At(w, i, rows, k, WriteThumb(bytes)) && NoTemps(w.dir, i) && Thumb(rows[k].id) !in w.dir
    ensures var w' := Step(Step(Step(w, Go(i, true)), Go(i, true)), Go(i, true));
            Moved(w, w', i, w.dir[Thumb(rows[k].id) := bytes]) && At(w', i, rows, k + 1, AtBody)
  {
    var w1 := Step(w, Go(i, true));
    var temp := Temp(i, w.importers[i].tempSeq + 1);
    assert w1 == w.(dir := w.dir[temp := bytes],
                    importers := w.importers[i := w.importers[i].(pc := LinkThumb(bytes), tempSeq := w.importers[i].tempSeq + 1)]);
    var w2 := Step(w1, Go(i, true));
    assert w2.dir == w.dir[temp := bytes][Thumb(rows[k].id) := bytes];
    assert w.dir[temp := bytes][Thumb(rows[k].id) := bytes] - {temp} == w.dir[Thumb(rows[k].id) := bytes];
  }

  lemma ThreeGos(w: World, i: nat)
    ensures Run(w, Gos(i, 3)) == Step(Step(Step(w, Go(i, true)), Go(i, true)), Go(i, true))
  {
    hide Step;
    var go := Go(i, true);
    OneGo(w, i, 3);
    OneGo(Step(w, go), i, 2);
    OneGo(Step(Step(w, go), go), i, 1);
    NoGo(Step(Step(Step(w, go), go), go), i);
  }

  lemma BodyAlone(w: World, i: nat, rows: seq<Row>, k: nat) returns (n: nat)
    requires k < |rows| && At(w, i, rows, k, AtBody) && NoTemps(w.dir, i)
    ensures var w', row := Run(w, Gos(i, n)), rows[k];
            && Moved(w, w', i, WithBody(w.dir, w.legacy, row))
            && (if InPlace(w'.dir, row) && row.hasThumbnail then At(w', i, rows, k, AtThumb) else At(w', i, rows, k + 1, AtBody))
  {
    hide Run, Step;
    var go := Go(i, true);
    LookAtBody(w, i, rows, k);
    var w1 := Step(w, go);
    OneGo(w, i, 1);
    NoGo(w1, i);
    n := 1;
    if Body(rows[k].id) !in w.dir {
      LookAtLegacy(w1, i, rows, k);
      var w2 := Step(w1, go);
      OneGo(w1, i, 1);
      NoGo(w2, i);
      MoreGos(w, i, 1, 1);
      n := 2;
      if w2.importers[i].pc.WriteBody? {
        PlaceBody(w2, i, rows, k, w.legacy[Body(rows[k].id)]);
        ThreeGos(w2, i);
        MoreGos(w, i, 2, 3);
        n := 5;
      }
    }
  }

  lemma ThumbAlone(w: World, i: nat, rows: seq<Row>, k: nat) returns (n: nat)
    requires k < |rows| && At(w, i, rows, k, AtThumb) && NoTemps(w.dir, i) && InPlace(w.dir, rows[k]) && rows[k].hasThumbnail
    ensures var w' := Run(w, Gos(i, n));
            Moved(w, w', i, WithThumb(w.dir, w.legacy, rows[k])) && At(w', i, rows, k + 1, AtBody)
  {
    hide Run, Step;
    var go := Go(i, true);
    LookAtThumb(w, i, rows, k);
    var w1 := Step(w, go);
    OneGo(w, i, 1);
    NoGo(w1, i);
    n := 1;
    if Thumb(rows[k].id) !in w.dir {
      var w2 := Step(w1, go);
      OneGo(w1, i, 1);
      NoGo(w2, i);
      MoreGos(w, i, 1, 1);
      n := 2;
      if Thumb(rows[k].id) in w.legacy {
        PlaceThumb(w2, i, rows, k, w.legacy[Thumb(rows[k].id)]);
        ThreeGos(w2, i);
        MoreGos(w, i, 2, 3);
        n := 5;
      }
    }
  }

  lemma RowAlone(w: World, i: nat, rows: seq<Row>, k: nat) returns (n: nat)
    requires k < |rows| && At(w, i, rows, k, AtBody) && NoTemps(w.dir, i)
    ensures var w' := Run(w, Gos(i, n));
            && Moved(w, w', i, WithThumb(WithBody(w.dir, w.legacy, rows[k]), w.legacy, rows[k]))
            && At(w', i, rows, k + 1, AtBody) && NoTemps(w'.dir, i)
  {
    hide Run;
    n := BodyAlone(w, i, rows, k);
    var w1 := Run(w, Gos(i, n));
    if w1.importers[i].pc.AtThumb? {
      var m := ThumbAlone(w1, i, rows, k);
      MoreGos(w, i, n, m);
      n := n + m;
    }
  }

  /**
    An undisturbed import comes to its end and leaves the directory with exactly the
    missing right bodies, and the missing thumbnails of rows whose right body is in
    place, added - and no temporary file.
   */
  lemma {:induction false} ImportedAlone(w: World, i: nat, rows: seq<Row>, k: nat) returns (n: nat)
    requires k <= |rows| && At(w, i, rows, k, AtBody) && NoTemps(w.dir, i)
    ensures var w' := Run(w, Gos(i, n));
            Moved(w, w', i, WithRows(w.dir, w.legacy, rows[k..])) && At(w', i, rows, |rows|, AtBody)
    decreases |rows| - k
  {
    hide Run, At, NoTemps;
    if k == |rows| {
      n := 0;
      NoGo(w, i);
      assert At(w, i, rows, k, AtBody);
      AtIsThere(w, i, rows, k, AtBody);
    } else {
      n := RowAlone(w, i, rows, k);
      var m := ImportedAlone(Run(w, Gos(i, n)), i, rows, k + 1);
      MoreGos(w, i, n, m);
      assert rows[k..][1..] == rows[k + 1..];
      n := n + m;
    }
  }

  lemma AtIsThere(w: World, i: nat, rows: seq<Row>, k: nat, pc: Pc)
    requires At(w, i, rows, k, pc)
    ensures i in w.importers && w.importers == w.importers[i := w.importers[i]]
  {
  }
}
