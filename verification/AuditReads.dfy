/**
  The audit log read block by block (`list_as_of`) while writers and retention
  prunes run (`audit.rs`). A run is any interleaving of committed transactions:
  an id may be handed out long before its row commits, so a row can appear
  below a boundary that was picked earlier.
 */
module AuditReads {
  import opened Text
  import opened ListQuery
  import opened Sets
  import opened DeletionEpoch
  import IsoText
  import PrintedDates

  /**
    `audit_log`, the ids handed out whose row has not committed, the id counter,
    and the deletion epoch as the text in `settings` (absent: never pruned).
   */
  datatype Db = Db(backend: Backend, rows: map<nat, Row>, pending: set<nat>, nextId: nat, epoch: Option<string>)

  /** One committed transaction. `Prune` deletes those of `ids` that are there. */
  datatype Event =
    | Allocate
    | Commit(id: nat, cells: map<string, string>)
    | Abort(id: nat)
    | Prune(ids: set<nat>)

  function Removed(db: Db, ids: set<nat>): set<nat> {
    ids * db.rows.Keys
  }

  function Step(db: Db, e: Event): Db {
    match e
    case Allocate => db.(pending := db.pending + {db.nextId}, nextId := db.nextId + 1)
    case Commit(id, cells) =>
      if id in db.pending then db.(rows := db.rows[id := Row(id, cells)], pending := db.pending - {id}) else db
    case Abort(id) => db.(pending := db.pending - {id})
    case Prune(ids) =>
      if Removed(db, ids) == {} then db
      else db.(rows := db.rows - Removed(db, ids), epoch := BumpEpoch(db.backend, db.epoch))
  }

  function Run(db: Db, events: seq<Event>): Db
    decreases events
  {
    if events == [] then db else Run(Step(db, events[0]), events[1..])
  }

  /** Ids are handed out once each; a row's id is its key. */
  ghost predicate IdsInv(db: Db) {
    && (forall id :: id in db.rows ==> id < db.nextId && db.rows[id].id == id && id !in db.pending)
    && (forall id :: id in db.pending ==> id < db.nextId)
  }

  /** And the epoch is a text that prunes and readers take for the same number. */
  ghost predicate Inv(db: Db) {
    IdsInv(db) && Agreed(db.backend, db.epoch)
  }

  lemma StepKeepsInv(db: Db, e: Event)
    requires Inv(db)
    ensures Inv(Step(db, e)) && Step(db, e).backend == db.backend
  {
    BumpIsRead(db.backend, db.epoch);
    hide Agreed, BumpEpoch;
  }

  lemma {:induction false} RunKeepsInv(db: Db, events: seq<Event>)
    requires Inv(db)
    ensures Inv(Run(db, events))
    decreases events
  {
    if events != [] {
      StepKeepsInv(db, events[0]);
      RunKeepsInv(Step(db, events[0]), events[1..]);
    }
  }

  ghost predicate Extends(old': map<nat, Row>, new': map<nat, Row>) {
    forall id :: id in old' ==> id in new' && new'[id] == old'[id]
  }

  lemma StandingStep(db: Db, e: Event)
    requires Inv(db)
    ensures Inv(Step(db, e)) && ParseEpoch(db.epoch) <= ParseEpoch(Step(db, e).epoch)
    ensures ParseEpoch(db.epoch) == ParseEpoch(Step(db, e).epoch) ==> Extends(db.rows, Step(db, e).rows)
  {
    StepKeepsInv(db, e);
    BumpIsSeenIff(db.backend, db.epoch);
    hide ParseEpoch, BumpEpoch, Agreed;
  }

  /** The epoch never goes back, and while it stands still no row has gone or changed. */
  lemma {:induction false} StandingEpoch(db: Db, events: seq<Event>)
    requires Inv(db)
    ensures ParseEpoch(db.epoch) <= ParseEpoch(Run(db, events).epoch)
    ensures ParseEpoch(db.epoch) == ParseEpoch(Run(db, events).epoch) ==> Extends(db.rows, Run(db, events).rows)
    decreases events
  {
    if events != [] {
      hide Inv, Step, ParseEpoch;
      StandingStep(db, events[0]);
      StandingEpoch(Step(db, events[0]), events[1..]);
    }
  }

  predicate NeverPruned(events: seq<Event>, id: nat) {
    forall e :: e in events && e.Prune? ==> id !in e.ids
  }

  lemma {:induction false} RowStays(db: Db, events: seq<Event>, id: nat)
    requires Inv(db) && id in db.rows && NeverPruned(events, id)
    ensures id in Run(db, events).rows && Run(db, events).rows[id] == db.rows[id]
    decreases events
  {
    if events != [] {
      assert events[0] in events;
      StepKeepsInv(db, events[0]);
      RowStays(Step(db, events[0]), events[1..], id);
    }
  }

  /** An id that was handed out and is neither pending nor a row never becomes one: aborted and pruned rows stay away. */
  lemma {:induction false} GoneForever(db: Db, events: seq<Event>, id: nat)
    requires Inv(db) && id < db.nextId && id !in db.pending && id !in db.rows
    ensures id !in Run(db, events).rows
    decreases events
  {
    if events != [] {
      StepKeepsInv(db, events[0]);
      GoneForever(Step(db, events[0]), events[1..], id);
    }
  }

  /**
    The life of a row: the id handed out is a new one; committed, the row holds what
    was committed, as long as no prune names it; aborted or pruned, it never returns.
   */
  lemma LifeOfARow(db: Db, cells: map<string, string>, ids: set<nat>, later: seq<Event>)
    requires Inv(db)
    ensures var id, handed := db.nextId, Step(db, Allocate);
            && id !in db.rows && id !in db.pending && id in handed.pending && id !in handed.rows
    ensures forall id :: id in db.pending ==>
              && (NeverPruned(later, id) ==>
                    var after := Run(Step(db, Commit(id, cells)), later);
                    id in after.rows && after.rows[id] == Row(id, cells))
              && id !in Run(Step(db, Abort(id)), later).rows
    ensures forall id :: id in db.rows && id in ids ==> id !in Run(Step(db, Event.Prune(ids)), later).rows
  {
    forall id | id in db.pending
      ensures NeverPruned(later, id) ==>
                var after := Run(Step(db, Commit(id, cells)), later);
                id in after.rows && after.rows[id] == Row(id, cells)
      ensures id !in Run(Step(db, Abort(id)), later).rows
    {
      StepKeepsInv(db, Commit(id, cells));
      StepKeepsInv(db, Abort(id));
      if NeverPruned(later, id) { RowStays(Step(db, Commit(id, cells)), later, id); }
      GoneForever(Step(db, Abort(id)), later, id);
      hide Run;
    }
    StepKeepsInv(db, Event.Prune(ids));
    forall id | id in db.rows && id in ids ensures id !in Run(Step(db, Event.Prune(ids)), later).rows {
      assert id in Removed(db, ids);
      GoneForever(Step(db, Event.Prune(ids)), later, id);
    }
  }

  // ---- one answer ------------------------------------------------------------------

  const AUDIT_COLUMNS := ColumnMap(
    map["id" := "id", "ts" := "ts", "actorUsername" := "actor_username", "actorRole" := "actor_role",
        "action" := "action", "resource" := "resource", "entityId" := "entity_id", "detail" := "detail",
        "origin" := "origin", "result" := "result"],
    ConventionalId)

  datatype Query = Query(filters: seq<Filter>, sort: seq<Sort>)

  datatype Answer = Answer(rows: seq<Row>, totalCount: nat, asOfId: int, deletionEpoch: int) | BadRequest

  /** The rows within the boundary that pass the filters. */
  function Matching(db: Db, q: Query, asOf: int): set<Row> {
    set id | id in db.rows && id <= asOf && Passes(AUDIT_COLUMNS, q.filters, db.rows[id]) :: db.rows[id]
  }

  function Order(q: Query): seq<Entry> {
    OrderByEntries(AUDIT_COLUMNS, q.sort)
  }

  /** The boundary asked for, or else the newest id (0 for an empty table). */
  ghost predicate IsBoundary(db: Db, asOf: Option<int>, boundary: int) {
    match asOf
    case Some(id) => boundary == id
    case None =>
      if db.rows == map[] then boundary == 0
      else boundary in db.rows && forall id :: id in db.rows ==> id <= boundary
  }

  /** What `list_as_of` may answer: boundary, rows, count and epoch all from the one state `db`. */
  ghost predicate Answers(db: Db, q: Query, page: Option<Page>, asOf: Option<int>, a: Answer) {
    if !KnownFilters(AUDIT_COLUMNS, q.filters) then a == BadRequest
    else
      && a.Answer?
      && IsBoundary(db, asOf, a.asOfId)
      && (exists full: seq<Row> :: Returns(full, Matching(db, q, a.asOfId), Order(q)) && a.rows == Slice(full, page))
      && a.totalCount == |Matching(db, q, a.asOfId)|
      && a.deletionEpoch == ParseEpoch(db.epoch)
  }

  lemma MatchingHasDistinctIds(db: Db, q: Query, asOf: int)
    requires Inv(db)
    ensures DistinctIds(Matching(db, q, asOf)) && Names(Order(q), "id")
  {
    UniqueKeyIsNamed(AUDIT_COLUMNS, q.sort);
  }

  // ---- one generation of blocks ------------------------------------------------------

  /**
    Whatever committed in between: the count and the epoch of the first answer
    mean the same rows within the boundary.
   */
  lemma SameCountAndEpochSameRows(db: Db, events: seq<Event>, q: Query, asOf: int)
    requires Inv(db)
    requires |Matching(Run(db, events), q, asOf)| == |Matching(db, q, asOf)|
    requires ParseEpoch(Run(db, events).epoch) == ParseEpoch(db.epoch)
    ensures Matching(Run(db, events), q, asOf) == Matching(db, q, asOf)
  {
    StandingEpoch(db, events);
    var later := Run(db, events);
    assert Matching(db, q, asOf) <= Matching(later, q, asOf) by {
      forall id | id in db.rows ensures id in later.rows && later.rows[id] == db.rows[id] {}
    }
    SubsetSize(Matching(db, q, asOf), Matching(later, q, asOf));
  }

  /** A later block: when it was read, which page, and what it answered. */
  datatype Block = Block(events: seq<Event>, page: Option<Page>, answer: Answer)

  /** `b` was read after `db`, within the boundary of `first`, and its count and epoch are `first`'s. */
  ghost predicate OfGeneration(db: Db, q: Query, first: Answer, b: Block) {
    && first.Answer? && b.answer.Answer?
    && Answers(Run(db, b.events), q, b.page, Some(first.asOfId), b.answer)
    && b.answer.totalCount == first.totalCount && b.answer.deletionEpoch == first.deletionEpoch
  }

  /** Each block of the generation is a slice of the one sequence the first answer was a slice of. */
  lemma BlockIsASlice(db: Db, q: Query, page: Option<Page>, asOf: Option<int>, first: Answer, b: Block, full: seq<Row>)
    requires Inv(db) && Answers(db, q, page, asOf, first) && OfGeneration(db, q, first, b)
    requires Returns(full, Matching(db, q, first.asOfId), Order(q))
    ensures first.rows == Slice(full, page) && b.answer.rows == Slice(full, b.page)
    ensures |full| == first.totalCount
  {
    var later := Run(db, b.events);
    SameCountAndEpochSameRows(db, b.events, q, first.asOfId);
    MatchingHasDistinctIds(db, q, first.asOfId);
    var mine: seq<Row> :| Returns(mine, Matching(db, q, first.asOfId), Order(q)) && first.rows == Slice(mine, page);
    var theirs: seq<Row> :| Returns(theirs, Matching(later, q, first.asOfId), Order(q))
                            && b.answer.rows == Slice(theirs, b.page);
    OneSequence(mine, full, Matching(db, q, first.asOfId), Order(q));
    OneSequence(theirs, full, Matching(db, q, first.asOfId), Order(q));
    ReturnsLength(full, Matching(db, q, first.asOfId), Order(q));
  }

  function RowsOf(a: Answer): seq<Row> {
    if a.Answer? then a.rows else []
  }

  function Concat(blocks: seq<Block>): seq<Row> {
    if blocks == [] then [] else Concat(blocks[..|blocks| - 1]) + RowsOf(blocks[|blocks| - 1].answer)
  }

  /** Blocks of the generation with offsets 0, `limit`, `2 * limit`, ... */
  ghost predicate Consecutive(db: Db, q: Query, first: Answer, blocks: seq<Block>, limit: nat) {
    first.Answer? &&
    forall i :: 0 <= i < |blocks| ==>
      OfGeneration(db, q, first, blocks[i]) && blocks[i].page == Some(Page(limit, i * limit))
  }

  lemma LastBlock(db: Db, q: Query, first: Answer, blocks: seq<Block>, limit: nat)
    requires Consecutive(db, q, first, blocks, limit) && blocks != []
    ensures var n := |blocks| - 1;
            && Consecutive(db, q, first, blocks[..n], limit)
            && OfGeneration(db, q, first, blocks[n]) && blocks[n].answer.Answer?
            && blocks[n].page == Some(Page(limit, n * limit))
            && n * limit + limit == |blocks| * limit
  {
  }

  /**
    Consecutive blocks of a generation, each read at any later time and in any
    order, concatenate to a prefix of one sequence that has every matching row
    exactly once: no row twice, none left out.
   */
  lemma {:induction false} BlocksConcatenate(db: Db, q: Query, page: Option<Page>, asOf: Option<int>, first: Answer,
                                             blocks: seq<Block>, limit: nat, full: seq<Row>)
    requires Inv(db) && Answers(db, q, page, asOf, first) && Consecutive(db, q, first, blocks, limit)
    requires Returns(full, Matching(db, q, first.asOfId), Order(q))
    ensures Concat(blocks) == Slice(full, Some(Page(|blocks| * limit, 0)))
    decreases |blocks|
  {
    hide Inv, Answers, Returns, OfGeneration, Matching, Order, Slice, Consecutive;
    if blocks == [] {
      NothingSliced(full);
    } else {
      var n := |blocks| - 1;
      LastBlock(db, q, first, blocks, limit);
      BlocksConcatenate(db, q, page, asOf, first, blocks[..n], limit, full);
      BlockIsASlice(db, q, page, asOf, first, blocks[n], full);
      SlicesJoin(full, n * limit, limit);
    }
  }

  lemma NothingSliced(full: seq<Row>)
    ensures Slice(full, Some(Page(0, 0))) == []
  {
  }

  lemma WholeSlice(full: seq<Row>, n: nat)
    requires |full| <= n
    ensures Slice(full, Some(Page(n, 0))) == full
  {
  }

  lemma AnswersCount(db: Db, q: Query, page: Option<Page>, asOf: Option<int>, first: Answer)
    requires Answers(db, q, page, asOf, first) && first.Answer?
    ensures first.totalCount == |Matching(db, q, first.asOfId)|
  {
  }

  lemma SlicesJoin(full: seq<Row>, n: nat, limit: nat)
    ensures Slice(full, Some(Page(n, 0))) + Slice(full, Some(Page(limit, n))) == Slice(full, Some(Page(n + limit, 0)))
  {
  }

  /** Enough blocks read everything: as many rows as the count said, each one of them once. */
  lemma AllBlocksReadEveryRow(db: Db, q: Query, page: Option<Page>, asOf: Option<int>, first: Answer,
                              blocks: seq<Block>, limit: nat)
    requires Inv(db) && Answers(db, q, page, asOf, first) && Consecutive(db, q, first, blocks, limit)
    requires first.totalCount <= |blocks| * limit
    ensures Returns(Concat(blocks), Matching(db, q, first.asOfId), Order(q))
    ensures |Concat(blocks)| == first.totalCount
  {
    assert first.Answer?;
    hide Inv, Consecutive, Returns, DistinctIds, Order, Slice, Matching, Answers, Names, Concat;
    MatchingHasDistinctIds(db, q, first.asOfId);
    var full := SomeSequence(Matching(db, q, first.asOfId), Order(q));
    BlocksConcatenate(db, q, page, asOf, first, blocks, limit, full);
    ReturnsLength(full, Matching(db, q, first.asOfId), Order(q));
    AnswersCount(db, q, page, asOf, first);
    WholeSlice(full, |blocks| * limit);
  }

  // ---- which rows, in which order -----------------------------------------------------------

  const FIELDS := {"id", "ts", "actorUsername", "actorRole", "action", "resource", "entityId", "detail", "origin", "result"}

  /** A row's own value in a wire field of the log: its number for `id`, else its text, or NULL. */
  function FieldValue(row: Row, field: string): Option<Datum> {
    if field == "id" then Some(Num(row.id))
    else
      var column := if field == "actorUsername" then "actor_username" else if field == "actorRole" then "actor_role"
                    else if field == "entityId" then "entity_id" else field;
      if column in row.cells then Some(Str(row.cells[column])) else None
  }

  lemma FieldsAreColumns(row: Row, field: string)
    ensures Resolve(AUDIT_COLUMNS, field).Some? <==> field in FIELDS
    ensures field in FIELDS ==> Cell(row, Resolve(AUDIT_COLUMNS, field).value) == FieldValue(row, field)
    ensures field in FIELDS ==> (Resolve(AUDIT_COLUMNS, field).value == "id" <==> field == "id")
  {
  }

  /** A request is refused if and only if it filters by something that is no field of the log. */
  lemma RefusedIff(db: Db, q: Query, page: Option<Page>, asOf: Option<int>, a: Answer)
    requires Answers(db, q, page, asOf, a)
    ensures a == BadRequest <==> exists i :: 0 <= i < |q.filters| && q.filters[i].field !in FIELDS
  {
    forall i | 0 <= i < |q.filters|
      ensures q.filters[i].field in FIELDS <==> Resolve(AUDIT_COLUMNS, q.filters[i].field).Some?
    {
      FieldsAreColumns(Row(0, map[]), q.filters[i].field);
    }
    hide Resolve;
  }

  /** A committed row of this state whose id the request's boundary allows and whose own values pass every filter. */
  ghost predicate Asked(db: Db, q: Query, asOf: Option<int>, row: Row) {
    && row.id in db.rows && db.rows[row.id] == row
    && (asOf.Some? ==> row.id <= asOf.value)
    && forall i :: 0 <= i < |q.filters| ==> q.filters[i].test(FieldValue(row, q.filters[i].field))
  }

  lemma MatchingIsAsked(db: Db, q: Query, page: Option<Page>, asOf: Option<int>, a: Answer, row: Row)
    requires Inv(db) && Answers(db, q, page, asOf, a) && a.Answer?
    ensures row in Matching(db, q, a.asOfId) <==> Asked(db, q, asOf, row)
  {
    hide Agreed, Cell, Resolve, FieldValue;
    forall i | 0 <= i < |q.filters|
      ensures Resolve(AUDIT_COLUMNS, q.filters[i].field).Some?
      ensures Cell(row, Resolve(AUDIT_COLUMNS, q.filters[i].field).value) == FieldValue(row, q.filters[i].field)
    {
      FieldsAreColumns(row, q.filters[i].field);
    }
  }

  /** `a` comes before `b` by one key: NULLs last in both directions, numbers by size, texts by code point. */
  predicate KeyBefore(a: Option<Datum>, b: Option<Datum>, d: Direction) {
    match (a, b)
    case (None, _) => false
    case (Some(_), None) => true
    case (Some(Num(x)), Some(Num(y))) => if d == Asc then x < y else y < x
    case (Some(Str(x)), Some(Str(y))) => if d == Asc then Less(x, y) else Less(y, x)
    case (Some(Num(_)), Some(Str(_))) => d == Asc
    case (Some(Str(_)), Some(Num(_))) => d == Desc
  }

  /** The requested keys that are fields of the log decide one after another, then the id in the last one's direction. */
  predicate RequestedBefore(sort: seq<Sort>, tie: Direction, a: Row, b: Row) {
    if sort == [] then (if tie == Asc then a.id < b.id else b.id < a.id)
    else if sort[0].field !in FIELDS then RequestedBefore(sort[1..], tie, a, b)
    else
      var x, y := FieldValue(a, sort[0].field), FieldValue(b, sort[0].field);
      KeyBefore(x, y, sort[0].direction) || (x == y && RequestedBefore(sort[1..], sort[0].direction, a, b))
  }

  /** The entries, ended by the id. */
  function EndedById(entries: seq<Entry>, tie: Direction): seq<Entry> {
    entries + [Entry("id", if entries == [] then tie else entries[|entries| - 1].direction)]
  }

  lemma KeyBeforeIs(x: Option<Datum>, y: Option<Datum>, d: Direction)
    ensures CellBefore(x, y, d) <==> KeyBefore(x, y, d)
  {
  }

  lemma BeforeCons(e: Entry, rest: seq<Entry>, a: Row, b: Row)
    ensures Before([e] + rest, a, b) <==>
              KeyBefore(Cell(a, e.column), Cell(b, e.column), e.direction)
              || (Cell(a, e.column) == Cell(b, e.column) && Before(rest, a, b))
  {
    assert ([e] + rest)[1..] == rest;
    KeyBeforeIs(Cell(a, e.column), Cell(b, e.column), e.direction);
    hide Cell, CellBefore, KeyBefore;
  }

  lemma {:induction false} OrderIsRequested(sort: seq<Sort>, tie: Direction, a: Row, b: Row)
    ensures Before(EndedById(Resolved(AUDIT_COLUMNS, sort), tie), a, b) <==> RequestedBefore(sort, tie, a, b)
  {
    hide Before, Resolve, FieldValue, KeyBefore, Cell;
    if sort == [] {
      assert EndedById([], tie) == [Entry("id", tie)] + [];
      BeforeCons(Entry("id", tie), [], a, b);
      ById(tie, a, b);
    } else {
      var known, rest := sort[0].field in FIELDS, Resolved(AUDIT_COLUMNS, sort[1..]);
      FieldsAreColumns(a, sort[0].field);
      FieldsAreColumns(b, sort[0].field);
      OrderIsRequested(sort[1..], if known then sort[0].direction else tie, a, b);
      if known {
        var e := Entry(Resolve(AUDIT_COLUMNS, sort[0].field).value, sort[0].direction);
        assert Resolved(AUDIT_COLUMNS, sort) == [e] + rest;
        assert EndedById([e] + rest, tie) == [e] + EndedById(rest, e.direction);
        BeforeCons(e, EndedById(rest, e.direction), a, b);
      } else {
        assert Resolved(AUDIT_COLUMNS, sort) == rest;
      }
    }
  }

  lemma ById(tie: Direction, a: Row, b: Row)
    ensures !Before([], a, b)
    ensures KeyBefore(Cell(a, "id"), Cell(b, "id"), tie) <==> if tie == Asc then a.id < b.id else b.id < a.id
  {
  }

  /** Once the id has decided, nothing after it matters. */
  lemma {:induction false} IdDecides(entries: seq<Entry>, more: seq<Entry>, a: Row, b: Row)
    requires Names(entries, "id") && a.id != b.id
    ensures Before(entries + more, a, b) <==> Before(entries, a, b)
  {
    var rest := entries[1..];
    assert entries + more == [entries[0]] + (rest + more) && entries == [entries[0]] + rest;
    BeforeCons(entries[0], rest + more, a, b);
    BeforeCons(entries[0], rest, a, b);
    if entries[0].column != "id" {
      var i :| 0 <= i < |entries| && entries[i].column == "id";
      assert rest[i - 1] == entries[i];
      hide Before;
      IdDecides(rest, more, a, b);
    }
  }

  /** The order of the log is the requested one. */
  lemma OrderMeans(q: Query, a: Row, b: Row)
    requires a.id != b.id
    ensures Before(Order(q), a, b) <==> RequestedBefore(q.sort, Asc, a, b)
  {
    var known := Resolved(AUDIT_COLUMNS, q.sort);
    OrderIsRequested(q.sort, Asc, a, b);
    hide Before, RequestedBefore, Resolved;
    if Names(known, "id") {
      IdDecides(known, [EndedById(known, Asc)[|known|]], a, b);
      assert EndedById(known, Asc) == known + [EndedById(known, Asc)[|known|]];
    }
  }

  lemma InSequence(s: seq<Row>, rows: set<Row>, q: Query, i: nat, j: nat)
    requires DistinctIds(rows) && Names(Order(q), "id") && Returns(s, rows, Order(q)) && i < j < |s|
    ensures RequestedBefore(q.sort, Asc, s[i], s[j])
  {
    assert s[i] in rows && s[j] in rows;
    BeforeTotal(Order(q), s[i], s[j]);
    OrderMeans(q, s[i], s[j]);
    hide Before, RequestedBefore, Order, Names;
  }

  /**
    The blocks of a complete generation hold exactly the rows asked for - the rows
    committed when the first answer was given, within the boundary if one was named,
    for whose own values every filter's test holds - each once, in the order requested.
   */
  lemma GenerationReadsExactly(db: Db, q: Query, page: Option<Page>, asOf: Option<int>, first: Answer,
                               blocks: seq<Block>, limit: nat)
    requires Inv(db) && Answers(db, q, page, asOf, first) && Consecutive(db, q, first, blocks, limit)
    requires first.totalCount <= |blocks| * limit
    ensures forall row :: row in Concat(blocks) <==> Asked(db, q, asOf, row)
    ensures forall i, j :: 0 <= i < j < |Concat(blocks)| ==>
              Concat(blocks)[i].id != Concat(blocks)[j].id && RequestedBefore(q.sort, Asc, Concat(blocks)[i], Concat(blocks)[j])
  {
    AllBlocksReadEveryRow(db, q, page, asOf, first, blocks, limit);
    MatchingHasDistinctIds(db, q, first.asOfId);
    hide Answers, Consecutive, Inv, Matching, Asked, Concat, Order, RequestedBefore, Before;
    forall row ensures row in Concat(blocks) <==> Asked(db, q, asOf, row) {
      MatchingIsAsked(db, q, page, asOf, first, row);
    }
    forall i, j | 0 <= i < j < |Concat(blocks)|
      ensures Concat(blocks)[i].id != Concat(blocks)[j].id && RequestedBefore(q.sort, Asc, Concat(blocks)[i], Concat(blocks)[j])
    {
      assert Concat(blocks)[i] in Matching(db, q, first.asOfId) && Concat(blocks)[j] in Matching(db, q, first.asOfId);
      InSequence(Concat(blocks), Matching(db, q, first.asOfId), q, i, j);
    }
  }

  /** For instance the rows of one action, newest first. */
  lemma OneActionNewestFirst(db: Db, action: string, page: Option<Page>, first: Answer, blocks: seq<Block>, limit: nat)
    requires var q := Query([Filter("action", v => v == Some(Str(action)))], [Sort("ts", Desc)]);
             Inv(db) && Answers(db, q, page, None, first) && Consecutive(db, q, first, blocks, limit)
    requires first.totalCount <= |blocks| * limit
    ensures var rows := Concat(blocks);
            && (forall row :: row in rows <==>
                  row.id in db.rows && db.rows[row.id] == row && "action" in row.cells && row.cells["action"] == action)
            && (forall i, j :: 0 <= i < j < |rows| && "ts" in rows[i].cells && "ts" in rows[j].cells ==>
                  Less(rows[j].cells["ts"], rows[i].cells["ts"])
                  || (rows[j].cells["ts"] == rows[i].cells["ts"] && rows[j].id < rows[i].id))
  {
    var q := Query([Filter("action", v => v == Some(Str(action)))], [Sort("ts", Desc)]);
    GenerationReadsExactly(db, q, page, None, first, blocks, limit);
    var rows := Concat(blocks);
    hide Answers, Consecutive, Inv, Concat, Asked, RequestedBefore;
    forall row ensures row in rows <==>
      row.id in db.rows && db.rows[row.id] == row && "action" in row.cells && row.cells["action"] == action
    {
      AskedForOneAction(db, q, row, action);
    }
    forall i, j | 0 <= i < j < |rows| && "ts" in rows[i].cells && "ts" in rows[j].cells
      ensures Less(rows[j].cells["ts"], rows[i].cells["ts"])
              || (rows[j].cells["ts"] == rows[i].cells["ts"] && rows[j].id < rows[i].id)
    {
      NewestFirst(q.sort, rows[i], rows[j]);
    }
  }

  lemma AskedForOneAction(db: Db, q: Query, row: Row, action: string)
    requires |q.filters| == 1 && q.filters[0].field == "action"
    requires forall v :: q.filters[0].test(v) <==> v == Some(Str(action))
    ensures Asked(db, q, None, row) <==>
              row.id in db.rows && db.rows[row.id] == row && "action" in row.cells && row.cells["action"] == action
  {
    assert FieldValue(row, "action") == if "action" in row.cells then Some(Str(row.cells["action"])) else None;
    assert Asked(db, q, None, row) <==>
             row.id in db.rows && db.rows[row.id] == row && q.filters[0].test(FieldValue(row, "action"));
  }

  lemma NewestFirst(sort: seq<Sort>, a: Row, b: Row)
    requires sort == [Sort("ts", Desc)] && RequestedBefore(sort, Asc, a, b) && "ts" in a.cells && "ts" in b.cells
    ensures Less(b.cells["ts"], a.cells["ts"]) || (b.cells["ts"] == a.cells["ts"] && b.id < a.id)
  {
    assert sort[1..] == [];
  }

  /** The count alone would not do: a late commit and an equally large prune leave it as it was. */
  lemma CountAloneIsNotEnough(backend: Backend, cells: map<string, string>)
    ensures var db := Db(backend, map[2 := Row(2, cells)], {1}, 3, None);
            var q := Query([], []);
            var later := Run(db, [Commit(1, cells), Prune({2})]);
            && Inv(db)
            && |Matching(later, q, 2)| == |Matching(db, q, 2)|
            && Matching(later, q, 2) != Matching(db, q, 2)
            && ParseEpoch(later.epoch) == ParseEpoch(db.epoch) + 1
  {
    var db := Db(backend, map[2 := Row(2, cells)], {1}, 3, None);
    var q := Query([], []);
    hide Step, Run, BumpEpoch, ParseEpoch, Matching;
    var db2 := Db(backend, map[1 := Row(1, cells)], {}, 3, BumpEpoch(backend, None));
    CommitThenPrune(backend, cells);
    RunTwo(db, Commit(1, cells), Prune({2}));
    OneRowMatches(db, q, 2);
    OneRowMatches(db2, q, 1);
    BumpIsSeenIff(backend, None);
    assert Agreed(backend, None);
  }

  /** Nor would the epoch on a text they read differently: here a prune that removes the row leaves it as read. */
  lemma EpochNeedsAgreement(cells: map<string, string>)
    ensures var db := Db(Sqlite, map[1 := Row(1, cells)], {}, 2, Some("-1x"));
            var later := Step(db, Prune({1}));
            later.rows == map[] && ParseEpoch(later.epoch) == ParseEpoch(db.epoch)
  {
    var db := Db(Sqlite, map[1 := Row(1, cells)], {}, 2, Some("-1x"));
    UnseenBump();
    hide ParseEpoch, BumpEpoch;
    assert Removed(db, {1}) == {1};
    assert db.rows - {1} == map[];
  }

  lemma RunTwo(db: Db, e: Event, f: Event)
    ensures Run(db, [e, f]) == Step(Step(db, e), f)
  {
    hide Step;
    assert [e, f][1..] == [f] && [f][1..] == [];
    assert Run(Step(db, e), [f]) == Run(Step(Step(db, e), f), []);
  }

  lemma CommitThenPrune(backend: Backend, cells: map<string, string>)
    ensures Step(Step(Db(backend, map[2 := Row(2, cells)], {1}, 3, None), Commit(1, cells)), Prune({2}))
            == Db(backend, map[1 := Row(1, cells)], {}, 3, BumpEpoch(backend, None))
  {
    hide BumpEpoch;
    var db1 := Db(backend, map[2 := Row(2, cells), 1 := Row(1, cells)], {}, 3, None);
    assert Step(Db(backend, map[2 := Row(2, cells)], {1}, 3, None), Commit(1, cells)) == db1;
    assert Removed(db1, {2}) == {2};
    assert db1.rows - {2} == map[1 := Row(1, cells)];
  }

  lemma OneRowMatches(db: Db, q: Query, id: nat)
    requires db.rows.Keys == {id} && id <= 2 && q.filters == []
    ensures Matching(db, q, 2) == {db.rows[id]}
  {
    assert id in db.rows;
  }

  // ---- the retention prune --------------------------------------------------------------

  /** SQLite compares the texts; a row without a `ts` is never older. */
  predicate Older(row: Row, cutoff: string) {
    "ts" in row.cells && Less(row.cells["ts"], cutoff)
  }

  lemma {:induction false} SmallestExists(ids: set<nat>, from: nat, some: nat)
    requires some in ids && from <= some && forall x :: x in ids ==> from <= x
    ensures exists m :: m in ids && forall x :: x in ids ==> m <= x
    decreases some - from
  {
    if from !in ids { SmallestExists(ids, from + 1, some); }
  }

  function Smallest(ids: set<nat>): (m: nat)
    requires ids != {}
    ensures m in ids && forall x :: x in ids ==> m <= x
  {
    assert exists m :: m in ids && forall x :: x in ids ==> m <= x by {
      var some :| some in ids;
      SmallestExists(ids, 0, some);
    }
    var m :| m in ids && forall x :: x in ids ==> m <= x;
    m
  }

  /** `ORDER BY id ASC LIMIT k`: the `k` smallest ids. */
  function Oldest(ids: set<nat>, k: nat): (r: set<nat>)
    requires k <= |ids|
    ensures r <= ids && |r| == k
    decreases k
  {
    if k == 0 then {}
    else
      var m := Smallest(ids);
      {m} + Oldest(ids - {m}, k - 1)
  }

  lemma {:induction false} OldestAreBelow(ids: set<nat>, k: nat, a: nat, b: nat)
    requires k <= |ids| && a in Oldest(ids, k) && b in ids - Oldest(ids, k)
    ensures a < b
    decreases k
  {
    var m := Smallest(ids);
    if a != m { OldestAreBelow(ids - {m}, k - 1, a, b); }
  }

  /** The ids of the rows the delete by age takes. */
  function TooOld(rows: map<nat, Row>, cutoff: Option<string>): set<nat> {
    set id | id in rows && cutoff.Some? && Older(rows[id], cutoff.value)
  }

  /** The ids a prune keeps: the `max` greatest of those not older than the cutoff. */
  ghost predicate IsKept(recent: set<nat>, max: Option<nat>, kept: set<nat>) {
    && kept <= recent
    && (forall a, b :: a in recent - kept && b in kept ==> a < b)
    && |kept| == (if max.Some? && max.value < |recent| then max.value else |recent|)
  }

  /** There is only one such set. */
  lemma KeptIsUnique(recent: set<nat>, max: Option<nat>, a: set<nat>, b: set<nat>)
    requires IsKept(recent, max, a) && IsKept(recent, max, b)
    ensures a == b
  {
    if a <= b {
      SubsetSize(a, b);
    } else {
      var x :| x in a && x !in b;
      forall y | y in b ensures y in a {
        assert x in recent - b;
        assert y in recent - a || y in a;
      }
      SubsetSize(b, a);
    }
  }

  function Newer(ids: set<nat>, id: nat): set<nat> {
    set x | x in ids && x > id
  }

  /** A row is kept if and only if fewer than the cap of the rows not too old are newer than it. */
  lemma KeptIff(recent: set<nat>, max: Option<nat>, kept: set<nat>, id: nat)
    requires IsKept(recent, max, kept)
    ensures id in kept <==> id in recent && (max.Some? ==> |Newer(recent, id)| < max.value)
  {
    var newer := Newer(recent, id);
    if id in kept {
      forall x | x in newer ensures x in kept - {id} {
        assert x in recent - kept ==> x < id;
      }
      SubsetSize(newer, kept - {id});
    } else if id in recent {
      forall x | x in kept ensures x in newer { assert id in recent - kept; }
      SubsetSize(kept, newer);
      if max.None? || max.value >= |recent| { SubsetSize(kept, recent); }
    }
  }

  /** The end of year 9999: later times print in texts that do not sort as they do. */
  const PRINTABLE := (IsoText.LAST_DAY + 1) * 86400

  /** Each row with a `ts` has the printed text of its time there. */
  ghost predicate Dated(rows: map<nat, Row>, times: map<nat, nat>) {
    forall id :: id in rows ==>
      if id in times then times[id] < PRINTABLE && "ts" in rows[id].cells
                          && rows[id].cells["ts"] == IsoText.IsoDatetimeFromSystemTime(times[id])
      else "ts" !in rows[id].cells
  }

  /** The delete by age takes exactly the rows of a time before the cutoff; one without a time stays. */
  lemma TooOldByTime(rows: map<nat, Row>, times: map<nat, nat>, cutoff: nat)
    requires Dated(rows, times) && cutoff < PRINTABLE
    ensures TooOld(rows, Some(IsoText.IsoDatetimeFromSystemTime(cutoff)))
         == set id | id in rows && id in times && times[id] < cutoff
  {
    hide IsoText.IsoDatetimeFromSystemTime, Less;
    forall id | id in rows && id in times
      ensures Older(rows[id], IsoText.IsoDatetimeFromSystemTime(cutoff)) <==> times[id] < cutoff
    {
      TextsSortAsTimes(times[id], cutoff);
    }
  }

  lemma NothingTooOld(rows: map<nat, Row>)
    ensures TooOld(rows, None) == {}
  {
  }

  lemma TextsSortAsTimes(s: nat, t: nat)
    requires s < PRINTABLE && t < PRINTABLE
    ensures Less(IsoText.IsoDatetimeFromSystemTime(s), IsoText.IsoDatetimeFromSystemTime(t)) <==> s < t
  {
    hide IsoText.IsoDatetimeFromSystemTime, Less, PrintedDates.DayLeads;
    PrintedDates.DatetimeOrderIff(s, t);
    PrintedDates.InOrder(s / 86400, t / 86400);
  }

  /**
    What an undisturbed prune leaves, told in times: the rows that are not before
    the cutoff, if there is one, or have no time, and of these those with fewer than
    the cap of them above, if there is one.
   */
  lemma PrunedByTime(rows: map<nat, Row>, times: map<nat, nat>, cutoff: Option<nat>, max: Option<nat>, kept: set<nat>, id: nat)
    requires Dated(rows, times) && (cutoff.Some? ==> cutoff.value < PRINTABLE) && id in rows
    requires var text := if cutoff.Some? then Some(IsoText.IsoDatetimeFromSystemTime(cutoff.value)) else None;
             IsKept(rows.Keys - TooOld(rows, text), max, kept)
    ensures var stays := set x | x in rows && (cutoff.Some? && x in times ==> times[x] >= cutoff.value);
            id in kept <==> id in stays && (max.Some? ==> |Newer(stays, id)| < max.value)
  {
    hide IsoText.IsoDatetimeFromSystemTime, IsKept, Dated, TooOld;
    var text := if cutoff.Some? then Some(IsoText.IsoDatetimeFromSystemTime(cutoff.value)) else None;
    var stays := set x | x in rows && (cutoff.Some? && x in times ==> times[x] >= cutoff.value);
    if cutoff.Some? { TooOldByTime(rows, times, cutoff.value); } else { NothingTooOld(rows); }
    assert rows.Keys - TooOld(rows, text) == stays;
    KeptIff(stays, max, kept, id);
  }

  lemma RemoveIds(rows: map<nat, Row>, gone: set<nat>)
    requires gone <= rows.Keys
    ensures var left := rows - gone;
            left.Keys == rows.Keys - gone && |left| == |rows| - |gone| && gone == rows.Keys - left.Keys
  {
    var left := rows - gone;
    assert left.Keys == rows.Keys - gone;
    assert |left| == |left.Keys|;
  }

  lemma NoCap(ids: set<nat>)
    ensures IsKept(ids, None, ids) && ids - {} == ids
  {
  }

  lemma PruneStep(db: Db, gone: set<nat>)
    requires gone <= db.rows.Keys
    ensures Step(db, Event.Prune(gone))
            == if gone == {} then db else db.(rows := db.rows - gone, epoch := BumpEpoch(db.backend, db.epoch))
  {
    hide BumpEpoch;
    assert Removed(db, gone) == gone;
  }

  /** What a prune writes is the run's prune step, and the epoch counts it exactly when a row went. */
  lemma PruneIsAStep(db: Db, left: map<nat, Row>)
    requires left.Keys <= db.rows.Keys && left == db.rows - (db.rows.Keys - left.Keys)
    ensures |left| <= |db.rows|
    ensures db.(rows := left, epoch := if |left| < |db.rows| then BumpEpoch(db.backend, db.epoch) else db.epoch)
            == Step(db, Event.Prune(db.rows.Keys - left.Keys))
    ensures Agreed(db.backend, db.epoch) ==>
              ParseEpoch(Step(db, Event.Prune(db.rows.Keys - left.Keys)).epoch)
              == ParseEpoch(db.epoch) + (if |left| < |db.rows| then 1 else 0)
  {
    var gone := db.rows.Keys - left.Keys;
    BumpIsSeenIff(db.backend, db.epoch);
    RemoveIds(db.rows, gone);
    PruneStep(db, gone);
    hide *;
    assert gone == {} <==> |left| == |db.rows|;
    if gone == {} { assert left == db.rows; }
  }

  /** Transactions of writers, committed by now; no prune. */
  predicate Writes(events: seq<Event>) {
    forall e :: e in events ==> !e.Prune?
  }

  /** Writers change and remove no row, and leave the epoch. */
  lemma {:induction false} WritesExtend(db: Db, events: seq<Event>)
    requires IdsInv(db) && Writes(events)
    ensures var db' := Run(db, events);
            IdsInv(db') && Extends(db.rows, db'.rows) && db'.epoch == db.epoch && db'.backend == db.backend
    decreases events
  {
    if events != [] {
      assert events[0] in events;
      WritesExtend(Step(db, events[0]), events[1..]);
    }
  }

  /** Both deletes together: first `a`, then `b`. */
  lemma DeletedTogether(rows: map<nat, Row>, a: set<nat>, b: set<nat>)
    requires a <= rows.Keys && b <= rows.Keys - a
    ensures |rows - (a + b)| == |rows| - |a| - |b| && (rows - (a + b)).Keys == rows.Keys - a - b
    ensures rows.Keys - (rows - (a + b)).Keys == a + b
  {
    assert a !! b;
    RemoveIds(rows, a + b);
  }

  /** Deleting `a`, then `b`, and advancing the epoch if that was anything, is one prune step. */
  lemma PruneTogether(db: Db, a: set<nat>, b: set<nat>)
    requires a <= db.rows.Keys && b <= db.rows.Keys - a
    ensures var left, deleted := db.rows - (a + b), |a| + |b|;
            var db' := db.(rows := left, epoch := if deleted > 0 then BumpEpoch(db.backend, db.epoch) else db.epoch);
            && left.Keys == db.rows.Keys - a - b && left.Keys <= db.rows.Keys && deleted == |db.rows| - |left|
            && db' == Step(db, Event.Prune(db.rows.Keys - left.Keys))
            && (Agreed(db.backend, db.epoch) ==> ParseEpoch(db'.epoch) == ParseEpoch(db.epoch) + (if deleted > 0 then 1 else 0))
  {
    hide Step, ParseEpoch, BumpEpoch, Agreed;
    DeletedTogether(db.rows, a, b);
    PruneIsAStep(db, db.rows - (a + b));
  }

  class AuditLog {
    var db: Db

    /** Writers commit between the two deletes; SQLite writes one transaction at a time. */
    method Others() returns (ghost events: seq<Event>)
      modifies this
      ensures db == Run(old(db), events) && Writes(events) && (old(db).backend == Sqlite ==> events == [])
    {
      events := [];
    }

    /**
      `prune`: both deletes and the epoch in one transaction. `cutoffOf` is the
      clock minus so many days, as the text `ts` is compared with. `between` is
      what writers committed between the deletes: only the second one sees it.
     */
    method Prune(retentionDays: Option<int>, retentionRows: Option<int>, cutoffOf: int -> string)
      returns (deleted: nat, ghost between: seq<Event>)
      requires IdsInv(db)
      modifies this
      ensures Writes(between) && (old(db).backend == Sqlite ==> between == [])
      ensures var days := if retentionDays.Some? && retentionDays.value > 0 then Some(cutoffOf(retentionDays.value)) else None;
              var rows := if retentionRows.Some? && retentionRows.value > 0 then Some(retentionRows.value) else None;
              var mid := Run(old(db), between);
              && IsKept(mid.rows.Keys - TooOld(old(db).rows, days), rows, db.rows.Keys)
              && db.rows.Keys <= mid.rows.Keys && deleted == |mid.rows| - |db.rows|
              && db == Step(mid, Event.Prune(mid.rows.Keys - db.rows.Keys))
      ensures between == [] && (retentionRows.Some? ==> retentionRows.value <= 0) ==>
                forall id :: id in old(db).rows ==>
                  (id !in db.rows <==>
                     retentionDays.Some? && retentionDays.value > 0 && "ts" in old(db).rows[id].cells
                     && Less(old(db).rows[id].cells["ts"], cutoffOf(retentionDays.value)))
      ensures Agreed(old(db).backend, old(db).epoch) ==>
                ParseEpoch(db.epoch) == ParseEpoch(old(db).epoch) + (if deleted > 0 then 1 else 0)
    {
      hide *;
      var byAge, byCap: set<nat> := {}, {};
      ghost var before := db;
      ghost var days := if retentionDays.Some? && retentionDays.value > 0 then Some(cutoffOf(retentionDays.value)) else None;
      OldAreThere(db.rows, days);
      if retentionDays.Some? && retentionDays.value > 0 {
        byAge := TooOld(db.rows, Some(cutoffOf(retentionDays.value)));
      }
      between := Others();
      WritesExtend(before, between);
      ExtendsKeys(before.rows, db.rows);
      if retentionRows.Some? && retentionRows.value > 0 {
        byCap := BeyondCap(db.rows, byAge, retentionRows.value);
      } else {
        NoCap(db.rows.Keys - byAge);
      }
      PruneTogether(db, byAge, byCap);
      RunNone(before);
      if retentionRows.None? || retentionRows.value <= 0 { OnlyByAge(before.rows, days, byAge); }
      deleted := |byAge| + |byCap|;
      db := db.(rows := db.rows - (byAge + byCap),
                epoch := if deleted > 0 then BumpEpoch(db.backend, db.epoch) else db.epoch);
    }

    /** The row-cap delete: what is beyond the `max` newest ids of the rows it sees. */
    static method BeyondCap(rows: map<nat, Row>, gone: set<nat>, max: nat) returns (oldest: set<nat>)
      requires gone <= rows.Keys
      ensures oldest <= rows.Keys - gone && IsKept(rows.Keys - gone, Some(max), rows.Keys - gone - oldest)
    {
      var ids := rows.Keys - gone;
      var excess := if |ids| <= max then 0 else |ids| - max;
      oldest := Oldest(ids, excess);
      assert |ids - oldest| == |ids| - |oldest|;
      forall a, b | a in ids - (ids - oldest) && b in ids - oldest ensures a < b {
        OldestAreBelow(ids, excess, a, b);
      }
    }
  }

  lemma RunNone(db: Db)
    ensures Run(db, []) == db
  {
  }

  lemma OnlyByAge(rows: map<nat, Row>, cutoff: Option<string>, gone: set<nat>)
    requires gone == TooOld(rows, cutoff)
    ensures forall id :: id in rows ==>
              (id in gone <==> cutoff.Some? && "ts" in rows[id].cells && Less(rows[id].cells["ts"], cutoff.value))
  {
    hide Less;
  }

  lemma OldAreThere(rows: map<nat, Row>, cutoff: Option<string>)
    ensures TooOld(rows, cutoff) <= rows.Keys && (cutoff.None? ==> TooOld(rows, cutoff) == {})
  {
    hide Older;
  }

  lemma ExtendsKeys(a: map<nat, Row>, b: map<nat, Row>)
    requires Extends(a, b)
    ensures a.Keys <= b.Keys
  {
  }
}
