/**
  The audit spool (`audit.rs`, `audit/spool.rs`): recorders whose INSERT may hang
  and finish late, a directory of spooled entries shared by several processes,
  and a flusher in each process. A run is any interleaving of their steps; a
  crashed process is one that takes no further step, a restart opens a new one.
 */
module AuditSpool {
  import opened Text

  /** What `record` fixed before writing: the fresh `pending_id`, the time, and the rest of the entry. */
  datatype Entry = Entry(pid: nat, ts: string, body: string)

  /** A row of `audit_log`; `spooled` marks the `detail` of a row a flush wrote. */
  datatype Row = Row(entry: Entry, spooled: bool)

  /** The detached INSERT: whether the database has executed it, and what it answered. */
  datatype Task = Task(executed: bool, answer: Option<bool>)

  datatype Outcome = Inserted | Spooled | Dropped | Failed

  /** Where a `record` call is. `Wrote` still holds its slot in `writing`; `Unmarked` failed and gave it back. */
  datatype Phase = Waiting | NeedsSpool | Writing | Wrote(ok: bool) | Unmarked | Done(outcome: Outcome)

  datatype Recorder = Recorder(entry: Entry, process: nat, task: Task, phase: Phase)

  /** Where a process's flush is, with the entries it has still to insert. */
  datatype Flush =
    | Idle
    | Working(todo: seq<Entry>)
    | Sent(entry: Entry, executed: bool, todo: seq<Entry>)
    | Removing(entry: Entry, todo: seq<Entry>)
    | Removed(entry: Entry, todo: seq<Entry>)
    | Reconciling
    | Listed(ids: set<nat>)
    | Checked(gone: set<nat>)

  /** One process's view: the index of waiting entries, the slots whose file is being written, its counters. */
  datatype Process = Process(cap: nat, index: set<nat>, writing: set<nat>, dropped: nat, failed: nat, flush: Flush)

  /**
    `everWritten` and `everSpooled` remember which entries have had a row and a
    file; `late` are flush statements nobody waits for any more.
   */
  datatype System = System(
    table: map<nat, Row>, nextRow: nat, everWritten: set<nat>,
    files: map<nat, Entry>, everSpooled: set<nat>,
    recorders: map<nat, Recorder>, processes: map<nat, Process>, late: set<Entry>)

  datatype RecordEvent =
    | Execute | Answer(ok: bool) | Observe | TimedOut | Reserve | WriteFile(ok: bool) | Unmark | GiveUp

  datatype FlushEvent =
    | Scan(todo: seq<Entry>) | Send | FlushExecute | FlushAnswer(ok: bool) | RemoveFile(ok: bool) | Forget
    | ListIndex | Check(gone: set<nat>) | Reconcile

  datatype Event =
    | Open(process: nat, cap: nat)
    | Record(process: nat, entry: Entry)
    | OfRecorder(pid: nat, r: RecordEvent)
    | OfFlush(process: nat, f: FlushEvent)
    | LateExecute(entry: Entry)
    | Prune(rows: set<nat>)

  predicate HasRow(s: System, pid: nat) {
    exists r :: r in s.table && s.table[r].entry.pid == pid
  }

  /** `INSERT ... ON CONFLICT (pending_id) DO NOTHING`. */
  function Insert(s: System, e: Entry, spooled: bool): System {
    if HasRow(s, e.pid) then s
    else s.(table := s.table[s.nextRow := Row(e, spooled)], nextRow := s.nextRow + 1, everWritten := s.everWritten + {e.pid})
  }

  function WithRecorder(s: System, pid: nat, r: Recorder): System {
    s.(recorders := s.recorders[pid := r])
  }

  function WithProcess(s: System, p: nat, process: Process): System {
    s.(processes := s.processes[p := process])
  }

  /** The next step of a `record` call, or of the INSERT it started. */
  function RecordStep(s: System, pid: nat, e: RecordEvent): System
    requires pid in s.recorders && s.recorders[pid].process in s.processes
  {
    var r := s.recorders[pid];
    var p := s.processes[r.process];
    match e
    case Execute =>
      if r.task.executed then s
      else WithRecorder(Insert(s, r.entry, false), pid, r.(task := r.task.(executed := true)))
    case Answer(ok) =>
      if r.task.answer.Some? || (ok && !r.task.executed) then s
      else WithRecorder(s, pid, r.(task := r.task.(answer := Some(ok))))
    case Observe =>
      if !r.phase.Waiting? || r.task.answer.None? then s
      else WithRecorder(s, pid, r.(phase := if r.task.answer.value then Done(Inserted) else NeedsSpool))
    case TimedOut => if r.phase.Waiting? then WithRecorder(s, pid, r.(phase := NeedsSpool)) else s
    case Reserve =>
      if !r.phase.NeedsSpool? then s
      else if |p.index| >= p.cap then
        WithProcess(WithRecorder(s, pid, r.(phase := Done(Dropped))), r.process, p.(dropped := p.dropped + 1))
      else
        WithProcess(WithRecorder(s, pid, r.(phase := Writing)), r.process,
                    p.(index := p.index + {pid}, writing := p.writing + {pid}))
    case WriteFile(ok) =>
      if !r.phase.Writing? then s
      else if ok then
        WithRecorder(s, pid, r.(phase := Wrote(true)))
        .(files := s.files[pid := r.entry], everSpooled := s.everSpooled + {pid})
      else WithRecorder(s, pid, r.(phase := Wrote(false)))
    case Unmark =>
      if !r.phase.Wrote? then s
      else WithProcess(WithRecorder(s, pid, r.(phase := if r.phase.ok then Done(Spooled) else Unmarked)), r.process,
                       p.(writing := p.writing - {pid}))
    case GiveUp =>
      if !r.phase.Unmarked? then s
      else WithProcess(WithRecorder(s, pid, r.(phase := Done(Failed))), r.process,
                       p.(index := p.index - {pid}, failed := p.failed + 1))
  }

  function Pids(entries: seq<Entry>): set<nat> {
    set i | 0 <= i < |entries| :: entries[i].pid
  }

  /** Continue with the rest, or stop and reconcile. */
  function Next(todo: seq<Entry>): Flush {
    if todo == [] then Reconciling else Working(todo)
  }

  /**
    The next step of a process's flush. A scan lists entries that are or were
    files (the directory is not read in one instant); `Check` names listed ids
    whose file is not there.
   */
  function FlushStep(s: System, p: nat, e: FlushEvent): System
    requires p in s.processes
  {
    var process := s.processes[p];
    var flush := process.flush;
    match e
    case Scan(todo) =>
      if !flush.Idle? || !AllWereSpooled(s, todo) then s
      else WithProcess(s, p, process.(index := process.index + Pids(todo), flush := Next(todo)))
    case Send =>
      if !flush.Working? || flush.todo == [] then s
      else WithProcess(s, p, process.(flush := Sent(flush.todo[0], false, flush.todo[1..])))
    case FlushExecute =>
      if !flush.Sent? || flush.executed then s
      else WithProcess(Insert(s, flush.entry, true), p, process.(flush := flush.(executed := true)))
    case FlushAnswer(ok) =>
      if !flush.Sent? || (ok && !flush.executed) then s
      else if ok then WithProcess(s, p, process.(flush := Removing(flush.entry, flush.todo)))
      else WithProcess(s, p, process.(flush := Reconciling)).(late := s.late + {flush.entry})
    case RemoveFile(ok) =>
      if !flush.Removing? then s
      else if ok then
        WithProcess(s, p, process.(flush := Removed(flush.entry, flush.todo))).(files := s.files - {flush.entry.pid})
      else WithProcess(s, p, process.(flush := Next(flush.todo)))
    case Forget =>
      if !flush.Removed? then s
      else WithProcess(s, p, process.(index := process.index - {flush.entry.pid}, flush := Next(flush.todo)))
    case ListIndex =>
      if !flush.Reconciling? then s
      else WithProcess(s, p, process.(flush := Listed(process.index - process.writing)))
    case Check(gone) =>
      if !flush.Listed? || !(gone <= flush.ids - s.files.Keys) then s
      else WithProcess(s, p, process.(flush := Checked(gone)))
    case Reconcile =>
      if !flush.Checked? then s
      else WithProcess(s, p, process.(index := process.index - flush.gone, flush := Idle))
  }

  /** `x` is the entry of a file that is, or once was, in the directory. */
  predicate WasSpooled(s: System, x: Entry) {
    x.pid in s.everSpooled && x.pid in s.recorders && s.recorders[x.pid].entry == x
  }

  predicate AllWereSpooled(s: System, todo: seq<Entry>) {
    forall x :: x in todo ==> WasSpooled(s, x)
  }

  function Step(s: System, e: Event): System {
    match e
    case Open(p, cap) =>
      if p in s.processes then s else WithProcess(s, p, Process(cap, s.files.Keys, {}, 0, 0, Idle))
    case Record(p, entry) =>
      if p !in s.processes || entry.pid in s.recorders then s
      else WithRecorder(s, entry.pid, Recorder(entry, p, Task(false, None), Waiting))
    case OfRecorder(pid, r) =>
      if pid in s.recorders && s.recorders[pid].process in s.processes then RecordStep(s, pid, r) else s
    case OfFlush(p, f) => if p in s.processes then FlushStep(s, p, f) else s
    case LateExecute(entry) => if entry in s.late then Insert(s, entry, true) else s
    case Prune(rows) => s.(table := s.table - rows)
  }

  function Run(s: System, events: seq<Event>): System
    decreases events
  {
    if events == [] then s else Run(Step(s, events[0]), events[1..])
  }

  // ---- invariants -------------------------------------------------------------------

  /** The call has finished trying to write its file (or never will). */
  predicate PastWriting(phase: Phase) {
    phase.Wrote? || phase.Unmarked? || phase.Done?
  }

  /** `x` is what was recorded under its id. */
  predicate Known(s: System, x: Entry) {
    x.pid in s.recorders && s.recorders[x.pid].entry == x
  }

  ghost predicate TableInv(s: System) {
    && (forall r :: r in s.table ==> r < s.nextRow && s.table[r].entry.pid in s.everWritten && Known(s, s.table[r].entry))
    && (forall q, r :: q in s.table && r in s.table && s.table[q].entry.pid == s.table[r].entry.pid ==> q == r)
    && (forall x :: x in s.late ==> Known(s, x))
  }

  ghost predicate RecorderInv(s: System, pid: nat, r: Recorder) {
    && r.entry.pid == pid
    && r.process in s.processes
    && (r.task.executed ==> pid in s.everWritten)
    && (r.task.answer == Some(true) ==> r.task.executed)
    && (r.phase == Done(Inserted) ==> pid in s.everWritten)
    && (pid in s.everSpooled <==> r.phase == Wrote(true) || r.phase == Done(Spooled))
    && (pid in s.everSpooled ==> pid in s.files || pid in s.everWritten)
    && (r.phase.Writing? || r.phase.Wrote? ==> pid in s.processes[r.process].writing)
    && (r.phase.Writing? ==> pid in s.processes[r.process].index)
    && (pid in s.files ==> s.files[pid] == r.entry && pid in s.everSpooled && pid in s.processes[r.process].index)
  }

  /** None of `ids` will get a file any more. */
  ghost predicate AllPast(s: System, ids: set<nat>) {
    forall id :: id in ids ==> id in s.recorders && PastWriting(s.recorders[id].phase)
  }

  ghost predicate FlushInv(s: System, flush: Flush) {
    match flush
    case Idle | Reconciling => true
    case Working(todo) => AllWereSpooled(s, todo)
    case Sent(entry, executed, todo) =>
      WasSpooled(s, entry) && (executed ==> entry.pid in s.everWritten) && AllWereSpooled(s, todo)
    case Removing(entry, todo) => WasSpooled(s, entry) && entry.pid in s.everWritten && AllWereSpooled(s, todo)
    case Removed(entry, todo) =>
      WasSpooled(s, entry) && AllPast(s, {entry.pid}) && entry.pid !in s.files && AllWereSpooled(s, todo)
    case Listed(ids) => AllPast(s, ids)
    case Checked(gone) => AllPast(s, gone) && gone !! s.files.Keys
  }

  ghost predicate SlotInv(s: System, p: nat, process: Process, id: nat) {
    && (id in process.writing ==>
          && id in s.recorders && s.recorders[id].process == p
          && (s.recorders[id].phase.Writing? || s.recorders[id].phase.Wrote?))
    && (id in process.index ==> id in s.recorders && (id in process.writing || PastWriting(s.recorders[id].phase)))
  }

  ghost predicate IndexInv(s: System, p: nat, process: Process) {
    forall id :: SlotInv(s, p, process, id)
  }

  ghost predicate ProcessInv(s: System, p: nat, process: Process) {
    IndexInv(s, p, process) && FlushInv(s, process.flush)
  }

  ghost predicate Inv(s: System) {
    && TableInv(s)
    && s.files.Keys <= s.recorders.Keys && s.everSpooled <= s.recorders.Keys
    && (forall pid :: pid in s.recorders ==> RecorderInv(s, pid, s.recorders[pid]))
    && (forall p :: p in s.processes ==> ProcessInv(s, p, s.processes[p]))
  }

  const EMPTY := System(map[], 0, {}, map[], {}, map[], map[], {})

  lemma EmptyInv()
    ensures Inv(EMPTY)
  {
  }

  /** What every step does to the state, as far as a flush in progress can tell. */
  ghost predicate Grew(s: System, s': System) {
    && s.everSpooled <= s'.everSpooled && s.everWritten <= s'.everWritten
    && (forall id :: id in s.recorders ==>
          && id in s'.recorders && s'.recorders[id].entry == s.recorders[id].entry
          && (PastWriting(s.recorders[id].phase) ==> PastWriting(s'.recorders[id].phase))
          && (PastWriting(s.recorders[id].phase) && id in s'.files ==> id in s.files))
  }

  lemma GrewKeepsFlush(s: System, s': System, flush: Flush)
    requires Grew(s, s') && FlushInv(s, flush)
    ensures FlushInv(s', flush)
  {
    hide PastWriting;
    match flush
    case Idle | Reconciling =>
    case Working(todo) => GrewKeepsTodo(s, s', todo);
    case Sent(entry, _, todo) => GrewKeepsTodo(s, s', todo);
    case Removing(entry, todo) => GrewKeepsTodo(s, s', todo);
    case Removed(entry, todo) =>
      GrewKeepsTodo(s, s', todo);
      assert entry.pid in {entry.pid};
    case Listed(ids) =>
    case Checked(gone) =>
  }

  lemma GrewKeepsTodo(s: System, s': System, todo: seq<Entry>)
    requires Grew(s, s') && AllWereSpooled(s, todo)
    ensures AllWereSpooled(s', todo)
  {
    forall x | x in todo ensures WasSpooled(s', x) {
      assert WasSpooled(s, x);
    }
  }

  // ---- INSERT -------------------------------------------------------------------------

  /** Only the table and its history differ. */
  ghost predicate OnlyTheTableGrew(s: System, s': System) {
    && s'.files == s.files && s'.everSpooled == s.everSpooled && s'.late == s.late
    && s'.recorders == s.recorders && s'.processes == s.processes
    && s.everWritten <= s'.everWritten
  }

  lemma InsertKeepsTable(s: System, x: Entry, spooled: bool)
    requires TableInv(s) && Known(s, x)
    ensures var s' := Insert(s, x, spooled);
            TableInv(s') && OnlyTheTableGrew(s, s') && x.pid in s'.everWritten
  {
    if HasRow(s, x.pid) {
      var r :| r in s.table && s.table[r].entry.pid == x.pid;
    }
  }

  lemma TableGrowthKeepsRecorder(s: System, s': System, pid: nat)
    requires OnlyTheTableGrew(s, s') && pid in s.recorders && RecorderInv(s, pid, s.recorders[pid])
    ensures RecorderInv(s', pid, s'.recorders[pid])
  {
  }

  lemma TableGrowthKeepsProcess(s: System, s': System, p: nat)
    requires OnlyTheTableGrew(s, s') && p in s.processes && ProcessInv(s, p, s.processes[p])
    ensures ProcessInv(s', p, s'.processes[p])
  {
    forall id ensures SlotInv(s', p, s'.processes[p], id) {
      assert SlotInv(s, p, s.processes[p], id);
    }
    GrewKeepsFlush(s, s', s.processes[p].flush);
    hide FlushInv;
  }

  lemma InsertKeepsInv(s: System, x: Entry, spooled: bool)
    requires Inv(s) && Known(s, x)
    ensures var s' := Insert(s, x, spooled);
            Inv(s') && OnlyTheTableGrew(s, s') && x.pid in s'.everWritten
  {
    var s' := Insert(s, x, spooled);
    InsertKeepsTable(s, x, spooled);
    hide Insert, RecorderInv, ProcessInv, TableInv;
    forall p | p in s'.processes ensures ProcessInv(s', p, s'.processes[p]) {
      TableGrowthKeepsProcess(s, s', p);
    }
    forall pid | pid in s'.recorders ensures RecorderInv(s', pid, s'.recorders[pid]) {
      TableGrowthKeepsRecorder(s, s', pid);
    }
  }

  // ---- the steps of a recorder ---------------------------------------------------------

  /** A step of a call changes that call, at most its own file, and its process's slot for it. */
  ghost predicate OwnStep(s: System, s': System, pid: nat)
    requires pid in s.recorders && s.recorders[pid].process in s.processes
  {
    && pid in s'.recorders
    && var r, r' := s.recorders[pid], s'.recorders[pid];
    && s'.recorders == s.recorders[pid := r'] && r'.entry == r.entry && r'.process == r.process
    && (PastWriting(r.phase) ==> PastWriting(r'.phase))
    && s'.everWritten == s.everWritten
    && s.everSpooled <= s'.everSpooled <= s.everSpooled + {pid}
    && (s'.files == s.files || (r.phase.Writing? && s'.files == s.files[pid := r.entry]))
  }

  lemma RecordStepIsOwn(s: System, pid: nat, e: RecordEvent)
    requires pid in s.recorders && s.recorders[pid].process in s.processes && !e.Execute?
    ensures OwnStep(s, RecordStep(s, pid, e), pid)
  {
    hide Insert;
  }

  lemma RecordStepSlots(s: System, pid: nat, e: RecordEvent)
    requires pid in s.recorders && s.recorders[pid].process in s.processes && !e.Execute?
    ensures var s', p := RecordStep(s, pid, e), s.recorders[pid].process;
            && p in s'.processes && s'.processes == s.processes[p := s'.processes[p]]
            && s'.processes[p].flush == s.processes[p].flush
            && s.processes[p].index - {pid} <= s'.processes[p].index
            && s.processes[p].writing - {pid} <= s'.processes[p].writing
  {
    hide Insert;
  }

  lemma RecordStepGrows(s: System, pid: nat, e: RecordEvent)
    requires pid in s.recorders && s.recorders[pid].process in s.processes && !e.Execute?
    ensures Grew(s, RecordStep(s, pid, e))
  {
    RecordStepIsOwn(s, pid, e);
    hide RecordStep;
  }

  lemma RecordStepKeepsSlotTaken(s: System, pid: nat, e: RecordEvent, p: nat, id: nat)
    requires pid in s.recorders && s.recorders[pid].process in s.processes && p in s.processes
    requires e.Reserve?
    requires SlotInv(s, p, s.processes[p], id)
    ensures var s' := RecordStep(s, pid, e);
            && s'.processes.Keys == s.processes.Keys
            && s'.processes[p].flush == s.processes[p].flush
            && SlotInv(s', p, s'.processes[p], id)
  {
    hide Insert;
  }

  lemma RecordStepKeepsSlotReleased(s: System, pid: nat, e: RecordEvent, p: nat, id: nat)
    requires pid in s.recorders && s.recorders[pid].process in s.processes && p in s.processes
    requires e.Unmark? || e.GiveUp?
    requires RecorderInv(s, pid, s.recorders[pid]) && SlotInv(s, p, s.processes[p], id)
    ensures var s' := RecordStep(s, pid, e);
            && s'.processes.Keys == s.processes.Keys
            && s'.processes[p].flush == s.processes[p].flush
            && SlotInv(s', p, s'.processes[p], id)
  {
    hide Insert;
  }

  lemma RecordStepKeepsSlot(s: System, pid: nat, e: RecordEvent, p: nat, id: nat)
    requires pid in s.recorders && s.recorders[pid].process in s.processes && p in s.processes
    requires !e.Reserve? && !e.Unmark? && !e.GiveUp? && !e.Execute?
    requires RecorderInv(s, pid, s.recorders[pid]) && SlotInv(s, p, s.processes[p], id)
    ensures var s' := RecordStep(s, pid, e);
            && s'.processes.Keys == s.processes.Keys
            && s'.processes[p].flush == s.processes[p].flush
            && SlotInv(s', p, s'.processes[p], id)
  {
    hide Insert;
  }

  lemma RecordStepKeepsItself(s: System, pid: nat, e: RecordEvent)
    requires pid in s.recorders && s.recorders[pid].process in s.processes && !e.Execute?
    requires RecorderInv(s, pid, s.recorders[pid])
    ensures var s' := RecordStep(s, pid, e);
            s'.recorders.Keys == s.recorders.Keys && RecorderInv(s', pid, s'.recorders[pid])
  {
    hide Insert;
  }

  lemma RecordStepKeepsOthers(s: System, pid: nat, e: RecordEvent, q: nat)
    requires pid in s.recorders && s.recorders[pid].process in s.processes && !e.Execute?
    requires q in s.recorders && q != pid && RecorderInv(s, q, s.recorders[q])
    ensures RecorderInv(RecordStep(s, pid, e), q, RecordStep(s, pid, e).recorders[q])
  {
    RecordStepIsOwn(s, pid, e);
    RecordStepSlots(s, pid, e);
    hide RecordStep, PastWriting;
  }

  /** Only INSERTs and prunes touch the table. */
  ghost predicate SameTable(s: System, s': System) {
    s'.table == s.table && s'.nextRow == s.nextRow
  }

  lemma SameTableKeepsTable(s: System, s': System)
    requires TableInv(s) && SameTable(s, s') && Grew(s, s')
    requires forall x :: x in s'.late ==> x in s.late || Known(s, x)
    ensures TableInv(s')
  {
    hide PastWriting;
    forall x | x in s'.late ensures Known(s', x) {
      assert Known(s, x);
    }
    forall r | r in s'.table ensures Known(s', s'.table[r].entry) {
      assert Known(s, s.table[r].entry);
    }
  }

  lemma RecordStepLeavesTable(s: System, pid: nat, e: RecordEvent)
    requires pid in s.recorders && s.recorders[pid].process in s.processes && !e.Execute?
    ensures var s' := RecordStep(s, pid, e);
            && SameTable(s, s') && s'.late == s.late
            && s'.files.Keys <= s.files.Keys + {pid} && s'.everSpooled <= s.everSpooled + {pid}
  {
    hide Insert;
  }

  /** The INSERT has run: its task knows it. */
  lemma ExecutedKeepsInv(s: System, pid: nat)
    requires Inv(s) && pid in s.recorders && pid in s.everWritten
    ensures Inv(WithRecorder(s, pid, s.recorders[pid].(task := s.recorders[pid].task.(executed := true))))
  {
    var s' := WithRecorder(s, pid, s.recorders[pid].(task := s.recorders[pid].task.(executed := true)));
    assert Grew(s, s');
    SameTableKeepsTable(s, s');
    forall p | p in s.processes ensures ProcessInv(s', p, s'.processes[p]) {
      ExecutedKeepsProcess(s, pid, p);
      hide *;
    }
    forall q | q in s.recorders ensures RecorderInv(s', q, s'.recorders[q]) {
      ExecutedKeepsRecorder(s, pid, q);
      hide *;
    }
    hide TableInv, ProcessInv, RecorderInv, Grew;
  }

  lemma ExecutedKeepsRecorder(s: System, pid: nat, q: nat)
    requires pid in s.recorders && pid in s.everWritten && q in s.recorders && RecorderInv(s, q, s.recorders[q])
    ensures var s' := WithRecorder(s, pid, s.recorders[pid].(task := s.recorders[pid].task.(executed := true)));
            RecorderInv(s', q, s'.recorders[q])
  {
  }

  lemma ExecutedKeepsProcess(s: System, pid: nat, p: nat)
    requires pid in s.recorders && p in s.processes && ProcessInv(s, p, s.processes[p])
    ensures var s' := WithRecorder(s, pid, s.recorders[pid].(task := s.recorders[pid].task.(executed := true)));
            ProcessInv(s', p, s'.processes[p])
  {
    var s' := WithRecorder(s, pid, s.recorders[pid].(task := s.recorders[pid].task.(executed := true)));
    GrewKeepsFlush(s, s', s.processes[p].flush);
    hide FlushInv;
    forall id ensures SlotInv(s', p, s'.processes[p], id) {
      assert SlotInv(s, p, s.processes[p], id);
    }
  }

  lemma RecorderKnowsItself(s: System, pid: nat)
    requires pid in s.recorders && RecorderInv(s, pid, s.recorders[pid])
    ensures Known(s, s.recorders[pid].entry) && s.recorders[pid].entry.pid == pid
  {
  }

  lemma RecordStepKeepsProcess(s: System, pid: nat, e: RecordEvent, p: nat)
    requires pid in s.recorders && s.recorders[pid].process in s.processes && p in s.processes && !e.Execute?
    requires RecorderInv(s, pid, s.recorders[pid]) && ProcessInv(s, p, s.processes[p])
    requires Grew(s, RecordStep(s, pid, e))
    ensures var s' := RecordStep(s, pid, e);
            s'.processes.Keys == s.processes.Keys && ProcessInv(s', p, s'.processes[p])
  {
    var s' := RecordStep(s, pid, e);
    hide RecordStep, RecorderInv, FlushInv, SlotInv, Grew;
    forall id ensures s'.processes.Keys == s.processes.Keys && s'.processes[p].flush == s.processes[p].flush
                      && SlotInv(s', p, s'.processes[p], id) {
      assert SlotInv(s, p, s.processes[p], id);
      if e.Reserve? { RecordStepKeepsSlotTaken(s, pid, e, p, id); }
      else if e.Unmark? || e.GiveUp? { RecordStepKeepsSlotReleased(s, pid, e, p, id); }
      else { RecordStepKeepsSlot(s, pid, e, p, id); }
    }
    assert SlotInv(s', p, s'.processes[p], 0);
    GrewKeepsFlush(s, s', s.processes[p].flush);
  }

  lemma RecordStepKeepsInv(s: System, pid: nat, e: RecordEvent)
    requires Inv(s) && pid in s.recorders && s.recorders[pid].process in s.processes
    ensures Inv(RecordStep(s, pid, e))
  {
    hide TableInv, ProcessInv, RecorderInv, Grew;
    var r := s.recorders[pid];
    if e == Execute {
      if !r.task.executed {
        RecorderKnowsItself(s, pid);
        InsertKeepsInv(s, r.entry, false);
        hide Inv;
        ExecutedKeepsInv(Insert(s, r.entry, false), pid);
      }
    } else {
      var s' := RecordStep(s, pid, e);
      RecordStepGrows(s, pid, e);
      RecordStepLeavesTable(s, pid, e);
      SameTableKeepsTable(s, s');
      RecordStepKeepsItself(s, pid, e);
      RecordStepKeepsProcess(s, pid, e, r.process);
      hide RecordStep;
      forall p | p in s'.processes ensures ProcessInv(s', p, s'.processes[p]) {
        RecordStepKeepsProcess(s, pid, e, p);
      }
      forall q | q in s'.recorders ensures RecorderInv(s', q, s'.recorders[q]) {
        if q != pid { RecordStepKeepsOthers(s, pid, e, q); }
      }
    }
  }

  // ---- the steps of a flush -----------------------------------------------------------

  lemma ScanIndex(s: System, todo: seq<Entry>)
    requires Inv(s) && AllWereSpooled(s, todo)
    ensures AllPast(s, Pids(todo))
  {
    forall id | id in Pids(todo) ensures id in s.recorders && PastWriting(s.recorders[id].phase) {
      var i :| 0 <= i < |todo| && todo[i].pid == id;
      assert WasSpooled(s, todo[i]);
      assert RecorderInv(s, id, s.recorders[id]);
    }
  }

  lemma FlushStepLeaves(s: System, p: nat, e: FlushEvent)
    requires p in s.processes && !e.FlushExecute?
    ensures var s' := FlushStep(s, p, e);
            && SameTable(s, s') && s'.recorders == s.recorders
            && s'.everSpooled == s.everSpooled && s'.everWritten == s.everWritten
            && s'.files.Keys <= s.files.Keys
  {
    hide Insert, Pids, Next, AllWereSpooled;
  }

  lemma FlushStepLeavesOthers(s: System, p: nat, e: FlushEvent)
    requires p in s.processes && !e.FlushExecute?
    ensures var s' := FlushStep(s, p, e);
            && s'.processes.Keys == s.processes.Keys
            && (forall q :: q in s.processes && q != p ==> s'.processes[q] == s.processes[q])
  {
    hide Insert, Pids, Next, AllWereSpooled;
  }

  lemma FlushStepLeavesKnown(s: System, p: nat, e: FlushEvent)
    requires p in s.processes && !e.FlushExecute? && FlushInv(s, s.processes[p].flush)
    ensures forall x :: x in FlushStep(s, p, e).late ==> x in s.late || Known(s, x)
  {
    hide Insert, Pids, Next, AllWereSpooled, AllPast;
  }

  lemma FlushStepKeepsSlot(s: System, p: nat, e: FlushEvent, id: nat)
    requires p in s.processes && !e.FlushExecute? && SlotInv(s, p, s.processes[p], id)
    requires e.Scan? && AllWereSpooled(s, e.todo) ==> AllPast(s, Pids(e.todo))
    ensures SlotInv(FlushStep(s, p, e), p, FlushStep(s, p, e).processes[p], id)
  {
    hide Insert, Pids, Next, AllWereSpooled;
  }

  lemma ListedArePast(s: System, p: nat, process: Process)
    requires IndexInv(s, p, process)
    ensures AllPast(s, process.index - process.writing)
  {
    forall id | id in process.index - process.writing ensures id in s.recorders && PastWriting(s.recorders[id].phase) {
      assert SlotInv(s, p, process, id);
    }
  }

  /** A flush that takes a step is where its invariant says it may be. */
  lemma FlushStepKeepsItself(s: System, p: nat, e: FlushEvent)
    requires p in s.processes && !e.FlushExecute? && FlushInv(s, s.processes[p].flush)
    requires AllPast(s, s.processes[p].index - s.processes[p].writing)
    requires s.processes[p].flush.Removing? ==> AllPast(s, {s.processes[p].flush.entry.pid})
    ensures FlushInv(s.(files := FlushStep(s, p, e).files), FlushStep(s, p, e).processes[p].flush)
  {
    hide Insert, Pids;
    if s.processes[p].flush.Working? && s.processes[p].flush.todo != [] {
      var todo := s.processes[p].flush.todo;
      assert todo[0] in todo;
      assert AllWereSpooled(s, todo[1..]);
    }
  }

  lemma FlushStepKeepsRecorder(s: System, p: nat, e: FlushEvent, q: nat)
    requires p in s.processes && q in s.recorders && !e.FlushExecute?
    requires FlushInv(s, s.processes[p].flush) && RecorderInv(s, q, s.recorders[q])
    ensures RecorderInv(FlushStep(s, p, e), q, s.recorders[q])
  {
    hide Insert, Pids, Next, AllWereSpooled;
  }

  lemma FlushStepKeepsProcess(s: System, p: nat, e: FlushEvent)
    requires p in s.processes && !e.FlushExecute? && ProcessInv(s, p, s.processes[p])
    requires s.processes[p].flush.Removing? ==> AllPast(s, {s.processes[p].flush.entry.pid})
    requires e.Scan? && AllWereSpooled(s, e.todo) ==> AllPast(s, Pids(e.todo))
    ensures var s' := FlushStep(s, p, e);
            p in s'.processes && ProcessInv(s', p, s'.processes[p])
  {
    var s' := FlushStep(s, p, e);
    ListedArePast(s, p, s.processes[p]);
    FlushStepKeepsItself(s, p, e);
    FlushStepLeaves(s, p, e);
    FlushStepLeavesOthers(s, p, e);
    hide FlushStep, AllPast, SlotInv, FlushInv;
    GrewSame(s.(files := s'.files), s', s'.processes[p].flush);
    forall id ensures SlotInv(s', p, s'.processes[p], id) {
      assert SlotInv(s, p, s.processes[p], id);
      FlushStepKeepsSlot(s, p, e, id);
    }
  }

  lemma GrewSame(s: System, s': System, flush: Flush)
    requires s'.recorders == s.recorders && s'.files == s.files
    requires s'.everSpooled == s.everSpooled && s'.everWritten == s.everWritten && FlushInv(s, flush)
    ensures FlushInv(s', flush)
  {
    GrewKeepsFlush(s, s', flush);
  }

  /** Calls only started, files only removed: no process that took no step can tell. */
  lemma ShrunkFilesKeepProcess(s: System, s': System, p: nat)
    requires p in s.processes && p in s'.processes && s'.processes[p] == s.processes[p] && ProcessInv(s, p, s.processes[p])
    requires forall id :: id in s.recorders ==> id in s'.recorders && s'.recorders[id] == s.recorders[id]
    requires s'.files.Keys <= s.files.Keys
    requires s.everSpooled <= s'.everSpooled && s.everWritten <= s'.everWritten
    ensures ProcessInv(s', p, s'.processes[p])
  {
    GrewKeepsFlush(s, s', s.processes[p].flush);
    hide FlushInv;
    forall id ensures SlotInv(s', p, s'.processes[p], id) {
      assert SlotInv(s, p, s.processes[p], id);
    }
  }

  lemma RemovingIsPast(s: System, p: nat)
    requires Inv(s) && p in s.processes && s.processes[p].flush.Removing?
    ensures AllPast(s, {s.processes[p].flush.entry.pid})
  {
    assert ProcessInv(s, p, s.processes[p]);
    var pid := s.processes[p].flush.entry.pid;
    assert RecorderInv(s, pid, s.recorders[pid]);
  }

  lemma FlushExecutedKeepsInv(s: System, p: nat)
    requires Inv(s) && p in s.processes && s.processes[p].flush.Sent? && s.processes[p].flush.entry.pid in s.everWritten
    ensures Inv(WithProcess(s, p, s.processes[p].(flush := s.processes[p].flush.(executed := true))))
  {
    var s' := WithProcess(s, p, s.processes[p].(flush := s.processes[p].flush.(executed := true)));
    assert SameTable(s, s');
    SameTableKeepsTable(s, s');
    assert ProcessInv(s, p, s.processes[p]);
    forall q | q in s'.processes ensures ProcessInv(s', q, s'.processes[q]) {
      if q == p {
        forall id ensures SlotInv(s', p, s'.processes[p], id) {
          assert SlotInv(s, p, s.processes[p], id);
        }
        assert FlushInv(s', s'.processes[p].flush) by { hide SlotInv; }
      } else {
        ShrunkFilesKeepProcess(s, s', q);
      }
    }
    forall q | q in s'.recorders ensures RecorderInv(s', q, s'.recorders[q]) {
      assert RecorderInv(s, q, s.recorders[q]);
    }
    hide *;
  }

  lemma FlushKnows(s: System, p: nat)
    requires p in s.processes && ProcessInv(s, p, s.processes[p]) && s.processes[p].flush.Sent?
    ensures Known(s, s.processes[p].flush.entry)
  {
  }

  lemma FlushStepKeepsInv(s: System, p: nat, e: FlushEvent)
    requires Inv(s) && p in s.processes
    ensures Inv(FlushStep(s, p, e))
  {
    hide TableInv, ProcessInv, RecorderInv, AllPast, AllWereSpooled;
    var process := s.processes[p];
    if e == FlushExecute {
      if process.flush.Sent? && !process.flush.executed {
        FlushKnows(s, p);
        InsertKeepsInv(s, process.flush.entry, true);
        hide Inv;
        FlushExecutedKeepsInv(Insert(s, process.flush.entry, true), p);
      }
    } else {
      var s' := FlushStep(s, p, e);
      if e.Scan? && AllWereSpooled(s, e.todo) { ScanIndex(s, e.todo); }
      if process.flush.Removing? { RemovingIsPast(s, p); }
      FlushStepLeaves(s, p, e);
      FlushStepLeavesOthers(s, p, e);
      FlushStepKeepsProcess(s, p, e);
      ProcessFlushInv(s, p);
      FlushStepLeavesKnown(s, p, e);
      hide FlushStep;
      SameTableKeepsTable(s, s');
      forall q | q in s'.processes ensures ProcessInv(s', q, s'.processes[q]) {
        if q != p { ShrunkFilesKeepProcess(s, s', q); }
      }
      forall q | q in s'.recorders ensures RecorderInv(s', q, s'.recorders[q]) {
        FlushStepKeepsRecorder(s, p, e, q);
      }
    }
  }

  lemma ProcessFlushInv(s: System, p: nat)
    requires p in s.processes && ProcessInv(s, p, s.processes[p])
    ensures FlushInv(s, s.processes[p].flush)
  {
  }

  // ---- the other steps -------------------------------------------------------------------

  lemma OpenKeepsInv(s: System, p: nat, cap: nat)
    requires Inv(s) && p !in s.processes
    ensures Inv(Step(s, Open(p, cap)))
  {
    var s' := Step(s, Open(p, cap));
    hide TableInv, FlushInv;
    assert TableInv(s') by { SameTableKeepsTable(s, s'); }
    forall q | q in s'.processes ensures ProcessInv(s', q, s'.processes[q]) {
      if q == p {
        forall id ensures SlotInv(s', p, s'.processes[p], id) {
          if id in s.files { assert RecorderInv(s, id, s.recorders[id]); }
        }
        IdleIsFine(s');
      } else {
        ShrunkFilesKeepProcess(s, s', q);
      }
    }
    forall q | q in s'.recorders ensures RecorderInv(s', q, s'.recorders[q]) {
      assert RecorderInv(s, q, s.recorders[q]);
    }
  }

  lemma IdleIsFine(s: System)
    ensures FlushInv(s, Idle)
  {
  }

  lemma RecordKeepsInv(s: System, p: nat, entry: Entry)
    requires Inv(s) && p in s.processes && entry.pid !in s.recorders
    ensures Inv(Step(s, Record(p, entry)))
  {
    var s' := Step(s, Record(p, entry));
    assert Grew(s, s');
    SameTableKeepsTable(s, s');
    forall q | q in s'.processes ensures ProcessInv(s', q, s'.processes[q]) {
      ShrunkFilesKeepProcess(s, s', q);
    }
    forall q | q in s'.recorders ensures RecorderInv(s', q, s'.recorders[q]) {
      if q != entry.pid { assert RecorderInv(s, q, s.recorders[q]); }
    }
    hide *;
  }

  lemma PruneKeepsInv(s: System, rows: set<nat>)
    requires Inv(s)
    ensures Inv(Step(s, Prune(rows)))
  {
    var s' := Step(s, Prune(rows));
    assert TableInv(s');
    hide TableInv, RecorderInv, ProcessInv;
    forall p | p in s'.processes ensures ProcessInv(s', p, s'.processes[p]) {
      TableGrowthKeepsProcess(s, s', p);
    }
    forall pid | pid in s'.recorders ensures RecorderInv(s', pid, s'.recorders[pid]) {
      TableGrowthKeepsRecorder(s, s', pid);
    }
  }

  lemma StepKeepsInv(s: System, e: Event)
    requires Inv(s)
    ensures Inv(Step(s, e))
  {
    match e {
      case Open(p, cap) => if p !in s.processes { OpenKeepsInv(s, p, cap); }
      case Record(p, entry) => if p in s.processes && entry.pid !in s.recorders { RecordKeepsInv(s, p, entry); }
      case OfRecorder(pid, r) =>
        if pid in s.recorders && s.recorders[pid].process in s.processes { RecordStepKeepsInv(s, pid, r); }
      case OfFlush(p, f) => if p in s.processes { FlushStepKeepsInv(s, p, f); }
      case LateExecute(entry) =>
        if entry in s.late {
          LateIsKnown(s, entry);
          InsertKeepsInv(s, entry, true);
        }
      case Prune(rows) => PruneKeepsInv(s, rows);
    }
    hide *;
  }

  lemma LateIsKnown(s: System, x: Entry)
    requires TableInv(s) && x in s.late
    ensures Known(s, x)
  {
  }

  lemma {:induction false} RunKeepsInv(s: System, events: seq<Event>)
    requires Inv(s)
    ensures Inv(Run(s, events))
    decreases events
  {
    hide Inv, Step;
    if events != [] {
      StepKeepsInv(s, events[0]);
      RunKeepsInv(Step(s, events[0]), events[1..]);
    }
  }

  // ---- what the spool promises --------------------------------------------------------------

  /** However late INSERTs and several flushers race, a `pending_id` has one row, holding what was recorded. */
  lemma OneRowPerEntry(events: seq<Event>, q: nat, r: nat)
    requires var s := Run(EMPTY, events);
             q in s.table && r in s.table && s.table[q].entry.pid == s.table[r].entry.pid
    ensures q == r
    ensures var s := Run(EMPTY, events);
            var entry := s.table[r].entry;
            entry.pid in s.recorders && s.recorders[entry.pid].entry == entry
  {
    EmptyInv();
    RunKeepsInv(EMPTY, events);
  }

  /** A row that is there - whoever wrote it first - is changed by no later INSERT, flush or open, only pruned. */
  lemma RowsAreNeverChanged(s: System, e: Event, r: nat)
    requires Inv(s) && r in s.table && (e.Prune? ==> r !in e.rows)
    ensures r in Step(s, e).table && Step(s, e).table[r] == s.table[r]
  {
    assert r < s.nextRow;
    hide Inv, Insert, HasRow, Pids, Next;
    match e {
      case Open(p, cap) =>
      case Record(p, entry) =>
      case OfRecorder(pid, x) =>
        if pid in s.recorders && s.recorders[pid].process in s.processes {
          if x != Execute { RecordStepLeavesTable(s, pid, x); } else { InsertKeepsRow(s, s.recorders[pid].entry, false, r); }
        }
      case OfFlush(p, f) =>
        if p in s.processes {
          if f != FlushExecute { FlushStepLeaves(s, p, f); }
          else if s.processes[p].flush.Sent? { InsertKeepsRow(s, s.processes[p].flush.entry, true, r); }
        }
      case LateExecute(entry) => InsertKeepsRow(s, entry, true, r);
      case Prune(rows) =>
    }
  }

  lemma InsertKeepsRow(s: System, x: Entry, spooled: bool, r: nat)
    requires r in s.table && r < s.nextRow
    ensures r in Insert(s, x, spooled).table && Insert(s, x, spooled).table[r] == s.table[r]
  {
  }

  /** A row that appears says how it was written: marked by a flush, unmarked by the recorder's own INSERT. */
  lemma RowsSayHowTheyWereWritten(s: System, e: Event, r: nat)
    requires r !in s.table && r in Step(s, e).table
    ensures Step(s, e).table[r].spooled <==> !e.OfRecorder?
    ensures e.OfFlush? || e.OfRecorder? || e.LateExecute?
  {
    match e {
      case OfRecorder(pid, x) => if x != Execute { RecordStepLeavesTable(s, pid, x); }
      case OfFlush(p, f) => if f != FlushExecute { FlushStepLeaves(s, p, f); }
      case LateExecute(_) =>
      case Open(_, _) =>
      case Record(_, _) =>
      case Prune(_) =>
    }
    hide HasRow, Pids, Next;
  }

  /** A file leaves the directory only once its entry has had its row. */
  lemma FileRemovedOnlyAfterItsRow(s: System, e: Event, pid: nat)
    requires Inv(s) && pid in s.files && pid !in Step(s, e).files
    ensures pid in s.everWritten
  {
    match e {
      case OfFlush(p, f) =>
        assert ProcessInv(s, p, s.processes[p]);
        OnlyRemoveFileRemoves(s, p, f, pid);
      case OfRecorder(q, x) => RecordStepRemovesNoFile(s, q, x, pid);
      case Open(_, _) =>
      case Record(_, _) =>
      case LateExecute(_) =>
      case Prune(_) =>
    }
  }

  lemma OnlyRemoveFileRemoves(s: System, p: nat, f: FlushEvent, pid: nat)
    requires p in s.processes && FlushInv(s, s.processes[p].flush)
    requires pid in s.files && pid !in FlushStep(s, p, f).files
    ensures pid in s.everWritten
  {
    hide Pids, Next;
  }

  lemma RecordStepRemovesNoFile(s: System, q: nat, x: RecordEvent, pid: nat)
    requires q in s.recorders && s.recorders[q].process in s.processes && pid in s.files
    ensures pid in RecordStep(s, q, x).files
  {
  }

  predicate NoPrune(events: seq<Event>) {
    forall i :: 0 <= i < |events| ==> !events[i].Prune?
  }

  /** Everything ever written still has its row. */
  ghost predicate AllRowsThere(s: System) {
    forall pid :: pid in s.everWritten ==> HasRow(s, pid)
  }

  lemma StepKeepsRows(s: System, e: Event)
    requires Inv(s) && AllRowsThere(s) && !e.Prune?
    ensures AllRowsThere(Step(s, e))
  {
    var s' := Step(s, e);
    hide Step, Inv;
    forall pid | pid in s'.everWritten ensures HasRow(s', pid) {
      if pid in s.everWritten {
        assert HasRow(s, pid);
        var r :| r in s.table && s.table[r].entry.pid == pid;
        RowsAreNeverChanged(s, e, r);
        assert s'.table[r].entry.pid == pid;
      } else {
        NewlyWrittenHasRow(s, e, pid);
      }
    }
  }

  lemma NewlyWrittenHasRow(s: System, e: Event, pid: nat)
    requires pid in Step(s, e).everWritten && pid !in s.everWritten
    ensures HasRow(Step(s, e), pid)
  {
    match e {
      case OfRecorder(q, x) => NewlyRecordedHasRow(s, q, x, pid);
      case OfFlush(p, f) => NewlyFlushedHasRow(s, p, f, pid);
      case LateExecute(entry) => InsertWrites(s, entry, true, pid);
      case Open(_, _) =>
      case Record(_, _) =>
      case Prune(_) =>
    }
    hide *;
  }

  lemma NewlyRecordedHasRow(s: System, q: nat, e: RecordEvent, pid: nat)
    requires q in s.recorders && s.recorders[q].process in s.processes
    requires pid in RecordStep(s, q, e).everWritten && pid !in s.everWritten
    ensures HasRow(RecordStep(s, q, e), pid)
  {
    assert e == Execute;
    InsertWrites(s, s.recorders[q].entry, false, pid);
    hide Insert;
    assert RecordStep(s, q, e).table == Insert(s, s.recorders[q].entry, false).table;
  }

  lemma NewlyFlushedHasRow(s: System, p: nat, e: FlushEvent, pid: nat)
    requires p in s.processes
    requires pid in FlushStep(s, p, e).everWritten && pid !in s.everWritten
    ensures HasRow(FlushStep(s, p, e), pid)
  {
    if e != FlushExecute { FlushStepLeaves(s, p, e); }
    InsertWrites(s, s.processes[p].flush.entry, true, pid);
    hide Insert, Pids, Next, AllWereSpooled;
    assert FlushStep(s, p, e).table == Insert(s, s.processes[p].flush.entry, true).table;
  }

  lemma InsertWrites(s: System, x: Entry, spooled: bool, pid: nat)
    requires pid in Insert(s, x, spooled).everWritten && pid !in s.everWritten
    ensures HasRow(Insert(s, x, spooled), pid) && s.nextRow in Insert(s, x, spooled).table
    ensures Insert(s, x, spooled).table[s.nextRow].entry.pid == pid
  {
    assert Insert(s, x, spooled).table[s.nextRow].entry.pid == pid;
  }

  lemma {:induction false} RunKeepsRows(s: System, events: seq<Event>)
    requires Inv(s) && AllRowsThere(s) && NoPrune(events)
    ensures AllRowsThere(Run(s, events))
    decreases events
  {
    hide Inv, Step, AllRowsThere;
    if events != [] {
      StepKeepsInv(s, events[0]);
      StepKeepsRows(s, events[0]);
      RunKeepsRows(Step(s, events[0]), events[1..]);
    }
  }

  /**
    Once `record` has returned, in any run: the entry has had its row, or waits in
    its file - indexed by the process that recorded it - or never got a file
    because it was dropped or failed.
   */
  lemma NothingIsLostButPruned(events: seq<Event>, pid: nat)
    requires var s := Run(EMPTY, events); pid in s.recorders && s.recorders[pid].phase.Done?
    ensures var s := Run(EMPTY, events);
            var r := s.recorders[pid];
            match r.phase.outcome
            case Inserted => pid in s.everWritten
            case Spooled =>
              pid in s.everWritten
              || (pid in s.files && s.files[pid] == r.entry
                  && r.process in s.processes && pid in s.processes[r.process].index)
            case Dropped | Failed => pid !in s.files && pid !in s.everSpooled
  {
    var s := Run(EMPTY, events);
    EmptyInv();
    RunKeepsInv(EMPTY, events);
    assert RecorderInv(s, pid, s.recorders[pid]);
    hide Run;
  }

  /** Prunes aside, "has had its row" is "has its row". */
  lemma NothingIsLost(events: seq<Event>, pid: nat)
    requires NoPrune(events)
    requires var s := Run(EMPTY, events); pid in s.recorders && s.recorders[pid].phase.Done?
    ensures var s := Run(EMPTY, events);
            var r := s.recorders[pid];
            match r.phase.outcome
            case Inserted => HasRow(s, pid)
            case Spooled =>
              HasRow(s, pid)
              || (pid in s.files && s.files[pid] == r.entry
                  && r.process in s.processes && pid in s.processes[r.process].index)
            case Dropped | Failed => pid !in s.files && pid !in s.everSpooled
  {
    EmptyInv();
    NothingIsLostButPruned(events, pid);
    RunKeepsRows(EMPTY, events);
    hide Run;
  }

  // ---- the counters ---------------------------------------------------------------------------

  /** The calls of process `p` that returned with this outcome. */
  function Returned(s: System, p: nat, outcome: Outcome): set<nat> {
    set pid | pid in s.recorders && s.recorders[pid].process == p && s.recorders[pid].phase == Done(outcome)
  }

  ghost predicate Counted(s: System, p: nat) {
    && p in s.processes
    && s.processes[p].dropped == |Returned(s, p, Dropped)|
    && s.processes[p].failed == |Returned(s, p, Failed)|
  }

  ghost predicate CountersInv(s: System) {
    && (forall p :: p in s.processes ==> Counted(s, p))
    && (forall pid :: pid in s.recorders ==> s.recorders[pid].process in s.processes)
  }

  /** A step of a call adds it to the losses of its process exactly when it bumps the counter. */
  lemma RecordStepLoses(s: System, pid: nat, e: RecordEvent, p: nat, o: Outcome)
    requires pid in s.recorders && s.recorders[pid].process in s.processes && p in s.processes
    ensures var s' := RecordStep(s, pid, e);
            Returned(s', p, o) == Returned(s, p, o)
            || (Returned(s', p, o) == Returned(s, p, o) + {pid} && pid !in Returned(s, p, o)
                && s.recorders[pid].process == p && (if o == Dropped then e == Reserve else o == Failed ==> e == GiveUp))
  {
    hide Insert;
    InsertLeaves(s, s.recorders[pid].entry, false);
  }

  lemma RecordStepKeepsCounted(s: System, pid: nat, e: RecordEvent, p: nat)
    requires pid in s.recorders && s.recorders[pid].process in s.processes && Counted(s, p)
    ensures Counted(RecordStep(s, pid, e), p)
  {
    RecordStepLoses(s, pid, e, p, Dropped);
    RecordStepLoses(s, pid, e, p, Failed);
    RecordStepBumps(s, pid, e, p);
    hide RecordStep;
  }

  lemma RecordStepBumps(s: System, pid: nat, e: RecordEvent, p: nat)
    requires pid in s.recorders && s.recorders[pid].process in s.processes && p in s.processes
    ensures var s' := RecordStep(s, pid, e);
            && p in s'.processes
            && s'.processes[p].dropped == s.processes[p].dropped
               + (if pid in Returned(s', p, Dropped) && pid !in Returned(s, p, Dropped) then 1 else 0)
            && s'.processes[p].failed == s.processes[p].failed
               + (if pid in Returned(s', p, Failed) && pid !in Returned(s, p, Failed) then 1 else 0)
  {
    hide HasRow, Insert;
    if e == Execute { ExecuteLeavesPhases(s, pid); }
  }

  lemma ExecuteLeavesPhases(s: System, pid: nat)
    requires pid in s.recorders && s.recorders[pid].process in s.processes
    ensures var s' := RecordStep(s, pid, Execute);
            && s'.processes == s.processes && s'.recorders.Keys == s.recorders.Keys
            && s'.recorders[pid].phase == s.recorders[pid].phase && s'.recorders[pid].process == s.recorders[pid].process
  {
  }

  lemma RecordStepKeepsOwners(s: System, pid: nat, e: RecordEvent)
    requires pid in s.recorders && s.recorders[pid].process in s.processes
    ensures var s' := RecordStep(s, pid, e);
            && s'.processes.Keys == s.processes.Keys && s'.recorders.Keys == s.recorders.Keys
            && forall q :: q in s.recorders ==> s'.recorders[q].process == s.recorders[q].process
  {
    hide Insert;
    InsertLeaves(s, s.recorders[pid].entry, false);
  }

  lemma FlushStepKeepsCounters(s: System, p: nat, e: FlushEvent, q: nat)
    requires p in s.processes
    ensures var s' := FlushStep(s, p, e);
            && s'.recorders == s.recorders && s'.processes.Keys == s.processes.Keys
            && (q in s.processes ==> s'.processes[q].dropped == s.processes[q].dropped
                                     && s'.processes[q].failed == s.processes[q].failed)
  {
    hide Insert, Pids, Next, AllWereSpooled;
    if s.processes[p].flush.Sent? { InsertLeaves(s, s.processes[p].flush.entry, true); }
  }

  lemma InsertLeaves(s: System, x: Entry, spooled: bool)
    ensures OnlyTheTableGrew(s, Insert(s, x, spooled))
  {
  }

  /** A step that returns no call: calls stay where they are, or start. */
  lemma SameLosses(s: System, s': System, p: nat)
    requires Counted(s, p) && p in s'.processes
    requires s'.processes[p].dropped == s.processes[p].dropped && s'.processes[p].failed == s.processes[p].failed
    requires forall q :: q in s.recorders ==> q in s'.recorders && s'.recorders[q] == s.recorders[q]
    requires forall q :: q in s'.recorders && q !in s.recorders ==> s'.recorders[q].phase == Waiting
    ensures Counted(s', p)
  {
    assert Returned(s', p, Dropped) == Returned(s, p, Dropped);
    assert Returned(s', p, Failed) == Returned(s, p, Failed);
  }

  lemma OpenCounts(s: System, p: nat, cap: nat)
    requires CountersInv(s) && p !in s.processes
    ensures Counted(Step(s, Open(p, cap)), p)
  {
    var s' := Step(s, Open(p, cap));
    assert Returned(s', p, Dropped) == {} && Returned(s', p, Failed) == {};
  }

  lemma StepKeepsCounted(s: System, e: Event, p: nat)
    requires CountersInv(s) && p in Step(s, e).processes
    ensures Counted(Step(s, e), p)
  {
    hide Counted, Returned, RecordStep, FlushStep, HasRow;
    match e {
      case OfRecorder(pid, r) =>
        if pid in s.recorders && s.recorders[pid].process in s.processes {
          RecordStepKeepsOwners(s, pid, r);
          RecordStepKeepsCounted(s, pid, r, p);
        }
      case OfFlush(q, f) =>
        if q in s.processes {
          FlushStepKeepsCounters(s, q, f, p);
          SameLosses(s, FlushStep(s, q, f), p);
        }
      case Open(q, cap) =>
        if p !in s.processes { OpenCounts(s, p, cap); } else if q !in s.processes { SameLosses(s, Step(s, e), p); }
      case Record(_, _) => SameLosses(s, Step(s, e), p);
      case LateExecute(_) => SameLosses(s, Step(s, e), p);
      case Prune(_) => SameLosses(s, Step(s, e), p);
    }
  }

  lemma StepKeepsOwners(s: System, e: Event)
    requires forall pid :: pid in s.recorders ==> s.recorders[pid].process in s.processes
    ensures forall pid :: pid in Step(s, e).recorders ==> Step(s, e).recorders[pid].process in Step(s, e).processes
  {
    hide RecordStep, FlushStep, HasRow;
    match e {
      case OfRecorder(pid, r) =>
        if pid in s.recorders && s.recorders[pid].process in s.processes { RecordStepKeepsOwners(s, pid, r); }
      case OfFlush(q, f) => if q in s.processes { FlushStepKeepsCounters(s, q, f, q); }
      case Open(_, _) =>
      case Record(_, _) =>
      case LateExecute(_) =>
      case Prune(_) =>
    }
  }

  lemma {:induction false} RunKeepsCounters(s: System, events: seq<Event>)
    requires CountersInv(s)
    ensures CountersInv(Run(s, events))
    decreases events
  {
    hide Step, Counted;
    if events != [] {
      var s' := Step(s, events[0]);
      StepKeepsOwners(s, events[0]);
      forall p | p in s'.processes ensures Counted(s', p) {
        StepKeepsCounted(s, events[0], p);
      }
      RunKeepsCounters(s', events[1..]);
    }
  }

  /** In every run `dropped` and `failed` are exactly the calls of that process that lost their entry. */
  lemma CountersAreExact(events: seq<Event>, p: nat)
    requires p in Run(EMPTY, events).processes
    ensures var s := Run(EMPTY, events);
            && s.processes[p].dropped == |Returned(s, p, Dropped)|
            && s.processes[p].failed == |Returned(s, p, Failed)|
  {
    assert CountersInv(EMPTY);
    RunKeepsCounters(EMPTY, events);
  }
}
