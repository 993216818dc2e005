/**
  One process's side of the audit spool (`audit.rs`, `audit/spool.rs`), as the
  methods it runs: a record that may have to spool, and a flush. Between two of
  its actions any run of the others' takes place (`Others`): other processes, the
  database, and this process's other calls. What each method does is itself a run
  of `AuditSpool`.
 */
module SpoolService {
  import opened Text
  import opened AuditSpool
  import opened SpoolRuns

  // ---- the actions of a call ------------------------------------------------------------

  lemma Executes(s: System, pid: nat)
    requires pid in s.recorders && s.recorders[pid].process in s.processes && !s.recorders[pid].task.executed
    ensures var s1, s' := Insert(s, s.recorders[pid].entry, false), Step(s, OfRecorder(pid, Execute));
            && s'.table == s1.table && s'.nextRow == s1.nextRow && s'.files == s.files && s'.processes == s.processes
            && s'.recorders == s.recorders[pid := s.recorders[pid].(task := s.recorders[pid].task.(executed := true))]
  {
    InsertLeaves(s, s.recorders[pid].entry, false);
    hide Insert, FlushStep;
  }

  lemma Answers(s: System, pid: nat, ok: bool)
    requires pid in s.recorders && s.recorders[pid].process in s.processes
    requires s.recorders[pid].task.answer.None? && (ok ==> s.recorders[pid].task.executed)
    ensures var r := s.recorders[pid];
            Step(s, OfRecorder(pid, Answer(ok))) == WithRecorder(s, pid, r.(task := r.task.(answer := Some(ok))))
  {
    hide Insert, FlushStep;
  }

  /** The call takes the answer, or the wait is over. */
  lemma StopsWaiting(s: System, pid: nat)
    requires pid in s.recorders && s.recorders[pid].process in s.processes && s.recorders[pid].phase.Waiting?
    ensures var r := s.recorders[pid];
            && Step(s, OfRecorder(pid, TimedOut)) == WithRecorder(s, pid, r.(phase := NeedsSpool))
            && (r.task.answer.Some? ==>
                  Step(s, OfRecorder(pid, Observe))
                  == WithRecorder(s, pid, r.(phase := if r.task.answer.value then Done(Inserted) else NeedsSpool)))
  {
    hide Insert, FlushStep;
  }

  lemma Reserves(s: System, pid: nat)
    requires pid in s.recorders && s.recorders[pid].process in s.processes && s.recorders[pid].phase.NeedsSpool?
    ensures var r := s.recorders[pid];
            var p := s.processes[r.process];
            Step(s, OfRecorder(pid, Reserve)) ==
            if |p.index| >= p.cap
            then WithProcess(WithRecorder(s, pid, r.(phase := Done(Dropped))), r.process, p.(dropped := p.dropped + 1))
            else WithProcess(WithRecorder(s, pid, r.(phase := Writing)), r.process,
                             p.(index := p.index + {pid}, writing := p.writing + {pid}))
  {
    hide Insert, FlushStep;
  }

  lemma WritesFile(s: System, pid: nat, ok: bool)
    requires pid in s.recorders && s.recorders[pid].process in s.processes && s.recorders[pid].phase.Writing?
    ensures var s', r := Step(s, OfRecorder(pid, WriteFile(ok))), s.recorders[pid];
            && SameTable(s, s') && s'.processes == s.processes
            && s'.recorders == s.recorders[pid := r.(phase := Wrote(ok))]
            && s'.files == if ok then s.files[pid := r.entry] else s.files
  {
    hide Insert, FlushStep;
  }

  lemma Unmarks(s: System, pid: nat)
    requires pid in s.recorders && s.recorders[pid].process in s.processes && s.recorders[pid].phase.Wrote?
    ensures var r := s.recorders[pid];
            var p := s.processes[r.process];
            Step(s, OfRecorder(pid, Unmark)) ==
            WithProcess(WithRecorder(s, pid, r.(phase := if r.phase.ok then Done(Spooled) else Unmarked)), r.process,
                        p.(writing := p.writing - {pid}))
  {
    hide Insert, FlushStep;
  }

  lemma GivesUp(s: System, pid: nat)
    requires pid in s.recorders && s.recorders[pid].process in s.processes && s.recorders[pid].phase.Unmarked?
    ensures var r := s.recorders[pid];
            var p := s.processes[r.process];
            Step(s, OfRecorder(pid, GiveUp)) ==
            WithProcess(WithRecorder(s, pid, r.(phase := Done(Failed))), r.process,
                        p.(index := p.index - {pid}, failed := p.failed + 1))
  {
    hide Insert, FlushStep;
  }

  // ---- the actions of a flush -----------------------------------------------------------

  lemma Scans(s: System, p: nat, todo: seq<Entry>)
    requires p in s.processes && s.processes[p].flush.Idle? && AllWereSpooled(s, todo)
    ensures Step(s, OfFlush(p, Scan(todo)))
         == WithProcess(s, p, s.processes[p].(index := s.processes[p].index + Pids(todo), flush := Next(todo)))
  {
    hide RecordStep, Pids, Next, Insert;
  }

  lemma Sends(s: System, p: nat, todo: seq<Entry>)
    requires p in s.processes && s.processes[p].flush == Working(todo) && todo != []
    ensures Step(s, OfFlush(p, Send)) == WithProcess(s, p, s.processes[p].(flush := Sent(todo[0], false, todo[1..])))
  {
    hide RecordStep, Pids, Next, Insert;
  }

  lemma FlushExecutes(s: System, p: nat)
    requires p in s.processes && s.processes[p].flush.Sent? && !s.processes[p].flush.executed
    ensures var s1, s', flush := Insert(s, s.processes[p].flush.entry, true), Step(s, OfFlush(p, FlushExecute)), s.processes[p].flush;
            && s'.table == s1.table && s'.nextRow == s1.nextRow && s'.files == s.files
            && s'.processes == s.processes[p := s.processes[p].(flush := flush.(executed := true))]
  {
    InsertLeaves(s, s.processes[p].flush.entry, true);
    hide RecordStep, Pids, Next, Insert;
  }

  lemma FlushAnswers(s: System, p: nat, ok: bool)
    requires p in s.processes && s.processes[p].flush.Sent? && (ok ==> s.processes[p].flush.executed)
    ensures var s', flush := Step(s, OfFlush(p, FlushAnswer(ok))), s.processes[p].flush;
            && SameTable(s, s') && s'.files == s.files
            && s'.processes
               == s.processes[p := s.processes[p].(flush := if ok then Removing(flush.entry, flush.todo) else Reconciling)]
  {
    hide RecordStep, Pids, Next, Insert;
  }

  lemma RemovesFile(s: System, p: nat, ok: bool)
    requires p in s.processes && s.processes[p].flush.Removing?
    ensures var s', flush := Step(s, OfFlush(p, RemoveFile(ok))), s.processes[p].flush;
            && SameTable(s, s') && s'.files == (if ok then s.files - {flush.entry.pid} else s.files)
            && s'.processes
               == s.processes[p := s.processes[p].(flush := if ok then Removed(flush.entry, flush.todo) else Next(flush.todo))]
  {
    hide RecordStep, Pids, Next, Insert;
  }

  lemma Forgets(s: System, p: nat)
    requires p in s.processes && s.processes[p].flush.Removed?
    ensures var flush := s.processes[p].flush;
            Step(s, OfFlush(p, Forget))
            == WithProcess(s, p, s.processes[p].(index := s.processes[p].index - {flush.entry.pid}, flush := Next(flush.todo)))
  {
    hide RecordStep, Pids, Next, Insert;
  }

  lemma Lists(s: System, p: nat)
    requires p in s.processes && s.processes[p].flush.Reconciling?
    ensures Step(s, OfFlush(p, ListIndex))
         == WithProcess(s, p, s.processes[p].(flush := Listed(s.processes[p].index - s.processes[p].writing)))
  {
    hide RecordStep, Pids, Next, Insert;
  }

  lemma Checks(s: System, p: nat, gone: set<nat>)
    requires p in s.processes && s.processes[p].flush.Listed? && gone == s.processes[p].flush.ids - s.files.Keys
    ensures Step(s, OfFlush(p, Check(gone))) == WithProcess(s, p, s.processes[p].(flush := Checked(gone)))
  {
    hide RecordStep, Pids, Next, Insert;
  }

  lemma Reconciles(s: System, p: nat)
    requires p in s.processes && s.processes[p].flush.Checked?
    ensures Step(s, OfFlush(p, Reconcile))
         == WithProcess(s, p, s.processes[p].(index := s.processes[p].index - s.processes[p].flush.gone, flush := Idle))
  {
    hide RecordStep, Pids, Next, Insert;
  }

  /** What is known of the entry a flush is at. */
  lemma FlushKnowsEntry(s: System, p: nat)
    requires Inv(s) && p in s.processes
    ensures var flush := s.processes[p].flush;
            && (flush.Removing? ==> flush.entry.pid in s.everWritten)
            && (flush.Removed? ==>
                  && flush.entry.pid !in s.files
                  && flush.entry.pid in s.recorders && PastWriting(s.recorders[flush.entry.pid].phase))
  {
    assert ProcessInv(s, p, s.processes[p]);
    hide IndexInv, TableInv, RecorderInv;
    if s.processes[p].flush.Removed? {
      var id := s.processes[p].flush.entry.pid;
      assert id in {id};
    }
  }

  // ---- one process -------------------------------------------------------------------

  /** How waiting for the INSERT ended, and whether it has been executed by then. */
  datatype InsertWait = Completed | ErrorAnswer(executed: bool) | TimeOut(executed: bool)

  datatype FlushReport = FlushReport(flushed: nat, remaining: nat, error: bool)

  /** One process's spool, and the table and the directory it shares with everybody else. */
  class Service {
    const me: nat
    const cap: nat
    var table: map<nat, Row>
    var nextRow: nat
    var files: map<nat, Entry>
    var index: set<nat>
    var writing: set<nat>
    var dropped: nat
    var failed: nat
    ghost var everWritten: set<nat>
    ghost var everSpooled: set<nat>
    ghost var recorders: map<nat, Recorder>
    ghost var others: map<nat, Process>
    ghost var flush: Flush
    ghost var late: set<Entry>

    ghost function State(): System
      reads this
    {
      System(table, nextRow, everWritten, files, everSpooled, recorders,
             others[me := Process(cap, index, writing, dropped, failed, flush)], late)
    }

    ghost predicate Valid()
      reads this
    {
      Inv(State())
    }

    /** The fields are what this state says. */
    ghost predicate Is(s: System)
      reads this
    {
      && table == s.table && nextRow == s.nextRow && files == s.files && me in s.processes
      && s.processes[me] == Process(cap, index, writing, dropped, failed, s.processes[me].flush)
    }

    /** What was just done to the fields is this event. */
    ghost method Did(before: System, start: System, events: seq<Event>, e: Event) returns (more: seq<Event>)
      requires Inv(before) && before == Run(start, events) && Is(Step(before, e))
      modifies `everWritten, `everSpooled, `recorders, `others, `flush, `late
      ensures Valid() && State() == Step(before, e) && State() == Run(start, more)
      ensures NoScan(events, me) && !(e.OfFlush? && e.f.Scan?) ==> NoScan(more, me)
    {
      hide Inv, Run, Step;
      var s := Step(before, e);
      StepKeepsInv(before, e);
      Extend(start, events, e);
      everWritten, everSpooled, recorders, others, flush, late :=
        s.everWritten, s.everSpooled, s.recorders, s.processes, s.processes[me].flush, s.late;
      assert others[me := s.processes[me]] == others;
      more := events + [e];
    }

    /** Any actions but those of this call. */
    method Others(ghost pid: nat, ghost late: bool) returns (ghost more: seq<Event>)
      modifies this
      ensures State() == Run(old(State()), more) && NotOfCall(more, pid, late)
    {
      more := [];
    }

    /** Any actions but those of this process's flush. */
    method OthersThanFlush() returns (ghost more: seq<Event>)
      modifies this
      ensures State() == Run(old(State()), more) && NotOfFlush(more, me)
    {
      more := [];
    }

    method Meanwhile(ghost pid: nat, ghost late: bool, ghost start: System, ghost events: seq<Event>)
      returns (ghost more: seq<Event>)
      requires Valid() && State() == Run(start, events) && pid in recorders
      modifies this
      ensures Valid() && State() == Run(start, more)
      ensures pid in recorders && SameCall(old(recorders)[pid], recorders[pid], late)
    {
      hide Inv, Run, SameCall;
      ghost var before := State();
      ghost var acts := Others(pid, late);
      RunKeepsInv(before, acts);
      RunLeavesCall(before, acts, pid, late);
      RunAppend(start, events, acts);
      more := events + acts;
    }

    /** `INSERT ... ON CONFLICT (pending_id) DO NOTHING`. */
    method InsertRow(entry: Entry, spooled: bool)
      modifies `table, `nextRow
      ensures var s := Insert(old(State()), entry, spooled);
              table == s.table && nextRow == s.nextRow
    {
      if forall r :: r in table ==> table[r].entry.pid != entry.pid {
        table, nextRow := table[nextRow := Row(entry, spooled)], nextRow + 1;
      }
    }

    /**
      `record_spooled`: the call ends as the wait, the cap - judged when the wait
      has ended, after the run `waited` - and the write say, with its entry in the
      table, in its file and the index, or lost and counted.
     */
    method RecordSpooled(entry: Entry, wait: InsertWait, writes: bool)
      returns (outcome: Outcome, ghost waited: seq<Event>, ghost events: seq<Event>)
      requires Valid() && entry.pid !in recorders
      modifies this
      ensures Valid() && State() == Run(old(State()), events)
      ensures entry.pid in recorders && recorders[entry.pid].phase == Done(outcome)
      ensures recorders[entry.pid].entry == entry && recorders[entry.pid].process == me
      ensures me in Run(old(State()), waited).processes
      ensures outcome == if wait.Completed? then Inserted
                         else if |Run(old(State()), waited).processes[me].index| >= cap then Dropped
                         else if writes then Spooled else Failed
      ensures outcome == Inserted ==> entry.pid in everWritten
      ensures outcome == Spooled ==>
                entry.pid in everWritten || (entry.pid in files && files[entry.pid] == entry && entry.pid in index)
      ensures outcome == Dropped || outcome == Failed ==> entry.pid !in files && entry.pid !in everSpooled
    {
      hide Inv, Run;
      ghost var start := State();
      RunNone(start);
      events := Did(start, start, [], Record(me, entry));
      var completed;
      completed, events := WaitForInsert(entry, wait, start, events);
      waited := events;
      if completed {
        outcome := Inserted;
      } else {
        outcome, events := Write(entry, writes, start, events);
      }
      ReturnedCall(State(), entry.pid);
    }

    /** `wait_for_insert`: the INSERT runs in a task of its own, which a timeout leaves running. */
    method WaitForInsert(entry: Entry, wait: InsertWait, ghost start: System, ghost events: seq<Event>)
      returns (completed: bool, ghost more: seq<Event>)
      requires Valid() && State() == Run(start, events)
      requires entry.pid in recorders && recorders[entry.pid] == Recorder(entry, me, Task(false, None), Waiting)
      modifies this
      ensures Valid() && State() == Run(start, more) && completed == wait.Completed?
      ensures entry.pid in recorders
      ensures var r := recorders[entry.pid];
              r.entry == entry && r.process == me && r.phase == if completed then Done(Inserted) else NeedsSpool
    {
      hide Inv, Run, Step, Insert;
      ghost var pid, before := entry.pid, State();
      more := Meanwhile(pid, false, start, events);
      if wait.Completed? || wait.executed {
        before := State();
        InsertRow(entry, false);
        Executes(before, pid);
        more := Did(before, start, more, OfRecorder(pid, Execute));
        more := Meanwhile(pid, false, start, more);
      }
      completed := wait.Completed?;
      if wait.TimeOut? {
        StopsWaiting(State(), pid);
        more := Did(State(), start, more, OfRecorder(pid, TimedOut));
      } else {
        Answers(State(), pid, completed);
        more := Did(State(), start, more, OfRecorder(pid, Answer(completed)));
        StopsWaiting(State(), pid);
        more := Did(State(), start, more, OfRecorder(pid, Observe));
      }
    }

    /** `Spool::write`: take a slot under the cap, write the file, give the slot back if that fails. */
    method Write(entry: Entry, writes: bool, ghost start: System, ghost events: seq<Event>)
      returns (outcome: Outcome, ghost more: seq<Event>)
      requires Valid() && State() == Run(start, events) && entry.pid in recorders
      requires var r := recorders[entry.pid]; r.entry == entry && r.process == me && r.phase == NeedsSpool
      modifies this
      ensures Valid() && State() == Run(start, more) && entry.pid in recorders
      ensures var r := recorders[entry.pid]; r.entry == entry && r.process == me && r.phase == Done(outcome)
      ensures outcome == if |old(index)| >= cap then Dropped else if writes then Spooled else Failed
    {
      hide Inv, Run, Step, Insert;
      ghost var pid, before := entry.pid, State();
      Reserves(before, pid);
      if |index| >= cap {
        dropped := dropped + 1;
        more := Did(before, start, events, OfRecorder(pid, Reserve));
        return Dropped, more;
      }
      index, writing := index + {entry.pid}, writing + {entry.pid};
      more := Did(before, start, events, OfRecorder(pid, Reserve));
      more := Meanwhile(pid, true, start, more);
      before := State();
      if writes { files := files[entry.pid := entry]; }
      WritesFile(before, pid, writes);
      more := Did(before, start, more, OfRecorder(pid, WriteFile(writes)));
      more := Meanwhile(pid, true, start, more);
      outcome, more := Unreserve(entry, writes, start, more);
    }

    /** The slot is given up in `writing`, and after a failed write - in a second step - in the index. */
    method Unreserve(entry: Entry, written: bool, ghost start: System, ghost events: seq<Event>)
      returns (outcome: Outcome, ghost more: seq<Event>)
      requires Valid() && State() == Run(start, events) && entry.pid in recorders
      requires var r := recorders[entry.pid]; r.entry == entry && r.process == me && r.phase == Wrote(written)
      modifies this
      ensures Valid() && State() == Run(start, more) && entry.pid in recorders
      ensures var r := recorders[entry.pid]; r.entry == entry && r.process == me && r.phase == Done(outcome)
      ensures outcome == if written then Spooled else Failed
    {
      hide Inv, Run, Step, Insert;
      ghost var pid, before := entry.pid, State();
      writing := writing - {entry.pid};
      Unmarks(before, pid);
      more := Did(before, start, events, OfRecorder(pid, Unmark));
      if written { return Spooled, more; }
      more := Meanwhile(pid, true, start, more);
      before := State();
      index := index - {entry.pid};
      failed := failed + 1;
      GivesUp(before, pid);
      more := Did(before, start, more, OfRecorder(pid, GiveUp));
      outcome := Failed;
    }

    method MeanwhileFlushing(ghost start: System, ghost events: seq<Event>) returns (ghost more: seq<Event>)
      requires Valid() && State() == Run(start, events)
      modifies this
      ensures Valid() && State() == Run(start, more) && flush == old(flush) && Grew(old(State()), State())
      ensures NoScan(events, me) ==> NoScan(more, me)
    {
      hide Inv, Run, Grew;
      ghost var before := State();
      ghost var acts := OthersThanFlush();
      RunKeepsInv(before, acts);
      RunLeavesFlush(before, acts, me);
      RunGrew(before, acts);
      RunAppend(start, events, acts);
      more := events + acts;
    }

    /** One entry of a flush: INSERT it, and if the database took it remove its file and forget it. */
    method FlushOne(entry: Entry, ghost todo: seq<Entry>, wait: InsertWait, removes: bool)
      returns (ok: bool, ghost acts: seq<Event>)
      requires Valid() && flush == Working([entry] + todo)
      modifies this
      ensures Valid() && State() == Run(old(State()), acts)
      ensures ok == wait.Completed? && flush == (if ok then Next(todo) else Reconciling)
      ensures ok ==> entry.pid in everWritten
      ensures ok && removes ==>
                entry.pid !in files && entry.pid in recorders && PastWriting(recorders[entry.pid].phase) && entry.pid !in index
      ensures NoScan(acts, me)
    {
      hide Inv, Run, Step, Insert, PastWriting, NoScan;
      ghost var start := State();
      NothingScanned(me);
      RunNone(start);
      Sends(start, me, [entry] + todo);
      acts := Did(start, start, [], OfFlush(me, Send));
      acts := MeanwhileFlushing(start, acts);
      ok := wait.Completed?;
      if ok || wait.executed {
        ghost var before := State();
        InsertRow(entry, true);
        FlushExecutes(before, me);
        acts := Did(before, start, acts, OfFlush(me, FlushExecute));
        acts := MeanwhileFlushing(start, acts);
      }
      FlushAnswers(State(), me, ok);
      acts := Did(State(), start, acts, OfFlush(me, FlushAnswer(ok)));
      if ok { acts := Remove(entry, todo, removes, start, acts); }
    }

    /** `Spool::remove`: the flushed entry's file, and then its place in the index. */
    method Remove(entry: Entry, ghost todo: seq<Entry>, removes: bool, ghost start: System, ghost events: seq<Event>)
      returns (ghost more: seq<Event>)
      requires Valid() && State() == Run(start, events) && flush == Removing(entry, todo)
      modifies this
      ensures Valid() && State() == Run(start, more) && flush == Next(todo) && entry.pid in everWritten
      ensures removes ==>
                entry.pid !in files && entry.pid in recorders && PastWriting(recorders[entry.pid].phase) && entry.pid !in index
      ensures NoScan(events, me) ==> NoScan(more, me)
    {
      hide Inv, Run, Step, Insert, PastWriting, NoScan;
      FlushKnowsEntry(State(), me);
      more := MeanwhileFlushing(start, events);
      ghost var before := State();
      if removes { files := files - {entry.pid}; }
      RemovesFile(before, me, removes);
      StepKeepsInv(before, OfFlush(me, RemoveFile(removes)));
      StepGrew(before, OfFlush(me, RemoveFile(removes)));
      more := Did(before, start, more, OfFlush(me, RemoveFile(removes)));
      if removes {
        more := MeanwhileFlushing(start, more);
        FlushKnowsEntry(State(), me);
        before := State();
        index := index - {entry.pid};
        Forgets(before, me);
        more := Did(before, start, more, OfFlush(me, Forget));
      }
    }

    /**
      `Spool::reconcile`: forget what the index listed, not being written, and has no
      file. `listed` and `checked` are the runs up to those two readings.
     */
    method ReconcileIndex(ghost start: System, ghost events: seq<Event>)
      returns (ghost listed: seq<Event>, ghost checked: seq<Event>, ghost more: seq<Event>)
      requires Valid() && State() == Run(start, events) && flush == Reconciling
      modifies this
      ensures Valid() && State() == Run(start, more) && flush == Idle
      ensures NoScan(events, me) ==> NoScan(more, me)
      ensures me in Run(start, listed).processes
      ensures var p := Run(start, listed).processes[me];
              forall id :: id in p.index && id !in p.writing && id !in Run(start, checked).files ==> id !in index
    {
      hide Inv, Run, Step, Grew, NoScan;
      more := MeanwhileFlushing(start, events);
      listed := more;
      var ids := index - writing;
      Lists(State(), me);
      more := Did(State(), start, more, OfFlush(me, ListIndex));
      more := MeanwhileFlushing(start, more);
      checked := more;
      var gone := ids - files.Keys;
      Checks(State(), me, gone);
      more := Did(State(), start, more, OfFlush(me, Check(gone)));
      more := MeanwhileFlushing(start, more);
      ghost var before := State();
      index := index - gone;
      Reconciles(before, me);
      more := Did(before, start, more, OfFlush(me, Reconcile));
    }

    /**
      `flush_locked`: the entries the scan found, in its order, up to the first one
      the database does not take (`waits`), each file removed as far as that works
      (`removes`). A scanned entry may still be held in `writing`.
     */
    method FlushLocked(entries: seq<Entry>, waits: nat -> InsertWait, removes: nat -> bool)
      returns (report: FlushReport, ghost listed: seq<Event>, ghost checked: seq<Event>, ghost events: seq<Event>)
      requires Valid() && flush.Idle? && AllWereSpooled(State(), entries)
      modifies this
      ensures Valid() && State() == Run(old(State()), events) && flush.Idle?
      ensures report.flushed <= |entries| && report.remaining == |index|
      ensures if report.error then report.flushed < |entries| && !waits(report.flushed).Completed?
              else report.flushed == |entries|
      ensures forall k :: 0 <= k < report.flushed ==> waits(k).Completed? && entries[k].pid in everWritten
      ensures forall k :: 0 <= k < report.flushed && removes(k) ==> entries[k].pid !in files && entries[k].pid !in index
      ensures forall k :: 0 <= k < |entries| && entries[k].pid in files ==> entries[k].pid in index
      ensures forall id :: id in old(index) && id in files ==> id in index
      ensures me in Run(old(State()), listed).processes
      ensures var p := Run(old(State()), listed).processes[me];
              forall id :: id in p.index && id !in p.writing && id !in Run(old(State()), checked).files ==> id !in index
    {
      hide Inv, Run, Step, Insert, Pids;
      ghost var start := State();
      RunNone(start);
      index := index + Pids(entries);
      Scans(start, me, entries);
      events := Did(start, start, [], OfFlush(me, Scan(entries)));
      ScannedAreIndexed(start.processes[me].index, entries);
      ghost var since;
      report, listed, checked, since := FlushScanned(entries, waits, removes);
      RunAppend(start, events, listed);
      RunAppend(start, events, checked);
      RunAppend(start, events, since);
      listed, checked, events := events + listed, events + checked, events + since;
    }

    /** What a flush does once it has its entries. */
    method FlushScanned(entries: seq<Entry>, waits: nat -> InsertWait, removes: nat -> bool)
      returns (report: FlushReport, ghost listed: seq<Event>, ghost checked: seq<Event>, ghost events: seq<Event>)
      requires Valid() && flush == Next(entries)
      modifies this
      ensures Valid() && State() == Run(old(State()), events) && flush.Idle?
      ensures report.flushed <= |entries| && report.remaining == |index|
      ensures if report.error then report.flushed < |entries| && !waits(report.flushed).Completed?
              else report.flushed == |entries|
      ensures forall k :: 0 <= k < report.flushed ==> waits(k).Completed? && entries[k].pid in everWritten
      ensures forall k :: 0 <= k < report.flushed && removes(k) ==> entries[k].pid !in files && entries[k].pid !in index
      ensures forall id :: id in old(index) && id in files ==> id in index
      ensures me in Run(old(State()), listed).processes
      ensures var p := Run(old(State()), listed).processes[me];
              forall id :: id in p.index && id !in p.writing && id !in Run(old(State()), checked).files ==> id !in index
    {
      hide Inv, Run, Step, Insert, Grew, NoScan;
      ghost var start := State();
      RunNone(start);
      NothingScanned(me);
      var flushed, error;
      flushed, error, events := FlushEntries(entries, waits, removes, start, []);
      ghost var before := State();
      RunNone(before);
      ghost var acts;
      listed, checked, acts := ReconcileIndex(before, []);
      Later(before, acts, me);
      RunAppend(start, events, listed);
      RunAppend(start, events, checked);
      RunAppend(start, events, acts);
      listed, checked, events := events + listed, events + checked, events + acts;
      StillIndexed(start, events, me);
      report := FlushReport(flushed, |index|, error);
    }

    method FlushEntries(entries: seq<Entry>, waits: nat -> InsertWait, removes: nat -> bool,
                        ghost start: System, ghost events: seq<Event>)
      returns (flushed: nat, error: bool, ghost more: seq<Event>)
      requires Valid() && State() == Run(start, events) && flush == Next(entries)
      modifies this
      ensures Valid() && State() == Run(start, more) && flush == Reconciling
      ensures if error then flushed < |entries| && !waits(flushed).Completed? else flushed == |entries|
      ensures forall k :: 0 <= k < flushed ==> waits(k).Completed? && entries[k].pid in everWritten
      ensures forall k :: 0 <= k < flushed && removes(k) ==>
                NoFileAnyMore(State(), entries[k].pid) && Forgotten(State(), me, entries[k].pid)
      ensures NoScan(events, me) ==> NoScan(more, me)
    {
      hide Inv, Run, Step, Insert, Grew, NoScan;
      assert entries[0..] == entries;
      flushed, error, more := 0, false, events;
      while flushed < |entries| && !error
        invariant 0 <= flushed <= |entries| && Valid() && State() == Run(start, more)
        invariant flush == if error then Reconciling else Next(entries[flushed..])
        invariant error ==> flushed < |entries| && !waits(flushed).Completed?
        invariant forall k :: 0 <= k < flushed ==> waits(k).Completed? && entries[k].pid in everWritten
        invariant forall k :: 0 <= k < flushed && removes(k) ==>
                    NoFileAnyMore(State(), entries[k].pid) && Forgotten(State(), me, entries[k].pid)
        invariant NoScan(events, me) ==> NoScan(more, me)
        decreases |entries| - flushed, if error then 0 else 1
      {
        ghost var before := State();
        assert entries[flushed..] == [entries[flushed]] + entries[flushed + 1..];
        var ok;
        ghost var acts;
        ok, acts := FlushOne(entries[flushed], entries[flushed + 1..], waits(flushed), removes(flushed));
        Later(before, acts, me);
        RunAppend(start, more, acts);
        if NoScan(more, me) { ScanFree(more, acts, me); }
        more := more + acts;
        if ok { flushed := flushed + 1; } else { error := true; }
      }
    }
  }

  lemma NothingScanned(p: nat)
    ensures NoScan([], p)
  {
  }

  lemma ScanFree(a: seq<Event>, b: seq<Event>, p: nat)
    requires NoScan(a, p) && NoScan(b, p)
    ensures NoScan(a + b, p)
  {
  }

  lemma ScannedAreIndexed(index: set<nat>, entries: seq<Entry>)
    ensures forall k :: 0 <= k < |entries| ==> entries[k].pid in index + Pids(entries)
    ensures forall id :: id in index ==> id in index + Pids(entries)
  {
  }

  lemma StillIndexed(s: System, events: seq<Event>, p: nat)
    requires Inv(s) && p in s.processes
    ensures var s' := Run(s, events);
            p in s'.processes && forall id :: id in s.processes[p].index && id in s'.files ==> id in s'.processes[p].index
  {
    ProcessesStay(s, events, p);
    forall id | id in s.processes[p].index && id in Run(s, events).files ensures id in Run(s, events).processes[p].index {
      IndexKeepsFiles(s, events, p, id);
    }
  }

  /** What is settled for an entry stays so while the flush goes on. */
  lemma Later(s: System, events: seq<Event>, p: nat)
    requires Inv(s) && NoScan(events, p)
    ensures var s' := Run(s, events);
            && s.everWritten <= s'.everWritten
            && (forall id :: NoFileAnyMore(s, id) ==> NoFileAnyMore(s', id))
            && (forall id :: Forgotten(s, p, id) ==> Forgotten(s', p, id))
  {
    RunGrew(s, events);
    NoFilesReturn(s, Run(s, events));
    ForgottenStays(s, events, p);
  }

  lemma ForgottenStays(s: System, events: seq<Event>, p: nat)
    requires NoScan(events, p)
    ensures forall id :: Forgotten(s, p, id) ==> Forgotten(Run(s, events), p, id)
  {
    forall id | Forgotten(s, p, id) ensures Forgotten(Run(s, events), p, id) { RunStaysForgotten(s, events, p, id); }
  }

  /** The entry's call is past writing, and there is no file of it. */
  ghost predicate NoFileAnyMore(s: System, id: nat) {
    id in s.recorders && PastWriting(s.recorders[id].phase) && id !in s.files
  }

  lemma NoFilesReturn(s: System, s': System)
    requires Grew(s, s')
    ensures forall id :: NoFileAnyMore(s, id) ==> NoFileAnyMore(s', id)
    ensures s.everWritten <= s'.everWritten
  {
    hide PastWriting;
  }

  /** What is known of a call that has returned. */
  lemma ReturnedCall(s: System, pid: nat)
    requires Inv(s) && pid in s.recorders && s.recorders[pid].phase.Done?
    ensures var r := s.recorders[pid];
            && (r.phase.outcome == Inserted ==> pid in s.everWritten)
            && (r.phase.outcome == Spooled ==>
                  || pid in s.everWritten
                  || (pid in s.files && s.files[pid] == r.entry
                      && r.process in s.processes && pid in s.processes[r.process].index))
            && (r.phase.outcome == Dropped || r.phase.outcome == Failed ==> pid !in s.files && pid !in s.everSpooled)
  {
    assert RecorderInv(s, pid, s.recorders[pid]);
    hide TableInv, ProcessInv;
  }

  lemma RunNone(s: System)
    ensures Run(s, []) == s
  {
  }

  lemma {:induction false} RunAppend(s: System, a: seq<Event>, b: seq<Event>)
    ensures Run(s, a + b) == Run(Run(s, a), b)
    decreases a
  {
    hide Step;
    if a == [] {
      assert a + b == b;
    } else {
      assert (a + b)[1..] == a[1..] + b;
      RunAppend(Step(s, a[0]), a[1..], b);
    }
  }

  lemma Extend(s: System, events: seq<Event>, e: Event)
    ensures Run(s, events + [e]) == Step(Run(s, events), e)
  {
    hide Step;
    RunAppend(s, events, [e]);
  }
}
