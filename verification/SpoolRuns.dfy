/**
  What runs of the audit spool leave alone, of one call, of one process's flush
  and of its index - whoever else acts.
 */
module SpoolRuns {
  import opened Text
  import opened AuditSpool

  // ---- what the others leave --------------------------------------------------------

  /** None of the events is an action of this call; if `late`, the database may still execute its INSERT. */
  ghost predicate NotOfCall(events: seq<Event>, pid: nat, late: bool) {
    forall e :: e in events ==> NotCalls(e, pid, late)
  }

  predicate NotCalls(e: Event, pid: nat, late: bool) {
    e.OfRecorder? ==> e.pid != pid || (late && e.r.Execute?)
  }

  /** None of the events is an action of this process's flush. */
  ghost predicate NotOfFlush(events: seq<Event>, p: nat) {
    forall e :: e in events ==> !(e.OfFlush? && e.process == p)
  }

  /** A call stays where it is; if `late`, its INSERT may have been executed. */
  predicate SameCall(r: Recorder, r': Recorder, late: bool) {
    && (late || r' == r)
    && r'.entry == r.entry && r'.process == r.process && r'.phase == r.phase && r'.task.answer == r.task.answer
    && (r.task.executed ==> r'.task.executed)
  }

  /** A flush's INSERT touches the table only. */
  lemma FlushExecuteLeaves(s: System, p: nat)
    requires p in s.processes
    ensures var s' := FlushStep(s, p, FlushExecute);
            && s'.files == s.files && s'.everSpooled == s.everSpooled && s'.recorders == s.recorders
            && s.everWritten <= s'.everWritten && p in s'.processes
            && s'.processes == s.processes[p := s.processes[p].(flush := s'.processes[p].flush)]
  {
    if s.processes[p].flush.Sent? { InsertLeaves(s, s.processes[p].flush.entry, true); }
    hide Insert, Pids, Next, AllWereSpooled;
  }

  lemma StepGrew(s: System, e: Event)
    requires Inv(s)
    ensures Grew(s, Step(s, e))
  {
    match e {
      case OfRecorder(pid, x) =>
        if pid in s.recorders && s.recorders[pid].process in s.processes {
          if x.Execute? { ExecuteGrew(s, pid); } else { RecordStepGrows(s, pid, x); }
        }
      case OfFlush(p, f) =>
        if p in s.processes {
          if f.FlushExecute? { FlushExecuteLeaves(s, p); } else { FlushStepLeaves(s, p, f); }
        }
      case LateExecute(entry) => InsertLeaves(s, entry, true);
      case Open(_, _) =>
      case Record(_, _) =>
      case Prune(_) =>
    }
    hide RecordStep, FlushStep, Insert, Pids, Next, AllWereSpooled, PastWriting, Inv;
  }

  lemma ExecuteGrew(s: System, pid: nat)
    requires pid in s.recorders && s.recorders[pid].process in s.processes
    ensures Grew(s, RecordStep(s, pid, Execute))
  {
    InsertLeaves(s, s.recorders[pid].entry, false);
    hide Insert;
  }

  lemma StepLeavesCall(s: System, e: Event, pid: nat, late: bool)
    requires pid in s.recorders && NotCalls(e, pid, late)
    ensures pid in Step(s, e).recorders && SameCall(s.recorders[pid], Step(s, e).recorders[pid], late)
  {
    match e {
      case OfRecorder(q, x) =>
        if q in s.recorders && s.recorders[q].process in s.processes {
          if x.Execute? { InsertLeaves(s, s.recorders[q].entry, false); } else { RecordStepIsOwn(s, q, x); }
        }
      case OfFlush(p, f) =>
        if p in s.processes {
          if f.FlushExecute? { FlushExecuteLeaves(s, p); } else { FlushStepLeaves(s, p, f); }
        }
      case LateExecute(entry) => InsertLeaves(s, entry, true);
      case Open(_, _) =>
      case Record(_, _) =>
      case Prune(_) =>
    }
    hide FlushStep, Insert, Pids, Next, AllWereSpooled, PastWriting;
  }

  lemma StepLeavesFlush(s: System, e: Event, p: nat)
    requires p in s.processes && !(e.OfFlush? && e.process == p)
    ensures p in Step(s, e).processes
    ensures Step(s, e).processes[p].flush == s.processes[p].flush && Step(s, e).processes[p].cap == s.processes[p].cap
  {
    match e {
      case OfRecorder(q, x) =>
        if q in s.recorders && s.recorders[q].process in s.processes {
          if x.Execute? { InsertLeaves(s, s.recorders[q].entry, false); } else { RecordLeavesFlush(s, q, x, p); }
        }
      case OfFlush(q, f) =>
        if q in s.processes {
          if f.FlushExecute? { FlushExecuteLeaves(s, q); } else { FlushStepLeavesOthers(s, q, f); }
        }
      case LateExecute(entry) => InsertLeaves(s, entry, true);
      case Open(_, _) =>
      case Record(_, _) =>
      case Prune(_) =>
    }
    hide Insert, Pids, Next, AllWereSpooled;
  }

  lemma RecordLeavesFlush(s: System, q: nat, x: RecordEvent, p: nat)
    requires q in s.recorders && s.recorders[q].process in s.processes && !x.Execute? && p in s.processes
    ensures var s' := RecordStep(s, q, x);
            p in s'.processes && s'.processes[p].flush == s.processes[p].flush && s'.processes[p].cap == s.processes[p].cap
  {
    hide Insert;
  }

  lemma {:induction false} RunLeavesCall(s: System, events: seq<Event>, pid: nat, late: bool)
    requires pid in s.recorders && NotOfCall(events, pid, late)
    ensures pid in Run(s, events).recorders && SameCall(s.recorders[pid], Run(s, events).recorders[pid], late)
    decreases events
  {
    hide Step;
    if events != [] {
      assert events[0] in events;
      StepLeavesCall(s, events[0], pid, late);
      RunLeavesCall(Step(s, events[0]), events[1..], pid, late);
    }
  }

  lemma {:induction false} RunLeavesFlush(s: System, events: seq<Event>, p: nat)
    requires p in s.processes && NotOfFlush(events, p)
    ensures var s' := Run(s, events);
            p in s'.processes && s'.processes[p].flush == s.processes[p].flush && s'.processes[p].cap == s.processes[p].cap
    decreases events
  {
    hide Step;
    if events != [] {
      assert events[0] in events;
      StepLeavesFlush(s, events[0], p);
      RunLeavesFlush(Step(s, events[0]), events[1..], p);
    }
  }

  lemma GrewTwice(a: System, b: System, c: System)
    requires Grew(a, b) && Grew(b, c)
    ensures Grew(a, c)
  {
    hide PastWriting;
  }

  lemma {:induction false} RunGrew(s: System, events: seq<Event>)
    requires Inv(s)
    ensures Grew(s, Run(s, events))
    decreases events
  {
    hide Step, Inv;
    if events != [] {
      StepKeepsInv(s, events[0]);
      StepGrew(s, events[0]);
      RunGrew(Step(s, events[0]), events[1..]);
      GrewTwice(s, Step(s, events[0]), Run(s, events));
      hide Grew;
    }
  }

  // ---- what an index forgets ----------------------------------------------------------

  /** A step that drops an id from an index leaves it without a file, and its call past writing one. */
  lemma ForgottenHasNoFile(s: System, e: Event, p: nat, id: nat)
    requires Inv(s) && p in s.processes && id in s.processes[p].index
    ensures var s' := Step(s, e);
            && p in s'.processes
            && (id !in s'.processes[p].index ==>
                  id in s'.recorders && PastWriting(s'.recorders[id].phase) && id !in s'.files)
  {
    assert SlotInv(s, p, s.processes[p], id) by { assert ProcessInv(s, p, s.processes[p]); }
    match e {
      case OfRecorder(q, x) =>
        if q in s.recorders && s.recorders[q].process in s.processes {
          assert RecorderInv(s, q, s.recorders[q]);
          hide Inv;
          if x.Execute? { InsertLeaves(s, s.recorders[q].entry, false); } else { RecordForgets(s, q, x, p, id); }
        }
      case OfFlush(q, f) =>
        if q in s.processes {
          if f.FlushExecute? { FlushExecuteLeaves(s, q); }
          else if q != p { FlushStepLeavesOthers(s, q, f); }
          else {
            assert FlushInv(s, s.processes[p].flush) by { assert ProcessInv(s, p, s.processes[p]); }
            hide Inv;
            FlushForgets(s, p, f, id);
          }
        }
      case LateExecute(entry) => InsertLeaves(s, entry, true);
      case Open(_, _) =>
      case Record(_, _) =>
      case Prune(_) =>
    }
    hide Insert, Pids, Next, AllWereSpooled, Inv, RecordStep, FlushStep, RecorderInv;
  }

  lemma RecordForgets(s: System, q: nat, x: RecordEvent, p: nat, id: nat)
    requires q in s.recorders && s.recorders[q].process in s.processes && !x.Execute? && RecorderInv(s, q, s.recorders[q])
    requires p in s.processes && id in s.processes[p].index
    ensures var s' := RecordStep(s, q, x);
            && p in s'.processes
            && (id !in s'.processes[p].index ==>
                  id in s'.recorders && PastWriting(s'.recorders[id].phase) && id !in s'.files)
  {
    hide Insert;
  }

  lemma FlushForgets(s: System, p: nat, f: FlushEvent, id: nat)
    requires p in s.processes && !f.FlushExecute? && FlushInv(s, s.processes[p].flush) && id in s.processes[p].index
    ensures var s' := FlushStep(s, p, f);
            && p in s'.processes
            && (id !in s'.processes[p].index ==>
                  id in s'.recorders && PastWriting(s'.recorders[id].phase) && id !in s'.files)
  {
    hide Insert, Pids, Next, AllWereSpooled;
    if s.processes[p].flush.Removed? { assert s.processes[p].flush.entry.pid in {s.processes[p].flush.entry.pid}; }
  }

  /** In every run: an id that was in a process's index and has a file is still in that index. */
  lemma {:induction false} IndexKeepsFiles(s: System, events: seq<Event>, p: nat, id: nat)
    requires Inv(s) && p in s.processes && id in s.processes[p].index
    ensures var s' := Run(s, events);
            p in s'.processes && (id in s'.files ==> id in s'.processes[p].index)
    decreases events
  {
    hide Step, Inv, PastWriting;
    if events != [] {
      var s1 := Step(s, events[0]);
      StepKeepsInv(s, events[0]);
      ForgottenHasNoFile(s, events[0], p, id);
      if id in s1.processes[p].index {
        IndexKeepsFiles(s1, events[1..], p, id);
      } else {
        RunGrew(s1, events[1..]);
        ProcessesStay(s1, events[1..], p);
      }
    }
  }

  /**
    A process that opens the spool knows exactly the entries whose files are there,
    and each of them for as long as its file is there - whatever runs meanwhile.
   */
  lemma ReopenedKnowsEveryFile(s: System, p: nat, cap: nat, later: seq<Event>)
    requires Inv(s) && p !in s.processes
    ensures var begun, s' := Step(s, Open(p, cap)), Run(Step(s, Open(p, cap)), later);
            && p in begun.processes && (forall id :: id in begun.processes[p].index <==> id in s.files)
            && begun.processes[p].writing == {} && begun.processes[p].dropped == begun.processes[p].failed == 0
            && p in s'.processes && (forall id :: id in s.files && id in s'.files ==> id in s'.processes[p].index)
  {
    StepKeepsInv(s, Open(p, cap));
    ProcessesStay(Step(s, Open(p, cap)), later, p);
    forall id | id in s.files && id in Run(Step(s, Open(p, cap)), later).files
      ensures id in Run(Step(s, Open(p, cap)), later).processes[p].index
    {
      IndexKeepsFiles(Step(s, Open(p, cap)), later, p, id);
    }
    hide Run, Inv;
  }

  lemma {:induction false} ProcessesStay(s: System, events: seq<Event>, p: nat)
    requires p in s.processes
    ensures p in Run(s, events).processes
    decreases events
  {
    if events != [] {
      ProcessStays(s, events[0], p);
      hide Step;
      ProcessesStay(Step(s, events[0]), events[1..], p);
    }
  }

  lemma ProcessStays(s: System, e: Event, p: nat)
    requires p in s.processes
    ensures p in Step(s, e).processes
  {
    hide Insert, Pids, Next, AllWereSpooled;
    if e.OfFlush? && e.process == p {
      if e.f.FlushExecute? { FlushExecuteLeaves(s, p); } else { FlushStepLeavesOthers(s, p, e.f); }
    } else {
      StepLeavesFlush(s, e, p);
    }
    hide Step;
  }

  /** The call is past writing, and the process does not index its entry. */
  ghost predicate Forgotten(s: System, p: nat, id: nat) {
    p in s.processes && id in s.recorders && PastWriting(s.recorders[id].phase) && id !in s.processes[p].index
  }

  predicate NoScan(events: seq<Event>, p: nat) {
    forall e :: e in events ==> !(e.OfFlush? && e.process == p && e.f.Scan?)
  }

  lemma RecordStepForgets(s: System, q: nat, x: RecordEvent, p: nat, id: nat)
    requires q in s.recorders && s.recorders[q].process in s.processes && !x.Execute? && Forgotten(s, p, id)
    ensures Forgotten(RecordStep(s, q, x), p, id)
  {
    hide Insert;
  }

  lemma FlushStepForgets(s: System, q: nat, f: FlushEvent, p: nat, id: nat)
    requires q in s.processes && !f.FlushExecute? && Forgotten(s, p, id) && !(q == p && f.Scan?)
    ensures Forgotten(FlushStep(s, q, f), p, id)
  {
    hide Insert, Pids, Next, AllWereSpooled;
  }

  /** What a process has forgotten comes back to its index only by a scan of its own. */
  lemma StaysForgotten(s: System, e: Event, p: nat, id: nat)
    requires Forgotten(s, p, id) && !(e.OfFlush? && e.process == p && e.f.Scan?)
    ensures Forgotten(Step(s, e), p, id)
  {
    match e {
      case OfRecorder(q, x) =>
        if q in s.recorders && s.recorders[q].process in s.processes {
          if x.Execute? { InsertLeaves(s, s.recorders[q].entry, false); } else { RecordStepForgets(s, q, x, p, id); }
        }
      case OfFlush(q, f) =>
        if q in s.processes {
          if f.FlushExecute? { FlushExecuteLeaves(s, q); } else { FlushStepForgets(s, q, f, p, id); }
        }
      case LateExecute(entry) => InsertLeaves(s, entry, true);
      case Open(_, _) =>
      case Record(_, _) =>
      case Prune(_) =>
    }
    hide FlushStep, Insert, Pids, Next, AllWereSpooled;
  }

  lemma {:induction false} RunStaysForgotten(s: System, events: seq<Event>, p: nat, id: nat)
    requires Forgotten(s, p, id) && NoScan(events, p)
    ensures Forgotten(Run(s, events), p, id)
    decreases events
  {
    hide Step, Forgotten;
    if events != [] {
      assert events[0] in events;
      StaysForgotten(s, events[0], p, id);
      RunStaysForgotten(Step(s, events[0]), events[1..], p, id);
    }
  }

  // ---- a lost entry leaves no trace -----------------------------------------------------

  /** An indexed entry has, or had, a file; or its own process is still writing one, or about to give its slot back. */
  ghost predicate IndexedForAReason(s: System, p: nat, id: nat) {
    id in s.everSpooled
    || (id in s.recorders && s.recorders[id].process == p
        && (s.recorders[id].phase.Writing? || s.recorders[id].phase.Wrote? || s.recorders[id].phase.Unmarked?))
  }

  ghost predicate IndexTells(s: System) {
    forall p, id :: p in s.processes && id in s.processes[p].index ==> IndexedForAReason(s, p, id)
  }

  lemma ReserveTells(s: System, q: nat, x: RecordEvent, p: nat, id: nat)
    requires q in s.recorders && s.recorders[q].process in s.processes && !x.Execute? && x.Reserve? && RecorderInv(s, q, s.recorders[q])
    requires p in s.processes && (id in s.processes[p].index ==> IndexedForAReason(s, p, id))
    ensures var s' := RecordStep(s, q, x);
            p in s'.processes && (id in s'.processes[p].index ==> IndexedForAReason(s', p, id))
  {
    hide Insert;
  }

  lemma UnmarkTells(s: System, q: nat, x: RecordEvent, p: nat, id: nat)
    requires q in s.recorders && s.recorders[q].process in s.processes && !x.Execute? && x.Unmark? && RecorderInv(s, q, s.recorders[q])
    requires p in s.processes && (id in s.processes[p].index ==> IndexedForAReason(s, p, id))
    ensures var s' := RecordStep(s, q, x);
            p in s'.processes && (id in s'.processes[p].index ==> IndexedForAReason(s', p, id))
  {
    hide Insert;
  }

  lemma GiveUpTells(s: System, q: nat, x: RecordEvent, p: nat, id: nat)
    requires q in s.recorders && s.recorders[q].process in s.processes && !x.Execute? && x.GiveUp? && RecorderInv(s, q, s.recorders[q])
    requires p in s.processes && (id in s.processes[p].index ==> IndexedForAReason(s, p, id))
    ensures var s' := RecordStep(s, q, x);
            p in s'.processes && (id in s'.processes[p].index ==> IndexedForAReason(s', p, id))
  {
    hide Insert;
  }

  lemma OtherStepTells(s: System, q: nat, x: RecordEvent, p: nat, id: nat)
    requires q in s.recorders && s.recorders[q].process in s.processes && !x.Execute? && !(x.Reserve? || x.Unmark? || x.GiveUp?) && RecorderInv(s, q, s.recorders[q])
    requires p in s.processes && (id in s.processes[p].index ==> IndexedForAReason(s, p, id))
    ensures var s' := RecordStep(s, q, x);
            p in s'.processes && (id in s'.processes[p].index ==> IndexedForAReason(s', p, id))
  {
    hide Insert;
  }

  lemma RecordStepTells(s: System, q: nat, x: RecordEvent, p: nat, id: nat)
    requires q in s.recorders && s.recorders[q].process in s.processes && !x.Execute? && RecorderInv(s, q, s.recorders[q])
    requires p in s.processes && (id in s.processes[p].index ==> IndexedForAReason(s, p, id))
    ensures var s' := RecordStep(s, q, x);
            p in s'.processes && (id in s'.processes[p].index ==> IndexedForAReason(s', p, id))
  {
    if x.Reserve? { ReserveTells(s, q, x, p, id); }
    else if x.Unmark? { UnmarkTells(s, q, x, p, id); }
    else if x.GiveUp? { GiveUpTells(s, q, x, p, id); }
    else { OtherStepTells(s, q, x, p, id); }
    hide RecordStep, IndexedForAReason, RecorderInv;
  }

  lemma FlushStepIndexes(s: System, q: nat, f: FlushEvent, p: nat, id: nat)
    requires q in s.processes && !f.FlushExecute? && p in s.processes
    requires id in s.processes[p].index ==> IndexedForAReason(s, p, id)
    ensures var s' := FlushStep(s, q, f);
            p in s'.processes && (id in s'.processes[p].index ==> IndexedForAReason(s', p, id))
  {
    if f.Scan? && AllWereSpooled(s, f.todo) && id in Pids(f.todo) {
      var i :| 0 <= i < |f.todo| && f.todo[i].pid == id;
      assert WasSpooled(s, f.todo[i]);
    }
    hide Insert, Pids, Next, AllWereSpooled;
  }

  lemma StepKeepsTelling(s: System, e: Event)
    requires Inv(s) && IndexTells(s)
    ensures IndexTells(Step(s, e))
  {
    var s' := Step(s, e);
    forall p, id | p in s'.processes && id in s'.processes[p].index ensures IndexedForAReason(s', p, id) {
      match e {
        case OfRecorder(q, x) =>
          if q in s.recorders && s.recorders[q].process in s.processes {
            assert RecorderInv(s, q, s.recorders[q]);
            if x.Execute? { InsertLeaves(s, s.recorders[q].entry, false); }
            else { ProcessesOfStep(s, e, p); RecordStepTells(s, q, x, p, id); }
          }
        case OfFlush(q, f) =>
          if q in s.processes {
            if f.FlushExecute? { FlushExecuteLeaves(s, q); }
            else { ProcessesOfStep(s, e, p); FlushStepIndexes(s, q, f, p, id); }
          }
        case LateExecute(entry) => InsertLeaves(s, entry, true);
        case Open(_, _) => assert s.files.Keys <= s.everSpooled by { FilesWereSpooled(s); }
        case Record(_, _) =>
        case Prune(_) =>
      }
      hide FlushStep, RecordStep, Insert, Inv, RecorderInv;
    }
  }

  lemma FilesWereSpooled(s: System)
    requires Inv(s)
    ensures s.files.Keys <= s.everSpooled
  {
    forall pid | pid in s.files ensures pid in s.everSpooled { assert RecorderInv(s, pid, s.recorders[pid]); }
  }

  lemma ProcessesOfStep(s: System, e: Event, p: nat)
    requires p in Step(s, e).processes && !e.Open?
    ensures p in s.processes
  {
    match e {
      case OfRecorder(q, x) =>
        if q in s.recorders && s.recorders[q].process in s.processes {
          if x.Execute? { InsertLeaves(s, s.recorders[q].entry, false); } else { RecordStepSlots(s, q, x); }
        }
      case OfFlush(q, f) =>
        if q in s.processes {
          if f.FlushExecute? { FlushExecuteLeaves(s, q); } else { FlushStepLeavesOthers(s, q, f); }
        }
      case LateExecute(entry) => InsertLeaves(s, entry, true);
      case Record(_, _) =>
      case Prune(_) =>
    }
    hide FlushStep, RecordStep, Insert;
  }

  lemma {:induction false} RunKeepsTelling(s: System, events: seq<Event>)
    requires Inv(s) && IndexTells(s)
    ensures IndexTells(Run(s, events))
    decreases events
  {
    hide Inv, Step, IndexTells;
    if events != [] {
      StepKeepsInv(s, events[0]);
      StepKeepsTelling(s, events[0]);
      RunKeepsTelling(Step(s, events[0]), events[1..]);
    }
  }

  /** In every run: an entry that was dropped or failed is in no index, in no process's slots, and has no file. */
  lemma LostLeavesNoTrace(events: seq<Event>, pid: nat, p: nat)
    requires var s := Run(EMPTY, events);
             pid in s.recorders && p in s.processes
             && (s.recorders[pid].phase == Done(Dropped) || s.recorders[pid].phase == Done(Failed))
    ensures var s := Run(EMPTY, events);
            pid !in s.processes[p].index && pid !in s.processes[p].writing && pid !in s.files
  {
    var s := Run(EMPTY, events);
    EmptyInv();
    RunKeepsInv(EMPTY, events);
    RunKeepsTelling(EMPTY, events);
    assert RecorderInv(s, pid, s.recorders[pid]);
    assert ProcessInv(s, p, s.processes[p]);
    assert SlotInv(s, p, s.processes[p], pid);
    hide Run;
  }
}
