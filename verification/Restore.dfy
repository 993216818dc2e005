/**
  Staging a database restore and applying it at the next start (`backup.rs`).
  The start-up sequence may crash between any two file-system actions, and each
  action may answer an error; a run is any number of partial start-ups in a row.
 */
module Restore {
  import opened Text
  import UniquePath

  /** A file's content, and whether it is an intact database with the required tables. */
  datatype Content = Content(bytes: nat, valid: bool)

  /** One database's files: the reservation, the main file, its sidecars, and its scope directory's backups and uploads. */
  datatype Fs = Fs(
    pending: Option<Content>,
    db: Option<Content>,
    wal: bool,
    shm: bool,
    backups: map<string, Content>,
    uploads: map<nat, Content>)

  /** Where start-up is. A name is the pre-restore backup being, or just, written. */
  datatype Pc = Idle | Checked | Checkpointed | Copying(name: string) | Copied(made: Option<string>)
              | WalGone(made: Option<string>) | Ready(made: Option<string>)

  /**
    `applied`: a swap took place. `replaced` and `saved` remember the main file it
    overwrote and the copy its start-up had made of it.
   */
  datatype Proc = Proc(fs: Fs, pc: Pc, applied: bool, replaced: Option<Content>, saved: Option<string>)

  /**
    The file-system actions of a start-up, with what the environment answers.
    `errs`: the validation itself could not be carried out. `blind`: an existence
    probe answered an error, which the code reads as "not there".
   */
  datatype Event =
    | Check(errs: bool, removed: bool)
    | Checkpoint(main: Option<Content>)
    | BeginCopy(name: string, torn: Content, blind: bool)
    | EndCopy
    | SkipCopy(blind: bool)
    | RemoveWal(ok: bool)
    | RemoveShm(ok: bool)
    | Swap
    | Crash

  /** An action takes place only where the sequence has reached it; a crash or an error ends the start-up anywhere. */
  function Step(p: Proc, e: Event): Proc {
    var fs := p.fs;
    match e
    case Check(errs, removed) =>
      if p.pc != Idle || fs.pending.None? then p
      else if fs.pending.value.valid && !errs then p.(pc := Checked)
      else p.(fs := if removed then fs.(pending := None) else fs)
    case Checkpoint(main) =>
      if p.pc != Checked then p
      else p.(pc := Checkpointed, fs := if fs.db.Some? && main.Some? then fs.(db := main) else fs)
    case BeginCopy(name, torn, blind) =>
      if p.pc != Checkpointed || fs.db.None? || (name in fs.backups && !blind) then p
      else p.(pc := Copying(name), fs := fs.(backups := fs.backups[name := torn]))
    case EndCopy =>
      if !p.pc.Copying? || fs.db.None? then p
      else p.(pc := Copied(Some(p.pc.name)), fs := fs.(backups := fs.backups[p.pc.name := fs.db.value]))
    case SkipCopy(blind) =>
      if p.pc != Checkpointed || (fs.db.Some? && !blind) then p else p.(pc := Copied(None))
    case RemoveWal(ok) =>
      if !p.pc.Copied? then p else p.(pc := WalGone(p.pc.made), fs := if ok then fs.(wal := false) else fs)
    case RemoveShm(ok) =>
      if !p.pc.WalGone? then p else p.(pc := Ready(p.pc.made), fs := if ok then fs.(shm := false) else fs)
    case Swap =>
      if !p.pc.Ready? || fs.pending.None? then p
      else Proc(fs.(db := fs.pending, pending := None), Idle, true, fs.db, p.pc.made)
    case Crash => p.(pc := Idle)
  }

  function Run(p: Proc, events: seq<Event>): Proc
    decreases events
  {
    if events == [] then p else Run(Step(p, events[0]), events[1..])
  }

  /** A staged restore, before any start-up. */
  function Staged(fs: Fs): Proc {
    Proc(fs, Idle, false, None, None)
  }

  lemma {:induction false} RunAppend(p: Proc, a: seq<Event>, b: seq<Event>)
    ensures Run(p, a + b) == Run(Run(p, a), b)
    decreases a
  {
    if a == [] {
      assert a + b == b;
    } else {
      assert (a + b)[1..] == a[1..] + b;
      RunAppend(Step(p, a[0]), a[1..], b);
    }
  }

  lemma Extend(p: Proc, events: seq<Event>, e: Event)
    ensures Run(p, events + [e]) == Step(Run(p, events), e)
  {
    RunAppend(p, events, [e]);
  }

  /** The state before the last event of a run. */
  lemma LastStep(p: Proc, events: seq<Event>)
    requires events != []
    ensures var n := |events| - 1;
            Run(p, events) == Step(Run(p, events[..n]), events[n])
  {
    var n := |events| - 1;
    assert events == events[..n] + [events[n]];
    Extend(p, events[..n], events[n]);
  }

  // ---- what the environment's errors did in a run -----------------------------------

  /** A valid reservation is thrown away: its validation could not be carried out, and the removal took effect. */
  predicate ThrowsAway(p: Proc, e: Event) {
    e.Check? && e.errs && e.removed && p.pc == Idle && p.fs.pending.Some?
  }

  /** A pre-restore copy goes over the backup of this name: the probe of the name answered an error. */
  predicate Overwrites(p: Proc, e: Event, name: string) {
    e.BeginCopy? && e.name == name && e.blind && p.pc == Checkpointed && p.fs.db.Some? && name in p.fs.backups
  }

  /** What the copies wrote under a name, given what they had written before the event. */
  function WritesNow(p: Proc, e: Event, name: string, written: Option<Content>): Option<Content> {
    if e.BeginCopy? && e.name == name && Step(p, e) != p then Some(e.torn)
    else if e.EndCopy? && p.pc == Copying(name) then p.fs.db
    else written
  }

  /** The last that was written under a name in a run. */
  function LastWritten(p: Proc, events: seq<Event>, name: string): Option<Content>
    decreases |events|
  {
    if events == [] then None
    else
      var n := |events| - 1;
      WritesNow(Run(p, events[..n]), events[n], name, LastWritten(p, events[..n], name))
  }

  predicate EverThrownAway(p: Proc, events: seq<Event>)
    decreases |events|
  {
    events != [] &&
    var n := |events| - 1;
    EverThrownAway(p, events[..n]) || ThrowsAway(Run(p, events[..n]), events[n])
  }

  predicate EverOverwrites(p: Proc, events: seq<Event>, name: string)
    decreases |events|
  {
    events != [] &&
    var n := |events| - 1;
    EverOverwrites(p, events[..n], name) || Overwrites(Run(p, events[..n]), events[n], name)
  }

  /** A safety copy skipped with the database there, or made: whether the last one was skipped. */
  predicate SkipsNow(p: Proc, e: Event, skipped: bool) {
    if e.SkipCopy? && p.pc == Checkpointed then p.fs.db.Some? && e.blind
    else if e.EndCopy? && p.pc.Copying? then false
    else skipped
  }

  /** The last time start-up came to the safety copy, it skipped a database that was there: the probe answered an error. */
  predicate SkippedBlindly(p: Proc, events: seq<Event>)
    decreases |events|
  {
    events != [] &&
    var n := |events| - 1;
    SkipsNow(Run(p, events[..n]), events[n], SkippedBlindly(p, events[..n]))
  }

  // ---- crash safety ------------------------------------------------------------

  /** Not applied yet: the reservation holds the new content and the database file is still there, or still absent. */
  ghost predicate StillPending(p: Proc, new': Content, hadDb: bool) {
    !p.applied && p.fs.pending == Some(new') && (p.fs.db.Some? <==> hadDb)
  }

  /** Applied: the database is the new content; the file it replaced is in the copy its start-up made, if it made one. */
  ghost predicate Applied(p: Proc, new': Content, hadDb: bool) {
    && p.applied && p.fs.pending == None && p.fs.db == Some(new')
    && (p.replaced.Some? <==> hadDb)
    && (p.saved.Some? ==> hadDb && p.saved.value in p.fs.backups && Some(p.fs.backups[p.saved.value]) == p.replaced)
  }

  /** Lost: no reservation any more, and no swap; the database file is still there, or still absent. */
  ghost predicate Lost(p: Proc, hadDb: bool) {
    !p.applied && p.fs.pending == None && (p.fs.db.Some? <==> hadDb)
  }

  /** The copy in progress, or just made, is where the sequence says. */
  ghost predicate CopyInv(p: Proc) {
    && (p.pc.Copying? ==> p.fs.db.Some?)
    && (p.pc.Copied? || p.pc.WalGone? || p.pc.Ready? ==>
          p.pc.made.Some? ==> p.pc.made.value in p.fs.backups && Some(p.fs.backups[p.pc.made.value]) == p.fs.db)
  }

  /** What holds at each point of the sequence. */
  ghost predicate Inv(p: Proc, new': Content, hadDb: bool) {
    && new'.valid
    && CopyInv(p)
    && (StillPending(p, new', hadDb) || (p.pc == Idle && (Applied(p, new', hadDb) || Lost(p, hadDb))))
  }

  lemma StepKeepsInv(p: Proc, e: Event, new': Content, hadDb: bool)
    requires Inv(p, new', hadDb)
    ensures Inv(Step(p, e), new', hadDb)
  {
  }

  lemma {:induction false} RunKeepsInv(p: Proc, events: seq<Event>, new': Content, hadDb: bool)
    requires Inv(p, new', hadDb)
    ensures Inv(Run(p, events), new', hadDb)
    decreases events
  {
    if events != [] {
      StepKeepsInv(p, events[0], new', hadDb);
      RunKeepsInv(Step(p, events[0]), events[1..], new', hadDb);
    }
  }

  /**
    However often start-up crashes or errs and wherever: the reservation still
    holds the new content, or the database path holds it, or the reservation was
    lost - and that exactly if a start-up could not validate it and removed it.
   */
  lemma {:induction false} CrashSafe(fs: Fs, events: seq<Event>)
    requires fs.pending.Some? && fs.pending.value.valid
    ensures var p := Run(Staged(fs), events);
            var new', hadDb := fs.pending.value, fs.db.Some?;
            && (StillPending(p, new', hadDb) || Applied(p, new', hadDb) || Lost(p, hadDb))
            && (Lost(p, hadDb) <==> EverThrownAway(Staged(fs), events))
    decreases |events|
  {
    var start, new', hadDb := Staged(fs), fs.pending.value, fs.db.Some?;
    RunKeepsInv(start, events, new', hadDb);
    if events != [] {
      var n := |events| - 1;
      CrashSafe(fs, events[..n]);
      RunKeepsInv(start, events[..n], new', hadDb);
      LastStep(start, events);
      hide Run;
    }
  }

  /** Losing it touches nothing but the reservation, and no later start-up changes any file. */
  lemma ThrowingAwayTouchesNothingElse(p: Proc, e: Event, later: seq<Event>)
    requires ThrowsAway(p, e)
    ensures Run(Step(p, e), later) == p.(fs := p.fs.(pending := None))
  {
    NothingPendingNothingHappens(Step(p, e), later);
  }

  /** Whether the copy was skipped is what `saved`, after the swap, and the sequence, before it, remember. */
  ghost predicate SavedUnless(p: Proc, skipped: bool) {
    && (p.applied && p.replaced.Some? ==> (p.saved.None? <==> skipped))
    && ((p.pc.Copied? || p.pc.WalGone? || p.pc.Ready?) && p.fs.db.Some? ==> (p.pc.made.None? <==> skipped))
  }

  lemma StepSavesUnless(p: Proc, e: Event, skipped: bool)
    requires SavedUnless(p, skipped) && CopyInv(p)
    requires p.applied ==> p.pc == Idle && p.fs.pending == None
    ensures SavedUnless(Step(p, e), SkipsNow(p, e, skipped))
  {
  }

  lemma {:induction false} RunSavesUnless(fs: Fs, events: seq<Event>)
    requires fs.pending.Some? && fs.pending.value.valid
    ensures SavedUnless(Run(Staged(fs), events), SkippedBlindly(Staged(fs), events))
    decreases |events|
  {
    if events != [] {
      var n := |events| - 1;
      RunSavesUnless(fs, events[..n]);
      RunKeepsInv(Staged(fs), events[..n], fs.pending.value, fs.db.Some?);
      StepSavesUnless(Run(Staged(fs), events[..n]), events[n], SkippedBlindly(Staged(fs), events[..n]));
      LastStep(Staged(fs), events);
      hide Run, Step, SavedUnless;
    }
  }

  /**
    The file a swap replaced is in a copy its start-up made, except exactly when
    the probe before the swap answered an error, so that the copy was skipped with
    the database there.
   */
  lemma ReplacedIsSaved(fs: Fs, events: seq<Event>)
    requires fs.pending.Some? && fs.pending.value.valid && fs.db.Some?
    ensures var p := Run(Staged(fs), events);
            p.applied ==>
              && p.replaced.Some?
              && (p.saved.None? <==> SkippedBlindly(Staged(fs), events))
              && (p.saved.Some? ==> p.saved.value in p.fs.backups && p.fs.backups[p.saved.value] == p.replaced.value)
  {
    RunSavesUnless(fs, events);
    RunKeepsInv(Staged(fs), events, fs.pending.value, true);
    hide Run, SkippedBlindly;
  }

  /** One earlier backup: as it was, or what was written over it; and only then a copy is at this name. */
  ghost predicate BackupTells(p: Proc, before: Fs, name: string, over: bool, written: Option<Content>)
    requires name in before.backups
  {
    && (written.Some? <==> over)
    && name in p.fs.backups && p.fs.backups[name] == (if over && written.Some? then written.value else before.backups[name])
    && (p.pc == Copying(name) || p.saved == Some(name) ==> over)
    && ((p.pc.Copied? || p.pc.WalGone? || p.pc.Ready?) && p.pc.made == Some(name) ==> over)
    && (p.pc.Copying? ==> p.fs.db.Some?)
  }

  lemma StepTells(p: Proc, e: Event, before: Fs, name: string, over: bool, written: Option<Content>)
    requires name in before.backups && BackupTells(p, before, name, over, written)
    ensures BackupTells(Step(p, e), before, name, over || Overwrites(p, e, name), WritesNow(p, e, name, written))
  {
  }

  /**
    An earlier backup is as it was, unless a copy went over it - which takes a
    probe of its name that answered an error - and then what was written last. The
    copy that saved the old file is at no earlier backup's name otherwise.
   */
  lemma {:induction false} EarlierBackupsStay(fs: Fs, events: seq<Event>, name: string)
    requires name in fs.backups
    ensures var p, over, written := Run(Staged(fs), events), EverOverwrites(Staged(fs), events, name),
                                    LastWritten(Staged(fs), events, name);
            && (written.Some? <==> over)
            && name in p.fs.backups && p.fs.backups[name] == (if written.Some? then written.value else fs.backups[name])
            && (p.saved == Some(name) ==> over)
    ensures BackupTells(Run(Staged(fs), events), fs, name, EverOverwrites(Staged(fs), events, name),
                        LastWritten(Staged(fs), events, name))
    decreases |events|
  {
    if events != [] {
      var n := |events| - 1;
      EarlierBackupsStay(fs, events[..n], name);
      StepTells(Run(Staged(fs), events[..n]), events[n], fs, name, EverOverwrites(Staged(fs), events[..n], name),
                LastWritten(Staged(fs), events[..n], name));
      LastStep(Staged(fs), events);
      hide Run, Step;
    }
  }

  /** One undisturbed start-up. */
  function StartUp(hasDb: bool, main: Option<Content>, name: string, torn: Content): seq<Event> {
    [Crash, Check(false, true), Checkpoint(main)] + CopyPart(hasDb, name, torn) + [RemoveWal(true), RemoveShm(true), Swap]
  }

  function CopyPart(hasDb: bool, name: string, torn: Content): seq<Event> {
    if hasDb then [BeginCopy(name, torn, false), EndCopy] else [SkipCopy(false)]
  }

  lemma CopyIsMade(p: Proc, name: string, torn: Content)
    requires p.pc == Checkpointed && (p.fs.db.Some? ==> name !in p.fs.backups)
    ensures Run(p, CopyPart(p.fs.db.Some?, name, torn)) ==
              if p.fs.db.None? then p.(pc := Copied(None))
              else p.(pc := Copied(Some(name)), fs := p.fs.(backups := p.fs.backups[name := p.fs.db.value]))
  {
    if p.fs.db.Some? {
      Extend(p, [], BeginCopy(name, torn, false));
      Extend(p, [BeginCopy(name, torn, false)], EndCopy);
      assert CopyPart(true, name, torn) == [BeginCopy(name, torn, false)] + [EndCopy];
      assert p.fs.backups[name := torn][name := p.fs.db.value] == p.fs.backups[name := p.fs.db.value];
    } else {
      Extend(p, [], SkipCopy(false));
    }
  }

  lemma StartUpApplies(p: Proc, main: Option<Content>, name: string, torn: Content)
    requires p.fs.pending.Some? && p.fs.pending.value.valid && name !in p.fs.backups
    ensures var p' := Run(p, StartUp(p.fs.db.Some?, main, name, torn));
            && p'.pc == Idle && p'.applied && p'.fs.pending == None && p'.fs.db == p.fs.pending
            && !p'.fs.wal && !p'.fs.shm
            && p'.replaced == (if p.fs.db.Some? && main.Some? then main else p.fs.db)
            && p'.fs.backups == (if p.fs.db.Some? then p.fs.backups[name := p'.replaced.value] else p.fs.backups)
            && p'.saved == (if p.fs.db.Some? then Some(name) else None)
  {
    var begin := [Crash, Check(false, true), Checkpoint(main)];
    var copy := CopyPart(p.fs.db.Some?, name, torn);
    RunThree(p, Crash, Check(false, true), Checkpoint(main));
    RunAppend(p, begin + copy, [RemoveWal(true), RemoveShm(true), Swap]);
    RunAppend(p, begin, copy);
    CopyIsMade(Run(p, begin), name, torn);
    RunThree(Run(p, begin + copy), RemoveWal(true), RemoveShm(true), Swap);
    hide Run, CopyPart;
  }

  lemma RunThree(p: Proc, a: Event, b: Event, c: Event)
    ensures Run(p, [a, b, c]) == Step(Step(Step(p, a), b), c)
  {
    assert [a, b, c] == [] + [a] + [b] + [c];
    Extend(p, [], a);
    Extend(p, [a], b);
    Extend(p, [a, b], c);
  }

  /**
    From every point crashes and errors can leave, one undisturbed start-up
    reaches the applied state, exactly if the reservation was not lost; the file
    it replaces is then saved under a new name.
   */
  lemma RestartCompletes(fs: Fs, events: seq<Event>, main: Option<Content>, name: string, torn: Content)
    requires fs.pending.Some? && fs.pending.value.valid
    requires name !in Run(Staged(fs), events).fs.backups
    ensures var p := Run(Staged(fs), events);
            var p' := Run(p, StartUp(p.fs.db.Some?, main, name, torn));
            && (Applied(p', fs.pending.value, fs.db.Some?) <==> !EverThrownAway(Staged(fs), events))
            && (p.fs.pending.Some? && fs.db.Some? ==> p'.saved == Some(name))
  {
    var start := Staged(fs);
    var p := Run(start, events);
    var again := StartUp(p.fs.db.Some?, main, name, torn);
    CrashSafe(fs, events);
    if p.fs.pending.Some? {
      StartUpApplies(p, main, name, torn);
    } else {
      NothingPendingNothingHappens(p.(pc := Idle), again[1..]);
    }
    hide EverThrownAway, StartUp;
  }

  /** Without a reservation a start-up changes no file. */
  lemma {:induction false} NothingPendingNothingHappens(p: Proc, events: seq<Event>)
    requires p.pc == Idle && p.fs.pending == None
    ensures Run(p, events) == p
    decreases events
  {
    if events != [] { NothingPendingNothingHappens(Step(p, events[0]), events[1..]); }
  }

  /** A corrupt reservation is never applied: database, sidecars and backups stay as they are, in every run. */
  lemma {:induction false} CorruptPendingIsHarmless(p: Proc, events: seq<Event>)
    requires p.pc == Idle && (p.fs.pending.Some? ==> !p.fs.pending.value.valid)
    ensures var p' := Run(p, events);
            p'.pc == Idle && p'.fs.(pending := p.fs.pending) == p.fs
            && (p'.fs.pending == None || p'.fs.pending == p.fs.pending)
    decreases events
  {
    if events != [] { CorruptPendingIsHarmless(Step(p, events[0]), events[1..]); }
  }

  // ---- the three errors do happen ----------------------------------------------------

  /** A lock on a valid reservation during one start-up is enough to lose it. */
  lemma ValidReservationThrownAway(fs: Fs)
    requires fs.pending.Some? && fs.pending.value.valid
    ensures Lost(Run(Staged(fs), [Check(true, true)]), fs.db.Some?)
  {
    Extend(Staged(fs), [], Check(true, true));
    assert [] + [Check(true, true)] == [Check(true, true)];
  }

  /** A probe that errs once lets the swap replace a main file that is in no backup. */
  lemma ReplacedWithoutCopy(fs: Fs)
    requires fs.pending.Some? && fs.pending.value.valid && fs.db.Some? && fs.backups == map[]
    ensures var p := Run(Staged(fs), [Check(false, true), Checkpoint(None), SkipCopy(true)]
                                     + [RemoveWal(true), RemoveShm(true), Swap]);
            p.applied && p.replaced == fs.db && p.fs.backups == map[]
  {
    var p := Staged(fs);
    RunAppend(p, [Check(false, true), Checkpoint(None), SkipCopy(true)], [RemoveWal(true), RemoveShm(true), Swap]);
    RunThree(p, Check(false, true), Checkpoint(None), SkipCopy(true));
    RunThree(Run(p, [Check(false, true), Checkpoint(None), SkipCopy(true)]), RemoveWal(true), RemoveShm(true), Swap);
  }

  /** A name probe that errs lets the copy go over an earlier backup. */
  lemma EarlierBackupOverwritten(fs: Fs, name: string, torn: Content)
    requires fs.pending.Some? && fs.pending.value.valid && fs.db.Some? && name in fs.backups
    ensures var p := Run(Staged(fs), [Check(false, true), Checkpoint(None), BeginCopy(name, torn, true)]);
            name in p.fs.backups && p.fs.backups[name] == torn
  {
    RunThree(Staged(fs), Check(false, true), Checkpoint(None), BeginCopy(name, torn, true));
  }

  // ---- the service ---------------------------------------------------------------

  datatype ApplyResult = NothingApplied | AppliedRestore(backupName: string) | ApplyError

  datatype StageResult = StagedIt | NotFound | Invalid | IoError

  /**
    How the environment answers one start-up: the two existence probes, whether
    the validation can be carried out, the removals, the checkpointed main file,
    the names whose probe errs, a torn copy, and whether copying and renaming succeed.
   */
  datatype Answers = Answers(
    seesPending: bool, validates: bool, removes: bool, main: Option<Content>, seesDb: bool,
    unseenNames: set<string>, torn: Content, copies: bool, removesWal: bool, removesShm: bool, renames: bool)

  /** The files of one database, as the service acts on them. */
  class Files {
    var fs: Fs

    /** `apply_pending_restore_at_startup`. The ghost result is the sequence of actions taken. */
    method ApplyPendingRestoreAtStartup(stamp: string, io: Answers) returns (result: ApplyResult, ghost events: seq<Event>)
      modifies this
      ensures fs == Run(Staged(old(fs)), events).fs
      ensures result.AppliedRestore? <==> Run(Staged(old(fs)), events).applied
      ensures result.AppliedRestore? <==>
                && old(fs).pending.Some? && io.seesPending && old(fs).pending.value.valid && io.validates && io.renames
                && (old(fs).db.Some? && io.seesDb ==> io.copies)
      ensures result.AppliedRestore? ==>
                && fs.pending == None && fs.db == old(fs).pending
                && (fs.wal <==> old(fs).wal && !io.removesWal) && (fs.shm <==> old(fs).shm && !io.removesShm)
                && (if old(fs).db.Some? && io.seesDb
                    then fs.backups == old(fs).backups[result.backupName := if io.main.Some? then io.main.value else old(fs).db.value]
                         && (io.unseenNames == {} ==> result.backupName !in old(fs).backups)
                    else fs.backups == old(fs).backups && result.backupName == "")
      ensures result == ApplyError ==> fs.pending == old(fs).pending
      ensures result == NothingApplied ==>
                && fs.(pending := None) == old(fs).(pending := None)
                && (fs.pending == old(fs).pending || fs.pending == None)
                && (old(fs).pending.Some? ==>
                      (fs.pending == None <==> io.seesPending && !(old(fs).pending.value.valid && io.validates) && io.removes))
    {
      hide Run, Step;
      ghost var start := Staged(fs);
      var sound;
      sound, events := Validate(io, start);
      if !sound { return NothingApplied, events; }
      var copied, backupName;
      copied, backupName, events := SafetyBackup(stamp, io, start, events);
      if !copied { return ApplyError, events; }
      var swapped;
      swapped, events := SwapIn(io, start, events);
      if !swapped { return ApplyError, events; }
      result := AppliedRestore(backupName);
    }

    /** Discard a reservation that does not validate; otherwise fold the log of the current main file into it. */
    method Validate(io: Answers, ghost start: Proc) returns (sound: bool, ghost events: seq<Event>)
      requires start == Staged(fs)
      modifies this
      ensures sound <==> old(fs).pending.Some? && io.seesPending && old(fs).pending.value.valid && io.validates
      ensures sound ==>
                && fs == (if old(fs).db.Some? && io.main.Some? then old(fs).(db := io.main) else old(fs))
                && Run(start, events) == Proc(fs, Checkpointed, false, None, None)
      ensures !sound ==>
                && fs == (if old(fs).pending.Some? && io.seesPending && io.removes then old(fs).(pending := None) else old(fs))
                && Run(start, events) == Staged(fs)
    {
      hide Run;
      events := [];
      RunNone(start);
      if fs.pending.None? || !io.seesPending { return false, []; }
      events := Grow(start, events, Check(!io.validates, io.removes));
      if !(fs.pending.value.valid && io.validates) {
        if io.removes { fs := fs.(pending := None); }
        return false, events;
      }
      if fs.db.Some? && io.main.Some? { fs := fs.(db := io.main); }
      events := Grow(start, events, Checkpoint(io.main));
      sound := true;
    }

    /** The pre-restore copy of the current main file, if the probe sees one, under a name no probe sees. */
    method SafetyBackup(stamp: string, io: Answers, ghost start: Proc, ghost events: seq<Event>)
      returns (copied: bool, backupName: string, ghost more: seq<Event>)
      requires Run(start, events) == Proc(fs, Checkpointed, false, None, None)
      modifies this
      ensures copied <==> (old(fs).db.Some? && io.seesDb ==> io.copies)
      ensures fs.(backups := old(fs).backups) == old(fs)
      ensures Run(start, more).fs == fs && !Run(start, more).applied
      ensures copied ==> Run(start, more).pc.Copied?
      ensures copied && old(fs).db.Some? && io.seesDb ==>
                && fs.backups == old(fs).backups[backupName := fs.db.value]
                && (io.unseenNames == {} ==> backupName !in old(fs).backups)
      ensures !(old(fs).db.Some? && io.seesDb) ==> fs == old(fs) && backupName == ""
    {
      hide Run, UniquePath.FirstFree, UniquePath.Candidate;
      if fs.db.None? || !io.seesDb {
        more := Grow(start, events, SkipCopy(!io.seesDb));
        return true, "", more;
      }
      ghost var k;
      backupName, k := UniquePath.UniquePath(fs.backups.Keys - io.unseenNames, stamp, "sqlite3");
      more := Grow(start, events, BeginCopy(backupName, io.torn, backupName in fs.backups));
      fs := fs.(backups := fs.backups[backupName := io.torn]);
      if !io.copies { return false, backupName, more; }
      fs := fs.(backups := fs.backups[backupName := fs.db.value]);
      more := Grow(start, more, EndCopy);
      copied := true;
      assert fs.backups == old(fs).backups[backupName := fs.db.value];
    }

    /** Drop the old database's sidecars as far as that works, then move the reservation over the main file. */
    method SwapIn(io: Answers, ghost start: Proc, ghost events: seq<Event>) returns (swapped: bool, ghost more: seq<Event>)
      requires fs.pending.Some?
      requires Run(start, events).pc.Copied? && Run(start, events).fs == fs && !Run(start, events).applied
      modifies this
      ensures swapped <==> io.renames
      ensures var cleaned := old(fs).(wal := old(fs).wal && !io.removesWal, shm := old(fs).shm && !io.removesShm);
              fs == if io.renames then cleaned.(db := old(fs).pending, pending := None) else cleaned
      ensures Run(start, more).fs == fs && (Run(start, more).applied <==> swapped)
    {
      hide Run;
      if io.removesWal { fs := fs.(wal := false); }
      more := Grow(start, events, RemoveWal(io.removesWal));
      if io.removesShm { fs := fs.(shm := false); }
      more := Grow(start, more, RemoveShm(io.removesShm));
      if !io.renames { return false, more; }
      fs := fs.(db := fs.pending, pending := None);
      more := Grow(start, more, Swap);
      swapped := true;
    }

    /**
      `stage_restore_from_bytes`: write a private upload, check it, rename it into
      place. At every point a crash can hit (`seen`), the reservation is the
      earlier one or the whole new content, and then that content is valid.
     */
    method StageRestoreFromBytes(content: Content, nonce: nat, torn: Content, writes: bool, validates: bool, renames: bool)
      returns (result: StageResult, ghost seen: seq<Fs>)
      modifies this
      ensures forall i :: 0 <= i < |seen| ==>
                && (seen[i].pending == old(fs).pending || (content.valid && seen[i].pending == Some(content)))
                && seen[i].db == old(fs).db && seen[i].backups == old(fs).backups
      ensures |seen| > 0 && seen[|seen| - 1] == fs
      ensures result == StagedIt <==> writes && content.valid && validates && renames
      ensures fs.pending == if result == StagedIt then Some(content) else old(fs).pending
      ensures result == Invalid <==> writes && !(content.valid && validates)
    {
      seen := [fs];
      fs := fs.(uploads := fs.uploads[nonce := torn]);
      seen := seen + [fs];
      if !writes { return IoError, seen; }
      fs := fs.(uploads := fs.uploads[nonce := content]);
      seen := seen + [fs];
      if !(fs.uploads[nonce].valid && validates) {
        fs := fs.(uploads := fs.uploads - {nonce});
        return Invalid, seen + [fs];
      }
      if !renames {
        fs := fs.(uploads := fs.uploads - {nonce});
        return IoError, seen + [fs];
      }
      fs := fs.(pending := Some(fs.uploads[nonce]), uploads := fs.uploads - {nonce});
      seen := seen + [fs];
      result := StagedIt;
    }

    /**
      `stage_restore_from_file`: check a listed backup, then copy it onto the
      reservation. The copy is not atomic, so besides the earlier reservation and
      the whole backup a crash can leave a torn file, which start-up checks again.
     */
    method StageRestoreFromFile(name: string, torn: Content, sees: bool, validates: bool, copies: bool)
      returns (result: StageResult, ghost seen: seq<Fs>)
      modifies this
      ensures forall i :: 0 <= i < |seen| ==>
                && (seen[i].pending == old(fs).pending || seen[i].pending == Some(torn)
                    || (name in old(fs).backups && old(fs).backups[name].valid
                        && seen[i].pending == Some(old(fs).backups[name])))
                && seen[i].db == old(fs).db && seen[i].backups == old(fs).backups
      ensures |seen| > 0 && seen[|seen| - 1] == fs
      ensures result == StagedIt <==> name in old(fs).backups && sees && old(fs).backups[name].valid && validates && copies
      ensures result == NotFound <==> name !in old(fs).backups || !sees
      ensures result == Invalid <==> name in old(fs).backups && sees && !(old(fs).backups[name].valid && validates)
      ensures result == StagedIt ==> fs.pending == Some(old(fs).backups[name])
      ensures result == NotFound || result == Invalid ==> fs == old(fs)
    {
      seen := [fs];
      if name !in fs.backups || !sees { return NotFound, seen; }
      if !(fs.backups[name].valid && validates) { return Invalid, seen; }
      fs := fs.(pending := Some(torn));
      seen := seen + [fs];
      if !copies { return IoError, seen; }
      fs := fs.(pending := Some(fs.backups[name]));
      seen := seen + [fs];
      result := StagedIt;
    }

    /**
      `cancel_pending_restore`: after a success no run of start-ups applies or
      changes anything; an error leaves the reservation as it was.
     */
    method CancelPendingRestore(removes: bool) returns (ok: bool)
      modifies this
      ensures ok <==> old(fs).pending.None? || removes
      ensures ok ==> forall events: seq<Event> :: Run(Staged(fs), events) == Staged(fs)
      ensures fs.(pending := old(fs).pending) == old(fs) && (!ok ==> fs == old(fs))
    {
      if fs.pending.Some? {
        if !removes { return false; }
        fs := fs.(pending := None);
      }
      ok := true;
      forall events: seq<Event> ensures Run(Staged(fs), events) == Staged(fs) {
        NothingPendingNothingHappens(Staged(fs), events);
      }
    }
  }

  lemma RunNone(p: Proc)
    ensures Run(p, []) == p
  {
  }

  /** One more action at the end of a run. */
  ghost function Grow(p: Proc, events: seq<Event>, e: Event): (more: seq<Event>)
    ensures Run(p, more) == Step(Run(p, events), e)
  {
    Extend(p, events, e);
    events + [e]
  }
}
