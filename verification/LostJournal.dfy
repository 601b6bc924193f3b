/**
  What becomes of an update whose journal two badly timed power losses have destroyed while the target
  was damaged: exactly when the next run still ends with a good application.  And how one whose first
  entry is only half written gets stuck.
 */
module LostJournal {
  import opened Bytes
  import opened AppUpdater
  import opened Journal

  /**
    Power lost twice: between the removal of STATE and the rename, and, on the next run, after the first
    step of its first write.  The journal that knew of the damage is gone, and with it the promise that
    some state of the disk always tells where the good copy is.
   */
  lemma {:induction false} TwoCutsOrphan(c: Setup, d: Disk)
    requires c.Valid() && !c.faulty && Allowed(c, d) && JournalOf(d) == Some(RollbackInProgress)
    requires !OldOrNew(c, d)
    ensures AppSafe(c, d)
    ensures var e := d - {State, StateTmp};
            && TwiceCut(d, e, Text(RollbackInProgress))
            && Orphaned(c, e) && Allowed(c, e) && !AppSafe(c, e)
  {
    FilesTwiceCut(d);
  }

  /** The journal files of e are what the two cuts leave of those of d; between them t is still read. */
  predicate TwiceCut(d: Disk, e: Disk, t: string) {
    && Read(After(FilesOf(d), t, StateRemoved)) == Some(t)
    && FilesOf(e) == After(After(FilesOf(d), t, StateRemoved), t, TmpRemoved)
  }

  lemma {:induction false} FilesTwiceCut(d: Disk)
    ensures TwiceCut(d, d - {State, StateTmp}, Text(RollbackInProgress))
  {
    EntryReadBack(RollbackInProgress);
  }

  /** The target ends as the application of the backup, or as what was staged as the new one. */
  predicate Survives(d: Disk, after: Disk) {
    Becomes(d, BackupNro, after) || (Nonempty(d, NewNro) && Becomes(d, NewNro, after))
  }

  /** The disk of a run that starts from READY alone, once its backup phase is complete ... */
  function Backed(d: Disk): Disk {
    Written(BackedUp(Written(Written(d, Staged), BackupInProgress)), BackupComplete)
  }

  /** ... and when it begins to overwrite the target. */
  function Overwriting(d: Disk): Disk { Written(Backed(d), CopyInProgress) }

  // ----- The parts of a run -----

  /** The target is the same on both, there or not. */
  predicate TargetKept(d: Disk, e: Disk) { (Target in d <==> Target in e) && (Target in d ==> d[Target] == e[Target]) }

  lemma {:induction false} WithoutIs(d: Disk, p: Path)
    requires p !in {Target}
    ensures p !in Without(d, p) && Without(d, p).Keys <= d.Keys && TargetKept(d, Without(d, p))
  {
  }

  lemma {:induction false} FilesCleanedIs(d: Disk)
    ensures var e := FilesCleaned(d);
            && NewDir !in e && BackupDir !in e && Ready !in e && StateTmp !in e && e.Keys <= d.Keys && TargetKept(d, e)
            && (NewDir in d ==> NewNro !in e) && (BackupDir in d ==> BackupNro !in e)
  {
    var d1 := Without(d, NewDir);
    var d2 := Without(d1, BackupDir);
    var d3 := Without(d2, Ready);
    WithoutIs(d, NewDir);
    WithoutIs(d1, BackupDir);
    WithoutIs(d2, Ready);
    WithoutIs(d3, StateTmp);
    assert NewDir in d ==> NewNro !in d1;
    assert BackupDir in d ==> BackupNro !in d2;
  }

  /** After the cleanup: nothing pending, no backup, no staged file, the same target. */
  predicate CleanedUp(d: Disk, e: Disk) {
    && !Pending(e) && TargetKept(d, e)
    && (NewDir in d ==> NewNro !in e) && (BackupDir in d ==> BackupNro !in e)
  }

  lemma {:induction false} RestCleanedIs(c: Setup, d: Disk)
    ensures RestCleaned(c, d).Keys <= d.Keys && TargetKept(d, RestCleaned(c, d))
  {
    WithoutIs(d, Root);
    WithoutIs(Without(d, Root), SavedPayload);
  }

  lemma {:induction false} CleanedIs(c: Setup, d: Disk)
    ensures CleanedUp(d, Cleaned(c, d))
  {
    var d1 := FilesCleaned(d);
    FilesCleanedIs(d);
    WithoutIs(d1, State);
    RestCleanedIs(c, Without(d1, State));
  }

  lemma {:induction false} EndedIs(c: Setup, d: Disk)
    requires c.Valid() && SavedKept(c, d)
    ensures CleanedUp(d, Ended(c, d))
  {
    if c.patched {
      CleanedIs(c, Copied(d, SavedPayload, Payload));
    } else {
      CleanedIs(c, d);
    }
  }

  /** A journal write changes the journal and nothing else. */
  lemma {:induction false} WrittenIs(d: Disk, s: Phase)
    ensures var e := Written(d, s);
            && JournalOf(e) == Some(s) && StateTmp !in e
            && forall p :: p !in {Root, State, StateTmp} ==> (p in e <==> p in d) && (p in d ==> e[p] == d[p])
  {
  }

  lemma {:induction false} RolledBackIs(c: Setup, d: Disk)
    requires c.Valid() && SavedKept(c, d) && Nonempty(d, BackupNro)
    ensures var after := RolledBack(c, d);
            && Target in after && after[Target] == d[BackupNro] && !Pending(after)
            && (NewDir in d ==> NewNro !in after) && (BackupDir in d ==> BackupNro !in after)
  {
    var e := Written(d, RollbackInProgress);
    WrittenIs(d, RollbackInProgress);
    var f := Copied(e, BackupNro, Target);
    WrittenIs(f, RollbackComplete);
    EndedIs(c, Written(f, RollbackComplete));
  }

  lemma {:induction false} CommittedIs(c: Setup, d: Disk)
    requires c.Valid() && SavedKept(c, d) && Target in d
    ensures Becomes(d, Target, Committed(c, d)) && !Pending(Committed(c, d))
  {
    WrittenIs(d, CommitInProgress);
    EndedIs(c, Written(d, CommitInProgress));
  }

  /** The backup phase puts whatever the target is into the backup. */
  lemma {:induction false} BackedUpIs(d: Disk)
    requires BackupDir in d && Nonempty(d, Target)
    ensures var e := BackedUp(d);
            && BackupNro in e && e[BackupNro] == d[Target] && BackupDir in e
            && forall p :: p != BackupNro ==> (p in e <==> p in d) && (p in d ==> e[p] == d[p])
  {
    assert Subtree(BackupNro) == {BackupNro};
  }

  // ----- The run from an orphaned disk -----

  /** Staged file, target and saved payload are those of d. */
  predicate Carried(c: Setup, d: Disk, e: Disk) {
    && SavedKept(c, e) && BackupDir in e && (NewDir in d ==> NewDir in e)
    && NewNro in d && NewNro in e && e[NewNro] == d[NewNro] && Target in d && Target in e && e[Target] == d[Target]
  }

  lemma {:induction false} WrittenCarries(c: Setup, d: Disk, e: Disk, s: Phase)
    requires Carried(c, d, e)
    ensures Carried(c, d, Written(e, s)) && JournalOf(Written(e, s)) == Some(s)
    ensures BackupNro in Written(e, s) <==> BackupNro in e
    ensures BackupNro in e ==> Written(e, s)[BackupNro] == e[BackupNro]
  {
    WrittenIs(e, s);
  }

  lemma {:induction false} BackedIs(c: Setup, d: Disk)
    requires SavedKept(c, d) && BackupDir in d && Nonempty(d, NewNro) && Nonempty(d, Target)
    ensures Carried(c, d, Written(d, Staged)) && Carried(c, d, Written(Written(d, Staged), BackupInProgress))
    ensures Carried(c, d, Backed(d)) && BackupNro in Backed(d) && Backed(d)[BackupNro] == d[Target]
  {
    var d1 := Written(d, Staged);
    var d2 := Written(d1, BackupInProgress);
    WrittenCarries(c, d, d, Staged);
    WrittenCarries(c, d, d1, BackupInProgress);
    BackedUpIs(d2);
    WrittenCarries(c, d, BackedUp(d2), BackupComplete);
  }

  lemma {:induction false} OverwritingIs(c: Setup, d: Disk)
    requires SavedKept(c, d) && BackupDir in d && Nonempty(d, NewNro) && Nonempty(d, Target)
    ensures var e := Overwriting(d);
            && JournalOf(e) == Some(CopyInProgress) && Carried(c, d, e)
            && BackupNro in e && e[BackupNro] == d[Target]
  {
    BackedIs(c, d);
    WrittenCarries(c, d, Backed(d), CopyInProgress);
  }

  /** With a staged file and a target that is not empty, the run backs the damaged target up and goes on. */
  lemma {:induction false} OrphanGoesOn(c: Setup, d: Disk)
    requires c.Valid() && Orphaned(c, d) && Nonempty(d, NewNro) && Nonempty(d, Target)
    ensures RunResult(c, d) == Committed(c, Written(Copied(Overwriting(d), NewNro, Target), CopyComplete))
    ensures Becomes(d, NewNro, RunResult(c, d)) && !Pending(RunResult(c, d))
  {
    OrphanOverwrites(c, d);
    OverwritingIs(c, d);
    var e := Copied(Overwriting(d), NewNro, Target);
    WrittenIs(e, CopyComplete);
    CommittedIs(c, Written(e, CopyComplete));
  }

  lemma {:induction false} OrphanOverwrites(c: Setup, d: Disk)
    requires c.Valid() && Orphaned(c, d) && Nonempty(d, NewNro) && Nonempty(d, Target)
    ensures RunResult(c, d) == Committed(c, Written(Copied(Overwriting(d), NewNro, Target), CopyComplete))
  {
    BackedIs(c, d);
    OverwritingIs(c, d);
    StagedInstalls(c, Written(d, Staged));
    BackedReplaces(c, Backed(d));
  }

  lemma {:induction false} StagedInstalls(c: Setup, d: Disk)
    requires Nonempty(d, NewNro) && Nonempty(d, Target)
    ensures Installed(c, d, Staged) == Replaced(c, Written(BackedUp(Written(d, BackupInProgress)), BackupComplete))
  {
  }

  lemma {:induction false} BackedReplaces(c: Setup, d: Disk)
    requires SizesMatch(d, BackupNro, Target) && Nonempty(Written(d, CopyInProgress), NewNro)
    ensures Replaced(c, d) == Committed(c, Written(Copied(Written(d, CopyInProgress), NewNro, Target), CopyComplete))
  {
  }

  /** With a staged file and an empty or missing target, it rolls back. */
  lemma {:induction false} OrphanRollsBack(c: Setup, d: Disk)
    requires c.Valid() && Orphaned(c, d) && Nonempty(d, NewNro) && !Nonempty(d, Target)
    ensures Becomes(d, BackupNro, RunResult(c, d)) && !Pending(RunResult(c, d))
  {
    WrittenIs(d, Staged);
    RolledBackIs(c, Written(d, Staged));
    assert RunResult(c, d) == Installed(c, Written(d, Staged), Staged) == RolledBack(c, Written(d, Staged));
  }

  /** Without one it gives up, and its cleanup deletes the backup. */
  lemma {:induction false} OrphanGivesUp(c: Setup, d: Disk)
    requires c.Valid() && Orphaned(c, d) && !Nonempty(d, NewNro)
    ensures BackupNro !in RunResult(c, d) && TargetKept(d, RunResult(c, d))
  {
    WrittenIs(d, Staged);
    EndedIs(c, Written(d, Staged));
    assert RunResult(c, d) == Installed(c, Written(d, Staged), Staged) == Ended(c, Written(d, Staged));
  }

  /** So the application survives an uninterrupted run exactly when there is still a staged file. */
  lemma {:induction false} OrphanSurvivesIff(c: Setup, d: Disk)
    requires c.Valid() && Orphaned(c, d)
    ensures Survives(d, RunResult(c, d)) <==> Nonempty(d, NewNro)
  {
    if !Nonempty(d, NewNro) {
      OrphanGivesUp(c, d);
    } else if Nonempty(d, Target) {
      OrphanGoesOn(c, d);
    } else {
      OrphanRollsBack(c, d);
    }
  }

  /**
    On every such disk that a run can leave the staged file is intact, so the next run still ends well if
    it is not cut again: with the new application, or with that of the backup if the target is empty.
   */
  lemma {:induction false} OrphanOutcome(c: Setup, d: Disk)
    requires c.Valid() && !c.faulty && Allowed(c, d) && Orphaned(c, d)
    ensures var after := RunResult(c, d);
            && OldOrNew(c, after) && !Pending(after)
            && Becomes(d, if Nonempty(d, Target) then NewNro else BackupNro, after)
  {
    if Nonempty(d, Target) {
      OrphanGoesOn(c, d);
    } else {
      OrphanRollsBack(c, d);
    }
  }

  /**
    A third power loss, while the target is overwritten, makes the loss final: the backup is then the
    damaged file, the next run restores it, and its cleanup removes the staged one.
   */
  lemma {:induction false} ThirdCutLoses(c: Setup, d: Disk, garbage: Bytes)
    requires c.Valid() && Orphaned(c, d) && NewDir in d && Has(d, NewNro, c.newNro) && Nonempty(d, Target)
    ensures var cut := Overwriting(d)[Target := Data(garbage)]; var after := RunResult(c, cut);
            && JournalOf(cut) == Some(CopyInProgress)
            && Target in after && after[Target] == d[Target] && !OldOrNew(c, after)
            && BackupNro !in after && NewNro !in after && !Pending(after)
  {
    OverwritingIs(c, d);
    var cut := Overwriting(d)[Target := Data(garbage)];
    RolledBackIs(c, cut);
    assert RunResult(c, cut) == RolledBack(c, cut);
  }

  /**
    The same loss over a target that is already the new application does no harm, but the next run starts
    afresh and makes that one its backup.
   */
  lemma {:induction false} StartsAfresh(c: Setup, d: Disk)
    requires c.Valid() && !c.faulty && Sound(c, d) && SavedKept(c, d)
    requires State !in d && JournalOf(d) == Some(CopyComplete)
    ensures var e := d - {StateTmp};
            Sound(c, e) && JournalOf(e).None? && Winner(e) == NewNro && Has(Backed(e), BackupNro, c.newNro)
  {
    BackedIs(c, d - {StateTmp});
  }

  // ----- A half-written entry -----

  /** A stuck update stays stuck, boot after boot, and leaves the target alone. */
  lemma {:induction false} StuckForever(c: Setup, d: Disk)
    requires Stuck(d)
    ensures var after := RunResult(c, d);
            after == Written(d, RollbackInProgress) && Stuck(after) && Pending(after) && TargetKept(d, after)
  {
    WrittenIs(d, RollbackInProgress);
    assert RunResult(c, d) == RolledBack(c, d);
  }

  /** Power lost while the first entry is written. */
  function Torn(d: Disk, part: string): Disk { Made(d, Root)[StateTmp := AppUpdater.Journal(Unknown(part))] }

  /** The disk of a run that aborts, when its cleanup begins. */
  function Restored(c: Setup, d: Disk): Disk { if c.patched then Copied(d, SavedPayload, Payload) else d }

  lemma {:induction false} TornAborts(c: Setup, d: Disk, part: string)
    requires c.Valid() && !c.faulty && Fresh(c, d) && part != ""
    ensures Allowed(c, Torn(d, part)) && RunResult(c, Torn(d, part)) == Cleaned(c, Restored(c, Torn(d, part)))
  {
    var cut := Torn(d, part);
    assert JournalOf(cut) == Some(Unknown(part));
    assert RunResult(c, cut) == Installed(c, cut, Unknown(part)) == Ended(c, cut);
  }

  /**
    How an update gets stuck: power is lost while the first entry is written, so the next run finds an
    unknown one and aborts (`TornAborts`); power is lost again when its cleanup has deleted the staged file.
    From then on every run wants to roll back to a backup that was never made.
   */
  lemma {:induction false} TornSticks(c: Setup, d: Disk, part: string)
    requires c.Valid() && !c.faulty && Fresh(c, d) && part != ""
    ensures var stuck := Restored(c, Torn(d, part)) - {NewNro};
            Allowed(c, stuck) && Stuck(stuck) && Has(stuck, Target, c.oldNro)
  {
    assert JournalOf(Restored(c, Torn(d, part)) - {NewNro}) == Some(Unknown(part));
  }
}
