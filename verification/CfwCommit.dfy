/**
  The Horizon side of the CFW update: once the new firmware has booted, the transaction is committed
  by journaling COMMIT_IN_PROGRESS and deleting the backup, the staged files and, last, the journal.
  Power may be lost before any single step; after that nothing touches the disk until the next run.
 */
module CfwCommit {
  datatype Path =
    | Root | Backup | New | Recovery | RecoveryTmp | Ready | ReadyTmp | PayloadNext | UpdaterLive
    | StateTmp | State | SavedPayload

  /** A directory knows only how many entries it still has. */
  datatype Node = Dir(entries: nat) | File(text: string)

  type Disk = map<Path, Node>

  const COMMIT := "COMMIT_IN_PROGRESS"

  /** Drops trailing line ends and NULs. */
  function Strip(s: string): (r: string)
    ensures r <= s && forall i :: |r| <= i < |s| ==> s[i] in {'\n', '\r', '\0'}
    ensures r != [] ==> r[|r| - 1] !in {'\n', '\r', '\0'}
  {
    if s != [] && s[|s| - 1] in {'\n', '\r', '\0'} then Strip(s[..|s| - 1]) else s
  }

  /** A small text file; "" when it is missing or not a file. */
  function ReadText(d: Disk, p: Path): string {
    if p !in d || !d[p].File? then ""
    else if |d[p].text| <= 256 then Strip(d[p].text)
    else Strip(d[p].text[..256])  // refused by the native reader; the other one reads its start
  }

  /** `readCfwUpdateState`. */
  function ReadState(d: Disk): string {
    if ReadText(d, State) != "" then ReadText(d, State) else ReadText(d, StateTmp)
  }

  predicate Committable(s: string) { s in {"PENDING_BOOT", "FINALIZE_BOOT_PAYLOAD", COMMIT} }

  /** `hasPendingCfwUpdateTransaction`, with a directory probe that cannot fail. */
  predicate HasPending(d: Disk) {
    || ReadState(d) != ""
    || (Ready in d && d[Ready].File? && d[Ready].text != "")
    || (Root in d && Backup in d)
  }

  /** Everything a recovery would need has been given up. */
  predicate Gone(d: Disk) { Backup !in d && New !in d && Recovery !in d && Ready !in d }

  /** Every file of the transaction but the journal is gone. */
  predicate Swept(d: Disk) {
    forall p :: p in {Backup, New, Recovery, RecoveryTmp, Ready, ReadyTmp, PayloadNext, UpdaterLive} ==> p !in d
  }

  /** The promise: the journal is unreadable only once there is nothing left to recover. */
  predicate Safe(d: Disk) { ReadState(d) == "" ==> Gone(d) }

  /** The paths have the kind the updater gives them. */
  predicate WellFormed(d: Disk) {
    forall p :: p in d ==> (d[p].Dir? <==> p in {Root, Backup, New})
  }

  /** What the next run can rely on. */
  predicate Recoverable(d: Disk) {
    && WellFormed(d)
    && (|| Committable(ReadText(d, State))
        || (State !in d && ReadText(d, StateTmp) == COMMIT)
        || (State !in d && StateTmp !in d && Gone(d)))
  }

  lemma SweptLeaves(d: Disk)
    requires Swept(d) && StateTmp !in d && State !in d
    ensures forall p :: p in d ==> p in {Root, SavedPayload}
  {
    forall p | p in d ensures p in {Root, SavedPayload} {
      match p
      case Backup => case New => case Recovery => case RecoveryTmp => case Ready => case ReadyTmp =>
      case PayloadNext => case UpdaterLive => case StateTmp => case State => case Root => case SavedPayload =>
    }
  }

  predicate SameSaved(d: Disk, e: Disk) { SavedPayload in d <==> SavedPayload in e }

  lemma RecoverableIsSafe(d: Disk)
    requires Recoverable(d)
    ensures Safe(d)
  {
  }

  lemma CommitTextIsRead(d: Disk, p: Path)
    requires p in d && d[p] == File(COMMIT + "\n")
    ensures ReadText(d, p) == COMMIT
  {
    var t := COMMIT + "\n";
    assert t[..|t| - 1] == COMMIT;
    assert Strip(COMMIT) == COMMIT;
  }

  class Console {
    const erista: bool
    var disk: Disk
    var alive: bool
    ghost var history: seq<Disk>

    ghost predicate Valid()
      reads this
    {
      && history != [] && history[|history| - 1] == disk
      && forall i :: 0 <= i < |history| ==> Recoverable(history[i])
    }

    constructor (erista: bool, disk: Disk)
      requires WellFormed(disk) && ReadText(disk, State) in {"PENDING_BOOT", "FINALIZE_BOOT_PAYLOAD", "COMMIT_IN_PROGRESS"}
      ensures Valid() && this.disk == disk
    {
      this.erista, this.disk, this.alive, this.history := erista, disk, true, [disk];
    }

    /** The power may go before any step. */
    method Write(d: Disk)
      requires Valid()
      requires alive ==> Recoverable(d)
      modifies this
      ensures Valid() && old(history) <= history
      ensures alive ==> old(alive) && disk == d
    {
      if * {
        alive := false;
      }
      if alive {
        disk := d;
        history := history + [disk];
      }
    }

    method DeleteFile(p: Path)
      requires Valid() && p !in {Root, Backup, New}
      requires alive ==> Recoverable(disk - {p})
      modifies this
      ensures Valid() && old(history) <= history
      ensures alive ==> old(alive) && disk == old(disk) - {p}
    {
      if p in disk {
        Write(disk - {p});
      }
      assert p !in old(disk) ==> old(disk) == old(disk) - {p};
    }

    method DeleteTree(p: Path)
      requires Valid() && p in {Backup, New}
      requires alive ==> ReadState(disk) == COMMIT
      modifies this
      ensures Valid() && old(history) <= history
      ensures alive ==> old(alive) && disk == old(disk) - {p}
    {
      if p !in disk {
        assert disk == disk - {p};
        return;
      }
      assert Recoverable(history[|history| - 1]);
      var n := disk[p].entries;
      ghost var d0 := disk;
      while n > 0
        invariant Valid() && old(history) <= history
        invariant alive ==> old(alive) && p in d0 && d0[p].Dir? && disk == d0[p := Dir(n)]
      {
        n := n - 1;
        assert alive ==> Recoverable(d0[p := Dir(n)]) by {
          if alive {
            RecoverableElsewhere(d0, p, n);
          }
        }
        assert alive ==> disk[p := Dir(n)] == d0[p := Dir(n)];
        Write(disk[p := Dir(n)]);
      }
      assert alive ==> disk - {p} == d0 - {p};
      if alive {
        RecoverableElsewhere(d0, p, 0);
      }
      Write(disk - {p});
    }

    /** `cfwWriteTextFileAtomic` on the journal, one step at a time. */
    method WriteCommitState()
      requires Valid()
      requires alive ==> Committable(ReadText(disk, State))
      modifies this
      ensures Valid() && old(history) <= history
      ensures alive ==> old(alive) && ReadText(disk, State) == COMMIT
      ensures alive ==> disk == old(disk)[State := File(COMMIT + "\n")] - {StateTmp}
    {
      ghost var d0 := disk;
      var text := COMMIT + "\n";
      assert Recoverable(history[|history| - 1]);
      DeleteFile(StateTmp);
      var garbage: string := *;
      Write(disk[StateTmp := File(garbage)]);  // created, contents undefined
      Write(disk[StateTmp := File(text)]);     // written and flushed
      if alive {
        CommitTextIsRead(disk, StateTmp);
        CommitTextIsRead(disk - {State}, StateTmp);
      }
      DeleteFile(State);
      assert alive ==> disk[State := File(text)] - {StateTmp} == d0[State := File(text)] - {StateTmp};
      if alive {
        CommitTextIsRead(d0[State := File(text)] - {StateTmp}, State);
      }
      Write(disk[State := File(text)] - {StateTmp});  // renamed
    }

    /** One file that goes while the journal still says COMMIT_IN_PROGRESS. */
    method CleanupFile(p: Path)
      requires Valid() && p !in {Root, Backup, New, State, StateTmp}
      requires alive ==> ReadState(disk) == COMMIT
      modifies this
      ensures Valid() && old(history) <= history
      ensures alive ==> old(alive) && disk == old(disk) - {p} && ReadState(disk) == COMMIT
    {
      assert Recoverable(history[|history| - 1]);
      DeleteFile(p);
    }

    /** Everything that goes before the journal. */
    method CleanupBeforeState()
      requires Valid()
      requires alive ==> ReadState(disk) == COMMIT
      modifies this
      ensures Valid() && old(history) <= history
      ensures alive ==> old(alive) && ReadState(disk) == COMMIT && Swept(disk) && SameSaved(old(disk), disk)
    {
      DeleteTree(Backup);
      DeleteTree(New);
      CleanupFiles();
    }

    /** The files among them, in the order of the code. */
    method CleanupFiles()
      requires Valid()
      requires alive ==> ReadState(disk) == COMMIT && Backup !in disk && New !in disk
      modifies this
      ensures Valid() && old(history) <= history
      ensures alive ==> old(alive) && ReadState(disk) == COMMIT && Swept(disk) && SameSaved(old(disk), disk)
    {
      CleanupFile(Recovery);
      CleanupFile(RecoveryTmp);
      CleanupFile(Ready);
      CleanupLastFiles();
    }

    method CleanupLastFiles()
      requires Valid()
      requires alive ==> ReadState(disk) == COMMIT && Backup !in disk && New !in disk
      requires alive ==> Recovery !in disk && RecoveryTmp !in disk && Ready !in disk
      modifies this
      ensures Valid() && old(history) <= history
      ensures alive ==> old(alive) && ReadState(disk) == COMMIT && Swept(disk) && SameSaved(old(disk), disk)
    {
      CleanupFile(ReadyTmp);
      CleanupFile(PayloadNext);
      CleanupFile(UpdaterLive);
    }

    method CommitCleanup()
      requires Valid()
      requires alive ==> ReadState(disk) == COMMIT
      modifies this
      ensures Valid() && old(history) <= history
      ensures alive ==> old(alive) && !HasPending(disk) && Swept(disk)
      ensures alive ==> StateTmp !in disk && State !in disk && Root !in disk
      ensures alive ==> SameSaved(old(disk), disk)
    {
      CleanupBeforeState();
      assert Recoverable(history[|history| - 1]);
      DeleteFile(StateTmp);
      DeleteFile(State);
      DeleteRoot();
    }

    /** Only an empty root directory can be deleted; whether it can is ignored. */
    method DeleteRoot()
      requires Valid()
      requires alive ==> Swept(disk) && StateTmp !in disk && State !in disk
      modifies this
      ensures Valid() && old(history) <= history
      ensures alive ==> old(alive) && disk == old(disk) - {Root}
    {
      if alive {
        SweptLeaves(disk);
      }
      if alive && forall p :: p in disk ==> p in {Root, SavedPayload} {
        Write(disk - {Root});
      }
    }

    /** `finalizeCfwUpdateAfterSuccessfulBoot`, on a disk any number of interrupted runs have left. */
    method Finalize()
      requires Valid()
      modifies this
      ensures Valid() && old(history) <= history
      ensures alive ==> !HasPending(disk) && Gone(disk)
      ensures alive && ReadState(old(disk)) in {"PENDING_BOOT", "FINALIZE_BOOT_PAYLOAD", "COMMIT_IN_PROGRESS"} ==>
                && Swept(disk) && State !in disk && StateTmp !in disk && Root !in disk
                && (SavedPayload in disk <==> erista && SavedPayload in old(disk))
      ensures alive && ReadState(old(disk)) !in {"PENDING_BOOT", "FINALIZE_BOOT_PAYLOAD", "COMMIT_IN_PROGRESS"} ==>
                disk == old(disk)
    {
      alive := true;
      assert Recoverable(history[|history| - 1]);
      var state := ReadState(disk);
      if !Committable(state) {
        return;
      }
      if state != COMMIT {
        WriteCommitState();
      }
      if !erista {
        CleanupFile(SavedPayload);
      }
      CommitCleanup();
    }

    /** Any number of runs, each of which may lose power anywhere. */
    method Runs(n: nat)
      requires Valid()
      modifies this
      ensures Valid() && old(history) <= history
      ensures forall i :: 0 <= i < |history| ==> Safe(history[i])
      ensures alive && n > 0 ==> !HasPending(disk) && ReadState(disk) == "" && Ready !in disk && Backup !in disk
    {
      for i := 0 to n
        invariant Valid() && old(history) <= history && (alive && i > 0 ==> !HasPending(disk) && Gone(disk))
      {
        Finalize();
      }
      forall i | 0 <= i < |history| ensures Safe(history[i]) {
        RecoverableIsSafe(history[i]);
      }
    }
  }

  /** Emptying or deleting a staged directory does not touch the journal. */
  lemma RecoverableElsewhere(d: Disk, p: Path, n: nat)
    requires Recoverable(d) && p in {Backup, New} && p in d
    requires ReadState(d) == COMMIT
    ensures Recoverable(d[p := Dir(n)]) && Recoverable(d - {p})
    ensures ReadState(d[p := Dir(n)]) == ReadState(d - {p}) == COMMIT
  {
  }

  // ----- Failing operations -----

  /** How the replacement of the journal can end when its operations may fail. */
  datatype WriteEnd =
    | NotWritten                        // the temporary file could not be made
    | NotDeleted                        // the old journal could not be deleted, so it stays
    | RenameFailed(tmpDeleted: bool)    // the old journal is gone and the new one not in its place
    | Replaced

  function AfterWrite(d: Disk, end: WriteEnd): Disk {
    match end
    case NotWritten => d - {StateTmp}
    case NotDeleted => d - {StateTmp}
    case RenameFailed(true) => d - {State, StateTmp}
    case RenameFailed(false) => d[StateTmp := File(COMMIT + "\n")] - {State}
    case Replaced => d[State := File(COMMIT + "\n")] - {StateTmp}
  }

  /** The write keeps the promise exactly unless the rename fails after the deletion, with something to recover. */
  lemma WriteKeepsSafeIff(d: Disk, end: WriteEnd)
    requires Committable(ReadText(d, State))
    ensures Safe(AfterWrite(d, end)) <==> end != RenameFailed(true) || Gone(d)
  {
    match end
    case NotWritten =>
    case NotDeleted =>
    case RenameFailed(tmpDeleted) =>
      if !tmpDeleted {
        CommitTextIsRead(AfterWrite(d, end), StateTmp);
      }
    case Replaced => CommitTextIsRead(AfterWrite(d, end), State);
  }

  /** A backup and a pending boot: after such a rename nothing tells of the backup any more. */
  lemma LostBackup()
    ensures var d: Disk := map[Root := Dir(2), Backup := Dir(1), State := File("PENDING_BOOT\n")];
            WellFormed(d) && Safe(d) && !Safe(AfterWrite(d, RenameFailed(true)))
  {
    var d: Disk := map[Root := Dir(2), Backup := Dir(1), State := File("PENDING_BOOT\n")];
    var t := "PENDING_BOOT\n";
    assert t[..|t| - 1] == "PENDING_BOOT";
    assert Strip("PENDING_BOOT") == "PENDING_BOOT";
    WriteKeepsSafeIff(d, RenameFailed(true));
  }

  /** One path of the cleanup; a failed deletion ends it, perhaps with a directory half emptied. */
  method TryDelete(d: Disk, p: Path) returns (ok: bool, e: Disk)
    requires WellFormed(d) && ReadText(d, State) == COMMIT && p !in {State, Root}
    ensures WellFormed(e) && ReadText(e, State) == COMMIT
    ensures e.Keys <= d.Keys && (ok ==> p !in e)
  {
    ok := *;
    e := if ok then d - {p} else d;
    if !ok && p in d && d[p].Dir? {
      var left: nat := *;
      e := d[p := Dir(left)];
    }
  }

  /** The cleanup with deletions that may fail. */
  method FaultyCleanup(d: Disk) returns (e: Disk)
    requires WellFormed(d) && ReadText(d, State) == COMMIT
    ensures Safe(e)
  {
    e := d;
    var order := [Backup, New, Recovery, RecoveryTmp, Ready, ReadyTmp, PayloadNext, UpdaterLive, StateTmp];
    for i := 0 to |order|
      invariant WellFormed(e) && ReadText(e, State) == COMMIT && forall j :: 0 <= j < i ==> order[j] !in e
    {
      var ok;
      ok, e := TryDelete(e, order[i]);
      if !ok {
        return;
      }
    }
    assert order[0] == Backup && order[1] == New && order[2] == Recovery && order[4] == Ready;
    var last: bool := *;
    if last {
      e := e - {State};
    }
  }

  /** A finalization in which any operation may fail, and the journal write ends as given. */
  method FaultyFinalize(d: Disk, erista: bool, end: WriteEnd) returns (e: Disk)
    requires WellFormed(d) && Committable(ReadText(d, State))
    ensures Safe(e) <==> ReadText(d, State) == COMMIT || end != RenameFailed(true) || Gone(d)
  {
    e := d;
    if ReadState(d) != COMMIT {
      e := AfterWrite(d, end);
      WriteKeepsSafeIff(d, end);
      if end != Replaced {
        return;
      }
      CommitTextIsRead(e, State);
    }
    if !erista {
      var _, f := TryDelete(e, SavedPayload);
      e := f;
    }
    e := FaultyCleanup(e);
  }
}
