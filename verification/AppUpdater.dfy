/**
  The payload-side application updater: a journaled replacement of one NRO.

  Two fault models share one program.  With `faulty == false` power may be lost before any single
  disk step (`alive` becomes false and nothing that follows can touch the disk any more), but every
  step that is carried out succeeds.  With `faulty == true` power stays on, but any operation may
  report failure and a copy may leave anything behind in its destination.
 */
module AppUpdater {
  import opened Bytes

  datatype Path =
    | Root | Ready | State | StateTmp | NewDir | NewNro | BackupDir | BackupNro
    | Target | Payload | SavedPayload

  /** The journal entry; any text that is none of the eight known states is Unknown. */
  datatype Phase =
    | Staged | BackupInProgress | BackupComplete | CopyInProgress | CopyComplete
    | RollbackInProgress | RollbackComplete | CommitInProgress | Unknown(text: string)

  datatype Node = Dir | Data(bytes: Bytes) | Journal(phase: Phase)

  type Disk = map<Path, Node>

  /** What the console held when the update was staged, and the fault model. */
  datatype Setup = Setup(oldNro: Bytes, newNro: Bytes, boot: Bytes, patched: bool, faulty: bool) {
    ghost predicate Valid() { oldNro != [] && newNro != [] && boot != [] }
  }

  predicate Has(d: Disk, p: Path, b: Bytes) { p in d && d[p] == Data(b) }

  predicate Nonempty(d: Disk, p: Path) { p in d && d[p].Data? && d[p].bytes != [] }

  /** The path itself and everything below it. */
  function Subtree(p: Path): set<Path> {
    match p
    case Root => {Root, Ready, State, StateTmp, NewDir, NewNro, BackupDir, BackupNro}
    case NewDir => {NewDir, NewNro}
    case BackupDir => {BackupDir, BackupNro}
    case _ => {p}
  }

  /** `aio_app_update_pending`. */
  predicate Pending(d: Disk) { Ready in d || State in d || StateTmp in d || BackupDir in d }

  function JournalOf(d: Disk): Option<Phase> {
    if State in d && d[State].Journal? then Some(d[State].phase)
    else if StateTmp in d && d[StateTmp].Journal? then Some(d[StateTmp].phase)
    else None
  }

  /** One of the two applications. */
  predicate Good(c: Setup, d: Disk, p: Path) { Has(d, p, c.oldNro) || Has(d, p, c.newNro) }

  predicate OldOrNew(c: Setup, d: Disk) { Good(c, d, Target) }

  /** A backup the application can be restored from. */
  predicate Trusted(c: Setup, d: Disk) { if c.faulty then Has(d, BackupNro, c.oldNro) else Good(c, d, BackupNro) }

  /** The next run restores the backup. */
  predicate LeadsBack(d: Disk) {
    var j := JournalOf(d);
    j.Some? && (j.value.CopyInProgress? || j.value.RollbackInProgress? || j.value.Unknown?)
  }

  /** The promise about the application: never lost. */
  predicate AppSafe(c: Setup, d: Disk) { OldOrNew(c, d) || (Trusted(c, d) && (c.faulty || LeadsBack(d))) }

  /** The promise about the boot payload of a patched console. */
  predicate PayloadSafe(c: Setup, d: Disk) {
    c.patched ==>
      && (Pending(d) ==> Has(d, SavedPayload, c.boot))
      && (SavedPayload !in d ==> Has(d, Payload, c.boot))
  }

  predicate Safe(c: Setup, d: Disk) { AppSafe(c, d) && PayloadSafe(c, d) }

  /** A patched console still has its saved boot payload. */
  predicate SavedKept(c: Setup, d: Disk) { c.patched ==> Has(d, SavedPayload, c.boot) }

  /** What staging leaves behind. */
  predicate Fresh(c: Setup, d: Disk) {
    && Ready in d && State !in d && StateTmp !in d && BackupDir !in d && BackupNro !in d
    && Has(d, NewNro, c.newNro) && Has(d, Target, c.oldNro)
    && (c.patched ==> Has(d, SavedPayload, c.boot))
  }

  /**
    A damaged target, a good backup, and no journal to tell of it: STATE is gone and STATE_TMP is gone or
    still empty, while READY would make the next run start afresh.
   */
  predicate Orphaned(c: Setup, d: Disk) {
    && State !in d && (StateTmp in d ==> d[StateTmp] == Data([])) && Ready in d && SavedKept(c, d)
    && BackupDir in d && Good(c, d, BackupNro) && !OldOrNew(c, d)
  }

  predicate Active(c: Setup, d: Disk) { Ready in d && Has(d, NewNro, c.newNro) }

  /** The staged file is intact or gone. */
  predicate NewFine(c: Setup, d: Disk) { Has(d, NewNro, c.newNro) || !Nonempty(d, NewNro) }

  /** A run that rolls back from here does no harm, and neither does one that starts afresh on a good target. */
  predicate Resumable(c: Setup, d: Disk) {
    || (Good(c, d, BackupNro) && Active(c, d))
    || (!Nonempty(d, BackupNro) && NewFine(c, d) && OldOrNew(c, d))
  }

  /** What the next run can rely on when it reads j. */
  predicate Consistent(c: Setup, d: Disk, j: Option<Phase>) {
    match j
    case None => OldOrNew(c, d) && (Resumable(c, d) || !Pending(d))
    case Some(s) =>
      match s
      case Staged => OldOrNew(c, d) && Resumable(c, d) && (Ready in d || !Nonempty(d, NewNro))
      case BackupInProgress => OldOrNew(c, d) && Active(c, d)
      case BackupComplete => OldOrNew(c, d) && Active(c, d) && BackupNro in d && d[BackupNro] == d[Target]
      case CopyInProgress => Good(c, d, BackupNro) && Active(c, d)
      case CopyComplete => Has(d, Target, c.newNro) && Good(c, d, BackupNro) && Active(c, d)
      case RollbackInProgress => Resumable(c, d)
      case RollbackComplete => OldOrNew(c, d)
      case CommitInProgress => OldOrNew(c, d)
      case Unknown(_) => Resumable(c, d)
  }

  /** The two journal files hold entries, or STATE_TMP is still empty. */
  predicate JournalFiles(d: Disk) {
    (State in d ==> d[State].Journal?) && (StateTmp in d ==> d[StateTmp].Journal? || d[StateTmp] == Data([]))
  }

  /** Safe, and the next run can rely on the journal. */
  predicate Sound(c: Setup, d: Disk) {
    && Safe(c, d) && (BackupNro in d ==> BackupDir in d)
    && (!c.faulty ==> JournalFiles(d) && Consistent(c, d, JournalOf(d)))
  }

  /** What every disk state ever written must satisfy. */
  predicate Allowed(c: Setup, d: Disk) {
    Sound(c, d) || (!c.faulty && Orphaned(c, d) && Has(d, NewNro, c.newNro))
  }

  ghost predicate AllAllowed(c: Setup, ds: seq<Disk>) {
    ds == [] || (Allowed(c, ds[|ds| - 1]) && AllAllowed(c, ds[..|ds| - 1]))
  }

  ghost predicate SameExcept(d: Disk, e: Disk, ps: set<Path>) {
    forall p :: p !in ps ==> (p in d <==> p in e) && (p in d ==> d[p] == e[p])
  }

  /** Some of `ps` has gone; nothing else has changed. */
  ghost predicate Shrunk(d: Disk, e: Disk, ps: set<Path>) { SameExcept(d, e, ps) && e.Keys <= d.Keys }

  /** No marker is left, and the application is intact. */
  predicate Unmarked(c: Setup, d: Disk) { !Pending(d) && OldOrNew(c, d) }

  /** Nothing of the update is left but a good application, and payload.bin as it was. */
  predicate Finished(c: Setup, d: Disk) {
    && OldOrNew(c, d)
    && Ready !in d && State !in d && StateTmp !in d && BackupDir !in d && Root !in d
    && (c.patched ==> SavedPayload !in d && Has(d, Payload, c.boot))
  }

  /** The file an uninterrupted run leaves as TARGET. */
  function Winner(d: Disk): Path {
    match JournalOf(d)
    case None => if Ready in d && Nonempty(d, NewNro) then NewNro else Target
    case Some(Staged) => if Nonempty(d, NewNro) then NewNro else Target
    case Some(BackupInProgress) => NewNro
    case Some(BackupComplete) => NewNro
    case Some(CopyInProgress) => BackupNro
    case Some(RollbackInProgress) => if Nonempty(d, BackupNro) then BackupNro else Target
    case Some(Unknown(_)) => if Nonempty(d, BackupNro) then BackupNro else Target
    case _ => Target
  }

  /** A rollback without a backup: the run reports an error and waits for the power to be switched off. */
  predicate Stuck(d: Disk) {
    && JournalOf(d).Some? && !Nonempty(d, BackupNro)
    && (JournalOf(d).value.RollbackInProgress? || (JournalOf(d).value.Unknown? && !Nonempty(d, NewNro)))
  }

  /** How a run ends in which at most one operation has failed: COMMIT_IN_PROGRESS decides. */
  predicate Settles(c: Setup, d: Disk, entries: seq<Phase>) {
    if CommitInProgress in entries then Has(d, Target, c.newNro) && (Pending(d) ==> JournalOf(d) == Some(CommitInProgress))
    else Has(d, Target, c.oldNro) && Finished(c, d)
  }

  /** STATE is the same on both. */
  predicate SameState(d: Disk, e: Disk) { (State in d <==> State in e) && (State in d ==> d[State] == e[State]) }

  predicate Becomes(d: Disk, p: Path, e: Disk) { p in d && Target in e && e[Target] == d[p] }

  /** The backup equals the target. */
  predicate BackedUpAs(d: Disk) { Target in d && BackupNro in d && d[BackupNro] == d[Target] }

  /** The target may be overwritten. */
  predicate Replaceable(c: Setup, d: Disk) { OldOrNew(c, d) && BackedUpAs(d) && (c.faulty ==> Has(d, Target, c.oldNro)) }

  /** ROLLBACK_IN_PROGRESS may be written. */
  predicate CanRollBack(c: Setup, d: Disk) {
    if c.faulty then Has(d, BackupNro, c.oldNro) else JournalOf(d).Some? && Resumable(c, d)
  }

  predicate SameTarget(d: Disk, e: Disk) { Target in d && Target in e && d[Target] == e[Target] }

  /** Whatever a copy leaves in `dst`, the state is allowed. */
  ghost predicate Overwritable(c: Setup, d: Disk, dst: Path) {
    forall g: Bytes {:trigger Data(g)} :: Allowed(c, d[dst := Data(g)])
  }

  /** Whatever part of a deletion has been carried out, the state is allowed. */
  ghost predicate Removable(c: Setup, d: Disk, p: Path) {
    forall gone: set<Path> {:trigger d - gone} ::
      gone <= Subtree(p) && (p in gone ==> gone == Subtree(p)) ==> Allowed(c, d - gone)
  }

  /** Where a run may restore payload.bin and clean up. */
  predicate Ending(c: Setup, d: Disk) {
    match JournalOf(d)
    case Some(RollbackComplete) => true
    case Some(CommitInProgress) => true
    case Some(Staged) => !Nonempty(d, BackupNro) && !Nonempty(d, NewNro)
    case Some(Unknown(_)) => !Nonempty(d, BackupNro) && NewFine(c, d)
    case None => !Pending(d) || (!Nonempty(d, BackupNro) && NewFine(c, d))
    case _ => false
  }

  /** The application is settled and, on a patched console, payload.bin is restored. */
  predicate Settled(c: Setup, d: Disk) {
    && OldOrNew(c, d)
    && (c.patched ==> Has(d, Payload, c.boot))
    && SavedKept(c, d)
    && (!c.faulty ==> Ending(c, d))
  }

  /** Everything but the journal may go in any order ... */
  lemma SettledRemovable(c: Setup, d: Disk, p: Path)
    requires Allowed(c, d) && Settled(c, d)
    requires p in {NewDir, BackupDir, Ready}
    ensures Removable(c, d, p)
  {
    forall gone: set<Path> | gone <= Subtree(p) && (p in gone ==> gone == Subtree(p))
      ensures Allowed(c, d - gone)
    {
      assert JournalOf(d - gone) == JournalOf(d);
    }
  }

  /** ... the journal goes only when no other marker is left, STATE_TMP first ... */
  lemma JournalRemovable(c: Setup, d: Disk, p: Path)
    requires Allowed(c, d) && Settled(c, d) && p in {State, StateTmp}
    requires c.faulty || (Ready !in d && BackupDir !in d && (p == State ==> StateTmp !in d))
    ensures Removable(c, d, p)
  {
    forall gone: set<Path> | gone <= Subtree(p) && (p in gone ==> gone == Subtree(p))
      ensures Allowed(c, d - gone)
    {
      assert gone == {} || gone == {p};
      assert d - {} == d;
    }
  }

  /** ... and what follows it is free. */
  lemma RestRemovable(c: Setup, d: Disk, p: Path)
    requires Allowed(c, d) && Unmarked(c, d)
    requires p in {Root, SavedPayload} && (c.patched ==> Has(d, Payload, c.boot))
    ensures Removable(c, d, p)
  {
  }

  /**
    Whatever a write of s does to the journal files, as long as nothing, the old entry, a part of the new
    one or the new one can be read.
   */
  lemma JournalMayChange(c: Setup, d: Disk, s: Phase, e: Disk)
    requires CanEnter(c, d, s) && SameExcept(d, e, {Root, State, StateTmp})
    requires !c.faulty ==>
               && JournalFiles(e)
               && (JournalOf(e) in {None, Some(s), JournalOf(d)} || JournalOf(e).value.Unknown?)
               && (JournalOf(e).None? ==> State !in e && (StateTmp in e ==> e[StateTmp] == Data([])))
    ensures Allowed(c, e)
  {
    if !c.faulty {
      SameFiles(c, d, e);
    }
  }

  lemma SameFiles(c: Setup, d: Disk, e: Disk)
    requires SameExcept(d, e, {Root, State, StateTmp})
    ensures OldOrNew(c, d) == OldOrNew(c, e) && Resumable(c, d) == Resumable(c, e) && SavedKept(c, d) == SavedKept(c, e)
    ensures forall s :: Consistent(c, d, Some(s)) == Consistent(c, e, Some(s))
    ensures Good(c, d, BackupNro) == Good(c, e, BackupNro) && (Ready in d <==> Ready in e)
  {
  }

  /** The entry s may be written. */
  predicate CanEnter(c: Setup, d: Disk, s: Phase) {
    Sound(c, d) && SavedKept(c, d) && (!c.faulty ==> Resumable(c, d) && Consistent(c, d, Some(s)))
  }

  lemma TmpMayGo(c: Setup, d: Disk, s: Phase, e: Disk)
    requires CanEnter(c, d, s) && SameExcept(d, e, {Root, State, StateTmp}) && Allowed(c, e)
    requires !c.faulty ==> e == Made(d, Root)
    ensures Removable(c, e, StateTmp)
  {
    JournalMayChange(c, d, s, e - {StateTmp});
    forall gone: set<Path> | gone <= Subtree(StateTmp) ensures Allowed(c, e - gone) {
      assert e - {} == e && (gone == {} || gone == {StateTmp});
    }
  }

  lemma StateMayGo(c: Setup, d: Disk, s: Phase, e: Disk)
    requires CanEnter(c, d, s) && SameExcept(d, e, {Root, State, StateTmp}) && Allowed(c, e)
    requires StateTmp in e && e[StateTmp] == Journal(s)
    ensures Removable(c, e, State)
  {
    JournalMayChange(c, d, s, e - {State});
    forall gone: set<Path> | gone <= Subtree(State) ensures Allowed(c, e - gone) {
      assert e - {} == e && (gone == {} || gone == {State});
    }
  }

  // ----- A run in which nothing fails and power stays -----

  predicate SizesMatch(d: Disk, a: Path, b: Path) {
    Nonempty(d, a) && Nonempty(d, b) && |d[a].bytes| == |d[b].bytes|
  }

  function Made(d: Disk, p: Path): Disk { if p in d then d else d[p := Dir] }

  function Without(d: Disk, p: Path): Disk { if p in d then d - Subtree(p) else d }

  function Copied(d: Disk, src: Path, dst: Path): Disk { if Nonempty(d, src) then d[dst := d[src]] else d }

  function Written(d: Disk, s: Phase): Disk { Made(d, Root)[State := Journal(s)] - {StateTmp} }

  function FilesCleaned(d: Disk): Disk { Without(Without(Without(Without(d, NewDir), BackupDir), Ready), StateTmp) }

  function RestCleaned(c: Setup, d: Disk): Disk {
    if c.patched then Without(Without(d, Root), SavedPayload) else Without(d, Root)
  }

  function Cleaned(c: Setup, d: Disk): Disk { RestCleaned(c, Without(FilesCleaned(d), State)) }

  /** Restore payload.bin, then clean up; without a saved payload the run stops there. */
  function Ended(c: Setup, d: Disk): Disk {
    if !c.patched then Cleaned(c, d)
    else if Nonempty(d, SavedPayload) then Cleaned(c, Copied(d, SavedPayload, Payload))
    else d
  }

  function RolledBack(c: Setup, d: Disk): Disk {
    var e := Written(d, RollbackInProgress);
    if Nonempty(e, BackupNro) then Ended(c, Written(Copied(e, BackupNro, Target), RollbackComplete)) else e
  }

  function Committed(c: Setup, d: Disk): Disk { Ended(c, Written(d, CommitInProgress)) }

  /** From BACKUP_COMPLETE. */
  function Replaced(c: Setup, d: Disk): Disk {
    var e := Written(d, CopyInProgress);
    if !SizesMatch(d, BackupNro, Target) then RolledBack(c, d)
    else if Nonempty(e, NewNro) then Committed(c, Written(Copied(e, NewNro, Target), CopyComplete))
    else RolledBack(c, e)
  }

  function BackedUp(d: Disk): Disk { Copied(Without(Made(d, BackupDir), BackupNro), Target, BackupNro) }

  /** From STAGED, BACKUP_IN_PROGRESS, BACKUP_COMPLETE or an unknown entry. */
  function Installed(c: Setup, d: Disk, s: Phase): Disk {
    if !Nonempty(d, NewNro) then (if s == Staged then Ended(c, d) else RolledBack(c, d))
    else if !Nonempty(d, Target) then (if Nonempty(d, BackupNro) then RolledBack(c, d) else Ended(c, d))
    else match s
      case Staged => Replaced(c, Written(BackedUp(Written(d, BackupInProgress)), BackupComplete))
      case BackupInProgress => Replaced(c, Written(BackedUp(d), BackupComplete))
      case BackupComplete => Replaced(c, d)
      case _ => if Nonempty(d, BackupNro) then RolledBack(c, d) else Ended(c, d)
  }

  /** What a whole run makes of any disk. */
  function RunResult(c: Setup, d: Disk): Disk {
    match JournalOf(d)
    case None =>
      if Ready in d then Installed(c, Written(d, Staged), Staged)
      else if Nonempty(d, BackupNro) then RolledBack(c, d)
      else Ended(c, d)
    case Some(CommitInProgress) => Ended(c, d)
    case Some(RollbackComplete) => Ended(c, d)
    case Some(RollbackInProgress) => RolledBack(c, d)
    case Some(CopyInProgress) => RolledBack(c, d)
    case Some(CopyComplete) => Committed(c, d)
    case Some(s) => Installed(c, d, s)
  }

  class Console {
    const c: Setup
    var disk: Disk
    var alive: bool
    var left: nat  // how many operations may still fail
    ghost var history: seq<Disk>  // every state the disk has been in, oldest first
    ghost var entries: seq<Phase>  // the journal entries that have been written, oldest first

    ghost predicate Valid()
      reads this
    {
      Intact() && (!c.faulty ==> left == 0)
    }

    ghost predicate Intact()
      reads this`disk, this`alive, this`history
    {
      && c.Valid()
      && (c.faulty ==> alive)
      && history != [] && history[|history| - 1] == disk && Allowed(c, disk)
      && AllAllowed(c, history)
    }

    constructor (c: Setup, disk: Disk, left: nat)
      requires c.Valid() && Fresh(c, disk) && (!c.faulty ==> left == 0)
      ensures Valid() && alive && this.c == c && this.disk == disk && this.left == left && entries == []
    {
      this.c, this.disk, this.alive, this.left := c, disk, true, left;
      history, entries := [disk], [];
    }

    // ----- Single disk steps -----

    /** Power may go before any step. */
    method Tick()
      requires Valid()
      modifies this`alive
      ensures Valid() && (alive ==> old(alive))
    {
      if * {
        alive := alive && c.faulty;
      }
    }

    method Put(p: Path, n: Node)
      requires Valid()
      requires alive ==> Allowed(c, disk[p := n])
      modifies this`disk, this`alive, this`history
      ensures Valid() && old(history) <= history
      ensures alive ==> old(alive) && disk == old(disk)[p := n]
    {
      Tick();
      if alive {
        disk := disk[p := n];
        history := history + [disk];
        assert history[..|history| - 1] == old(history);
      }
    }

    method Unlink(p: Path)
      requires Valid()
      requires alive ==> Allowed(c, disk - {p})
      modifies this`disk, this`alive, this`history
      ensures Valid() && old(history) <= history
      ensures alive ==> old(alive) && disk == old(disk) - {p}
    {
      Tick();
      if alive {
        disk := disk - {p};
        history := history + [disk];
        assert history[..|history| - 1] == old(history);
      }
    }

    method Rename(p: Path, q: Path)
      requires Valid()
      requires alive ==> p in disk && Allowed(c, disk[q := disk[p]] - {p})
      modifies this`disk, this`alive, this`history
      ensures Valid() && old(history) <= history
      ensures alive ==> old(alive) && p in old(disk) && disk == old(disk)[q := old(disk)[p]] - {p}
    {
      Tick();
      if alive {
        disk := disk[q := disk[p]] - {p};
        history := history + [disk];
        assert history[..|history| - 1] == old(history);
      }
    }

    /** Does an operation report failure here?  Only ever in the faulty model, and `left` times. */
    method Fails() returns (f: bool)
      requires Valid()
      modifies this`left
      ensures Valid() && (f ==> c.faulty)
      ensures old(left) == if f then left + 1 else left
    {
      f := *;
      f := f && c.faulty && left > 0;
      if f {
        left := left - 1;
      }
    }

    /** What an interrupted or failing copy may leave in its destination. */
    method Garbage() returns (g: Bytes) {
      g := *;
    }

    /** A part of a journal entry. */
    method Part() returns (text: string)
      ensures text != ""
    {
      text := *;
      text := if text == "" then "?" else text;
    }

    // ----- File operations of the updater -----

    method PathExists(p: Path) returns (b: bool)
      requires Valid()
      modifies this`left
      ensures Valid() && left <= old(left)
      ensures b ==> p in disk
      ensures b == (p in disk) || left < old(left)
    {
      var f := Fails();
      b := !f && p in disk;
    }

    method ValidNonemptyFile(p: Path) returns (ok: bool)
      requires Valid()
      modifies this`left
      ensures Valid() && left <= old(left)
      ensures ok ==> Nonempty(disk, p)
      ensures ok == Nonempty(disk, p) || left < old(left)
    {
      var f := Fails();
      ok := !f && p in disk && disk[p].Data? && |disk[p].bytes| > 0;
    }

    method FileSizesMatch(a: Path, b: Path) returns (ok: bool)
      requires Valid()
      modifies this`left
      ensures Valid() && left <= old(left)
      ensures ok ==> Nonempty(disk, a) && Nonempty(disk, b) && |disk[a].bytes| == |disk[b].bytes|
      ensures Nonempty(disk, a) && Nonempty(disk, b) && disk[a] == disk[b] ==> ok || left < old(left)
    {
      ok := ValidNonemptyFile(a);
      if ok {
        ok := ValidNonemptyFile(b);
      }
      ok := ok && |disk[a].bytes| == |disk[b].bytes|;
    }

    /** Compares two files 4096 bytes at a time; any read may fail. */
    method FileContentsMatch(a: Path, b: Path) returns (same: bool)
      requires Valid()
      modifies this`left
      ensures Valid() && left <= old(left)
      ensures same ==> a in disk && b in disk && disk[a].Data? && disk[a] == disk[b]
      ensures a in disk && b in disk && disk[a].Data? && disk[a] == disk[b] ==> same || left < old(left)
    {
      var f := Fails();
      if f || a !in disk || b !in disk || !disk[a].Data? || !disk[b].Data? {
        return false;
      }
      var first, second := disk[a].bytes, disk[b].bytes;
      same := |first| == |second|;
      var pos := 0;
      while same && pos < |first|
        invariant 0 <= pos <= |first| && Valid() && left <= old(left)
        invariant same ==> |first| == |second| && first[..pos] == second[..pos]
        invariant first == second ==> same || left < old(left)
        decreases same, |first| - pos
      {
        var size := if |first| - pos > 4096 then 4096 else |first| - pos;
        var failed := Fails();
        if failed || first[pos..pos + size] != second[pos..pos + size] {
          same := false;
        } else {
          assert first[..pos + size] == first[..pos] + first[pos..pos + size];
          assert second[..pos + size] == second[..pos] + second[pos..pos + size];
          pos := pos + size;
        }
      }
      if same {
        assert first == first[..pos] && second == second[..pos];
      }
      var closeFailed := Fails();
      same := same && !closeFailed;
    }

    method FileCopy(src: Path, dst: Path) returns (ok: bool)
      requires Valid() && src != dst
      requires alive ==> Overwritable(c, disk, dst)
      modifies this`disk, this`alive, this`left, this`history
      ensures Valid() && old(history) <= history && left <= old(left)
      ensures alive ==> old(alive)
      ensures alive ==> disk == old(disk) || exists g :: disk == old(disk)[dst := Data(g)]
      ensures alive && left == old(left) && src in old(disk) && old(disk)[src].Data? ==>
                ok && disk == old(disk)[dst := old(disk)[src]]
    {
      var f := Fails();
      if f || src !in disk || !disk[src].Data? {
        return false;
      }
      var content := disk[src];
      var garbage := Garbage();
      assert alive ==> Allowed(c, disk[dst := Data(garbage)]);
      assert alive ==> Allowed(c, disk[dst := Data(content.bytes)]);
      Put(dst, Data(garbage));
      f := Fails();
      if f {
        ok := *;  // a failing copy may even claim success
        return;
      }
      assert alive ==> disk[dst := content] == old(disk)[dst := content];
      Put(dst, content);
      ok := true;
    }

    method CopyVerified(src: Path, dst: Path) returns (ok: bool)
      requires Valid() && src != dst
      requires alive ==> Overwritable(c, disk, dst)
      modifies this`disk, this`alive, this`left, this`history
      ensures Valid() && old(history) <= history && left <= old(left)
      ensures alive ==> old(alive)
      ensures alive ==> disk == old(disk) || exists g :: disk == old(disk)[dst := Data(g)]
      ensures alive && ok ==> Nonempty(old(disk), src) && disk == old(disk)[dst := old(disk)[src]]
      ensures alive && left == old(left) && Nonempty(old(disk), src) ==> ok
      ensures alive && left == old(left) ==> ok == Nonempty(old(disk), src) && disk == Copied(old(disk), src, dst)
    {
      ok := ValidNonemptyFile(src);
      if !ok {
        return;
      }
      ok := FileCopy(src, dst);
      if ok {
        ok := FilesMatch(src, dst);
      }
    }

    /** The check of a copy: sizes, then contents. */
    method FilesMatch(a: Path, b: Path) returns (same: bool)
      requires Valid()
      modifies this`left
      ensures Valid() && left <= old(left)
      ensures same ==> Nonempty(disk, a) && b in disk && disk[a] == disk[b]
      ensures Nonempty(disk, a) && b in disk && disk[a] == disk[b] ==> same || left < old(left)
    {
      same := FileSizesMatch(a, b);
      if same {
        same := FileContentsMatch(a, b);
      }
    }

    /** Everything inside a directory goes, in any order. */
    method RemoveInside(p: Path) returns (ok: bool)
      requires Valid()
      requires alive ==> Removable(c, disk, p)
      modifies this`disk, this`alive, this`left, this`history
      ensures Valid() && old(history) <= history && left <= old(left)
      ensures alive ==> old(alive) && Shrunk(old(disk), disk, Subtree(p) - {p})
      ensures alive && ok ==> disk == old(disk) - (Subtree(p) - {p})
      ensures alive ==> ok || left < old(left)
    {
      ghost var gone: set<Path> := {};
      assert disk == disk - gone;
      var todo := Subtree(p) - {p};
      while todo != {}
        invariant Valid() && old(history) <= history && left <= old(left)
        invariant todo <= Subtree(p) - {p} && gone == Subtree(p) - {p} - todo
        invariant alive ==> old(alive) && disk == old(disk) - gone
        decreases todo
      {
        var f := Fails();
        if f {
          return false;
        }
        var q :| q in todo;
        assert old(disk) - gone - {q} == old(disk) - (gone + {q});
        Unlink(q);
        gone, todo := gone + {q}, todo - {q};
      }
      assert gone == Subtree(p) - {p};
      ok := true;
    }

    /** Removes a file, or a directory with everything in it. */
    method RemovePathIfExists(p: Path) returns (ok: bool)
      requires Valid()
      requires alive ==> Removable(c, disk, p)
      modifies this`disk, this`alive, this`left, this`history
      ensures Valid() && old(history) <= history && left <= old(left)
      ensures alive ==> old(alive) && Shrunk(old(disk), disk, if ok then Subtree(p) else Subtree(p) - {p})
      ensures alive && ok ==> p !in disk
      ensures alive ==> ok || left < old(left)
      ensures alive && left == old(left) ==> disk == Without(old(disk), p)
    {
      var f := Fails();
      if f || p !in disk {
        return !f;
      }
      ok := RemoveInside(p);
      if !ok {
        return;
      }
      f := Fails();
      if f {
        return false;
      }
      assert old(disk) - (Subtree(p) - {p}) - {p} == old(disk) - Subtree(p);
      Unlink(p);
    }

    method MkdirIfNeeded(p: Path) returns (ok: bool)
      requires Valid()
      requires alive ==> Allowed(c, disk[p := Dir])
      modifies this`disk, this`alive, this`left, this`history
      ensures Valid() && old(history) <= history && left <= old(left)
      ensures alive ==> old(alive)
      ensures alive ==> disk == old(disk) || (p !in old(disk) && disk == old(disk)[p := Dir])
      ensures alive && ok ==> p in disk
      ensures alive ==> ok || left < old(left)
      ensures alive && left == old(left) ==> disk == Made(old(disk), p)
    {
      var f := Fails();
      if f {
        return false;
      }
      if p !in disk {
        Put(p, Dir);
      }
      ok := true;
    }

    // ----- The transaction -----

    /** STATE_TMP: created, written in part, written. */
    method WriteTemporary(ghost d: Disk, s: Phase) returns (ok: bool)
      requires Valid()
      requires alive ==> CanEnter(c, d, s) && SameExcept(d, disk, {Root, State, StateTmp})
      requires alive && !c.faulty ==> disk == Made(d, Root) - {StateTmp}
      modifies this`disk, this`alive, this`left, this`history
      ensures Valid() && old(history) <= history && left <= old(left)
      ensures alive ==> old(alive) && SameExcept(d, disk, {Root, State, StateTmp})
      ensures alive && ok ==> StateTmp in disk && disk[StateTmp] == Journal(s)
      ensures alive && left == old(left) ==> ok && disk == old(disk)[StateTmp := Journal(s)]
    {
      ok := PutTemporary(d, s, Data([]));
      if ok {
        var part := Part();
        ok := PutTemporary(d, s, Journal(Unknown(part)));
      }
      if ok {
        ok := PutTemporary(d, s, Journal(s));
      }
    }

    method PutTemporary(ghost d: Disk, s: Phase, n: Node) returns (ok: bool)
      requires Valid() && (n in {Data([]), Journal(s)} || (n.Journal? && n.phase.Unknown?))
      requires alive ==> CanEnter(c, d, s) && SameExcept(d, disk, {Root, State, StateTmp})
      requires alive && !c.faulty ==> disk - {StateTmp} == Made(d, Root) - {StateTmp}
      modifies this`disk, this`alive, this`left, this`history
      ensures Valid() && old(history) <= history && left <= old(left)
      ensures alive ==> old(alive) && SameExcept(d, disk, {Root, State, StateTmp})
      ensures alive && ok ==> StateTmp in disk && disk[StateTmp] == n
      ensures alive && left == old(left) ==> ok && disk == old(disk)[StateTmp := n]
    {
      var f := Fails();
      if f {
        return false;
      }
      if alive {
        assert disk[StateTmp := n] == (disk - {StateTmp})[StateTmp := n];
        assert Made(d, Root)[StateTmp := n] == (Made(d, Root) - {StateTmp})[StateTmp := n];
        JournalMayChange(c, d, s, disk[StateTmp := n]);
      }
      Put(StateTmp, n);
      ok := true;
    }

    /** STATE goes, and STATE_TMP takes its place. */
    method ReplaceState(ghost d: Disk, s: Phase) returns (ok: bool)
      requires Valid()
      requires alive ==> CanEnter(c, d, s) && SameExcept(d, disk, {Root, State, StateTmp})
      requires alive ==> StateTmp in disk && disk[StateTmp] == Journal(s)
      requires alive && !c.faulty ==> disk == Made(d, Root)[StateTmp := Journal(s)]
      modifies this`disk, this`alive, this`left, this`history
      ensures Valid() && old(history) <= history && left <= old(left)
      ensures alive ==> old(alive) && SameExcept(d, disk, {Root, State, StateTmp})
      ensures alive && ok ==> State in disk && disk[State] == Journal(s) && StateTmp !in disk
      ensures alive && left == old(left) ==> ok && disk == old(disk)[State := Journal(s)] - {StateTmp}
    {
      if alive {
        StateMayGo(c, d, s, disk);
      }
      ok := RemovePathIfExists(State);
      if !ok {
        return;
      }
      var f := Fails();
      if f {
        return false;
      }
      if alive {
        JournalMayChange(c, d, s, disk[State := disk[StateTmp]] - {StateTmp});
      }
      Rename(StateTmp, State);
    }

    /** The directory, and no STATE_TMP from before; whether it could be removed is ignored. */
    method ClearTemporary(ghost d: Disk, s: Phase) returns (ok: bool)
      requires Valid() && d == disk
      requires alive ==> CanEnter(c, d, s)
      modifies this`disk, this`alive, this`left, this`history
      ensures Valid() && old(history) <= history && left <= old(left)
      ensures alive ==> old(alive) && SameExcept(d, disk, {Root, State, StateTmp})
      ensures alive ==> ok || left < old(left)
      ensures alive && left == old(left) ==> disk == Made(d, Root) - {StateTmp}
    {
      if alive {
        JournalMayChange(c, d, s, d[Root := Dir]);
      }
      ok := MkdirIfNeeded(Root);
      if !ok {
        return;
      }
      if alive {
        TmpMayGo(c, d, s, disk);
      }
      var _ := RemovePathIfExists(StateTmp);
    }

    /** `write_state`, one file operation after another. */
    method WriteState(s: Phase) returns (ok: bool)
      requires Valid()
      requires alive ==> CanEnter(c, disk, s)
      modifies this
      ensures Valid() && old(history) <= history && left <= old(left)
      ensures alive ==> old(alive) && SameExcept(old(disk), disk, {Root, State, StateTmp})
      ensures alive && ok ==> State in disk && disk[State] == Journal(s) && StateTmp !in disk
      ensures alive ==> ok || left < old(left)
      ensures alive && left == old(left) ==> disk == Written(old(disk), s)
      ensures alive ==> entries == if ok then old(entries) + [s] else old(entries)
    {
      ghost var d := disk;
      ok := ClearTemporary(d, s);
      if ok {
        ok := WriteTemporary(d, s);
      }
      if ok {
        ok := ReplaceState(d, s);
      }
      if ok {
        entries := entries + [s];
      }
    }

    method RestoreBootPayloadIfNeeded() returns (ok: bool)
      requires Valid()
      requires alive ==> SavedKept(c, disk)
      modifies this`disk, this`alive, this`left, this`history
      ensures Valid() && old(history) <= history && left <= old(left)
      ensures alive ==> old(alive) && SameExcept(old(disk), disk, {Payload})
      ensures alive && ok && c.patched ==> Has(disk, Payload, c.boot)
      ensures alive ==> ok || left < old(left)
      ensures alive && left == old(left) ==> disk == if c.patched then Copied(old(disk), SavedPayload, Payload) else old(disk)
    {
      if !c.patched {
        return true;
      }
      ok := ValidNonemptyFile(SavedPayload);
      if ok {
        ok := CopyVerified(SavedPayload, Payload);
      }
    }

    /** Removing one of the paths that go before the journal. */
    method CleanupStep(p: Path) returns (ok: bool)
      requires Valid()
      requires p in {NewDir, BackupDir, Ready, StateTmp}
      requires alive ==> Settled(c, disk)
      requires alive && !c.faulty && p == StateTmp ==> Ready !in disk && BackupDir !in disk
      modifies this`disk, this`alive, this`left, this`history
      ensures Valid() && old(history) <= history && left <= old(left)
      ensures alive ==> SameState(old(disk), disk)
      ensures alive ==> old(alive) && Settled(c, disk) && SameTarget(old(disk), disk) && disk.Keys <= old(disk).Keys
      ensures alive && ok ==> p !in disk
      ensures alive ==> ok || left < old(left)
      ensures alive && left == old(left) ==> disk == Without(old(disk), p)
    {
      if alive {
        if p == StateTmp {
          JournalRemovable(c, disk, p);
        } else {
          SettledRemovable(c, disk, p);
        }
      }
      ok := RemovePathIfExists(p);
    }

    /** Everything that goes before the journal. */
    method CleanupFiles() returns (ok: bool)
      requires Valid()
      requires alive ==> Settled(c, disk)
      modifies this`disk, this`alive, this`left, this`history
      ensures Valid() && old(history) <= history && left <= old(left)
      ensures alive ==> SameState(old(disk), disk)
      ensures alive ==> old(alive) && Settled(c, disk) && SameTarget(old(disk), disk)
      ensures alive && ok ==> Ready !in disk && StateTmp !in disk && BackupDir !in disk
      ensures alive ==> ok || left < old(left)
      ensures alive && left == old(left) ==> disk == FilesCleaned(old(disk))
    {
      ok := CleanupStep(NewDir);
      var r := CleanupStep(BackupDir);
      ok := ok && r;
      r := CleanupStep(Ready);
      ok := ok && r;
      r := CleanupStep(StateTmp);
      ok := ok && r;
    }

    /** What is left once the journal has gone. */
    method CleanupRest() returns (ok: bool)
      requires Valid()
      requires alive ==> Unmarked(c, disk) && (c.patched ==> Has(disk, Payload, c.boot))
      modifies this`disk, this`alive, this`left, this`history
      ensures Valid() && old(history) <= history && left <= old(left)
      ensures alive ==> old(alive) && Unmarked(c, disk) && SameTarget(old(disk), disk)
      ensures alive ==> ok || left < old(left)
      ensures alive && left == old(left) ==> disk == RestCleaned(c, old(disk))
    {
      if alive {
        RestRemovable(c, disk, Root);
      }
      ok := RemovePathIfExists(Root);
      if ok && c.patched {
        if alive {
          RestRemovable(c, disk, SavedPayload);
        }
        ok := RemovePathIfExists(SavedPayload);
      }
    }

    method CleanupTransaction() returns (ok: bool)
      requires Valid()
      requires alive ==> Settled(c, disk)
      modifies this`disk, this`alive, this`left, this`history
      ensures Valid() && old(history) <= history && left <= old(left)
      ensures alive && Pending(disk) && old(State in disk) ==> SameState(old(disk), disk)
      ensures alive ==> old(alive) && OldOrNew(c, disk) && SameTarget(old(disk), disk)
      ensures alive && left == old(left) ==> ok && Finished(c, disk)
      ensures alive && left == old(left) ==> disk == Cleaned(c, old(disk))
    {
      ok := CleanupFiles();
      if ok {
        if alive {
          JournalRemovable(c, disk, State);
        }
        ok := RemovePathIfExists(State);
      }
      if ok {
        ok := CleanupRest();
      }
    }

    /** Restore payload.bin, then clean up: the common end of commit, rollback and abort. */
    method Finish()
      requires Valid()
      requires alive ==> OldOrNew(c, disk) && SavedKept(c, disk)
      requires alive && !c.faulty ==> Ending(c, disk)
      modifies this`disk, this`alive, this`left, this`history
      ensures Valid() && old(history) <= history && left <= old(left)
      ensures alive && Pending(disk) && old(State in disk) ==> SameState(old(disk), disk)
      ensures alive ==> old(alive) && SameTarget(old(disk), disk)
      ensures alive && left == old(left) ==> Finished(c, disk)
      ensures alive && left == old(left) ==> disk == Ended(c, old(disk))
    {
      var ok := RestoreBootPayloadIfNeeded();
      if !ok {
        return;
      }
      var _ := CleanupTransaction();
    }

    method PrepareBackup() returns (ok: bool)
      requires Valid()
      requires alive ==> SavedKept(c, disk) && OldOrNew(c, disk)
      requires alive && !c.faulty ==> JournalOf(disk) == Some(BackupInProgress)
      modifies this`disk, this`alive, this`left, this`history
      ensures Valid() && old(history) <= history && left <= old(left)
      ensures alive ==> old(alive) && SameExcept(old(disk), disk, {BackupDir, BackupNro})
      ensures alive && ok ==> BackedUpAs(disk)
      ensures alive ==> ok || left < old(left)
      ensures alive && left == old(left) ==> disk == BackedUp(old(disk))
    {
      ok := MkdirIfNeeded(BackupDir);
      if ok {
        ok := RefreshBackup();
      }
    }

    /** The file in the backup directory; whether an old one could be removed is ignored. */
    method RefreshBackup() returns (ok: bool)
      requires Valid()
      requires alive ==> SavedKept(c, disk) && OldOrNew(c, disk) && BackupDir in disk
      requires alive && !c.faulty ==> JournalOf(disk) == Some(BackupInProgress)
      modifies this`disk, this`alive, this`left, this`history
      ensures Valid() && old(history) <= history && left <= old(left)
      ensures alive ==> old(alive) && SameExcept(old(disk), disk, {BackupNro})
      ensures alive && ok ==> BackedUpAs(disk)
      ensures alive ==> ok || left < old(left)
      ensures alive && left == old(left) ==> disk == Copied(Without(old(disk), BackupNro), Target, BackupNro)
    {
      var _ := RemovePathIfExists(BackupNro);
      ok := CopyVerified(Target, BackupNro);
    }

    method RestoreTarget() returns (ok: bool)
      requires Valid()
      requires alive ==> SavedKept(c, disk) && CanRollBack(c, disk)
      modifies this
      ensures Valid() && old(history) <= history && left <= old(left)
      ensures alive ==> (CommitInProgress in entries <==> CommitInProgress in old(entries))
      ensures alive ==> old(alive) && SavedKept(c, disk)
      ensures alive && ok ==> Becomes(old(disk), BackupNro, disk) && OldOrNew(c, disk)
      ensures alive && ok && !c.faulty ==> CanRollBack(c, disk)
      ensures alive && left == old(left) ==> ok == Nonempty(old(disk), BackupNro)
      ensures alive && left == old(left) ==> disk == Copied(Written(old(disk), RollbackInProgress), BackupNro, Target)
    {
      ok := WriteState(RollbackInProgress);
      if !ok {
        return;
      }
      ok := ValidNonemptyFile(BackupNro);
      if ok {
        ok := CopyVerified(BackupNro, Target);
      }
    }

    method RollbackTransaction()
      requires Valid()
      requires alive ==> SavedKept(c, disk) && CanRollBack(c, disk)
      modifies this
      ensures Valid() && old(history) <= history && left <= old(left)
      ensures alive ==> (CommitInProgress in entries <==> CommitInProgress in old(entries))
      ensures alive ==> old(alive)
      ensures alive && left == old(left) && Nonempty(old(disk), BackupNro) ==> Finished(c, disk) && Becomes(old(disk), BackupNro, disk)
      ensures alive && left == old(left) && !Nonempty(old(disk), BackupNro) ==> Pending(disk) && SameTarget(old(disk), disk)
      ensures alive && left == old(left) ==> disk == RolledBack(c, old(disk))
    {
      var ok := RestoreTarget();
      if ok {
        EndRollback();
      }
    }

    /** With the target restored. */
    method EndRollback()
      requires Valid()
      requires alive ==> SavedKept(c, disk) && OldOrNew(c, disk)
      requires alive && !c.faulty ==> CanRollBack(c, disk)
      modifies this
      ensures Valid() && old(history) <= history && left <= old(left)
      ensures alive ==> (CommitInProgress in entries <==> CommitInProgress in old(entries))
      ensures alive ==> old(alive)
      ensures alive && left == old(left) ==> Finished(c, disk) && SameTarget(old(disk), disk)
      ensures alive && left == old(left) ==> disk == Ended(c, Written(old(disk), RollbackComplete))
      // when nothing but the journal write fails, payload.bin is restored all the same
      ensures alive && c.patched && old(left) <= 1 && entries == old(entries) ==> Has(disk, Payload, c.boot)
    {
      var ok := WriteState(RollbackComplete);
      if ok {
        Finish();
      } else {
        var _ := RestoreBootPayloadIfNeeded();
      }
    }

    /** Nothing has been changed that needs restoring. */
    method AbortBeforeChanges()
      requires Valid()
      requires alive ==> SavedKept(c, disk) && OldOrNew(c, disk)
      requires alive && !c.faulty ==> Ending(c, disk)
      modifies this`disk, this`alive, this`left, this`history
      ensures Valid() && old(history) <= history && left <= old(left)
      ensures alive ==> old(alive) && SameTarget(old(disk), disk)
      ensures alive && left == old(left) ==> Finished(c, disk)
      ensures alive && left == old(left) ==> disk == Ended(c, old(disk))
    {
      Finish();
    }

    method CommitTransaction()
      requires Valid()
      requires alive ==> SavedKept(c, disk) && Has(disk, Target, c.newNro)
      requires alive ==> Trusted(c, disk)
      requires alive && !c.faulty ==> JournalOf(disk) == Some(CopyComplete)
      modifies this
      ensures Valid() && old(history) <= history && left <= old(left)
      ensures alive && c.faulty && old(left) <= 1 && CommitInProgress !in old(entries) ==> Settles(c, disk, entries)
      ensures alive ==> old(alive)
      ensures alive && left == old(left) ==> Finished(c, disk) && Has(disk, Target, c.newNro)
      ensures alive && left == old(left) ==> disk == Committed(c, old(disk))
    {
      var ok := WriteState(CommitInProgress);
      if !ok {
        RollbackTransaction();
        return;
      }
      Finish();
    }

    /** The target is overwritten under COPY_IN_PROGRESS. */
    method OverwriteTarget() returns (ok: bool)
      requires Valid()
      requires alive ==> SavedKept(c, disk) && Has(disk, NewNro, c.newNro) && Replaceable(c, disk)
      requires alive && !c.faulty ==> JournalOf(disk) == Some(BackupComplete)
      modifies this
      ensures Valid() && old(history) <= history && left <= old(left)
      ensures alive ==> (CommitInProgress in entries <==> CommitInProgress in old(entries))
      ensures alive ==> old(alive) && SavedKept(c, disk) && Has(disk, NewNro, c.newNro) && CanRollBack(c, disk)
      ensures alive ==> Trusted(c, disk)
      ensures alive && ok ==> Has(disk, Target, c.newNro)
      ensures alive && left == old(left) ==> ok && JournalOf(disk) == Some(CopyInProgress)
      ensures alive && left == old(left) ==> disk == Copied(Written(old(disk), CopyInProgress), NewNro, Target)
    {
      ok := WriteState(CopyInProgress);
      if ok {
        ok := CopyVerified(NewNro, Target);
      }
    }

    method ReplaceTarget() returns (ok: bool)
      requires Valid()
      requires alive ==> SavedKept(c, disk) && Has(disk, NewNro, c.newNro) && Replaceable(c, disk)
      requires alive && !c.faulty ==> JournalOf(disk) == Some(BackupComplete)
      modifies this
      ensures Valid() && old(history) <= history && left <= old(left)
      ensures alive ==> (CommitInProgress in entries <==> CommitInProgress in old(entries))
      ensures alive ==> old(alive) && SavedKept(c, disk) && CanRollBack(c, disk) && Trusted(c, disk)
      ensures alive && ok ==> Has(disk, Target, c.newNro)
      ensures alive && left == old(left) ==> ok && JournalOf(disk) == Some(CopyComplete)
      ensures alive && left == old(left) ==> disk == Written(Copied(Written(old(disk), CopyInProgress), NewNro, Target), CopyComplete)
    {
      ok := OverwriteTarget();
      if ok {
        ok := FileSizesMatch(NewNro, Target);
      }
      if ok {
        ok := WriteState(CopyComplete);
      }
    }

    /** A backup that is not empty and as large as the target. */
    method BackupFits() returns (ok: bool)
      requires Valid()
      modifies this`left
      ensures Valid() && left <= old(left)
      ensures ok ==> SizesMatch(disk, BackupNro, Target)
      ensures Nonempty(disk, BackupNro) && BackedUpAs(disk) ==> ok || left < old(left)
    {
      ok := ValidNonemptyFile(BackupNro);
      if ok {
        ok := FileSizesMatch(BackupNro, Target);
      }
    }

    /** From a complete backup: overwrite the target, verify, commit. */
    method InstallFromBackupComplete()
      requires Valid()
      requires alive ==> SavedKept(c, disk) && Has(disk, NewNro, c.newNro) && Replaceable(c, disk)
      requires alive && !c.faulty ==> JournalOf(disk) == Some(BackupComplete)
      modifies this
      ensures Valid() && old(history) <= history && left <= old(left)
      ensures alive && c.faulty && old(left) <= 1 && CommitInProgress !in old(entries) ==> Settles(c, disk, entries)
      ensures alive ==> old(alive)
      ensures alive && left == old(left) ==> Finished(c, disk) && Has(disk, Target, c.newNro)
      ensures alive && left == old(left) ==> disk == Replaced(c, old(disk))
    {
      var ok := BackupFits();
      if ok {
        ok := ReplaceTarget();
      }
      if ok {
        CommitTransaction();
      } else {
        RollbackTransaction();
      }
    }

    /** The backup phase. */
    method BackUp() returns (ok: bool)
      requires Valid()
      requires alive ==> SavedKept(c, disk) && OldOrNew(c, disk) && Has(disk, NewNro, c.newNro)
      requires alive && !c.faulty ==> JournalOf(disk) == Some(BackupInProgress)
      modifies this
      ensures Valid() && old(history) <= history && left <= old(left)
      ensures alive ==> old(alive) && SameExcept(old(disk), disk, {BackupDir, BackupNro, Root, State, StateTmp})
      ensures alive ==> (CommitInProgress in entries <==> CommitInProgress in old(entries))
      ensures alive ==> ok || left < old(left)
      ensures alive && ok ==> BackedUpAs(disk) && JournalOf(disk) == Some(BackupComplete)
      ensures alive && left == old(left) ==> disk == Written(BackedUp(old(disk)), BackupComplete)
    {
      ok := PrepareBackup();
      if ok {
        ok := WriteState(BackupComplete);
      }
    }

    method InstallFromBackup(state: Phase)
      requires Valid()
      requires alive ==> SavedKept(c, disk) && OldOrNew(c, disk) && Has(disk, NewNro, c.newNro)
      requires alive && c.faulty ==> Has(disk, Target, c.oldNro)
      requires state == BackupInProgress || state == BackupComplete
      requires alive && !c.faulty ==> JournalOf(disk) == Some(state)
      requires alive && c.faulty ==> state == BackupInProgress
      modifies this
      ensures Valid() && old(history) <= history && left <= old(left)
      ensures alive && c.faulty && old(left) <= 1 && CommitInProgress !in old(entries) ==> Settles(c, disk, entries)
      ensures alive ==> old(alive)
      ensures alive && left == old(left) ==> Finished(c, disk) && Has(disk, Target, c.newNro)
      ensures alive && left == old(left) ==> disk == Replaced(c, if state == BackupInProgress then Written(BackedUp(old(disk)), BackupComplete) else old(disk))
    {
      if state == BackupInProgress {
        var ok := BackUp();
        if !ok {
          AbortBeforeChanges();
          return;
        }
      }
      InstallFromBackupComplete();
    }

    /** Roll back when there is a backup, give up when there is none. */
    method RollBackOrAbort()
      requires Valid()
      requires alive ==> SavedKept(c, disk)
      requires alive && !c.faulty ==>
                 if Nonempty(disk, BackupNro) then CanRollBack(c, disk) else OldOrNew(c, disk) && Ending(c, disk)
      requires alive && c.faulty ==> BackupNro !in disk && Has(disk, Target, c.oldNro)
      modifies this
      ensures Valid() && old(history) <= history && left <= old(left)
      ensures alive && c.faulty && old(left) == 0 && CommitInProgress !in old(entries) ==> Settles(c, disk, entries)
      ensures alive ==> old(alive)
      ensures alive && left == old(left) ==> Finished(c, disk)
      ensures alive && left == old(left) ==> Becomes(old(disk), if Nonempty(old(disk), BackupNro) then BackupNro else Target, disk)
      ensures alive && left == old(left) ==> disk == if Nonempty(old(disk), BackupNro) then RolledBack(c, old(disk)) else Ended(c, old(disk))
    {
      var ok := ValidNonemptyFile(BackupNro);
      if ok {
        RollbackTransaction();
      } else {
        AbortBeforeChanges();
      }
    }

    /** The part of a run that starts from STAGED, BACKUP_IN_PROGRESS, BACKUP_COMPLETE or garbage. */
    method Install(state: Phase)
      requires Valid()
      requires alive ==> SavedKept(c, disk) && JournalOf(disk) == Some(state)
      requires state in {Staged, BackupInProgress, BackupComplete} || state.Unknown?
      requires alive && c.faulty ==>
                 state == Staged && BackupNro !in disk && Has(disk, Target, c.oldNro) && Has(disk, NewNro, c.newNro)
      modifies this
      ensures Valid() && old(history) <= history && left <= old(left)
      ensures alive && c.faulty && old(left) <= 1 && CommitInProgress !in old(entries) ==> Settles(c, disk, entries)
      ensures alive ==> old(alive)
      ensures alive && left == old(left) ==> if Stuck(old(disk)) then Pending(disk) else Finished(c, disk)
      ensures alive && left == old(left) ==> OldOrNew(c, disk) && Becomes(old(disk), Winner(old(disk)), disk)
      ensures alive && left == old(left) ==> disk == Installed(c, old(disk), state)
    {
      var ok := ValidNonemptyFile(NewNro);
      if !ok {
        if state == Staged {
          AbortBeforeChanges();
        } else {
          RollbackTransaction();
        }
        return;
      }
      ok := ValidNonemptyFile(Target);
      if ok {
        InstallValidated(state);
      } else {
        RollBackOrAbort();
      }
    }

    /** With a staged file and a target that are not empty. */
    method InstallValidated(initial: Phase)
      requires Valid()
      requires alive ==> SavedKept(c, disk) && JournalOf(disk) == Some(initial)
      requires alive ==> Has(disk, NewNro, c.newNro) && Nonempty(disk, Target)
      requires initial in {Staged, BackupInProgress, BackupComplete} || initial.Unknown?
      requires alive && c.faulty ==> initial == Staged && BackupNro !in disk && Has(disk, Target, c.oldNro)
      modifies this
      ensures Valid() && old(history) <= history && left <= old(left)
      ensures alive && c.faulty && old(left) <= 1 && CommitInProgress !in old(entries) ==> Settles(c, disk, entries)
      ensures alive ==> old(alive)
      ensures alive && left == old(left) ==> Finished(c, disk) && Becomes(old(disk), Winner(old(disk)), disk)
      ensures alive && left == old(left) ==> disk == Installed(c, old(disk), initial)
    {
      var state := initial;
      if state == Staged {
        var ok := WriteState(BackupInProgress);
        if !ok {
          AbortBeforeChanges();
          return;
        }
        state := BackupInProgress;
      }
      if state == BackupInProgress || state == BackupComplete {
        InstallFromBackup(state);
      } else {
        RollBackOrAbort();
      }
    }

    method ReadState() returns (s: Option<Phase>)
      requires Valid()
      modifies this`left
      ensures Valid() && left <= old(left)
      ensures s.Some? ==> s == JournalOf(disk)
      ensures s == JournalOf(disk) || left < old(left)
    {
      var f := Fails();
      if f {
        return None;
      }
      if State in disk && disk[State].Journal? {
        return Some(disk[State].phase);
      }
      s := if StateTmp in disk && disk[StateTmp].Journal? then Some(disk[StateTmp].phase) else None;
    }

    /**
      One run of the updater, from whatever the previous runs left on the disk (power loss only) or
      from a freshly staged disk (any operation may fail).  Every state it writes is recorded in
      `history` and allowed; if it is not interrupted and nothing fails, it finishes the transaction.
     */
    method Run()
      requires Valid()
      requires alive ==> Pending(disk) && !Orphaned(c, disk)
      requires c.faulty ==> Fresh(c, disk)
      modifies this
      ensures Valid() && old(history) <= history && left <= old(left)
      ensures alive && c.faulty && old(left) <= 1 && CommitInProgress !in old(entries) ==> Settles(c, disk, entries)
      ensures alive ==> old(alive)
      ensures alive && left == old(left) ==> if Stuck(old(disk)) then Pending(disk) else Finished(c, disk)
      ensures alive && left == old(left) ==> OldOrNew(c, disk) && Becomes(old(disk), Winner(old(disk)), disk)
      ensures alive && left == old(left) ==> disk == RunResult(c, old(disk))
    {
      var state := ReadState();
      if state.None? {
        var ready := PathExists(Ready);
        if !ready {
          RollBackOrAbort();
          return;
        }
        StartAfresh();
      } else {
        Resume(state.value);
      }
    }

    /** READY is there and no journal. */
    method StartAfresh()
      requires Valid()
      requires alive ==> Ready in disk && !Orphaned(c, disk)
      requires alive && !c.faulty ==> JournalOf(disk).None?
      requires c.faulty ==> Fresh(c, disk)
      modifies this
      ensures Valid() && old(history) <= history && left <= old(left)
      ensures alive && c.faulty && old(left) <= 1 && CommitInProgress !in old(entries) ==> Settles(c, disk, entries)
      ensures alive ==> old(alive)
      ensures alive && left == old(left) ==> Finished(c, disk)
      ensures alive && left == old(left) ==> OldOrNew(c, disk) && Becomes(old(disk), Winner(old(disk)), disk)
      ensures alive && left == old(left) ==> disk == RunResult(c, old(disk))
    {
      var ok := WriteState(Staged);
      if ok {
        Resume(Staged);
      } else {
        AbortBeforeChanges();
      }
    }

    /** What the journal says decides. */
    method Resume(state: Phase)
      requires Valid()
      requires alive ==> SavedKept(c, disk) && JournalOf(disk) == Some(state)
      requires alive && c.faulty ==>
                 state == Staged && BackupNro !in disk && Has(disk, Target, c.oldNro) && Has(disk, NewNro, c.newNro)
      modifies this
      ensures Valid() && old(history) <= history && left <= old(left)
      ensures alive && c.faulty && old(left) <= 1 && CommitInProgress !in old(entries) ==> Settles(c, disk, entries)
      ensures alive ==> old(alive)
      ensures alive && left == old(left) ==> if Stuck(old(disk)) then Pending(disk) else Finished(c, disk)
      ensures alive && left == old(left) ==> OldOrNew(c, disk) && Becomes(old(disk), Winner(old(disk)), disk)
      ensures alive && left == old(left) ==> disk == RunResult(c, old(disk))
    {
      match state
      case CommitInProgress => Finish();
      case RollbackComplete => Finish();
      case RollbackInProgress => RollbackTransaction();
      case CopyInProgress => RollbackTransaction();
      case CopyComplete => CommitTransaction();
      case _ => Install(state);
    }

    /** What the boot code does: run the updater only when an update is pending. */
    method Boot()
      requires Valid() && !c.faulty && !Orphaned(c, disk)
      modifies this
      ensures Valid() && old(history) <= history && left <= old(left)
      ensures alive ==> OldOrNew(c, disk)
      ensures alive && Pending(old(disk)) ==> if Stuck(old(disk)) then Pending(disk) else Finished(c, disk)
      ensures alive && Pending(old(disk)) ==> Becomes(old(disk), Winner(old(disk)), disk) && disk == RunResult(c, old(disk))
      ensures alive && !Pending(old(disk)) ==> disk == old(disk)
    {
      alive := true;
      if Ready in disk || State in disk || StateTmp in disk || BackupDir in disk {
        Run();
      }
    }

    /**
      Any number of boots, each of which may lose power anywhere, also between the file operations of a
      journal write: every disk state on the way keeps the application and the boot payload, unless it is
      one in which the target is damaged and no journal is left.  As long as no cut falls on such a state
      the boots go on, and one that is not cut leaves nothing pending or an update that is stuck, with a
      good application in either case.
     */
    method PowerCycles(n: nat)
      requires Valid() && !c.faulty
      modifies this
      ensures Valid() && old(history) <= history && left <= old(left)
      ensures forall d :: d in history ==> (Safe(c, d) <==> !Orphaned(c, d))
      ensures alive && n > 0 && !Orphaned(c, old(disk)) ==> OldOrNew(c, disk) && (Pending(disk) ==> Stuck(disk))
    {
      for i := 0 to n
        invariant Valid() && old(history) <= history && (i == 0 ==> disk == old(disk))
        invariant alive && i > 0 && !Orphaned(c, old(disk)) ==> OldOrNew(c, disk) && (Pending(disk) ==> Stuck(disk))
      {
        if Orphaned(c, disk) {
          break;
        }
        Boot();
      }
      AllAllowedMeansEach(c, history);
    }

    /**
      One run on a freshly staged disk in which any operation may fail, `left` times at most.  If none
      fails, the new application is in place and nothing else is left.  If one fails, it is put in place
      exactly when COMMIT_IN_PROGRESS had been written; otherwise the old one is there and nothing else is
      left.  If more fail, the target or the backup is good.
     */
    method FaultyRun()
      requires Valid() && c.faulty && Fresh(c, disk) && entries == []
      modifies this
      ensures old(history) <= history
      ensures left == old(left) ==> Finished(c, disk) && Has(disk, Target, c.newNro)
      ensures old(left) <= 1 ==> OldOrNew(c, disk) && Settles(c, disk, entries)
      ensures OldOrNew(c, disk) || Has(disk, BackupNro, c.oldNro)
      ensures forall d :: d in history ==> Safe(c, d)
    {
      Run();
      AllAllowedMeansEach(c, history);
    }
  }

  lemma {:induction false} AllAllowedMeansEach(c: Setup, ds: seq<Disk>)
    requires AllAllowed(c, ds)
    ensures forall d :: d in ds ==> Allowed(c, d)
  {
    if ds != [] {
      AllAllowedMeansEach(c, ds[..|ds| - 1]);
      assert ds == ds[..|ds| - 1] + [ds[|ds| - 1]];
    }
  }
}
