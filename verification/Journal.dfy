/**
  The two journal files STATE and STATE_TMP at character level: how a state is read back, and what a
  power cut or a failed step inside `write_state` can leave behind.
 */
module Journal {
  import opened Bytes
  import opened AppUpdater

  /** The two files; None means that the file does not exist. */
  datatype Files = Files(state: Option<string>, tmp: Option<string>)

  const BUFFER := 64  // size of the buffer `aio_app_update_run` reads into

  /** The text up to the first terminator. */
  function Line(s: string): (r: string)
    ensures r <= s
    ensures forall i :: 0 <= i < |r| ==> r[i] !in {'\0', '\r', '\n'}
    ensures |r| < |s| ==> s[|r|] in {'\0', '\r', '\n'}
  {
    if s == [] || s[0] in {'\0', '\r', '\n'} then [] else [s[0]] + Line(s[1..])
  }

  function ReadFrom(file: Option<string>): Option<string> {
    match file
    case None => None
    case Some(text) =>
      var got := if |text| < 64 then text else text[..63];
      if Line(got) == [] then None else Some(Line(got))
  }

  function Read(f: Files): Option<string> {
    if ReadFrom(f.state).Some? then ReadFrom(f.state) else ReadFrom(f.tmp)
  }

  /** A text `write_state` is called with: all eight journal states are of this kind. */
  predicate IsState(t: string) {
    0 < |t| < BUFFER && forall i :: 0 <= i < |t| ==> t[i] !in {'\0', '\r', '\n'}
  }

  /** The text of a journal entry. */
  function Text(p: Phase): string {
    match p
    case Staged => "STAGED"
    case BackupInProgress => "BACKUP_IN_PROGRESS"
    case BackupComplete => "BACKUP_COMPLETE"
    case CopyInProgress => "COPY_IN_PROGRESS"
    case CopyComplete => "COPY_COMPLETE"
    case RollbackInProgress => "ROLLBACK_IN_PROGRESS"
    case RollbackComplete => "ROLLBACK_COMPLETE"
    case CommitInProgress => "COMMIT_IN_PROGRESS"
    case Unknown(text) => text
  }

  /** Every entry the updater writes is read back as itself. */
  lemma EntryReadBack(p: Phase)
    requires !p.Unknown?
    ensures IsState(Text(p)) && ReadFrom(Some(Text(p) + "\n")) == Some(Text(p))
  {
    if p.Staged? || p.BackupInProgress? || p.BackupComplete? || p.CopyInProgress? {
      FirstEntries(p);
    } else {
      LastEntries(p);
    }
    ReadBack(Text(p));
  }

  lemma FirstEntries(p: Phase)
    requires p.Staged? || p.BackupInProgress? || p.BackupComplete? || p.CopyInProgress?
    ensures IsState(Text(p))
  {
    match p
    case Staged => case BackupInProgress => case BackupComplete => case CopyInProgress =>
  }

  lemma LastEntries(p: Phase)
    requires p.CopyComplete? || p.RollbackInProgress? || p.RollbackComplete? || p.CommitInProgress?
    ensures IsState(Text(p))
  {
    match p
    case CopyComplete => case RollbackInProgress => case RollbackComplete => case CommitInProgress =>
  }

  /** Every pair of files a cut or a failure inside `write_state(t)` can leave, and the final one. */
  predicate Reachable(before: Files, t: string, after: Files) {
    // STATE is not touched before the temporary file is complete
    || (after.state == before.state && (after.tmp in {before.tmp, None} || after.tmp.value <= t + "\n"))
    || after == Files(None, Some(t + "\n"))
    || after == Files(Some(t + "\n"), None)
  }

  /** The loop of `read_state_from` that cuts the buffer at the first line end. */
  method ReadStateFrom(file: Option<string>) returns (r: Option<string>)
    ensures r == ReadFrom(file)
  {
    if file.None? {
      return None;
    }
    var got := if |file.value| < BUFFER then file.value else file.value[..BUFFER - 1];
    var i := 0;
    while i < |got| && got[i] !in {'\0', '\r', '\n'}
      invariant 0 <= i <= |got|
      invariant forall j :: 0 <= j < i ==> got[j] !in {'\0', '\r', '\n'}
    {
      i := i + 1;
    }
    LineIs(got, i);
    r := if i == 0 then None else Some(got[..i]);
  }

  lemma {:induction false} LineIs(s: string, n: nat)
    requires n <= |s|
    requires forall j :: 0 <= j < n ==> s[j] !in {'\0', '\r', '\n'}
    requires n < |s| ==> s[n] in {'\0', '\r', '\n'}
    ensures Line(s) == s[..n]
  {
    if n > 0 {
      LineIs(s[1..], n - 1);
      assert s[..n] == [s[0]] + s[1..][..n - 1];
    }
  }

  class JournalDisk {
    var f: Files

    /** `write_state`: any step may fail or be the last one before power is lost (`ok == false`). */
    method WriteState(t: string) returns (ok: bool)
      modifies this
      ensures Reachable(old(f), t, f)
      ensures ok ==> f == Files(Some(t + "\n"), None)
    {
      ok := false;
      if * { return; }                                    // before anything
      if * { f := f.(tmp := None); }                      // remove STATE_TMP, result ignored
      if * { return; }
      f := f.(tmp := Some(""));                           // open with FA_CREATE_ALWAYS
      if * { return; }
      var written := *;
      if 0 <= written < |t| {                                  // a partial write
        f := f.(tmp := Some(t[..written]));
        assert t[..written] <= t + "\n";
        return;
      }
      f := f.(tmp := Some(t));
      if * { return; }                                    // the newline is missing
      f := f.(tmp := Some(t + "\n"));
      if * { return; }                                    // f_sync failed
      f := f.(state := None);                             // remove STATE
      if * { return; }
      f := Files(f.tmp, None);                            // rename
      ok := true;
    }
  }

  lemma ReadBack(t: string)
    requires IsState(t)
    ensures ReadFrom(Some(t + "\n")) == Some(t)
  {
    var text := t + "\n";
    if |text| < BUFFER {
      LineIs(text, |t|);
      assert text[..|t|] == t;
    } else {
      assert text[..BUFFER - 1] == t;
      LineIs(t, |t|);
      assert t[..|t|] == t;
    }
  }

  /** The journal is never lost: a cut or failure inside `write_state(t)` leaves s or t. */
  lemma WriteKeepsJournal(before: Files, s: string, t: string, after: Files)
    requires ReadFrom(before.state) == Some(s) && IsState(t)
    requires Reachable(before, t, after)
    ensures Read(after) in {Some(s), Some(t)}
    ensures after == Files(Some(t + "\n"), None) ==> Read(after) == Some(t)
  {
    ReadBack(t);
  }

  /**
    Exactly when that holds: a readable journal survives every cut point iff it is the STATE file
    itself that is readable.  A journal that a previous cut left in STATE_TMP only is erased by the
    first step of the next `write_state`.
   */
  lemma WriteKeepsJournalIff(before: Files, s: string, t: string)
    requires Read(before) == Some(s) && IsState(t)
    ensures (forall after :: Reachable(before, t, after) ==> Read(after) in {Some(s), Some(t)})
            <==> ReadFrom(before.state).Some?
  {
    if ReadFrom(before.state).Some? {
      forall after | Reachable(before, t, after)
        ensures Read(after) in {Some(s), Some(t)}
      {
        WriteKeepsJournal(before, s, t, after);
      }
    } else {
      var erased := before.(tmp := None);
      assert Reachable(before, t, erased) && Read(erased).None?;
    }
  }

  // ----- Cut by cut -----

  /** Where a write can stop. */
  datatype Cut =
    | NotBegun
    | TmpRemoved
    | Writing(written: string)
    | TmpWritten
    | StateRemoved
    | Completed

  predicate CutOf(t: string, cut: Cut) { cut.Writing? ==> cut.written <= t + "\n" }

  /** The two files at that point. */
  function After(f: Files, t: string, cut: Cut): Files {
    match cut
    case NotBegun => f
    case TmpRemoved => f.(tmp := None)
    case Writing(w) => f.(tmp := Some(w))
    case TmpWritten => f.(tmp := Some(t + "\n"))
    case StateRemoved => Files(None, Some(t + "\n"))
    case Completed => Files(Some(t + "\n"), None)
  }

  /** These are all the pairs of files a write can leave. */
  lemma CutsAreReachable(f: Files, t: string, after: Files)
    ensures Reachable(f, t, after) <==> exists cut :: CutOf(t, cut) && after == After(f, t, cut)
  {
    if Reachable(f, t, after) {
      if after == Files(None, Some(t + "\n")) {
        assert after == After(f, t, StateRemoved);
      } else if after == Files(Some(t + "\n"), None) {
        assert after == After(f, t, Completed);
      } else if after.tmp == None {
        assert after == After(f, t, TmpRemoved);
      } else if after.tmp == f.tmp {
        assert after == After(f, t, NotBegun);
      } else {
        assert CutOf(t, Writing(after.tmp.value)) && after == After(f, t, Writing(after.tmp.value));
      }
    } else {
      forall cut | CutOf(t, cut) ensures after != After(f, t, cut) {
        assert cut.TmpWritten? ==> t + "\n" <= t + "\n";
      }
    }
  }

  /**
    Exactly which cuts of one write keep the journal.  A half-written entry counts only if it is already
    the whole of t, or if it happens to be s.
   */
  lemma CutKeepsJournalIff(f: Files, s: string, t: string, cut: Cut)
    requires Read(f) == Some(s) && IsState(s) && IsState(t) && CutOf(t, cut)
    ensures Read(After(f, t, cut)) in {Some(s), Some(t)} <==>
              || ReadFrom(f.state).Some?
              || !(cut.TmpRemoved? || cut.Writing?)
              || (cut.Writing? && cut.written in {s, t, t + "\n"})
  {
    ReadBack(t);
    if cut.Writing? {
      PartRead(t, cut.written);
    }
  }

  /** A beginning of an entry is read as itself, without the line end. */
  lemma PartRead(t: string, w: string)
    requires IsState(t) && w <= t + "\n"
    ensures ReadFrom(Some(w)) == if w == "" then None else Some(if w == t + "\n" then t else w)
  {
    if w == t + "\n" {
      ReadBack(t);
    } else {
      assert w <= t && w == t[..|w|];
      assert |w| < BUFFER;
      LineIs(w, |w|);
      assert w[..|w|] == w;
    }
  }

  // ----- The same files on the disk of the updater -----

  /** A proper beginning of an entry is none of the eight entries. */
  lemma PartIsUnknown(p: Phase, q: Phase)
    requires !p.Unknown? && !q.Unknown? && Text(q) <= Text(p)
    ensures p == q
  {
    var s, t := Text(p), Text(q);
    assert |t| >= 6 && s[0] == t[0] && s[5] == t[5];
    assert p.BackupInProgress? || p.BackupComplete? ==> |t| >= 8 && s[7] == t[7];
    assert p.RollbackInProgress? || p.RollbackComplete? ==> |t| >= 10 && s[9] == t[9];
  }

  function FileOf(d: Disk, p: Path): Option<string> {
    if p !in d then None
    else match d[p]
      case Journal(Unknown(text)) => Some(text)
      case Journal(s) => Some(Text(s) + "\n")
      case _ => Some("")
  }

  function FilesOf(d: Disk): Files { Files(FileOf(d, State), FileOf(d, StateTmp)) }

  /** What is not a known entry is a part of one. */
  predicate EntryOrPart(d: Disk, p: Path) {
    p in d && d[p].Journal? && d[p].phase.Unknown? ==> IsState(d[p].phase.text)
  }

  /** The phase the updater finds on its disk is what reading the files gives. */
  lemma ReadIsJournalOf(d: Disk)
    requires JournalFiles(d) && EntryOrPart(d, State) && EntryOrPart(d, StateTmp)
    ensures Read(FilesOf(d)) == match JournalOf(d) case None => None case Some(s) => Some(Text(s))
  {
    FileRead(d, State);
    FileRead(d, StateTmp);
  }

  lemma FileRead(d: Disk, p: Path)
    requires EntryOrPart(d, p)
    ensures ReadFrom(FileOf(d, p)) == if p in d && d[p].Journal? then Some(Text(d[p].phase)) else None
  {
    if p in d && d[p].Journal? {
      if d[p].phase.Unknown? {
        var text := d[p].phase.text;
        LineIs(text, |text|);
        assert text[..|text|] == text;
      } else {
        EntryReadBack(d[p].phase);
      }
    }
  }

  /** The steps of the updater's write are the cuts above. */
  lemma StepsAreCuts(d: Disk, s: Phase, part: string)
    requires !s.Unknown?
    ensures var f, t := FilesOf(d), Text(s); var full := d[StateTmp := AppUpdater.Journal(s)];
            && FilesOf(d - {StateTmp}) == After(f, t, TmpRemoved)
            && FilesOf(d[StateTmp := Data([])]) == After(f, t, Writing(""))
            && FilesOf(d[StateTmp := AppUpdater.Journal(Unknown(part))]) == After(f, t, Writing(part))
            && FilesOf(full) == After(f, t, TmpWritten)
            && FilesOf(full - {State}) == After(f, t, StateRemoved)
            && FilesOf(d[State := AppUpdater.Journal(s)] - {StateTmp}) == After(f, t, Completed)
  {
  }
}
