/** Extracting an archive: all of it or nothing. */
module ZipExtract {
  import opened Bytes
  import opened FileTree
  import opened Explorer

  const MAX_MEMBERS := 100000

  /** A member of the archive; `parts` are the components of its relative path. */
  datatype Member = Member(parts: Path, directory: bool, link: bool, data: Bytes) {
    /** It stays below the place where it is put. */
    predicate Safe() { parts != [] && "." !in parts && ".." !in parts && !link }

    function Target(destination: Path): Path { destination + parts }

    /** The directory that must be there. */
    function Folder(destination: Path): Path {
      if directory || parts == [] then destination + parts else destination + parts[..|parts| - 1]
    }

    function Size(): nat { if directory then 0 else |data| }
  }

  // ----- What an extraction should do -----

  /** The directories from the destination (not included) down to a folder below it. */
  function Folders(destination: Path, folder: Path, depth: nat): set<Path>
    requires |destination| <= depth <= |folder|
  {
    set n | |destination| < n <= depth :: folder[..n]
  }

  function DirMap(ps: set<Path>): Fs { map p | p in ps :: Dir }

  /** The directories the first k members need. */
  function NeededDirs(destination: Path, ms: seq<Member>, k: nat): set<Path>
    requires k <= |ms|
  {
    if k == 0 then {}
    else
      var folder := ms[k - 1].Folder(destination);
      NeededDirs(destination, ms, k - 1) + Folders(destination, folder, |folder|)
  }

  /** The files among the first k members. */
  function Files(destination: Path, ms: seq<Member>, k: nat): Fs
    requires k <= |ms|
  {
    if k == 0 then map[]
    else if ms[k - 1].directory then Files(destination, ms, k - 1)
    else Files(destination, ms, k - 1)[ms[k - 1].Target(destination) := File(ms[k - 1].data)]
  }

  /** The file system with the first k members extracted. */
  function Extracted(before: Fs, destination: Path, ms: seq<Member>, k: nat): Fs
    requires k <= |ms|
  {
    before + DirMap(NeededDirs(destination, ms, k)) + Files(destination, ms, k)
  }

  function ExpandedSize(ms: seq<Member>, k: nat): nat
    requires k <= |ms|
  {
    if k == 0 then 0 else ExpandedSize(ms, k - 1) + ms[k - 1].Size()
  }

  /** A member is where its name says, as a directory or as a file with its own bytes. */
  predicate Placed(fs: Fs, destination: Path, m: Member) {
    var target := destination + m.parts;
    target in fs && if m.directory then fs[target].Dir? else fs[target] == File(m.data)
  }

  ghost predicate AllPlaced(fs: Fs, destination: Path, ms: seq<Member>, k: nat)
    requires k <= |ms|
  {
    forall i :: 0 <= i < k && ms[i].parts != [] ==> Placed(fs, destination, ms[i])
  }

  lemma PlacedNext(fs: Fs, now: Fs, before: Fs, destination: Path, ms: seq<Member>, k: nat)
    requires k < |ms| && AllPlaced(now, destination, ms, k) && Grown(fs, now) && Grown(now, before)
    requires ms[k].parts != [] ==> Placed(fs, destination, ms[k])
    ensures AllPlaced(fs, destination, ms, k + 1) && Grown(fs, before)
  {
  }

  /** Whatever was there is there, unchanged. */
  ghost predicate Grown(fs: Fs, before: Fs) { forall p :: p in before ==> p in fs && fs[p] == before[p] }

  // ----- What can be undone -----

  /** Everything new is a file or a directory that has been noted. */
  ghost predicate Noted(fs: Fs, before: Fs, files: seq<Path>, dirs: set<Path>) {
    && (forall p :: p in before ==> p in fs && fs[p] == before[p])
    && (forall p :: p in fs && p !in before ==> (p in files && fs[p].File?) || (p in dirs && fs[p].Dir?))
    && (forall p :: p in files ==> p !in before)
    && (forall p :: p in dirs ==> p !in before)
  }

  /** A rollback on its way from `was`: nothing that existed has changed, and what cannot be removed is there. */
  ghost predicate Undoing(fs: Fs, was: Fs, before: Fs, files: seq<Path>, dirs: set<Path>, stuck: set<Path>) {
    && WellFormed(fs) && Noted(fs, before, files, dirs) && fs.Keys <= was.Keys
    && forall p :: p in was && p !in before && p in stuck ==> p in fs
  }

  /** A new path that could not be removed is p, or keeps it from being empty. */
  ghost predicate Held(fs: Fs, before: Fs, stuck: set<Path>, p: Path) {
    exists q :: q in stuck && q in fs && q !in before && Below(q, p)
  }

  /** One removal of the rollback; it fails for the paths in `stuck`. */
  method RemoveNoted(w: Worker, p: Path, stuck: set<Path>, ghost was: Fs, ghost before: Fs, ghost files: seq<Path>, ghost dirs: set<Path>)
    requires Undoing(w.fs, was, before, files, dirs, stuck) && p !in before
    modifies w`fs
    ensures Undoing(w.fs, was, before, files, dirs, stuck)
    ensures w.fs == if p !in stuck && Under(old(w.fs), p) <= {p} then old(w.fs) - {p} else old(w.fs)
  {
    if p !in stuck {
      w.Remove(p);
    }
  }

  /** The files that were created, last one first. */
  method RemoveFiles(w: Worker, files: seq<Path>, stuck: set<Path>, ghost was: Fs, ghost before: Fs, ghost dirs: set<Path>)
    requires Undoing(w.fs, was, before, files, dirs, stuck)
    modifies w`fs
    ensures Undoing(w.fs, was, before, files, dirs, stuck) && FilesStuck(w.fs, files, 0, stuck)
  {
    var i := |files|;
    while i > 0
      invariant 0 <= i <= |files| && Undoing(w.fs, was, before, files, dirs, stuck) && FilesStuck(w.fs, files, i, stuck)
    {
      i := i - 1;
      FileRemoved(w.fs, files, i, stuck);
      RemoveNoted(w, files[i], stuck, was, before, files, dirs);
    }
  }

  /** Of the files from number i on, only those that cannot be removed are left. */
  ghost predicate FilesStuck(fs: Fs, files: seq<Path>, i: nat, stuck: set<Path>) {
    forall j :: i <= j < |files| && files[j] in fs && fs[files[j]].File? ==> files[j] in stuck
  }

  lemma FileRemoved(fs: Fs, files: seq<Path>, i: nat, stuck: set<Path>)
    requires i < |files| && WellFormed(fs) && FilesStuck(fs, files, i + 1, stuck)
    ensures var p := files[i];
            FilesStuck(if p !in stuck && Under(fs, p) <= {p} then fs - {p} else fs, files, i, stuck)
  {
    var p := files[i];
    if p in fs && fs[p].File? {
      assert Under(fs, p) <= {p};
    }
  }

  /** The directories that were created, each after everything it may hold. */
  method RemoveDirs(w: Worker, dirs: set<Path>, stuck: set<Path>, ghost was: Fs, ghost before: Fs, ghost files: seq<Path>)
    requires WellFormed(before) && Undoing(w.fs, was, before, files, dirs, stuck) && FilesStuck(w.fs, files, 0, stuck)
    modifies w`fs
    ensures Undoing(w.fs, was, before, files, dirs, stuck) && FilesStuck(w.fs, files, 0, stuck)
    ensures DirsHeld(w.fs, before, dirs, {}, stuck)
  {
    var todo := dirs;
    while todo != {}
      invariant todo <= dirs && Undoing(w.fs, was, before, files, dirs, stuck) && FilesStuck(w.fs, files, 0, stuck)
      invariant DirsHeld(w.fs, before, dirs, todo, stuck)
    {
      Innermost(todo);
      var p :| p in todo && forall q :: q in todo && Below(q, p) ==> q == p;
      DirRemoved(w.fs, was, before, files, dirs, todo, stuck, p);
      RemoveNoted(w, p, stuck, was, before, files, dirs);
      todo := todo - {p};
    }
  }

  /** Of the directories already tried, only those are left that hold something that cannot be removed. */
  ghost predicate DirsHeld(fs: Fs, before: Fs, dirs: set<Path>, todo: set<Path>, stuck: set<Path>) {
    forall p :: p in dirs && p !in todo && p in fs ==> Held(fs, before, stuck, p)
  }

  lemma DirRemoved(fs: Fs, was: Fs, before: Fs, files: seq<Path>, dirs: set<Path>, todo: set<Path>, stuck: set<Path>, p: Path)
    requires WellFormed(before) && Undoing(fs, was, before, files, dirs, stuck) && FilesStuck(fs, files, 0, stuck)
    requires todo <= dirs && DirsHeld(fs, before, dirs, todo, stuck)
    requires p in todo && forall q :: q in todo && Below(q, p) ==> q == p
    ensures var e := if p !in stuck && Under(fs, p) <= {p} then fs - {p} else fs;
            DirsHeld(e, before, dirs, todo - {p}, stuck) && FilesStuck(e, files, 0, stuck)
  {
    var e := if p !in stuck && Under(fs, p) <= {p} then fs - {p} else fs;
    forall d | d in dirs && d !in todo - {p} && d in e ensures Held(e, before, stuck, d) {
      if d == p {
        StillHeld(fs, before, files, dirs, todo, stuck, p);
      } else {
        var q :| q in stuck && q in fs && q !in before && Below(q, d);
        assert q in e;
      }
    }
  }

  /** A directory that stays is stuck, or holds something that is. */
  lemma StillHeld(fs: Fs, before: Fs, files: seq<Path>, dirs: set<Path>, todo: set<Path>, stuck: set<Path>, p: Path)
    requires WellFormed(fs) && WellFormed(before) && Noted(fs, before, files, dirs) && FilesStuck(fs, files, 0, stuck)
    requires DirsHeld(fs, before, dirs, todo, stuck)
    requires p in dirs && p in fs && (forall q :: q in todo && Below(q, p) ==> q == p)
    requires p in stuck || !(Under(fs, p) <= {p})
    ensures Held(fs, before, stuck, p)
  {
    if p in stuck {
      assert Below(p, p);
    } else {
      var q :| q in Under(fs, p) && q != p;
      assert q !in before;
      if q in files && fs[q].File? {
        assert q in stuck;
      } else {
        var r :| r in stuck && r in fs && r !in before && Below(r, q);
        assert Below(r, p);
      }
    }
  }

  /** Of some directories, one holds none of the others. */
  lemma {:induction false} Innermost(ps: set<Path>)
    requires ps != {}
    ensures exists p :: p in ps && forall q :: q in ps && Below(q, p) ==> q == p
    decreases ps
  {
    var p :| p in ps;
    if q :| q in ps && Below(q, p) && q != p {
      var inner := set x | x in ps && Below(x, p) && x != p;
      assert q in inner && p !in inner;
      Innermost(inner);
      var r :| r in inner && forall x :: x in inner && Below(x, r) ==> x == r;
      forall x | x in ps && Below(x, r) ensures x == r {
        assert Below(x, p) && x != p;
      }
    }
  }

  // ----- One member -----

  /** Notes the directories on the way to a folder that do not exist yet. */
  method NoteMissing(w: Worker, destination: Path, folder: Path, dirs: set<Path>) returns (ok: bool, noted: set<Path>)
    requires Below(folder, destination)
    ensures noted == dirs + (set p | p in Folders(destination, folder, |folder|) && p !in w.fs) || (!ok && noted >= dirs)
    ensures forall p :: p in noted ==> p in dirs || p !in w.fs
    ensures w.calm ==> ok
  {
    noted := dirs;
    var n := |folder|;
    ghost var all := Folders(destination, folder, |folder|);
    while n > |destination|
      invariant |destination| <= n <= |folder|
      invariant noted == dirs + set p | p in all && p !in Folders(destination, folder, n) && p !in w.fs
    {
      var answered := w.Works();
      if !answered {
        return false, noted;
      }
      LastFolder(destination, folder, n);
      if folder[..n] !in w.fs {
        noted := noted + {folder[..n]};
      }
      n := n - 1;
    }
    ok := true;
  }

  lemma LastFolder(destination: Path, folder: Path, n: nat)
    requires |destination| < n <= |folder|
    ensures Folders(destination, folder, n) == Folders(destination, folder, n - 1) + {folder[..n]}
    ensures folder[..n] !in Folders(destination, folder, n - 1)
    ensures folder[..n] in Folders(destination, folder, |folder|)
  {
  }

  /** A directory that is there, or can be created. */
  method EnsureDirectory(w: Worker, p: Path) returns (ok: bool)
    requires WellFormed(w.fs)
    modifies w`fs
    ensures WellFormed(w.fs)
    ensures ok ==> (p in old(w.fs) ==> old(w.fs)[p].Dir?) && w.fs == old(w.fs)[p := Dir]
    ensures !ok ==> w.fs == old(w.fs)
    ensures w.calm && (IsDir(old(w.fs), p) || CanCreate(old(w.fs), p)) ==> ok
  {
    if p in w.fs {
      ok := w.fs[p].Dir?;
    } else {
      ok := w.CreateDirectory(p);
    }
  }

  /** The directories down to a depth exist, and nothing else is new. */
  ghost predicate Opened(fs: Fs, before: Fs, destination: Path, folder: Path, n: nat)
    requires |destination| <= n <= |folder|
  {
    && (forall p :: p in Folders(destination, folder, n) && p in before ==> before[p].Dir?)
    && fs == before + DirMap(Folders(destination, folder, n))
  }

  lemma OpenedNone(fs: Fs, destination: Path, folder: Path)
    requires |destination| <= |folder|
    ensures Opened(fs, fs, destination, folder, |destination|)
  {
    assert DirMap(Folders(destination, folder, |destination|)) == map[];
  }

  lemma OpenedNext(fs: Fs, before: Fs, destination: Path, folder: Path, n: nat)
    requires |destination| <= n < |folder| && Opened(fs, before, destination, folder, n)
    requires folder[..n + 1] in fs ==> fs[folder[..n + 1]].Dir?
    ensures Opened(fs[folder[..n + 1] := Dir], before, destination, folder, n + 1)
  {
    LastFolder(destination, folder, n + 1);
  }

  lemma OpenedGrows(fs: Fs, before: Fs, destination: Path, folder: Path, n: nat)
    requires |destination| <= n <= |folder| && Opened(fs, before, destination, folder, n)
    ensures Grown(fs, before) && (|destination| < n == |folder| ==> IsDir(fs, folder))
  {
    if |destination| < n == |folder| {
      assert folder[..n] == folder && folder in Folders(destination, folder, n);
    }
  }

  /** Whatever is there on the way from the destination to the folder is a directory. */
  ghost predicate WayFree(fs: Fs, destination: Path, folder: Path) {
    && IsDir(fs, destination) && Below(folder, destination)
    && forall n :: |destination| < n <= |folder| && folder[..n] in fs ==> fs[folder[..n]].Dir?
  }

  /** So the next directory is there or can be created. */
  lemma NextOnWay(now: Fs, before: Fs, destination: Path, folder: Path, n: nat)
    requires |destination| <= n < |folder| && Opened(now, before, destination, folder, n)
    requires WayFree(before, destination, folder)
    ensures IsDir(now, folder[..n + 1]) || CanCreate(now, folder[..n + 1])
  {
    var p := folder[..n + 1];
    assert Parent(p) == folder[..n];
    if n == |destination| {
      assert folder[..n] == destination;
    } else {
      assert folder[..n] in Folders(destination, folder, n);
    }
  }

  /** `create_directories`: from the destination down, stopping at the first failure. */
  method CreateDirectories(w: Worker, destination: Path, folder: Path) returns (ok: bool, ghost depth: nat)
    requires WellFormed(w.fs) && Below(folder, destination)
    modifies w`fs
    ensures WellFormed(w.fs) && |destination| <= depth <= |folder| && (ok ==> depth == |folder|)
    ensures Opened(w.fs, old(w.fs), destination, folder, depth)
    ensures w.calm && WayFree(old(w.fs), destination, folder) ==> ok
  {
    ghost var before := w.fs;
    OpenedNone(before, destination, folder);
    ok, depth := true, |destination|;
    for n := |destination| to |folder|
      invariant ok && depth == n && WellFormed(w.fs) && Opened(w.fs, before, destination, folder, n)
    {
      ghost var now := w.fs;
      if WayFree(before, destination, folder) {
        NextOnWay(now, before, destination, folder, n);
      }
      ok := EnsureDirectory(w, folder[..n + 1]);
      if !ok {
        return;
      }
      OpenedNext(now, before, destination, folder, n);
      depth := n + 1;
    }
  }

  lemma {:induction false} FolderPaths(destination: Path, folder: Path, n: nat, p: Path)
    requires |destination| <= n <= |folder| && p in Folders(destination, folder, n)
    ensures p in Folders(destination, folder, |folder|) && |p| <= n
  {
  }

  /** Whatever was created on the way had been noted. */
  lemma FoldersNoted(fs: Fs, before: Fs, now: Fs, destination: Path, folder: Path, n: nat, files: seq<Path>,
                     dirs: set<Path>, noted: set<Path>)
    requires |destination| <= n <= |folder| && Noted(now, before, files, dirs) && Opened(fs, now, destination, folder, n)
    requires noted == dirs + set p | p in Folders(destination, folder, |folder|) && p !in now
    ensures Noted(fs, before, files, noted)
  {
    forall p | p in Folders(destination, folder, n) ensures p in now || p in noted {
      FolderPaths(destination, folder, n, p);
    }
  }

  /** A file of the archive, once its folder is there. */
  method ExtractFile(w: Worker, target: Path, data: Bytes) returns (ok: bool)
    requires WellFormed(w.fs)
    modifies w`fs, w`cancelled, w`completed
    ensures WellFormed(w.fs)
    ensures !ok ==> w.fs == old(w.fs)
    ensures ok ==> target !in old(w.fs) && w.fs == old(w.fs)[target := File(data)] && w.completed == old(w.completed) + |data|
    ensures w.calm ==> w.cancelled == old(w.cancelled)
    ensures w.calm && !w.cancelled && CanCreate(old(w.fs), target) && FreeName(old(w.fs), target) ==> ok
  {
    var readable := w.Works();
    if !readable {
      return false;
    }
    ok := w.Store(target, data);
  }

  lemma {:induction false} FilesAreFiles(destination: Path, ms: seq<Member>, k: nat, p: Path)
    requires k <= |ms| && p in Files(destination, ms, k)
    ensures Files(destination, ms, k)[p].File?
  {
    if p in Files(destination, ms, k - 1) {
      FilesAreFiles(destination, ms, k - 1, p);
    }
  }

  /** With its folder there, a directory member is extracted, and a file member is but for the file. */
  lemma FolderExtracted(fs: Fs, before: Fs, destination: Path, ms: seq<Member>, k: nat)
    requires k < |ms|
    requires var folder := ms[k].Folder(destination);
             Opened(fs, Extracted(before, destination, ms, k), destination, folder, |folder|)
    ensures fs == before + DirMap(NeededDirs(destination, ms, k + 1)) + Files(destination, ms, k)
  {
    var folder := ms[k].Folder(destination);
    var added, files := Folders(destination, folder, |folder|), Files(destination, ms, k);
    var now := Extracted(before, destination, ms, k);
    forall p | p in added ensures p !in files {
      if p in files {
        FilesAreFiles(destination, ms, k, p);
      }
    }
    AddDirs(before, NeededDirs(destination, ms, k), added, files);
  }

  lemma AddDirs(before: Fs, dirs: set<Path>, added: set<Path>, files: Fs)
    requires forall p :: p in added ==> p !in files
    ensures before + DirMap(dirs) + files + DirMap(added) == before + DirMap(dirs + added) + files
  {
  }

  /** The first k members are there and can be undone. */
  ghost predicate Extracting(fs: Fs, before: Fs, destination: Path, ms: seq<Member>, k: nat, files: seq<Path>, dirs: set<Path>)
    requires k <= |ms|
  {
    WellFormed(fs) && Noted(fs, before, files, dirs) && fs == Extracted(before, destination, ms, k)
  }

  /** The folder of member k, with everything that is created on the way noted before. */
  method OpenFolder(w: Worker, destination: Path, ms: seq<Member>, k: nat, ghost files: seq<Path>, dirs: set<Path>, ghost before: Fs)
      returns (ok: bool, noted: set<Path>)
    requires k < |ms| && Extracting(w.fs, before, destination, ms, k, files, dirs)
    modifies w`fs
    ensures WellFormed(w.fs) && Noted(w.fs, before, files, noted) && Grown(w.fs, old(w.fs))
    ensures ok && ms[k].directory && ms[k].parts != [] ==> Placed(w.fs, destination, ms[k])
    ensures ok ==> w.fs == before + DirMap(NeededDirs(destination, ms, k + 1)) + Files(destination, ms, k)
    ensures ok ==> Opened(w.fs, old(w.fs), destination, ms[k].Folder(destination), |ms[k].Folder(destination)|)
    ensures w.calm && WayFree(old(w.fs), destination, ms[k].Folder(destination)) ==> ok
  {
    ghost var now := w.fs;
    var folder := ms[k].Folder(destination);
    ok, noted := NoteMissing(w, destination, folder, dirs);
    if !ok {
      return;
    }
    ghost var depth;
    ok, depth := CreateDirectories(w, destination, folder);
    OpenedGrows(w.fs, now, destination, folder, depth);
    FoldersNoted(w.fs, before, now, destination, folder, depth, files, dirs, noted);
    if ok {
      FolderExtracted(w.fs, before, destination, ms, k);
    }
  }

  lemma MemberExtracted(before: Fs, destination: Path, ms: seq<Member>, k: nat)
    requires k < |ms|
    ensures var folders := before + DirMap(NeededDirs(destination, ms, k + 1)) + Files(destination, ms, k);
            Extracted(before, destination, ms, k + 1) ==
              if ms[k].directory then folders else folders[ms[k].Target(destination) := File(ms[k].data)]
  {
  }

  /** Nothing stands in the way of a member: its folder can be opened, and its name and the temporary one are free. */
  ghost predicate PlaceFree(fs: Fs, destination: Path, m: Member) {
    && m.parts != [] && WayFree(fs, destination, m.Folder(destination))
    && (!m.directory ==>
          && m.parts[|m.parts| - 1] != FIRST_TEMP
          && destination + m.parts !in fs && m.Folder(destination) + [FIRST_TEMP] !in fs)
  }

  /** Opening the folder leaves them free. */
  lemma PlaceStillFree(fs: Fs, now: Fs, destination: Path, m: Member)
    requires PlaceFree(now, destination, m)
    requires var folder := m.Folder(destination);
             |destination| <= |folder| && Opened(fs, now, destination, folder, |folder|)
    ensures !m.directory ==> CanCreate(fs, destination + m.parts) && FreeName(fs, destination + m.parts)
  {
    if !m.directory {
      var folder, n := m.Folder(destination), m.parts[|m.parts| - 1];
      assert destination + m.parts == folder + [n];
      assert Parent(folder + [n]) == folder;
      assert forall p :: p in Folders(destination, folder, |folder|) ==> |p| <= |folder|;
      OpenedGrows(fs, now, destination, folder, |folder|);
      FirstIsFree(fs, folder, n);
    }
  }

  method ExtractMember(w: Worker, destination: Path, ms: seq<Member>, k: nat, files: seq<Path>, dirs: set<Path>, ghost before: Fs)
      returns (ok: bool, files': seq<Path>, dirs': set<Path>)
    requires k < |ms| && Extracting(w.fs, before, destination, ms, k, files, dirs)
    modifies w`fs, w`cancelled, w`completed
    ensures WellFormed(w.fs) && Noted(w.fs, before, files', dirs') && Grown(w.fs, old(w.fs))
    ensures ok ==> w.fs == Extracted(before, destination, ms, k + 1)
    ensures ok && ms[k].parts != [] ==> Placed(w.fs, destination, ms[k])
    ensures ok ==> w.completed == old(w.completed) + ms[k].Size()
    ensures w.calm ==> w.cancelled == old(w.cancelled)
    ensures w.calm && !w.cancelled && PlaceFree(old(w.fs), destination, ms[k]) ==> ok
  {
    var stop := w.Cancelled();
    if stop {
      return false, files, dirs;
    }
    files' := files;
    ghost var now := w.fs;
    ok, dirs' := OpenFolder(w, destination, ms, k, files, dirs, before);
    MemberExtracted(before, destination, ms, k);
    if ok && PlaceFree(now, destination, ms[k]) {
      PlaceStillFree(w.fs, now, destination, ms[k]);
    }
    if ok && !ms[k].directory {
      ok, files' := ExtractFileMember(w, ms[k].Target(destination), ms[k].data, files, dirs', before);
    }
  }

  /** The file of a member, noted once it is there. */
  method ExtractFileMember(w: Worker, target: Path, data: Bytes, files: seq<Path>, ghost dirs: set<Path>, ghost before: Fs)
      returns (ok: bool, files': seq<Path>)
    requires WellFormed(w.fs) && Noted(w.fs, before, files, dirs)
    modifies w`fs, w`cancelled, w`completed
    ensures WellFormed(w.fs) && Noted(w.fs, before, files', dirs) && Grown(w.fs, old(w.fs))
    ensures ok ==> w.fs == old(w.fs)[target := File(data)] && w.completed == old(w.completed) + |data|
    ensures w.calm ==> w.cancelled == old(w.cancelled)
    ensures w.calm && !w.cancelled && CanCreate(old(w.fs), target) && FreeName(old(w.fs), target) ==> ok
  {
    ok := ExtractFile(w, target, data);
    files' := if ok then files + [target] else files;
    if ok {
      FileNoted(old(w.fs), before, files, dirs, target, data);
    }
  }

  lemma FileNoted(fs: Fs, before: Fs, files: seq<Path>, dirs: set<Path>, target: Path, data: Bytes)
    requires Noted(fs, before, files, dirs) && target !in fs
    ensures Noted(fs[target := File(data)], before, files + [target], dirs)
  {
    assert target in files + [target];
  }

  // ----- Preflight -----

  function LowerChar(c: char): char { if 'A' <= c <= 'Z' then (c as int + 32) as char else c }

  function LowerName(s: string): string {
    if s == "" then "" else [LowerChar(s[0])] + LowerName(s[1..])
  }

  function LowerPath(p: Path): Path {
    if p == [] then [] else [LowerName(p[0])] + LowerPath(p[1..])
  }

  /** What must not occur twice: the target in lower case; directories end in a slash. */
  function FoldedTarget(destination: Path, m: Member): (Path, bool) {
    (LowerPath(m.Target(destination)), m.directory)
  }

  function FoldedTargets(destination: Path, ms: seq<Member>, k: nat): set<(Path, bool)>
    requires k <= |ms|
  {
    if k == 0 then {} else FoldedTargets(destination, ms, k - 1) + {FoldedTarget(destination, ms[k - 1])}
  }

  /** A member that may be extracted: safe, and new unless it is a directory. */
  predicate MemberOk(fs: Fs, destination: Path, m: Member) {
    m.Safe() && (m.Target(destination) in fs ==> m.directory && fs[m.Target(destination)].Dir?)
  }

  predicate MembersOk(fs: Fs, destination: Path, ms: seq<Member>, k: nat)
    requires k <= |ms|
  {
    k == 0 || (
      && MembersOk(fs, destination, ms, k - 1) && MemberOk(fs, destination, ms[k - 1])
      && FoldedTarget(destination, ms[k - 1]) !in FoldedTargets(destination, ms, k - 1))
  }

  lemma {:induction false} FewerMembers(fs: Fs, destination: Path, ms: seq<Member>, k: nat)
    requires k <= |ms|
    ensures MembersOk(fs, destination, ms, |ms|) ==> MembersOk(fs, destination, ms, k)
    ensures ExpandedSize(ms, k) <= ExpandedSize(ms, |ms|)
    decreases |ms| - k
  {
    if k < |ms| {
      FewerMembers(fs, destination, ms, k + 1);
    }
  }

  /** Names, collisions and sizes, before any member is written. */
  method Preflight(w: Worker, destination: Path, ms: seq<Member>) returns (ok: bool)
    modifies w`total
    ensures ok ==> |ms| <= MAX_MEMBERS && MembersOk(w.fs, destination, ms, |ms|)
    ensures ok ==> forall i :: 0 <= i < |ms| ==> Admitted(w.fs, destination, ms[i])
    ensures ok ==> NamesDiffer(ms)
    ensures ok ==> w.total == ExpandedSize(ms, |ms|) < U64_LIMIT
    ensures w.calm && |ms| <= MAX_MEMBERS && MembersOk(w.fs, destination, ms, |ms|) && ExpandedSize(ms, |ms|) < U64_LIMIT ==> ok
  {
    if |ms| > MAX_MEMBERS {
      return false;
    }
    var unique, expanded := {}, 0;
    for k := 0 to |ms|
      invariant MembersOk(w.fs, destination, ms, k) && unique == FoldedTargets(destination, ms, k)
      invariant expanded == ExpandedSize(ms, k) < U64_LIMIT
    {
      FewerMembers(w.fs, destination, ms, k + 1);
      var readable := w.Works();
      if !readable || !MemberOk(w.fs, destination, ms[k]) || FoldedTarget(destination, ms[k]) in unique
         || ms[k].Size() > U64_LIMIT - 1 - expanded {
        return false;
      }
      unique, expanded := unique + {FoldedTarget(destination, ms[k])}, expanded + ms[k].Size();
    }
    var enough := w.Works();  // the free space may be too small, or not known
    if !enough {
      return false;
    }
    AllMembersOk(w.fs, destination, ms);
    w.total := expanded;
    ok := true;
  }

  /** No link, no unsafe name, and nothing there yet but a directory for a directory. */
  predicate Admitted(fs: Fs, destination: Path, m: Member) {
    && m.parts != [] && "." !in m.parts && ".." !in m.parts && !m.link
    && (destination + m.parts in fs ==> m.directory && fs[destination + m.parts].Dir?)
  }

  /** No name occurs twice, whatever the case of its letters. */
  ghost predicate NamesDiffer(ms: seq<Member>) {
    forall i, j :: 0 <= i < j < |ms| && ms[i].directory == ms[j].directory ==> !SameButCase(ms[i].parts, ms[j].parts)
  }

  // ----- The whole archive -----

  /**
    Everything that was noted goes: the files, then the directories.  Where a removal fails the path
    stays, and so do the directories above it; nothing that existed changes in any case.
   */
  method Rollback(w: Worker, files: seq<Path>, dirs: set<Path>, stuck: set<Path>, ghost before: Fs)
    requires WellFormed(w.fs) && WellFormed(before) && Noted(w.fs, before, files, dirs)
    modifies w`fs
    ensures WellFormed(w.fs) && LeftBy(w.fs, before, stuck)
    ensures w.fs == before <==> forall p :: p in old(w.fs) && p !in before ==> p !in stuck
  {
    ghost var was := w.fs;
    RemoveFiles(w, files, stuck, was, before, dirs);
    RemoveDirs(w, dirs, stuck, was, before, files);
    AllLeftHeld(w.fs, was, before, files, dirs, stuck);
  }

  /** What existed is unchanged, and whatever else is there is held by a path that could not be removed. */
  ghost predicate LeftBy(fs: Fs, before: Fs, stuck: set<Path>) {
    && (forall p :: p in before ==> p in fs && fs[p] == before[p])
    && (forall p :: p in fs && p !in before ==> Held(fs, before, stuck, p))
  }

  lemma AllLeftHeld(fs: Fs, was: Fs, before: Fs, files: seq<Path>, dirs: set<Path>, stuck: set<Path>)
    requires Undoing(fs, was, before, files, dirs, stuck) && FilesStuck(fs, files, 0, stuck)
    requires DirsHeld(fs, before, dirs, {}, stuck)
    ensures LeftBy(fs, before, stuck)
    ensures fs == before <==> forall p :: p in was && p !in before ==> p !in stuck
  {
    forall p | p in fs && p !in before ensures Held(fs, before, stuck, p) {
      if p in files && fs[p].File? {
        assert p in stuck && Below(p, p);
      }
    }
    if forall p :: p in was && p !in before ==> p !in stuck {
      assert forall p :: p in fs ==> p in before;
    }
  }

  /** Nothing is left exactly when no new path is one that could not be removed. */
  lemma NothingLeftIff(fs: Fs, before: Fs, stuck: set<Path>)
    requires LeftBy(fs, before, stuck)
    ensures fs == before <==> forall p :: p in stuck && p in fs ==> p in before
  {
    if forall p :: p in stuck && p in fs ==> p in before {
      assert forall p :: p in fs ==> p in before;
    }
  }

  /**
    Nothing stands in the way of any member: no file of the archive is on the way to another member, what
    exists on the way is a directory, and no name is that of a temporary file.
   */
  ghost predicate Unobstructed(fs: Fs, destination: Path, ms: seq<Member>) {
    && (forall i :: 0 <= i < |ms| ==> ms[i].parts != [] && FIRST_TEMP !in ms[i].parts && PlaceFree(fs, destination, ms[i]))
    && forall i, j :: 0 <= i < |ms| && 0 <= j < |ms| && i != j && !ms[i].directory ==> !(ms[i].parts <= ms[j].parts)
  }

  lemma PrefixTail(a: Path, p: Path, q: Path)
    ensures a + p <= a + q <==> p <= q
  {
    if a + p <= a + q {
      assert (a + p)[|a|..] == p && (a + q)[|a|..] == q;
      assert (a + q)[..|a + p|][|a|..] == p;
    }
  }

  /** A file of the archive is some member. */
  lemma {:induction false} FileIsMember(destination: Path, ms: seq<Member>, k: nat, p: Path)
    requires k <= |ms|
    ensures p in Files(destination, ms, k) ==> exists i :: 0 <= i < k && !ms[i].directory && p == destination + ms[i].parts
  {
    if k > 0 {
      FileIsMember(destination, ms, k - 1, p);
    }
  }

  /** A directory it needs is on the way to some member. */
  lemma {:induction false} DirIsOnWay(destination: Path, ms: seq<Member>, k: nat, p: Path)
    requires k <= |ms|
    ensures p in NeededDirs(destination, ms, k) ==>
              |p| > |destination| && exists i :: 0 <= i < k && p <= destination + ms[i].parts
  {
    if k > 0 {
      DirIsOnWay(destination, ms, k - 1, p);
      if p in NeededDirs(destination, ms, k) && p !in NeededDirs(destination, ms, k - 1) {
        assert p <= destination + ms[k - 1].parts;
      }
    }
  }

  /** Nothing before member k is at a path no member leads to. */
  lemma NotExtracted(before: Fs, destination: Path, ms: seq<Member>, k: nat, p: Path)
    requires k <= |ms| && p !in before && forall i :: 0 <= i < k ==> !(p <= destination + ms[i].parts)
    ensures p !in Extracted(before, destination, ms, k)
  {
    FileIsMember(destination, ms, k, p);
    DirIsOnWay(destination, ms, k, p);
  }

  /** No file of the archive is on the way to member k. */
  lemma NoFileOnWay(destination: Path, ms: seq<Member>, k: nat, p: Path)
    requires k < |ms| && p <= destination + ms[k].parts
    requires forall i :: 0 <= i < k ==> ms[i].directory || !(ms[i].parts <= ms[k].parts)
    ensures p !in Files(destination, ms, k)
  {
    FileIsMember(destination, ms, k, p);
    forall i | 0 <= i < k ensures destination + ms[i].parts <= destination + ms[k].parts <==> ms[i].parts <= ms[k].parts {
      PrefixTail(destination, ms[i].parts, ms[k].parts);
    }
  }

  lemma WayStaysFree(before: Fs, destination: Path, ms: seq<Member>, k: nat)
    requires k < |ms| && Unobstructed(before, destination, ms)
    ensures WayFree(Extracted(before, destination, ms, k), destination, ms[k].Folder(destination))
  {
    var now, folder := Extracted(before, destination, ms, k), ms[k].Folder(destination);
    assert PlaceFree(before, destination, ms[k]);
    forall n | |destination| < n <= |folder| && folder[..n] in now ensures now[folder[..n]].Dir? {
      NoFileOnWay(destination, ms, k, folder[..n]);
      assert folder[..n] in before ==> before[folder[..n]].Dir?;
    }
    NoFileOnWay(destination, ms, k, destination);
  }

  /** No member leads to a temporary name. */
  lemma NoTemp(destination: Path, p: Path, parts: Path)
    requires FIRST_TEMP !in parts && |p| > |destination| && p[|p| - 1] == FIRST_TEMP
    ensures !(p <= destination + parts)
  {
    var target := destination + parts;
    assert |p| <= |target| ==> target[|p| - 1] == parts[|p| - 1 - |destination|] && parts[|p| - 1 - |destination|] in parts;
  }

  /** The members before it leave the place of member k free. */
  lemma NextIsFree(before: Fs, destination: Path, ms: seq<Member>, k: nat)
    requires k < |ms| && Unobstructed(before, destination, ms)
    ensures PlaceFree(Extracted(before, destination, ms, k), destination, ms[k])
  {
    WayStaysFree(before, destination, ms, k);
    assert PlaceFree(before, destination, ms[k]);
    if !ms[k].directory {
      var name, tmp := destination + ms[k].parts, ms[k].Folder(destination) + [FIRST_TEMP];
      forall i | 0 <= i < k ensures !(name <= destination + ms[i].parts) && !(tmp <= destination + ms[i].parts) {
        PrefixTail(destination, ms[k].parts, ms[i].parts);
        NoTemp(destination, tmp, ms[i].parts);
      }
      NotExtracted(before, destination, ms, k, name);
      NotExtracted(before, destination, ms, k, tmp);
      assert FIRST_TEMP !in ms[k].parts && ms[k].parts[|ms[k].parts| - 1] in ms[k].parts;
    }
  }

  /** The members, one after the other. */
  method ExtractMembers(w: Worker, destination: Path, ms: seq<Member>, stuck: set<Path>) returns (ok: bool)
    requires WellFormed(w.fs)
    modifies w`fs, w`cancelled, w`completed
    ensures WellFormed(w.fs)
    ensures ok ==> w.fs == Extracted(old(w.fs), destination, ms, |ms|)
    ensures !ok ==> LeftBy(w.fs, old(w.fs), stuck)
    ensures ok ==> Grown(w.fs, old(w.fs))
    ensures ok ==> AllPlaced(w.fs, destination, ms, |ms|)
    ensures ok ==> w.completed == old(w.completed) + ExpandedSize(ms, |ms|)
    ensures w.calm && !old(w.cancelled) && Unobstructed(old(w.fs), destination, ms) ==> ok
  {
    ghost var before, c0 := w.fs, w.completed;
    var files: seq<Path>, dirs: set<Path> := [], {};
    NothingExtracted(before, destination, ms);
    ghost var sure := w.calm && !w.cancelled && Unobstructed(before, destination, ms);
    for k := 0 to |ms|
      invariant Extracting(w.fs, before, destination, ms, k, files, dirs)
      invariant w.completed == c0 + ExpandedSize(ms, k) && Grown(w.fs, before)
      invariant AllPlaced(w.fs, destination, ms, k) && (sure ==> !w.cancelled)
    {
      ghost var now := w.fs;
      if sure {
        NextIsFree(before, destination, ms, k);
      }
      ok, files, dirs := ExtractMember(w, destination, ms, k, files, dirs, before);
      if !ok {
        Rollback(w, files, dirs, stuck, before);
        return;
      }
      PlacedNext(w.fs, now, before, destination, ms, k);
    }
    ok := true;
  }

  lemma NothingExtracted(fs: Fs, destination: Path, ms: seq<Member>)
    requires WellFormed(fs)
    ensures Extracting(fs, fs, destination, ms, 0, [], {})
  {
  }

  /**
    `extractZip`, into an existing directory; `stuck` are the paths whose removal fails in a rollback.
    On any failure everything that existed is unchanged, and nothing is left unless such a path is there;
    with working removals, all or nothing.
   */
  method ExtractZip(w: Worker, destination: Path, ms: seq<Member>, stuck: set<Path>) returns (ok: bool)
    requires WellFormed(w.fs)
    modifies w
    ensures WellFormed(w.fs)
    ensures !ok ==> LeftBy(w.fs, old(w.fs), stuck)
    ensures !ok ==> (w.fs == old(w.fs) <==> forall p :: p in stuck && p in w.fs ==> p in old(w.fs))
    ensures !ok && stuck == {} ==> w.fs == old(w.fs)
    ensures ok ==> w.fs == Extracted(old(w.fs), destination, ms, |ms|)
    // every member is in place, what existed is unchanged, and everything new leads to a member
    ensures ok ==> forall i :: 0 <= i < |ms| ==> Placed(w.fs, destination, ms[i])
    ensures ok ==> forall p :: p in old(w.fs) ==> p in w.fs && w.fs[p] == old(w.fs)[p]
    ensures ok ==> forall p :: p in w.fs && p !in old(w.fs) ==> LeadsTo(p, destination, ms)
    // no name is unsafe, a link, or taken, and none occurs twice
    ensures ok ==> IsDir(old(w.fs), destination) && |ms| <= 100000 && NamesDiffer(ms)
    ensures ok ==> forall i :: 0 <= i < |ms| ==> Admitted(old(w.fs), destination, ms[i])
    // when nothing fails and nobody asks to stop, every archive is extracted whose members do not obstruct one another
    ensures w.calm && !old(w.cancelled) && CanExtract(old(w.fs), destination, ms) ==> ok
    ensures ok ==> MembersOk(old(w.fs), destination, ms, |ms|)
    ensures ok ==> w.completed == old(w.completed) + w.total && w.total == ExpandedSize(ms, |ms|)
  {
    if !IsDir(w.fs, destination) {
      return false;
    }
    MembersOkIff(w.fs, destination, ms);
    ok := Preflight(w, destination, ms);
    if ok {
      ok := ExtractMembers(w, destination, ms, stuck);
      if ok {
        AllLeadToMembers(old(w.fs), destination, ms);
      } else {
        NothingLeftIff(w.fs, old(w.fs), stuck);
      }
    }
  }

  /** An archive nothing can stop but a call that fails, or the user. */
  ghost predicate CanExtract(fs: Fs, destination: Path, ms: seq<Member>) {
    && IsDir(fs, destination) && |ms| <= 100000 && ExpandedSize(ms, |ms|) < U64_LIMIT
    && (forall i :: 0 <= i < |ms| ==> Admitted(fs, destination, ms[i])) && NamesDiffer(ms)
    && Unobstructed(fs, destination, ms)
  }

  // ----- Names -----

  predicate SameLetter(a: char, b: char) {
    a == b || ('A' <= a <= 'Z' && b as int == a as int + 32) || ('A' <= b <= 'Z' && a as int == b as int + 32)
  }

  predicate SameNameButCase(s: string, t: string) {
    |s| == |t| && forall k :: 0 <= k < |s| ==> SameLetter(s[k], t[k])
  }

  /** The same path but for the case of ASCII letters. */
  predicate SameButCase(p: Path, q: Path) {
    |p| == |q| && forall k :: 0 <= k < |p| ==> SameNameButCase(p[k], q[k])
  }

  lemma {:induction false} NamesFold(s: string, t: string)
    ensures LowerName(s) == LowerName(t) <==> SameNameButCase(s, t)
  {
    if s != "" && t != "" {
      NamesFold(s[1..], t[1..]);
      NamesCons(s, t);
      FoldedCons(LowerChar(s[0]), LowerName(s[1..]), LowerChar(t[0]), LowerName(t[1..]));
    }
  }

  lemma FoldedCons<T>(a: T, s: seq<T>, b: T, t: seq<T>)
    ensures [a] + s == [b] + t <==> a == b && s == t
  {
    if [a] + s == [b] + t {
      assert ([a] + s)[0] == ([b] + t)[0] && ([a] + s)[1..] == ([b] + t)[1..];
    }
  }

  lemma NamesCons(s: string, t: string)
    requires s != "" && t != ""
    ensures SameNameButCase(s, t) <==> LowerChar(s[0]) == LowerChar(t[0]) && SameNameButCase(s[1..], t[1..])
  {
    assert LowerChar(s[0]) == LowerChar(t[0]) <==> SameLetter(s[0], t[0]);
    if SameLetter(s[0], t[0]) && SameNameButCase(s[1..], t[1..]) {
      forall k | 0 <= k < |s| ensures SameLetter(s[k], t[k]) {
        if k > 0 {
          assert SameLetter(s[1..][k - 1], t[1..][k - 1]);
        }
      }
    }
    if SameNameButCase(s, t) {
      forall k | 0 <= k < |s| - 1 ensures SameLetter(s[1..][k], t[1..][k]) {
        assert SameLetter(s[k + 1], t[k + 1]);
      }
    }
  }

  /** Folding to lower case identifies exactly the paths that differ in case alone. */
  lemma {:induction false} PathsFold(p: Path, q: Path)
    ensures LowerPath(p) == LowerPath(q) <==> SameButCase(p, q)
  {
    if p != [] && q != [] {
      PathsFold(p[1..], q[1..]);
      NamesFold(p[0], q[0]);
      PathsCons(p, q);
      FoldedCons(LowerName(p[0]), LowerPath(p[1..]), LowerName(q[0]), LowerPath(q[1..]));
    }
  }

  lemma PathsCons(p: Path, q: Path)
    requires p != [] && q != []
    ensures SameButCase(p, q) <==> SameNameButCase(p[0], q[0]) && SameButCase(p[1..], q[1..])
  {
    if SameNameButCase(p[0], q[0]) && SameButCase(p[1..], q[1..]) {
      forall k | 0 <= k < |p| ensures SameNameButCase(p[k], q[k]) {
        if k > 0 {
          assert SameNameButCase(p[1..][k - 1], q[1..][k - 1]);
        }
      }
    }
    if SameButCase(p, q) {
      forall k | 0 <= k < |p| - 1 ensures SameNameButCase(p[1..][k], q[1..][k]) {
        assert SameNameButCase(p[k + 1], q[k + 1]);
      }
    }
  }

  /** Below one destination the targets agree when the names do. */
  lemma SameTarget(destination: Path, p: Path, q: Path)
    requires SameButCase(p, q)
    ensures SameButCase(destination + p, destination + q)
  {
  }

  lemma {:induction false} EachMemberOk(fs: Fs, destination: Path, ms: seq<Member>, k: nat, i: nat)
    requires i < k <= |ms| && MembersOk(fs, destination, ms, k)
    ensures MemberOk(fs, destination, ms[i])
  {
    if i < k - 1 {
      EachMemberOk(fs, destination, ms, k - 1, i);
    }
  }

  lemma {:induction false} MembersDiffer(fs: Fs, destination: Path, ms: seq<Member>, k: nat, i: nat, j: nat)
    requires i < j < k <= |ms| && MembersOk(fs, destination, ms, k) && ms[i].directory == ms[j].directory
    ensures !SameButCase(ms[i].parts, ms[j].parts)
  {
    if j < k - 1 {
      MembersDiffer(fs, destination, ms, k - 1, i, j);
    } else {
      FoldedIn(destination, ms, j, i);
      if SameButCase(ms[i].parts, ms[j].parts) {
        SameTarget(destination, ms[i].parts, ms[j].parts);
        PathsFold(ms[i].Target(destination), ms[j].Target(destination));
      }
    }
  }

  /** Exactly the members that are admitted, with names that differ, pass. */
  lemma MembersOkIff(fs: Fs, destination: Path, ms: seq<Member>)
    ensures MembersOk(fs, destination, ms, |ms|) <==>
              (forall i :: 0 <= i < |ms| ==> Admitted(fs, destination, ms[i])) && NamesDiffer(ms)
  {
    if MembersOk(fs, destination, ms, |ms|) {
      AllMembersOk(fs, destination, ms);
    }
    if (forall i :: 0 <= i < |ms| ==> Admitted(fs, destination, ms[i])) && NamesDiffer(ms) {
      AdmittedAreOk(fs, destination, ms, |ms|);
    }
  }

  lemma {:induction false} AdmittedAreOk(fs: Fs, destination: Path, ms: seq<Member>, k: nat)
    requires k <= |ms| && (forall i :: 0 <= i < |ms| ==> Admitted(fs, destination, ms[i])) && NamesDiffer(ms)
    ensures MembersOk(fs, destination, ms, k)
  {
    if k > 0 {
      AdmittedAreOk(fs, destination, ms, k - 1);
      assert Admitted(fs, destination, ms[k - 1]);
      if FoldedTarget(destination, ms[k - 1]) in FoldedTargets(destination, ms, k - 1) {
        var i := FoldedFrom(destination, ms, k - 1, FoldedTarget(destination, ms[k - 1]));
        PathsFold(ms[i].Target(destination), ms[k - 1].Target(destination));
        SameNames(destination, ms[i].parts, ms[k - 1].parts);
      }
    }
  }

  lemma {:induction false} FoldedFrom(destination: Path, ms: seq<Member>, k: nat, f: (Path, bool)) returns (i: nat)
    requires k <= |ms| && f in FoldedTargets(destination, ms, k)
    ensures i < k && FoldedTarget(destination, ms[i]) == f
  {
    if FoldedTarget(destination, ms[k - 1]) == f {
      i := k - 1;
    } else {
      i := FoldedFrom(destination, ms, k - 1, f);
    }
  }

  lemma SameNames(destination: Path, p: Path, q: Path)
    requires SameButCase(destination + p, destination + q)
    ensures SameButCase(p, q)
  {
    forall k | 0 <= k < |p| ensures SameNameButCase(p[k], q[k]) {
      assert SameNameButCase((destination + p)[|destination| + k], (destination + q)[|destination| + k]);
    }
  }

  lemma AllMembersOk(fs: Fs, destination: Path, ms: seq<Member>)
    requires MembersOk(fs, destination, ms, |ms|)
    ensures (forall i :: 0 <= i < |ms| ==> Admitted(fs, destination, ms[i])) && NamesDiffer(ms)
  {
    forall i | 0 <= i < |ms| ensures Admitted(fs, destination, ms[i]) {
      EachMemberOk(fs, destination, ms, |ms|, i);
    }
    forall i, j | 0 <= i < j < |ms| && ms[i].directory == ms[j].directory ensures !SameButCase(ms[i].parts, ms[j].parts) {
      MembersDiffer(fs, destination, ms, |ms|, i, j);
    }
  }

  /** A new path lies on the way from the destination to a member. */
  ghost predicate LeadsTo(p: Path, destination: Path, ms: seq<Member>) {
    |p| > |destination| && exists i :: 0 <= i < |ms| && p <= destination + ms[i].parts
  }

  lemma LeadsToMember(before: Fs, destination: Path, ms: seq<Member>, k: nat, p: Path)
    requires k <= |ms| && (forall i :: 0 <= i < k ==> ms[i].parts != [])
    requires p in Extracted(before, destination, ms, k) && p !in before
    ensures LeadsTo(p, destination, ms)
  {
    FileIsMember(destination, ms, k, p);
    DirIsOnWay(destination, ms, k, p);
  }

  lemma AllLeadToMembers(before: Fs, destination: Path, ms: seq<Member>)
    requires forall i :: 0 <= i < |ms| ==> ms[i].parts != []
    ensures forall p :: p in Extracted(before, destination, ms, |ms|) && p !in before ==> LeadsTo(p, destination, ms)
  {
    forall p | p in Extracted(before, destination, ms, |ms|) && p !in before ensures LeadsTo(p, destination, ms) {
      LeadsToMember(before, destination, ms, |ms|, p);
    }
  }

  // ----- What that means -----

  /** Whatever an extraction adds lies below the destination. */
  lemma ExtractedBelow(before: Fs, destination: Path, ms: seq<Member>, k: nat, p: Path)
    requires k <= |ms| && MembersOk(before, destination, ms, k)
    requires p in Extracted(before, destination, ms, k) && p !in before
    ensures Below(p, destination) && p != destination
  {
    FileIsMember(destination, ms, k, p);
    DirIsOnWay(destination, ms, k, p);
    forall i | 0 <= i < k ensures ms[i].parts != [] {
      EachMemberOk(before, destination, ms, k, i);
    }
  }

  lemma {:induction false} FoldedIn(destination: Path, ms: seq<Member>, k: nat, i: nat)
    requires i < k <= |ms|
    ensures FoldedTarget(destination, ms[i]) in FoldedTargets(destination, ms, k)
  {
    if i < k - 1 {
      FoldedIn(destination, ms, k - 1, i);
    }
  }

  /** Every file of the archive is there with its own bytes. */
  lemma {:induction false} MemberInPlace(before: Fs, destination: Path, ms: seq<Member>, k: nat, i: nat)
    requires i < k <= |ms| && MembersOk(before, destination, ms, k) && !ms[i].directory
    ensures var target := ms[i].Target(destination);
            target in Files(destination, ms, k) && Files(destination, ms, k)[target] == File(ms[i].data)
            && Extracted(before, destination, ms, k)[target] == File(ms[i].data)
  {
    if i < k - 1 {
      FoldedIn(destination, ms, k - 1, i);
      MemberInPlace(before, destination, ms, k - 1, i);
    }
  }
}
