/** Copying files and folders: preflight, staging beside the target, rename. */
module CopyJob {
  import opened Bytes
  import opened FileTree
  import opened Explorer

  // ----- A partly copied directory -----

  /** The copy of the subtree at a, restricted to the entries done so far. */
  ghost function Part(fs: Fs, a: Path, b: Path, done: seq<string>): Fs {
    map p | p in Graft(fs, a, b) && (p == b || p[|b|] in done) :: Graft(fs, a, b)[p]
  }

  /** Everything inside those entries of a. */
  ghost function UnderNames(fs: Fs, a: Path, done: seq<string>): set<Path> {
    set p | p in fs && Below(p, a) && p != a && p[|a|] in done
  }

  lemma PartNone(fs: Fs, a: Path, b: Path)
    requires a in fs
    ensures Part(fs, a, b, []) == map[b := fs[a]] && UnderNames(fs, a, []) == {}
  {
    assert Rebase(b, b, a) == a;
  }

  lemma PartNext(fs: Fs, a: Path, b: Path, done: seq<string>, n: string)
    ensures Part(fs, a, b, done + [n]) == Part(fs, a, b, done) + Graft(fs, a + [n], b + [n])
  {
    var g, h := Graft(fs, a, b), Graft(fs, a + [n], b + [n]);
    forall p ensures p in h <==> p in g && p != b && p[|b|] == n {
      GraftEntry(fs, a, b, n, p);
    }
    forall p | p in h ensures h[p] == g[p] {
      GraftEntry(fs, a, b, n, p);
    }
  }

  lemma GraftEntry(fs: Fs, a: Path, b: Path, n: string, p: Path)
    ensures p in Graft(fs, a + [n], b + [n]) <==> p in Graft(fs, a, b) && p != b && p[|b|] == n
    ensures p in Graft(fs, a + [n], b + [n]) ==> Graft(fs, a + [n], b + [n])[p] == Graft(fs, a, b)[p]
  {
    if Below(p, b + [n]) {
      RebaseChild(p, b, a, n);
    }
  }

  lemma UnderNext(fs: Fs, a: Path, done: seq<string>, n: string)
    requires n !in done
    ensures UnderNames(fs, a, done + [n]) == UnderNames(fs, a, done) + Under(fs, a + [n])
    ensures UnderNames(fs, a, done) !! Under(fs, a + [n])
  {
    forall p | p in fs && Below(p, a) && p != a && p[|a|] == n ensures Below(p, a + [n]) {
      assert p[..|a| + 1] == a + [n];
    }
    forall p | Below(p, a + [n]) ensures Below(p, a) && p != a && p[|a|] == n {
      assert p[..|a| + 1] == a + [n];
    }
  }

  lemma PartAll(fs: Fs, a: Path, b: Path, names: seq<string>)
    requires WellFormed(fs) && a in fs && Listing(fs, a, names)
    ensures Part(fs, a, b, names) == Graft(fs, a, b)
    ensures Under(fs, a) == {a} + UnderNames(fs, a, names)
  {
    forall p | p in fs && Below(p, a) && p != a ensures p[|a|] in names {
      var c := p[..|a| + 1];
      assert c == p || Below(p, c);
      assert c == a + [p[|a|]];
    }
  }

  /** Building at b does not touch a. */
  lemma PartElsewhere(fs: Fs, a: Path, b: Path, done: seq<string>)
    requires Apart(a, b)
    ensures SameInside(fs, fs + Part(fs, a, b, done), a)
    ensures SameOutside(fs, fs + Part(fs, a, b, done), b)
  {
  }

  lemma SameListing(fs: Fs, a: Path, b: Path, names: seq<string>)
    requires Apart(a, b) && Listing(fs[b := Dir], a, names)
    ensures Listing(fs, a, names)
  {
    assert forall n :: Below(a + [n], a);
  }

  lemma Snoc(names: seq<string>, i: nat)
    requires i < |names|
    ensures names[..i + 1] == names[..i] + [names[i]]
  {
  }

  lemma Whole(names: seq<string>)
    ensures names[..|names|] == names
  {
  }

  lemma UnionAssoc(f: Fs, g: Fs, h: Fs)
    ensures (f + g) + h == f + (g + h)
  {
  }

  // ----- What cannot stop a copy -----

  /** No link, and no entry with the name of a temporary file. */
  ghost predicate Simple(fs: Fs, a: Path) {
    && (forall p :: p in fs && Below(p, a) ==> !fs[p].Link?)
    && (forall p :: p in fs && Below(p, a) && p != a ==> p[|p| - 1] != FIRST_TEMP)
  }

  /** Nothing is there but the directory itself. */
  ghost predicate Empty(fs: Fs, a: Path) { forall p :: p in fs && Below(p, a) ==> p == a }

  lemma SimpleSame(fs: Fs, fs2: Fs, a: Path)
    requires SameInside(fs, fs2, a) && Simple(fs, a)
    ensures Simple(fs2, a)
  {
  }

  /** Nothing stands in the way of entry n. */
  lemma EntrySimple(before: Fs, src: Path, dst: Path, n: string, done: seq<string>)
    requires WellFormed(before) && IsDir(before, src) && Apart(src, dst) && src + [n] in before && n !in done
    requires Simple(before, src) && Empty(before, dst)
    ensures var now := before + Part(before, src, dst, done);
            Simple(now, src + [n]) && CanCreate(now, dst + [n]) && FreeName(now, dst + [n])
  {
    var now := before + Part(before, src, dst, done);
    ChildUntouched(before, src, dst, n, done);
    assert forall p :: Below(p, src + [n]) ==> Below(p, src) && p != src;
    assert Simple(before, src + [n]);
    SimpleSame(before, now, src + [n]);
    assert (src + [n])[|src + [n]| - 1] == n;
    NotYet(before, src, dst, n, done);
    if dst + [FIRST_TEMP] in now {
      NotYetTemp(before, src, dst, done);
    }
    FirstIsFree(now, dst, n);
    assert Parent(dst + [n]) == dst && Rebase(dst, dst, src) == src;
    assert dst in Graft(before, src, dst);
  }

  lemma NotYet(before: Fs, src: Path, dst: Path, n: string, done: seq<string>)
    requires n !in done && Empty(before, dst)
    ensures dst + [n] !in before + Part(before, src, dst, done)
  {
    assert Below(dst + [n], dst) && dst + [n] != dst && (dst + [n])[|dst|] == n;
  }

  lemma NotYetTemp(before: Fs, src: Path, dst: Path, done: seq<string>)
    requires Empty(before, dst) && Simple(before, src)
    ensures dst + [FIRST_TEMP] !in before + Part(before, src, dst, done)
  {
    var p, q := dst + [FIRST_TEMP], src + [FIRST_TEMP];
    assert Below(q, src) && q != src && q[|q| - 1] == FIRST_TEMP;
    assert Below(p, dst) && p != dst && Rebase(p, dst, src) == q;
  }

  /** A directory made for a copy has nothing in it. */
  lemma NewIsEmpty(fs: Fs, dst: Path, created: bool)
    requires WellFormed(fs) && (if created then Under(fs, dst) == {dst} else dst !in fs)
    ensures Empty(fs, dst)
  {
    if created {
      assert forall p :: p in fs && Below(p, dst) ==> p in Under(fs, dst);
    }
  }

  // ----- One tree -----

  /** The destination is there already, empty, or is still to be made. */
  ghost predicate Ready(fs: Fs, dst: Path, created: bool) {
    created ==> IsDir(fs, dst) && Under(fs, dst) == {dst}
  }

  /** No path inside a is longer than this. */
  ghost predicate Depth(fs: Fs, a: Path, bound: nat) {
    forall p :: p in fs && Below(p, a) ==> |p| <= bound
  }

  /** `copyTree`. */
  method CopyTree(w: Worker, src: Path, dst: Path, created: bool, ghost bound: nat) returns (ok: bool)
    requires WellFormed(w.fs) && Apart(src, dst) && Ready(w.fs, dst, created) && src in w.fs
    requires created ==> w.fs[src].Dir?
    requires Depth(w.fs, src, bound)
    modifies w`fs, w`cancelled, w`completed
    ensures WellFormed(w.fs) && SameOutside(old(w.fs), w.fs, dst)
    ensures ok ==> w.fs == old(w.fs) + Graft(old(w.fs), src, dst) && (created || CanCreate(old(w.fs), dst))
    ensures ok ==> w.completed == old(w.completed) + Sum(old(w.fs), Under(old(w.fs), src))
    ensures w.calm ==> w.cancelled == old(w.cancelled)
    ensures ok ==> !w.cancelled
    ensures w.calm && !w.cancelled && Simple(old(w.fs), src) ==>
              (created || (CanCreate(old(w.fs), dst) && FreeName(old(w.fs), dst)) ==> ok)
    decreases bound - |src|, 3
  {
    var answered := w.Works();
    if !answered {
      return false;
    }
    if w.fs[src].Dir? {
      ok := created;
      if !created {
        ok := w.CreateDirectory(dst);
      }
      if ok {
        NewIsEmpty(old(w.fs), dst, created);
        ok := CopyFolder(w, src, dst, bound, old(w.fs));
      }
    } else if w.fs[src].File? {
      ok := w.CopyFile(src, dst);
      if ok {
        CopiedFile(old(w.fs), src, dst);
      }
    } else {
      ok := false;
    }
  }

  /** A file is a tree. */
  lemma CopiedFile(fs: Fs, a: Path, b: Path)
    requires WellFormed(fs) && a in fs && fs[a].File?
    ensures fs[b := fs[a]] == fs + Graft(fs, a, b)
    ensures Sum(fs, Under(fs, a)) == |fs[a].data|
  {
    assert Under(fs, a) == {a};
    SumPick(fs, {a}, a);
    assert {a} - {a} == {};
    var g := Graft(fs, a, b);
    assert Rebase(b, b, a) == a;
    forall p | p in g ensures p == b {
      assert Rebase(p, b, a) in Under(fs, a);
    }
  }

  /** The contents of a directory, once its copy has been created. */
  method CopyFolder(w: Worker, src: Path, dst: Path, ghost bound: nat, ghost before: Fs) returns (ok: bool)
    requires WellFormed(before) && Apart(src, dst) && IsDir(before, src) && Depth(before, src, bound)
    requires WellFormed(w.fs) && w.fs == before[dst := Dir]
    modifies w`fs, w`cancelled, w`completed
    ensures WellFormed(w.fs) && SameOutside(before, w.fs, dst)
    ensures ok ==> w.fs == before + Graft(before, src, dst) && !w.cancelled
    ensures ok ==> w.completed == old(w.completed) + Sum(before, Under(before, src))
    ensures w.calm ==> w.cancelled == old(w.cancelled)
    ensures w.calm && !w.cancelled && Simple(before, src) && Empty(before, dst) ==> ok
    decreases bound - |src|, 2
  {
    PartNone(before, src, dst);
    assert before[dst := Dir] == before + map[dst := Dir];
    var names := w.List(src);
    SameListing(before, src, dst, names);
    ok := CopyEntries(w, src, dst, names, bound, before);
    if ok {
      EntriesCopied(before, src, dst, names);
      ok := w.ListingEnds();
    }
  }

  /** The entries in `done` have been copied, and their bytes counted from c0. */
  ghost predicate Progress(fs: Fs, completed: nat, before: Fs, src: Path, dst: Path, done: seq<string>, c0: nat) {
    && WellFormed(fs) && fs == before + Part(before, src, dst, done)
    && completed == c0 + Sum(before, UnderNames(before, src, done))
  }

  /** The entries of a directory, in whatever order the system lists them. */
  method CopyEntries(w: Worker, src: Path, dst: Path, names: seq<string>, ghost bound: nat, ghost before: Fs)
      returns (ok: bool)
    requires WellFormed(before) && Apart(src, dst) && IsDir(before, src) && Depth(before, src, bound)
    requires Listing(before, src, names) && Progress(w.fs, w.completed, before, src, dst, [], w.completed)
    modifies w`fs, w`cancelled, w`completed
    ensures !ok ==> WellFormed(w.fs) && SameOutside(before, w.fs, dst)
    ensures ok ==> Progress(w.fs, w.completed, before, src, dst, names, old(w.completed))
    ensures w.calm ==> w.cancelled == old(w.cancelled)
    ensures w.calm && !w.cancelled && Simple(before, src) && Empty(before, dst) ==> ok
    decreases bound - |src|, 1
  {
    ok := true;
    for i := 0 to |names|
      invariant ok && Progress(w.fs, w.completed, before, src, dst, names[..i], old(w.completed))
      invariant w.calm ==> w.cancelled == old(w.cancelled)
    {
      ok := CopyEntry(w, src, dst, names[i], names[..i], bound, before, old(w.completed));
      if !ok {
        return;
      }
      Snoc(names, i);
    }
    Whole(names);
  }

  /** One entry of it. */
  method CopyEntry(w: Worker, src: Path, dst: Path, n: string, ghost done: seq<string>, ghost bound: nat,
                   ghost before: Fs, ghost c0: nat)
      returns (ok: bool)
    requires WellFormed(before) && Apart(src, dst) && IsDir(before, src) && src + [n] in before && n !in done
    requires Depth(before, src, bound)
    requires Progress(w.fs, w.completed, before, src, dst, done, c0)
    modifies w`fs, w`cancelled, w`completed
    ensures WellFormed(w.fs) && SameOutside(before, w.fs, dst)
    ensures ok ==> Progress(w.fs, w.completed, before, src, dst, done + [n], c0)
    ensures w.calm ==> w.cancelled == old(w.cancelled)
    ensures w.calm && !w.cancelled && Simple(before, src) && Empty(before, dst) ==> ok
    decreases bound - |src|, 0
  {
    ghost var now := w.fs;
    if w.calm && !w.cancelled && Simple(before, src) && Empty(before, dst) {
      EntrySimple(before, src, dst, n, done);
    }
    EntryReady(before, src, dst, n, done, bound);
    var stop := w.Cancelled();
    if stop {
      return false;
    }
    ok := CopyTree(w, src + [n], dst + [n], false, bound);
    OutsideTrans(before, now, w.fs, dst, n);
    if ok {
      EntryCopied(before, now, src, dst, n, done);
    }
  }

  lemma EntryReady(before: Fs, src: Path, dst: Path, n: string, done: seq<string>, bound: nat)
    requires Apart(src, dst) && src + [n] in before
    requires Depth(before, src, bound)
    ensures var now := before + Part(before, src, dst, done);
            && src + [n] in now && |src| + 1 <= bound && Apart(src + [n], dst + [n])
            && SameOutside(before, now, dst)
            && Depth(now, src + [n], bound)
  {
    PartElsewhere(before, src, dst, done);
    assert forall p :: Below(p, src + [n]) ==> Below(p, src);
    assert Below(src + [n], src);
  }

  lemma OutsideTrans(before: Fs, now: Fs, after: Fs, dst: Path, n: string)
    requires SameOutside(before, now, dst) && SameOutside(now, after, dst + [n])
    ensures SameOutside(before, after, dst)
  {
    assert forall p :: Below(p, dst + [n]) ==> Below(p, dst);
  }

  lemma EntryCopied(before: Fs, now: Fs, src: Path, dst: Path, n: string, done: seq<string>)
    requires Apart(src, dst) && n !in done && now == before + Part(before, src, dst, done)
    ensures now + Graft(now, src + [n], dst + [n]) == before + Part(before, src, dst, done + [n])
    ensures Sum(before, UnderNames(before, src, done + [n])) ==
              Sum(before, UnderNames(before, src, done)) + Sum(now, Under(now, src + [n]))
  {
    ChildUntouched(before, src, dst, n, done);
    GraftSame(before, now, src + [n], dst + [n]);
    PartGrows(before, src, dst, n, done);
    SumSameInside(before, now, src + [n]);
    EntryCounted(before, src, n, done);
  }

  lemma ChildUntouched(before: Fs, src: Path, dst: Path, n: string, done: seq<string>)
    requires Apart(src, dst)
    ensures SameInside(before, before + Part(before, src, dst, done), src + [n])
  {
    PartElsewhere(before, src, dst, done);
    assert forall p :: Below(p, src + [n]) ==> Below(p, src);
  }

  /** The tree grows by the copy of the entry ... */
  lemma PartGrows(before: Fs, src: Path, dst: Path, n: string, done: seq<string>)
    ensures (before + Part(before, src, dst, done)) + Graft(before, src + [n], dst + [n]) ==
              before + Part(before, src, dst, done + [n])
  {
    PartNext(before, src, dst, done, n);
    UnionAssoc(before, Part(before, src, dst, done), Graft(before, src + [n], dst + [n]));
  }

  /** ... and the count by its bytes. */
  lemma EntryCounted(before: Fs, src: Path, n: string, done: seq<string>)
    requires n !in done
    ensures Sum(before, UnderNames(before, src, done + [n])) ==
              Sum(before, UnderNames(before, src, done)) + Sum(before, Under(before, src + [n]))
  {
    UnderNext(before, src, done, n);
    SumUnion(before, UnderNames(before, src, done), Under(before, src + [n]));
  }

  lemma SumSameInside(fs: Fs, fs2: Fs, a: Path)
    requires SameInside(fs, fs2, a)
    ensures Under(fs, a) == Under(fs2, a) && Sum(fs, Under(fs, a)) == Sum(fs2, Under(fs2, a))
  {
    assert Under(fs, a) == Under(fs2, a);
    SumSame(fs, fs2, Under(fs, a));
  }

  /** With every entry done, the directory is copied. */
  lemma EntriesCopied(before: Fs, src: Path, dst: Path, done: seq<string>)
    requires WellFormed(before) && IsDir(before, src) && Apart(src, dst) && Listing(before, src, done)
    ensures Part(before, src, dst, done) == Graft(before, src, dst)
    ensures Sum(before, UnderNames(before, src, done)) == Sum(before, Under(before, src))
    ensures SameOutside(before, before + Graft(before, src, dst), dst)
  {
    PartAll(before, src, dst, done);
    SumUnion(before, {src}, UnderNames(before, src, done));
    SumPick(before, {src}, src);
    assert {src} - {src} == {};
    PartElsewhere(before, src, dst, done);
  }

  // ----- Staging -----

  ghost function Longest(ps: set<Path>): (n: nat)
    ensures forall p :: p in ps ==> |p| <= n
  {
    if ps == {} then 0
    else
      var p :| p in ps;
      var n := Longest(ps - {p});
      if |p| > n then |p| else n
  }

  /** A tree built at `staging` and renamed to `target` is as if copied there. */
  lemma RenamedTree(fs: Fs, src: Path, staging: Path, target: Path)
    requires WellFormed(fs) && src in fs && staging !in fs && target !in fs && Apart(src, staging) && Apart(staging, target)
    ensures Renamed(fs + Graft(fs, src, staging), staging, target) == fs + Graft(fs, src, target)
  {
    NothingUnder(fs, staging);
    var built := fs + Graft(fs, src, staging);
    forall p ensures Below(p, target) && Rebase(p, target, src) in fs <==> Below(p, target) && Rebase(p, target, staging) in built {
      if Below(p, target) {
        RebaseTwice(p, target, staging, src);
      }
    }
    forall p | p in Graft(fs, src, target) ensures Graft(built, staging, target)[p] == Graft(fs, src, target)[p] {
      RebaseTwice(p, target, staging, src);
    }
    assert Graft(built, staging, target) == Graft(fs, src, target);
    assert built - Under(built, staging) == fs;
  }

  lemma RebaseTwice(p: Path, a: Path, b: Path, c: Path)
    requires Below(p, a)
    ensures Rebase(Rebase(p, a, b), b, c) == Rebase(p, a, c)
  {
  }

  /** What a source and its target must satisfy. */
  ghost predicate Copyable(fs: Fs, src: Path, target: Path) {
    src in fs && target != [] && target !in fs && !Below(target, src)
  }

  /** A name beside the target is as far from the source as the target. */
  lemma BesideTarget(fs: Fs, src: Path, target: Path, tmp: Path)
    requires WellFormed(fs) && Copyable(fs, src, target)
    requires tmp != [] && tmp !in fs && tmp != target && Parent(tmp) == Parent(target)
    ensures Apart(src, tmp) && Apart(tmp, target)
  {
    assert |src| < |tmp| ==> tmp[..|src|] == Parent(tmp)[..|src|] == target[..|src|];
  }

  /** A directory, through a staging directory beside the target. */
  method CopyDirectory(w: Worker, src: Path, target: Path) returns (ok: bool)
    requires WellFormed(w.fs) && Copyable(w.fs, src, target) && w.fs[src].Dir?
    modifies w`fs, w`cancelled, w`completed
    ensures WellFormed(w.fs)
    ensures w.fs == if ok then old(w.fs) + Graft(old(w.fs), src, target) else old(w.fs)
    ensures ok ==> !w.cancelled
    ensures ok ==> w.completed == old(w.completed) + Sum(old(w.fs), Under(old(w.fs), src))
    ensures w.calm ==> w.cancelled == old(w.cancelled)
    ensures w.calm && !w.cancelled && Simple(old(w.fs), src) && CanCreate(old(w.fs), target) && FreeName(old(w.fs), target) ==> ok
  {
    ghost var before := w.fs;
    var tmp := w.TempFor(target);
    if tmp.None? {
      return false;
    }
    var staging := tmp.value;
    BesideTarget(before, src, target, staging);
    ok := w.CreateDirectory(staging);
    if !ok {
      return;
    }
    ok := CopyStaged(w, src, staging, target, before);
  }

  /** Through the staging directory, which is there; it goes if anything fails. */
  method CopyStaged(w: Worker, src: Path, staging: Path, target: Path, ghost before: Fs) returns (ok: bool)
    requires WellFormed(before) && Copyable(before, src, target) && before[src].Dir? && staging !in before
    requires Apart(src, staging) && Apart(staging, target) && CanCreate(before, staging) && Parent(staging) == Parent(target)
    requires WellFormed(w.fs) && w.fs == before[staging := Dir]
    modifies w`fs, w`cancelled, w`completed
    ensures WellFormed(w.fs)
    ensures w.fs == if ok then before + Graft(before, src, target) else before
    ensures ok ==> !w.cancelled
    ensures ok ==> w.completed == old(w.completed) + Sum(before, Under(before, src))
    ensures w.calm ==> w.cancelled == old(w.cancelled) && (!w.cancelled && Simple(before, src) ==> ok)
  {
    ok := BuildStaging(w, src, staging, before);
    if ok {
      ok := MoveStaging(w, src, staging, target, before);
    }
    if !ok {
      PruneNew(before, w.fs, staging);
      w.RemoveAll(staging);
    }
  }

  /** The copy inside the staging directory. */
  method BuildStaging(w: Worker, src: Path, staging: Path, ghost before: Fs) returns (ok: bool)
    requires WellFormed(before) && IsDir(before, src) && staging !in before && Apart(src, staging)
    requires WellFormed(w.fs) && w.fs == before[staging := Dir]
    modifies w`fs, w`cancelled, w`completed
    ensures WellFormed(w.fs) && SameOutside(before, w.fs, staging)
    ensures ok ==> w.fs == before + Graft(before, src, staging) && !w.cancelled
    ensures ok ==> w.completed == old(w.completed) + Sum(before, Under(before, src))
    ensures w.calm ==> w.cancelled == old(w.cancelled) && (!w.cancelled && Simple(before, src) ==> ok)
  {
    StagingReady(before, src, staging);
    StagingCopied(before, src, staging);
    if Simple(before, src) {
      SimpleSame(before, w.fs, src);
    }
    ghost var now := w.fs;
    ok := CopyTree(w, src, staging, true, Longest(before.Keys));
    SameOutsideTrans(before, now, w.fs, staging);
  }

  lemma SameOutsideTrans(before: Fs, now: Fs, after: Fs, a: Path)
    requires SameOutside(before, now, a) && SameOutside(now, after, a)
    ensures SameOutside(before, after, a)
  {
  }

  lemma StagingReady(fs: Fs, src: Path, staging: Path)
    requires WellFormed(fs) && IsDir(fs, src) && staging !in fs && Apart(src, staging)
    ensures var now := fs[staging := Dir];
            && Ready(now, staging, true) && IsDir(now, src) && Depth(now, src, Longest(fs.Keys))
            && SameInside(fs, now, src) && SameOutside(fs, now, staging)
  {
    NothingUnder(fs, staging);
    assert forall p :: p in fs.Keys ==> |p| <= Longest(fs.Keys);
  }

  lemma StagingCopied(fs: Fs, src: Path, staging: Path)
    requires WellFormed(fs) && IsDir(fs, src) && staging !in fs && Apart(src, staging)
    ensures var now := fs[staging := Dir];
            && now + Graft(now, src, staging) == fs + Graft(fs, src, staging)
            && Under(now, src) == Under(fs, src) && Sum(now, Under(now, src)) == Sum(fs, Under(fs, src))
  {
    var now := fs[staging := Dir];
    StagingReady(fs, src, staging);
    GraftSame(fs, now, src, staging);
    assert Rebase(staging, staging, src) == src;
    SumSameInside(fs, now, src);
  }

  method MoveStaging(w: Worker, src: Path, staging: Path, target: Path, ghost before: Fs) returns (ok: bool)
    requires WellFormed(before) && Copyable(before, src, target) && before[src].Dir? && staging !in before
    requires Apart(src, staging) && Apart(staging, target) && CanCreate(before, staging) && Parent(staging) == Parent(target)
    requires WellFormed(w.fs) && w.fs == before + Graft(before, src, staging)
    modifies w`fs
    ensures WellFormed(w.fs)
    ensures w.fs == if ok then before + Graft(before, src, target) else old(w.fs)
    ensures w.calm ==> ok
  {
    ok := w.Works();
    if !ok || target in w.fs {
      return false;
    }
    RenamedTree(before, src, staging, target);
    GraftKeepsWellFormed(before, src, target);
    w.fs := Renamed(w.fs, staging, target);
  }
}
