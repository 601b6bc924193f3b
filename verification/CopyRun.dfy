/** A whole copy job: every source is checked and measured before the first byte is written. */
module CopyRun {
  import opened Bytes
  import opened FileTree
  import opened Explorer
  import opened CopyJob

  const MAX_SIZE := U64_LIMIT - 1

  /** destination / source.filename() */
  function Target(destination: Path, source: Path): Path {
    if source == [] then destination else destination + [source[|source| - 1]]
  }

  // ----- What a job should do -----

  /** A source the job accepts. */
  ghost predicate SourceOk(fs: Fs, source: Path, destination: Path) {
    source != [] && Copyable(fs, source, Target(destination, source)) && !fs[source].Link?
  }

  function Targets(destination: Path, sources: seq<Path>, k: nat): set<Path>
    requires k <= |sources|
  {
    if k == 0 then {} else Targets(destination, sources, k - 1) + {Target(destination, sources[k - 1])}
  }

  /** The first k sources are, and their targets differ. */
  ghost predicate SourcesOk(fs: Fs, sources: seq<Path>, destination: Path, k: nat)
    requires k <= |sources|
  {
    k == 0 || (
      && SourcesOk(fs, sources, destination, k - 1) && SourceOk(fs, sources[k - 1], destination)
      && Target(destination, sources[k - 1]) !in Targets(destination, sources, k - 1))
  }

  lemma {:induction false} TargetIn(destination: Path, sources: seq<Path>, k: nat, i: nat)
    requires i < k <= |sources|
    ensures Target(destination, sources[i]) in Targets(destination, sources, k)
  {
    if i < k - 1 {
      TargetIn(destination, sources, k - 1, i);
    }
  }

  lemma {:induction false} EachSourceOk(fs: Fs, sources: seq<Path>, destination: Path, k: nat, i: nat)
    requires i < k <= |sources| && SourcesOk(fs, sources, destination, k)
    ensures SourceOk(fs, sources[i], destination)
  {
    if i < k - 1 {
      EachSourceOk(fs, sources, destination, k - 1, i);
    }
  }

  lemma {:induction false} TargetsDiffer(fs: Fs, sources: seq<Path>, destination: Path, k: nat, i: nat, j: nat)
    requires i < j < k <= |sources| && SourcesOk(fs, sources, destination, k)
    ensures Target(destination, sources[i]) != Target(destination, sources[j])
  {
    if j < k - 1 {
      TargetsDiffer(fs, sources, destination, k - 1, i, j);
    } else {
      TargetIn(destination, sources, j, i);
    }
  }

  /** The copies of the first k sources, each taken from the file system before the job. */
  ghost function Copies(fs: Fs, sources: seq<Path>, destination: Path, k: nat): Fs
    requires k <= |sources|
  {
    if k == 0 then map[]
    else Copies(fs, sources, destination, k - 1) + Graft(fs, sources[k - 1], Target(destination, sources[k - 1]))
  }

  /** The bytes of the first k sources. */
  ghost function SizeOfAll(fs: Fs, sources: seq<Path>, k: nat): nat
    requires k <= |sources|
  {
    if k == 0 then 0 else SizeOfAll(fs, sources, k - 1) + Sum(fs, Under(fs, sources[k - 1]))
  }

  // ----- Preflight -----

  /** What is measured of a source when the sizes of some files inside it cannot be read. */
  ghost function Measured(fs: Fs, source: Path, unmeasured: set<Path>): set<Path> {
    Under(fs, source) - (unmeasured - {source})
  }

  /** The bytes measured of the first k sources. */
  ghost function MeasuredOfAll(fs: Fs, sources: seq<Path>, unmeasured: seq<set<Path>>, k: nat): nat
    requires k <= |sources| == |unmeasured|
  {
    if k == 0 then 0
    else MeasuredOfAll(fs, sources, unmeasured, k - 1) + Sum(fs, Measured(fs, sources[k - 1], unmeasured[k - 1]))
  }

  /**
    `directorySize`.  Files whose size cannot be read are passed over without an error, and a request to
    stop ends the count without one.
   */
  method DirectorySize(w: Worker, directory: Path, unmeasured: set<Path>) returns (ok: bool, size: nat)
    modifies w`cancelled
    ensures old(w.cancelled) ==> w.cancelled
    ensures ok ==> w.cancelled || size == Sum(w.fs, Under(w.fs, directory) - {directory} - unmeasured)
    ensures w.calm ==> ok && w.cancelled == old(w.cancelled)
  {
    var todo := Under(w.fs, directory) - {directory};
    ghost var all := todo - unmeasured;
    size := 0;
    while todo != {}
      invariant todo <= w.fs.Keys && all <= w.fs.Keys && (old(w.cancelled) ==> w.cancelled)
      invariant size + Sum(w.fs, todo - unmeasured) == Sum(w.fs, all)
      invariant w.calm ==> w.cancelled == old(w.cancelled)
    {
      var stop := w.Cancelled();
      if stop {
        return true, size;
      }
      var p :| p in todo;
      var advanced := w.Works();
      if !advanced {
        return false, size;
      }
      MeasureNext(w.fs, todo, p, unmeasured);
      if w.fs[p].File? && p !in unmeasured {
        size := size + |w.fs[p].data|;
      }
      todo := todo - {p};
    }
    assert todo - unmeasured == {};
    ok := true;
  }

  lemma MeasureNext(fs: Fs, todo: set<Path>, p: Path, unmeasured: set<Path>)
    requires p in todo && todo <= fs.Keys
    ensures Sum(fs, todo - unmeasured) ==
              Sum(fs, todo - {p} - unmeasured) + if p in unmeasured then 0 else Size(fs[p])
  {
    if p in unmeasured {
      assert todo - unmeasured == todo - {p} - unmeasured;
    } else {
      SumPick(fs, todo - unmeasured, p);
      assert todo - unmeasured - {p} == todo - {p} - unmeasured;
    }
  }

  /** One source: it exists, is no link, its target is new and outside it; and its size. */
  method InspectSource(w: Worker, source: Path, destination: Path, unmeasured: set<Path>) returns (ok: bool, size: nat)
    requires WellFormed(w.fs)
    modifies w`cancelled
    ensures old(w.cancelled) ==> w.cancelled
    ensures ok ==> SourceOk(w.fs, source, destination)
    ensures ok ==> w.cancelled || size == Sum(w.fs, Measured(w.fs, source, unmeasured))
    ensures w.calm ==> w.cancelled == old(w.cancelled) && (SourceOk(w.fs, source, destination) ==> ok)
  {
    ok := w.Works();
    size := 0;
    if !ok || source == [] || source !in w.fs || w.fs[source].Link? {
      return false, 0;
    }
    var target := Target(destination, source);
    if Below(target, source) || target in w.fs {
      return false, 0;
    }
    if w.fs[source].Dir? {
      ok, size := DirectorySize(w, source, unmeasured);
      MeasuredDirectory(w.fs, source, unmeasured);
    } else {
      size := |w.fs[source].data|;
      MeasuredFile(w.fs, source, unmeasured);
    }
  }

  lemma MeasuredDirectory(fs: Fs, source: Path, unmeasured: set<Path>)
    requires source in fs && fs[source].Dir?
    ensures Sum(fs, Measured(fs, source, unmeasured)) == Sum(fs, Under(fs, source) - {source} - unmeasured)
  {
    SumPick(fs, Measured(fs, source, unmeasured), source);
    assert Measured(fs, source, unmeasured) - {source} == Under(fs, source) - {source} - unmeasured;
  }

  lemma MeasuredFile(fs: Fs, source: Path, unmeasured: set<Path>)
    requires WellFormed(fs) && source in fs && fs[source].File?
    ensures Sum(fs, Measured(fs, source, unmeasured)) == |fs[source].data|
  {
    assert Under(fs, source) == {source};
    assert Measured(fs, source, unmeasured) == {source};
    SumPick(fs, {source}, source);
    assert {source} - {source} == {};
  }

  /** The first k sources have been accepted, and measured unless somebody asked to stop. */
  ghost predicate Inspected(fs: Fs, sources: seq<Path>, destination: Path, unmeasured: seq<set<Path>>, k: nat,
                            targets: set<Path>, sum: nat, cancelled: bool)
    requires k <= |sources| == |unmeasured|
  {
    && SourcesOk(fs, sources, destination, k) && targets == Targets(destination, sources, k)
    && (cancelled || sum == MeasuredOfAll(fs, sources, unmeasured, k))
  }

  /** One more of them. */
  method InspectNext(w: Worker, sources: seq<Path>, destination: Path, unmeasured: seq<set<Path>>, k: nat,
                     targets: set<Path>, sum: nat)
      returns (ok: bool, sum': nat)
    requires WellFormed(w.fs) && k < |sources| == |unmeasured|
    requires Inspected(w.fs, sources, destination, unmeasured, k, targets, sum, w.cancelled)
    modifies w`cancelled
    ensures old(w.cancelled) ==> w.cancelled
    ensures ok ==> Inspected(w.fs, sources, destination, unmeasured, k + 1,
                             targets + {Target(destination, sources[k])}, sum', w.cancelled)
    ensures w.calm ==> w.cancelled == old(w.cancelled)
    ensures w.calm && !w.cancelled && SourcesOk(w.fs, sources, destination, k + 1) && SizeOfAll(w.fs, sources, k + 1) < U64_LIMIT ==> ok
  {
    var size;
    MeasuredIsAllIff(w.fs, sources, unmeasured, k + 1);
    ok, size := InspectSource(w, sources[k], destination, unmeasured[k]);
    ok := ok && Target(destination, sources[k]) !in targets && size <= MAX_SIZE - sum;
    sum' := sum + size;
  }

  /**
    All the sources, before anything is written; `unmeasured[k]` are the paths whose size query fails
    while source k is measured.
   */
  method Preflight(w: Worker, sources: seq<Path>, destination: Path, unmeasured: seq<set<Path>>) returns (ok: bool)
    requires WellFormed(w.fs) && |unmeasured| == |sources|
    modifies w`cancelled, w`total
    ensures old(w.cancelled) ==> w.cancelled
    ensures ok ==> sources != [] && SourcesOk(w.fs, sources, destination, |sources|)
    ensures ok ==> w.cancelled || w.total == MeasuredOfAll(w.fs, sources, unmeasured, |sources|)
    ensures w.calm ==> w.cancelled == old(w.cancelled)
    ensures w.calm && !w.cancelled && sources != [] && SourcesOk(w.fs, sources, destination, |sources|) ==>
              (SizeOfAll(w.fs, sources, |sources|) < U64_LIMIT ==> ok)
  {
    if sources == [] {
      return false;
    }
    var sum: nat := 0;
    var targets := {};
    for k := 0 to |sources|
      invariant old(w.cancelled) ==> w.cancelled
      invariant Inspected(w.fs, sources, destination, unmeasured, k, targets, sum, w.cancelled)
      invariant w.calm ==> w.cancelled == old(w.cancelled)
    {
      ok, sum := InspectNext(w, sources, destination, unmeasured, k, targets, sum);
      if !ok {
        FewerFit(w.fs, sources, destination, k + 1);
        return;
      }
      targets := targets + {Target(destination, sources[k])};
    }
    w.total := sum;
    ok := true;
  }

  lemma FewerFit(fs: Fs, sources: seq<Path>, destination: Path, k: nat)
    requires k <= |sources|
    ensures SourcesOk(fs, sources, destination, |sources|) ==> SourcesOk(fs, sources, destination, k)
    ensures SizeOfAll(fs, sources, k) <= SizeOfAll(fs, sources, |sources|)
  {
    if SourcesOk(fs, sources, destination, |sources|) {
      FewerOk(fs, sources, destination, k, |sources|);
    }
    SizesGrow(fs, sources, k, |sources|);
  }

  lemma {:induction false} SizesGrow(fs: Fs, sources: seq<Path>, k: nat, n: nat)
    requires k <= n <= |sources|
    ensures SizeOfAll(fs, sources, k) <= SizeOfAll(fs, sources, n)
  {
    if k < n {
      SizesGrow(fs, sources, k, n - 1);
    }
  }

  // ----- When the count comes out -----

  /** Every file that was not measured is empty. */
  ghost predicate SkippedEmpty(fs: Fs, source: Path, unmeasured: set<Path>) {
    forall p :: p in Under(fs, source) && p in unmeasured && p != source ==> Size(fs[p]) == 0
  }

  ghost predicate AllSkippedEmpty(fs: Fs, sources: seq<Path>, unmeasured: seq<set<Path>>, k: nat)
    requires k <= |sources| == |unmeasured|
  {
    k == 0 || (AllSkippedEmpty(fs, sources, unmeasured, k - 1) && SkippedEmpty(fs, sources[k - 1], unmeasured[k - 1]))
  }

  lemma {:induction false} SumIsZeroIff(fs: Fs, ps: set<Path>)
    requires ps <= fs.Keys
    ensures Sum(fs, ps) == 0 <==> forall p :: p in ps ==> Size(fs[p]) == 0
    decreases ps
  {
    if ps != {} {
      var p :| p in ps;
      SumPick(fs, ps, p);
      SumIsZeroIff(fs, ps - {p});
    }
  }

  lemma MeasuredSource(fs: Fs, source: Path, unmeasured: set<Path>)
    ensures Sum(fs, Measured(fs, source, unmeasured)) <= Sum(fs, Under(fs, source))
    ensures Sum(fs, Measured(fs, source, unmeasured)) == Sum(fs, Under(fs, source)) <==> SkippedEmpty(fs, source, unmeasured)
  {
    var kept, skipped := Measured(fs, source, unmeasured), Under(fs, source) * (unmeasured - {source});
    assert Under(fs, source) == kept + skipped;
    SumUnion(fs, kept, skipped);
    SumIsZeroIff(fs, skipped);
  }

  /** The measured total is the whole exactly when every file that was passed over is empty. */
  lemma {:induction false} MeasuredIsAllIff(fs: Fs, sources: seq<Path>, unmeasured: seq<set<Path>>, k: nat)
    requires k <= |sources| == |unmeasured|
    ensures MeasuredOfAll(fs, sources, unmeasured, k) <= SizeOfAll(fs, sources, k)
    ensures MeasuredOfAll(fs, sources, unmeasured, k) == SizeOfAll(fs, sources, k) <==>
              AllSkippedEmpty(fs, sources, unmeasured, k)
  {
    if k > 0 {
      MeasuredIsAllIff(fs, sources, unmeasured, k - 1);
      MeasuredSource(fs, sources[k - 1], unmeasured[k - 1]);
    }
  }

  /** A folder with one file of three bytes, whose size query fails: three bytes copied, none announced. */
  lemma OneFileUnmeasured(data: Bytes)
    requires |data| == 3
    ensures var fs := map[[] := Dir, ["d"] := Dir, ["d", "f"] := File(data)];
            && SizeOfAll(fs, [["d"]], 1) == 3
            && MeasuredOfAll(fs, [["d"]], [{["d", "f"]}], 1) == 0
  {
    var fs: Fs := map[[] := Dir, ["d"] := Dir, ["d", "f"] := File(data)];
    var d: Path, f: Path := ["d"], ["d", "f"];
    assert Below(d, d) && Below(f, d) && !Below([], d);
    assert Under(fs, d) == {d, f};
    assert Measured(fs, d, {f}) == {d};
    SumPick(fs, {d, f}, f);
    assert {d, f} - {f} == {d};
    SumPick(fs, {d}, d);
    assert {d} - {d} == {};
    assert SizeOfAll(fs, [d], 0) == 0 && MeasuredOfAll(fs, [d], [{f}], 0) == 0;
  }

  // ----- The job -----

  /** No target lies inside a source, nor a source inside a target. */
  lemma TargetApart(fs: Fs, s: Path, s2: Path, destination: Path)
    requires WellFormed(fs) && SourceOk(fs, s, destination) && SourceOk(fs, s2, destination)
    ensures Apart(Target(destination, s), s2)
  {
    var t, t2 := Target(destination, s), Target(destination, s2);
    assert |s2| <= |destination| ==> t[..|s2|] == destination[..|s2|] == t2[..|s2|];
  }

  lemma CopiesNext(fs: Fs, sources: seq<Path>, destination: Path, k: nat)
    requires k < |sources|
    ensures fs + Copies(fs, sources, destination, k + 1) ==
              (fs + Copies(fs, sources, destination, k)) + Graft(fs, sources[k], Target(destination, sources[k]))
  {
    UnionAssoc(fs, Copies(fs, sources, destination, k), Graft(fs, sources[k], Target(destination, sources[k])));
  }

  lemma GraftElsewhere(fs: Fs, now: Fs, a: Path, b: Path, s: Path)
    requires Apart(b, s) && SameInside(fs, now, s)
    ensures SameInside(fs, now + Graft(fs, a, b), s)
  {
  }

  /** The copies made so far touch no source. */
  lemma {:induction false} CopiesElsewhere(fs: Fs, sources: seq<Path>, destination: Path, k: nat, s: Path)
    requires WellFormed(fs) && k <= |sources| && SourcesOk(fs, sources, destination, k) && SourceOk(fs, s, destination)
    ensures SameInside(fs, fs + Copies(fs, sources, destination, k), s)
  {
    if k > 0 {
      CopiesElsewhere(fs, sources, destination, k - 1, s);
      TargetApart(fs, sources[k - 1], s, destination);
      CopiesNext(fs, sources, destination, k - 1);
      GraftElsewhere(fs, fs + Copies(fs, sources, destination, k - 1), sources[k - 1], Target(destination, sources[k - 1]), s);
    }
  }

  /** One source, whatever its kind; a failure leaves no trace. */
  method CopySource(w: Worker, source: Path, target: Path) returns (ok: bool)
    requires WellFormed(w.fs) && Copyable(w.fs, source, target)
    modifies w`fs, w`cancelled, w`completed
    ensures WellFormed(w.fs)
    ensures w.fs == if ok then old(w.fs) + Graft(old(w.fs), source, target) else old(w.fs)
    ensures ok ==> !w.cancelled
    ensures ok ==> w.completed == old(w.completed) + Sum(old(w.fs), Under(old(w.fs), source))
    ensures w.calm ==> w.cancelled == old(w.cancelled)
    ensures w.calm && !w.cancelled && Simple(old(w.fs), source) && CanCreate(old(w.fs), target) && FreeName(old(w.fs), target) ==> ok
  {
    if w.fs[source].Dir? {
      ok := CopyDirectory(w, source, target);
    } else {
      ok := w.CopyFile(source, target);
      if ok {
        CopiedFile(old(w.fs), source, target);
      }
    }
  }

  /** A sibling of the first n targets is in none of them. */
  lemma {:induction false} SiblingFree(fs: Fs, sources: seq<Path>, destination: Path, n: nat, s: Path, p: Path)
    requires n <= |sources| && SourcesOk(fs, sources, destination, n) && s != []
    requires Target(destination, s) !in Targets(destination, sources, n) && Below(p, Target(destination, s))
    ensures p !in Copies(fs, sources, destination, n)
  {
    if n > 0 {
      SiblingFree(fs, sources, destination, n - 1, s, p);
      if Below(p, Target(destination, sources[n - 1])) {
        Siblings(destination, s, sources[n - 1], p);
      }
    }
  }

  lemma Siblings(destination: Path, s: Path, s2: Path, p: Path)
    requires s != [] && s2 != [] && Below(p, Target(destination, s)) && Below(p, Target(destination, s2))
    ensures Target(destination, s) == Target(destination, s2)
  {
  }

  /** The first k sources have been copied, and nothing else has happened. */
  ghost predicate Copied(fs: Fs, before: Fs, sources: seq<Path>, destination: Path, k: nat)
    requires k <= |sources|
  {
    WellFormed(fs) && fs == before + Copies(before, sources, destination, k)
  }

  /** How a job began. */
  datatype Begun = Begun(fs: Fs, completed: nat, cancelled: bool, sure: bool)

  /** The destination is a directory, and neither in it nor in a source anything can stop a copy. */
  ghost predicate Smooth(fs: Fs, sources: seq<Path>, destination: Path) {
    && IsDir(fs, destination) && destination + [FIRST_TEMP] !in fs
    && forall i :: 0 <= i < |sources| ==> sources[i] != [] && sources[i][|sources[i]| - 1] != FIRST_TEMP && Simple(fs, sources[i])
  }

  /** A job nothing can stop but a call that fails, or the user. */
  ghost predicate CanCopy(fs: Fs, sources: seq<Path>, destination: Path) {
    && sources != [] && SourcesOk(fs, sources, destination, |sources|) && Smooth(fs, sources, destination)
    && SizeOfAll(fs, sources, |sources|) < U64_LIMIT
  }

  /** Nothing fails and nobody asks to stop. */
  ghost predicate Sure(w: Worker, b: Begun, sources: seq<Path>, destination: Path)
    reads w
  {
    b.sure ==> w.calm && !w.cancelled && Smooth(b.fs, sources, destination)
  }

  /** A job that has copied k sources and counted their bytes; it gets nowhere if it began cancelled. */
  ghost predicate Running(fs: Fs, completed: nat, cancelled: bool, b: Begun, sources: seq<Path>, destination: Path, k: nat)
    requires k <= |sources|
  {
    && WellFormed(b.fs) && SourcesOk(b.fs, sources, destination, |sources|)
    && Copied(fs, b.fs, sources, destination, k) && completed == b.completed + SizeOfAll(b.fs, sources, k)
    && (b.cancelled ==> cancelled && k == 0)
  }

  /** Source k, of a job that has copied those before it. */
  method CopyNext(w: Worker, sources: seq<Path>, destination: Path, k: nat, ghost b: Begun) returns (ok: bool)
    requires k < |sources| && Running(w.fs, w.completed, w.cancelled, b, sources, destination, k)
    requires Sure(w, b, sources, destination)
    modifies w`fs, w`cancelled, w`completed
    ensures Sure(w, b, sources, destination) && (b.sure ==> ok)
    ensures !ok ==> Copied(w.fs, b.fs, sources, destination, k)
    ensures ok ==> Running(w.fs, w.completed, w.cancelled, b, sources, destination, k + 1)
  {
    ghost var now := w.fs;
    var source, target := sources[k], Target(destination, sources[k]);
    NextCopyable(b.fs, sources, destination, k);
    if b.sure {
      NextSmooth(b.fs, sources, destination, k);
    }
    var stop := w.Cancelled();
    if stop {
      return false;
    }
    ok := CopySource(w, source, target);
    if ok {
      NextCopied(b.fs, now, sources, destination, k);
    }
  }

  /** ... and nothing can stop its copy. */
  lemma NextSmooth(before: Fs, sources: seq<Path>, destination: Path, k: nat)
    requires WellFormed(before) && k < |sources| && SourcesOk(before, sources, destination, |sources|)
    requires Smooth(before, sources, destination)
    ensures var now, target := before + Copies(before, sources, destination, k), Target(destination, sources[k]);
            Simple(now, sources[k]) && CanCreate(now, target) && FreeName(now, target)
  {
    var now, n := before + Copies(before, sources, destination, k), sources[k][|sources[k]| - 1];
    NextCopyable(before, sources, destination, k);
    SimpleSame(before, now, sources[k]);
    FewerOk(before, sources, destination, k, |sources|);
    if destination in Copies(before, sources, destination, k) {
      CopiesAreNew(before, sources, destination, k, destination);
    }
    TempUntouched(before, sources, destination, k);
    FirstIsFree(now, destination, n);
    assert Parent(destination + [n]) == destination;
  }

  lemma TempUntouched(before: Fs, sources: seq<Path>, destination: Path, k: nat)
    requires WellFormed(before) && k <= |sources| && SourcesOk(before, sources, destination, k)
    requires Smooth(before, sources, destination)
    ensures destination + [FIRST_TEMP] !in before + Copies(before, sources, destination, k)
  {
    var p := destination + [FIRST_TEMP];
    forall i | 0 <= i < k ensures !Below(p, Target(destination, sources[i])) {
      assert Target(destination, sources[i])[|destination|] != p[|destination|];
    }
    if p in Copies(before, sources, destination, k) {
      CopiesAreNew(before, sources, destination, k, p);
    }
  }

  /** Source k is untouched and its target still free. */
  lemma NextCopyable(before: Fs, sources: seq<Path>, destination: Path, k: nat)
    requires WellFormed(before) && k < |sources| && SourcesOk(before, sources, destination, |sources|)
    ensures var now := before + Copies(before, sources, destination, k);
            SameInside(before, now, sources[k]) && Copyable(now, sources[k], Target(destination, sources[k]))
  {
    FewerOk(before, sources, destination, k + 1, |sources|);
    CopiesElsewhere(before, sources, destination, k, sources[k]);
    SiblingFree(before, sources, destination, k, sources[k], Target(destination, sources[k]));
  }

  lemma NextCopied(before: Fs, now: Fs, sources: seq<Path>, destination: Path, k: nat)
    requires k < |sources| && now == before + Copies(before, sources, destination, k)
    requires SameInside(before, now, sources[k])
    ensures now + Graft(now, sources[k], Target(destination, sources[k])) == before + Copies(before, sources, destination, k + 1)
    ensures SizeOfAll(before, sources, k + 1) == SizeOfAll(before, sources, k) + Sum(now, Under(now, sources[k]))
  {
    var source := sources[k];
    GraftSame(before, now, source, Target(destination, source));
    CopiesNext(before, sources, destination, k);
    SumSameInside(before, now, source);
  }

  lemma {:induction false} FewerOk(fs: Fs, sources: seq<Path>, destination: Path, k: nat, n: nat)
    requires k <= n <= |sources| && SourcesOk(fs, sources, destination, n)
    ensures SourcesOk(fs, sources, destination, k)
  {
    if k < n {
      FewerOk(fs, sources, destination, k, n - 1);
    }
  }

  lemma NoneCopied(fs: Fs, sources: seq<Path>, destination: Path)
    requires WellFormed(fs)
    ensures Copied(fs, fs, sources, destination, 0)
  {
  }

  /** The accepted sources, one after the other. */
  method CopySources(w: Worker, sources: seq<Path>, destination: Path, ghost b: Begun) returns (ok: bool, copied: nat)
    requires Running(w.fs, w.completed, w.cancelled, b, sources, destination, 0) && Sure(w, b, sources, destination)
    modifies w`fs, w`cancelled, w`completed
    ensures b.sure ==> ok
    ensures copied <= |sources| && (!ok ==> Copied(w.fs, b.fs, sources, destination, copied))
    ensures ok ==> copied == |sources| && Running(w.fs, w.completed, w.cancelled, b, sources, destination, copied)
  {
    for k := 0 to |sources|
      invariant Running(w.fs, w.completed, w.cancelled, b, sources, destination, k) && Sure(w, b, sources, destination)
    {
      ok := CopyNext(w, sources, destination, k, b);
      if !ok {
        return false, k;
      }
    }
    return true, |sources|;
  }

  /**
    `run` for a copy job.  Whatever happens, the file system is the old one plus complete copies of the
    first `copied` sources; on success that is all of them, all their bytes have been counted, and the
    count is the announced total exactly when every file whose size could not be read is empty.
   */
  method RunCopy(w: Worker, sources: seq<Path>, destination: Path, unmeasured: seq<set<Path>>) returns (ok: bool, copied: nat)
    requires WellFormed(w.fs) && |unmeasured| == |sources|
    modifies w
    ensures copied <= |sources| && Copied(w.fs, old(w.fs), sources, destination, copied)
    // what existed is unchanged, each copy mirrors its source, and nothing else is new
    ensures forall p :: p in old(w.fs) ==> p in w.fs && w.fs[p] == old(w.fs)[p]
    ensures forall i :: 0 <= i < copied ==> sources[i] != [] && Mirrors(w.fs, old(w.fs), sources[i], destination)
    ensures forall p :: p in w.fs && p !in old(w.fs) ==>
              exists i :: 0 <= i < copied && sources[i] != [] && destination + [sources[i][|sources[i]| - 1]] <= p
    ensures copied > 0 ==> SourcesOk(old(w.fs), sources, destination, |sources|)
    ensures ok ==> copied == |sources| > 0
    // when nothing fails and nobody asks to stop, every job without links and temporary names succeeds
    ensures w.calm && !old(w.cancelled) && CanCopy(old(w.fs), sources, destination) ==> ok
    ensures ok ==> w.completed == old(w.completed) + SizeOfAll(old(w.fs), sources, |sources|)
    ensures ok ==> w.total == MeasuredOfAll(old(w.fs), sources, unmeasured, |sources|)
    ensures ok ==> (w.completed == old(w.completed) + w.total <==>
                      AllSkippedEmpty(old(w.fs), sources, unmeasured, |sources|))
  {
    copied := 0;
    NoneCopied(w.fs, sources, destination);
    MeasuredIsAllIff(w.fs, sources, unmeasured, |sources|);
    ok := Preflight(w, sources, destination, unmeasured);
    if ok {
      ghost var sure := w.calm && !w.cancelled && Smooth(w.fs, sources, destination);
      ok, copied := CopySources(w, sources, destination, Begun(w.fs, w.completed, w.cancelled, sure));
      FewerOk(old(w.fs), sources, destination, copied, |sources|);
      CopiesMirror(old(w.fs), sources, destination, copied);
    }
  }

  // ----- What that means -----

  /** Under its own name in the destination there is what is in the source, path by path. */
  ghost predicate Mirrors(after: Fs, before: Fs, source: Path, destination: Path)
    requires source != []
  {
    forall rest: Path ::
      var p, q := destination + [source[|source| - 1]] + rest, source + rest;
      (p in after <==> q in before) && (q in before ==> after[p] == before[q])
  }

  lemma CopiesMirror(fs: Fs, sources: seq<Path>, destination: Path, k: nat)
    requires WellFormed(fs) && k <= |sources| && SourcesOk(fs, sources, destination, k)
    ensures var after := fs + Copies(fs, sources, destination, k);
            && (forall p :: p in fs ==> p in after && after[p] == fs[p])
            && (forall i :: 0 <= i < k ==> sources[i] != [] && Mirrors(after, fs, sources[i], destination))
            && (forall p :: p in after && p !in fs ==>
                  exists i :: 0 <= i < k && sources[i] != [] && destination + [sources[i][|sources[i]| - 1]] <= p)
  {
    var after := fs + Copies(fs, sources, destination, k);
    forall p | p in fs ensures p in after && after[p] == fs[p] {
      if p in Copies(fs, sources, destination, k) {
        CopiesAreNew(fs, sources, destination, k, p);
      }
    }
    forall i | 0 <= i < k ensures sources[i] != [] && Mirrors(after, fs, sources[i], destination) {
      EachSourceOk(fs, sources, destination, k, i);
      SourceMirrors(fs, sources, destination, k, i);
    }
    forall p | p in after && p !in fs
      ensures exists i :: 0 <= i < k && sources[i] != [] && destination + [sources[i][|sources[i]| - 1]] <= p
    {
      CopiesAreNew(fs, sources, destination, k, p);
      var i :| 0 <= i < k && Below(p, Target(destination, sources[i]));
      EachSourceOk(fs, sources, destination, k, i);
    }
  }

  lemma SourceMirrors(fs: Fs, sources: seq<Path>, destination: Path, k: nat, i: nat)
    requires WellFormed(fs) && i < k <= |sources| && SourcesOk(fs, sources, destination, k) && sources[i] != []
    ensures Mirrors(fs + Copies(fs, sources, destination, k), fs, sources[i], destination)
  {
    var after := fs + Copies(fs, sources, destination, k);
    forall p | Below(p, Target(destination, sources[i]))
      ensures SameAt(after, p, fs, Rebase(p, Target(destination, sources[i]), sources[i]))
    {
      TargetIsImage(fs, sources, destination, k, i, p);
    }
    ImageMirrors(after, fs, sources[i], destination);
  }

  predicate SameAt(after: Fs, p: Path, before: Fs, q: Path) {
    (p in after <==> q in before) && (q in before ==> after[p] == before[q])
  }

  lemma ImageMirrors(after: Fs, fs: Fs, source: Path, destination: Path)
    requires source != []
    requires forall p :: Below(p, Target(destination, source)) ==>
               SameAt(after, p, fs, Rebase(p, Target(destination, source), source))
    ensures Mirrors(after, fs, source, destination)
  {
    var target := Target(destination, source);
    forall rest: Path
      ensures SameAt(after, destination + [source[|source| - 1]] + rest, fs, source + rest)
    {
      assert Below(target + rest, target) && (target + rest)[|target|..] == rest;
      assert Rebase(target + rest, target, source) == source + rest;
    }
  }

  /** Nothing that existed changes, and every new path lies in the target of a source. */
  lemma {:induction false} CopiesAreNew(fs: Fs, sources: seq<Path>, destination: Path, k: nat, p: Path)
    requires WellFormed(fs) && k <= |sources| && SourcesOk(fs, sources, destination, k)
    requires p in Copies(fs, sources, destination, k)
    ensures p !in fs
    ensures exists i :: 0 <= i < k && Below(p, Target(destination, sources[i]))
  {
    var i := k - 1;
    if p in Copies(fs, sources, destination, i) {
      CopiesAreNew(fs, sources, destination, i, p);
    } else {
      NothingUnder(fs, Target(destination, sources[i]));
      assert Below(p, Target(destination, sources[i]));
    }
  }

  /** Each target is the exact image of its source. */
  lemma {:induction false} TargetIsImage(fs: Fs, sources: seq<Path>, destination: Path, k: nat, i: nat, p: Path)
    requires WellFormed(fs) && i < k <= |sources| && SourcesOk(fs, sources, destination, k)
    requires Below(p, Target(destination, sources[i]))
    ensures var after, q := fs + Copies(fs, sources, destination, k), Rebase(p, Target(destination, sources[i]), sources[i]);
            (p in after <==> q in fs) && (q in fs ==> after[p] == fs[q])
  {
    EachSourceOk(fs, sources, destination, k, i);
    var n := k - 1;
    if i < n {
      TargetIsImage(fs, sources, destination, n, i, p);
      TargetsDiffer(fs, sources, destination, k, i, n);
      if Below(p, Target(destination, sources[n])) {
        Siblings(destination, sources[i], sources[n], p);
      }
    } else {
      NothingUnder(fs, Target(destination, sources[i]));
      SiblingFree(fs, sources, destination, i, sources[i], p);
    }
  }
}
