/** Deleting files and folders: every item is counted first, then removed from the inside out. */
module DeleteJob {
  import opened Bytes
  import opened FileTree
  import opened Explorer
  import opened CopyJob

  lemma CardUnion(ps: set<Path>, qs: set<Path>)
    requires ps !! qs
    ensures |ps + qs| == |ps| + |qs|
  {
    assert ps * qs == {};
  }

  // ----- Counting -----

  lemma CountNext(fs: Fs, a: Path, done: seq<string>, n: string)
    requires n !in done
    ensures |UnderNames(fs, a, done + [n])| == |UnderNames(fs, a, done)| + |Under(fs, a + [n])|
  {
    UnderNext(fs, a, done, n);
    CardUnion(UnderNames(fs, a, done), Under(fs, a + [n]));
  }

  lemma CountAll(fs: Fs, a: Path, names: seq<string>)
    requires WellFormed(fs) && a in fs && Listing(fs, a, names)
    ensures |Under(fs, a)| == 1 + |UnderNames(fs, a, names)|
  {
    PartAll(fs, a, a, names);
    CardUnion({a}, UnderNames(fs, a, names));
  }

  lemma CountGrows(fs: Fs, a: Path, names: seq<string>, i: nat)
    requires i <= |names|
    ensures |UnderNames(fs, a, names[..i])| <= |UnderNames(fs, a, names)|
  {
    var some, all := UnderNames(fs, a, names[..i]), UnderNames(fs, a, names);
    assert some <= all;
    CardUnion(some, all - some);
    assert some + (all - some) == all;
  }

  lemma ChildDepth(fs: Fs, a: Path, names: seq<string>, i: nat, bound: nat)
    requires Listing(fs, a, names) && i < |names| && Depth(fs, a, bound)
    ensures a + [names[i]] in fs && |a| + 1 <= bound && Depth(fs, a + [names[i]], bound)
  {
    assert names[i] in names;
    assert Below(a + [names[i]], a);
    assert forall p :: Below(p, a + [names[i]]) ==> Below(p, a);
  }

  /** `countTree`: the item and everything inside it. */
  method CountTree(w: Worker, source: Path, ghost bound: nat) returns (ok: bool, count: nat)
    requires WellFormed(w.fs) && Depth(w.fs, source, bound)
    modifies w`cancelled
    ensures ok ==> source in w.fs && count == |Under(w.fs, source)|
    ensures w.calm ==> w.cancelled == old(w.cancelled)
    ensures w.calm && !w.cancelled && source in w.fs && |Under(w.fs, source)| < U64_LIMIT ==> ok
    decreases bound - |source|, 1
  {
    var stop := w.Cancelled();
    var answered := w.Works();
    if stop || !answered || source !in w.fs {
      return false, 0;
    }
    if !w.fs[source].Dir? {
      assert Under(w.fs, source) == {source};
      return true, 1;
    }
    var names := w.List(source);
    ok, count := CountEntries(w, source, names, bound);
    CountAll(w.fs, source, names);
  }

  method CountEntries(w: Worker, source: Path, names: seq<string>, ghost bound: nat) returns (ok: bool, count: nat)
    requires WellFormed(w.fs) && Listing(w.fs, source, names) && Depth(w.fs, source, bound) && source in w.fs
    modifies w`cancelled
    ensures ok ==> count == 1 + |UnderNames(w.fs, source, names)|
    ensures w.calm ==> w.cancelled == old(w.cancelled)
    ensures w.calm && !w.cancelled && 1 + |UnderNames(w.fs, source, names)| < U64_LIMIT ==> ok
    decreases bound - |source|, 0
  {
    ok, count := true, 1;
    assert UnderNames(w.fs, source, []) == {};
    for i := 0 to |names|
      invariant ok && count == 1 + |UnderNames(w.fs, source, names[..i])|
      invariant w.calm ==> w.cancelled == old(w.cancelled)
    {
      ChildDepth(w.fs, source, names, i, bound);
      CountNext(w.fs, source, names[..i], names[i]);
      Snoc(names, i);
      CountGrows(w.fs, source, names, i + 1);
      var items;
      ok, items := CountTree(w, source + [names[i]], bound);
      if !ok || items > U64_LIMIT - 1 - count {
        return false, count;
      }
      count := count + items;
    }
    Whole(names);
  }

  // ----- Removing -----

  /** Some of what lies below a has gone; nothing else has changed. */
  ghost predicate Thinned(fs: Fs, before: Fs, a: Path) {
    WellFormed(fs) && SameOutside(before, fs, a) && forall p :: p in fs ==> p in before && fs[p] == before[p]
  }

  /** The entries in `done` have gone, and their items counted from c0. */
  ghost predicate Cleared(fs: Fs, completed: nat, before: Fs, a: Path, done: seq<string>, c0: nat) {
    WellFormed(fs) && fs == before - UnderNames(before, a, done) && completed == c0 + |UnderNames(before, a, done)|
  }

  lemma ClearedReady(fs: Fs, completed: nat, before: Fs, a: Path, names: seq<string>, i: nat, bound: nat, c0: nat)
    requires i < |names| && Listing(before, a, names) && Depth(before, a, bound)
    requires Cleared(fs, completed, before, a, names[..i], c0)
    ensures Depth(fs, a + [names[i]], bound) && |a| + 1 <= bound
    ensures Under(fs, a + [names[i]]) == Under(before, a + [names[i]])
  {
    ChildDepth(before, a, names, i, bound);
    UnderNext(before, a, names[..i], names[i]);
  }

  lemma ClearedNext(fs: Fs, before: Fs, a: Path, done: seq<string>, n: string)
    requires n !in done && fs == before - UnderNames(before, a, done) && Under(fs, a + [n]) == Under(before, a + [n])
    ensures Pruned(fs, a + [n]) == before - UnderNames(before, a, done + [n])
    ensures |UnderNames(before, a, done + [n])| == |UnderNames(before, a, done)| + |Under(fs, a + [n])|
  {
    UnderNext(before, a, done, n);
    CountNext(before, a, done, n);
  }

  lemma ClearedThinned(fs: Fs, completed: nat, before: Fs, a: Path, done: seq<string>, c0: nat)
    requires Cleared(fs, completed, before, a, done, c0)
    ensures Thinned(fs, before, a)
  {
  }

  lemma ThinnedChild(fs: Fs, now: Fs, before: Fs, a: Path, n: string)
    requires Thinned(now, before, a) && Thinned(fs, now, a + [n])
    ensures Thinned(fs, before, a)
  {
    assert forall p :: Below(p, a + [n]) ==> Below(p, a);
  }

  /** With its entries gone, the directory is empty. */
  lemma AllCleared(fs: Fs, completed: nat, before: Fs, a: Path, names: seq<string>, c0: nat)
    requires WellFormed(before) && a in before && Listing(before, a, names)
    requires Cleared(fs, completed, before, a, names, c0)
    ensures Under(fs, a) == {a} && fs - {a} == Pruned(before, a) && completed + 1 == c0 + |Under(before, a)|
  {
    PartAll(before, a, a, names);
    CountAll(before, a, names);
  }

  /** `removeTree`. */
  method RemoveTree(w: Worker, source: Path, ghost bound: nat) returns (ok: bool)
    requires WellFormed(w.fs) && Depth(w.fs, source, bound)
    modifies w`fs, w`cancelled, w`completed
    ensures Thinned(w.fs, old(w.fs), source)
    ensures ok ==> source in old(w.fs) && w.fs == Pruned(old(w.fs), source)
    ensures ok ==> w.completed == old(w.completed) + |Under(old(w.fs), source)|
    ensures w.calm ==> w.cancelled == old(w.cancelled) && (!w.cancelled && source in old(w.fs) ==> ok)
    decreases bound - |source|, 2
  {
    var stop := w.Cancelled();
    var answered := w.Works();
    if stop || !answered || source !in w.fs {
      return false;
    }
    var names := [];
    if w.fs[source].Dir? {
      names := w.List(source);
    } else {
      FileListing(w.fs, source);
    }
    ok := RemoveEntries(w, source, names, bound);
    if !ok {
      return;
    }
    AllCleared(w.fs, w.completed, old(w.fs), source, names, old(w.completed));
    ClearedThinned(w.fs, w.completed, old(w.fs), source, names, old(w.completed));
    ok := RemoveItem(w, source, old(w.fs));
  }

  lemma FileListing(fs: Fs, a: Path)
    requires WellFormed(fs) && a in fs && !fs[a].Dir?
    ensures Listing(fs, a, [])
  {
    assert forall n :: Below(a + [n], a) && a + [n] != a;
  }

  /** The item itself, once it is empty. */
  method RemoveItem(w: Worker, source: Path, ghost before: Fs) returns (ok: bool)
    requires WellFormed(w.fs) && Under(w.fs, source) == {source} && Thinned(w.fs, before, source)
    modifies w`fs, w`cancelled, w`completed
    ensures Thinned(w.fs, before, source)
    ensures ok ==> w.fs == old(w.fs) - {source} && w.completed == old(w.completed) + 1
    ensures w.calm ==> w.cancelled == old(w.cancelled) && (!w.cancelled ==> ok)
  {
    var stop := w.Cancelled();
    ok := w.Works();
    ok := ok && !stop;
    if ok {
      w.Remove(source);
      w.completed := w.completed + 1;
    }
  }

  method RemoveEntries(w: Worker, source: Path, names: seq<string>, ghost bound: nat) returns (ok: bool)
    requires WellFormed(w.fs) && Listing(w.fs, source, names) && Depth(w.fs, source, bound)
    modifies w`fs, w`cancelled, w`completed
    ensures !ok ==> Thinned(w.fs, old(w.fs), source)
    ensures ok ==> Cleared(w.fs, w.completed, old(w.fs), source, names, old(w.completed))
    ensures w.calm ==> w.cancelled == old(w.cancelled) && (!w.cancelled ==> ok)
    decreases bound - |source|, 1
  {
    ghost var before, c0 := w.fs, w.completed;
    ok := true;
    assert UnderNames(before, source, []) == {};
    for i := 0 to |names|
      invariant ok && Cleared(w.fs, w.completed, before, source, names[..i], c0)
      invariant w.calm ==> w.cancelled == old(w.cancelled)
    {
      ok := RemoveEntry(w, source, names, i, bound, before, c0);
      if !ok {
        return;
      }
    }
    Whole(names);
  }

  method RemoveEntry(w: Worker, source: Path, names: seq<string>, i: nat, ghost bound: nat, ghost before: Fs, ghost c0: nat)
      returns (ok: bool)
    requires i < |names| && Listing(before, source, names) && Depth(before, source, bound)
    requires Cleared(w.fs, w.completed, before, source, names[..i], c0)
    modifies w`fs, w`cancelled, w`completed
    ensures !ok ==> Thinned(w.fs, before, source)
    ensures ok ==> Cleared(w.fs, w.completed, before, source, names[..i + 1], c0)
    ensures w.calm ==> w.cancelled == old(w.cancelled) && (!w.cancelled ==> ok)
    decreases bound - |source|, 0
  {
    ghost var now := w.fs;
    ClearedReady(now, w.completed, before, source, names, i, bound, c0);
    ClearedThinned(now, w.completed, before, source, names[..i], c0);
    ok := RemoveTree(w, source + [names[i]], bound);
    ThinnedChild(w.fs, now, before, source, names[i]);
    if ok {
      ClearedNext(now, before, source, names[..i], names[i]);
      Snoc(names, i);
    }
  }

  // ----- The job -----

  /** Everything the first k sources name. */
  ghost function UnderAll(fs: Fs, sources: seq<Path>, k: nat): set<Path>
    requires k <= |sources|
  {
    if k == 0 then {} else UnderAll(fs, sources, k - 1) + Under(fs, sources[k - 1])
  }

  /** The same, counted source by source. */
  ghost function CountOfAll(fs: Fs, sources: seq<Path>, k: nat): nat
    requires k <= |sources|
  {
    if k == 0 then 0 else CountOfAll(fs, sources, k - 1) + |Under(fs, sources[k - 1])|
  }

  predicate AllExist(fs: Fs, sources: seq<Path>, k: nat)
    requires k <= |sources|
  {
    k == 0 || (AllExist(fs, sources, k - 1) && sources[k - 1] in fs)
  }

  /** A source that can be deleted: neither the root nor a link. */
  predicate Selectable(fs: Fs, s: Path) { s != [] && s in fs && !fs[s].Link? }

  predicate AllSelectable(fs: Fs, sources: seq<Path>) {
    sources != [] && forall k :: 0 <= k < |sources| ==> Selectable(fs, sources[k])
  }

  /** Every source must exist and be neither the root nor a link; the items are added up. */
  method Preflight(w: Worker, sources: seq<Path>) returns (ok: bool)
    requires WellFormed(w.fs)
    modifies w`cancelled, w`total
    ensures w.calm ==> w.cancelled == old(w.cancelled)
    ensures ok ==> AllSelectable(w.fs, sources) && AllExist(w.fs, sources, |sources|)
    ensures ok ==> w.total == CountOfAll(w.fs, sources, |sources|) < U64_LIMIT
    ensures w.calm && !w.cancelled && AllSelectable(w.fs, sources) && CountOfAll(w.fs, sources, |sources|) < U64_LIMIT ==> ok
  {
    if sources == [] {
      return false;
    }
    var sum: nat := 0;
    for k := 0 to |sources|
      invariant AllExist(w.fs, sources, k) && sum == CountOfAll(w.fs, sources, k) < U64_LIMIT
      invariant forall j :: 0 <= j < k ==> Selectable(w.fs, sources[j])
      invariant w.calm ==> w.cancelled == old(w.cancelled)
    {
      ok, sum := InspectSource(w, sources, k, sum);
      if !ok {
        CountsGrow(w.fs, sources, k + 1, |sources|);
        return;
      }
    }
    w.total := sum;
    ok := true;
  }

  /** One source and its items. */
  method InspectSource(w: Worker, sources: seq<Path>, k: nat, sum: nat) returns (ok: bool, sum': nat)
    requires WellFormed(w.fs) && k < |sources| && sum == CountOfAll(w.fs, sources, k) < U64_LIMIT
    modifies w`cancelled
    ensures w.calm ==> w.cancelled == old(w.cancelled)
    ensures ok ==> Selectable(w.fs, sources[k]) && sum' == CountOfAll(w.fs, sources, k + 1) < U64_LIMIT
    ensures w.calm && !w.cancelled && Selectable(w.fs, sources[k]) && CountOfAll(w.fs, sources, k + 1) < U64_LIMIT ==> ok
  {
    var source := sources[k];
    if source == [] || source !in w.fs || w.fs[source].Link? {
      return false, sum;
    }
    DepthOfAll(w.fs, source);
    var items;
    ok, items := CountTree(w, source, Longest(w.fs.Keys));
    ok := ok && items <= U64_LIMIT - 1 - sum;
    sum' := sum + items;
  }

  lemma {:induction false} CountsGrow(fs: Fs, sources: seq<Path>, k: nat, n: nat)
    requires k <= n <= |sources|
    ensures CountOfAll(fs, sources, k) <= CountOfAll(fs, sources, n)
  {
    if k < n {
      CountsGrow(fs, sources, k, n - 1);
    }
  }

  lemma DepthOfAll(fs: Fs, a: Path)
    ensures Depth(fs, a, Longest(fs.Keys))
  {
    assert forall p :: p in fs.Keys ==> |p| <= Longest(fs.Keys);
  }

  lemma DeleteNext(now: Fs, before: Fs, sources: seq<Path>, k: nat)
    requires k < |sources| && now == before - UnderAll(before, sources, k)
    ensures Pruned(now, sources[k]) == before - UnderAll(before, sources, k + 1)
    ensures |UnderAll(before, sources, k + 1)| == |UnderAll(before, sources, k)| + |Under(now, sources[k])|
  {
    PruneMore(before, UnderAll(before, sources, k), sources[k]);
  }

  lemma PruneMore(before: Fs, gone: set<Path>, s: Path)
    ensures Pruned(before - gone, s) == before - (gone + Under(before, s))
    ensures |gone + Under(before, s)| == |gone| + |Under(before - gone, s)|
  {
    var rest := Under(before - gone, s);
    assert rest == Under(before, s) - gone;
    assert gone + Under(before, s) == gone + rest;
    CardUnion(gone, rest);
  }

  /** Nothing has changed but that some of what the first k sources name is gone. */
  ghost predicate Partly(fs: Fs, before: Fs, sources: seq<Path>, k: nat)
    requires k <= |sources|
  {
    && WellFormed(fs) && (forall p :: p in fs ==> p in before && fs[p] == before[p])
    && forall p :: p in before && p !in fs ==> p in UnderAll(before, sources, k)
  }

  lemma PartlyNext(fs: Fs, now: Fs, before: Fs, sources: seq<Path>, k: nat)
    requires k < |sources| && now == before - UnderAll(before, sources, k) && Thinned(fs, now, sources[k])
    ensures Partly(fs, before, sources, k + 1)
  {
    forall p | p in before && p !in fs && p in now ensures p in Under(before, sources[k]) {
      assert Below(p, sources[k]);
    }
  }

  lemma {:induction false} PartlyMore(fs: Fs, before: Fs, sources: seq<Path>, k: nat, n: nat)
    requires k <= n <= |sources| && Partly(fs, before, sources, k)
    ensures Partly(fs, before, sources, n)
    decreases n - k
  {
    if k < n {
      assert UnderAll(before, sources, k) <= UnderAll(before, sources, k + 1);
      PartlyMore(fs, before, sources, k + 1, n);
    }
  }

  /** The first k sources have gone, and their items counted from c0. */
  ghost predicate Deleted(fs: Fs, completed: nat, before: Fs, sources: seq<Path>, k: nat, c0: nat)
    requires k <= |sources|
  {
    WellFormed(fs) && fs == before - UnderAll(before, sources, k) && completed == c0 + |UnderAll(before, sources, k)|
  }

  /** Each of the first k sources is still there when its turn comes. */
  ghost predicate InOrder(fs: Fs, sources: seq<Path>, k: nat)
    requires k <= |sources|
  {
    k == 0 || (InOrder(fs, sources, k - 1) && Turn(fs, sources, k - 1))
  }

  ghost predicate Turn(fs: Fs, sources: seq<Path>, k: nat)
    requires k < |sources|
  {
    sources[k] in fs && sources[k] !in UnderAll(fs, sources, k)
  }

  lemma {:induction false} TurnComes(fs: Fs, sources: seq<Path>, n: nat, k: nat)
    requires k < n <= |sources| && InOrder(fs, sources, n)
    ensures Turn(fs, sources, k)
  {
    if k < n - 1 {
      TurnComes(fs, sources, n - 1, k);
    }
  }

  /** That is, none lies inside an earlier one. */
  lemma {:induction false} InOrderIff(fs: Fs, sources: seq<Path>, k: nat)
    requires k <= |sources| && forall i :: 0 <= i < k ==> sources[i] in fs
    ensures InOrder(fs, sources, k) <==> forall i, j :: 0 <= i < j < k ==> !(sources[i] <= sources[j])
  {
    if k > 0 {
      InOrderIff(fs, sources, k - 1);
      NamedBy(fs, sources, k - 1, sources[k - 1]);
    }
  }

  method DeleteSource(w: Worker, sources: seq<Path>, k: nat, ghost before: Fs, ghost c0: nat) returns (ok: bool)
    requires k < |sources| && Deleted(w.fs, w.completed, before, sources, k, c0)
    modifies w`fs, w`cancelled, w`completed
    ensures !ok ==> Partly(w.fs, before, sources, |sources|)
    ensures ok ==> Deleted(w.fs, w.completed, before, sources, k + 1, c0) && Turn(before, sources, k)
    ensures w.calm ==> w.cancelled == old(w.cancelled) && (!w.cancelled && Turn(before, sources, k) ==> ok)
  {
    ghost var now := w.fs;
    DepthOfAll(now, sources[k]);
    ok := RemoveTree(w, sources[k], Longest(now.Keys));
    PartlyNext(w.fs, now, before, sources, k);
    PartlyMore(w.fs, before, sources, k + 1, |sources|);
    DeleteNext(now, before, sources, k);
  }

  /** How a job began; `sure` when all its sources come in order and nothing can stop it. */
  datatype Begun = Begun(fs: Fs, completed: nat, sure: bool)

  /** The first k sources have gone, each in its turn. */
  ghost predicate Removing(w: Worker, b: Begun, sources: seq<Path>, k: nat)
    requires k <= |sources|
    reads w
  {
    && Deleted(w.fs, w.completed, b.fs, sources, k, b.completed) && InOrder(b.fs, sources, k)
    && (b.sure ==> w.calm && !w.cancelled && InOrder(b.fs, sources, |sources|))
  }

  method DeleteNextSource(w: Worker, sources: seq<Path>, k: nat, ghost b: Begun) returns (ok: bool)
    requires k < |sources| && Removing(w, b, sources, k)
    modifies w`fs, w`cancelled, w`completed
    ensures if ok then Removing(w, b, sources, k + 1) else !b.sure && Partly(w.fs, b.fs, sources, |sources|)
  {
    if b.sure {
      TurnComes(b.fs, sources, |sources|, k);
    }
    ok := DeleteSource(w, sources, k, b.fs, b.completed);
  }

  method DeleteSources(w: Worker, sources: seq<Path>, ghost b: Begun) returns (ok: bool)
    requires Removing(w, b, sources, 0)
    modifies w`fs, w`cancelled, w`completed
    ensures if ok then Removing(w, b, sources, |sources|) else !b.sure && Partly(w.fs, b.fs, sources, |sources|)
  {
    ok := true;
    for k := 0 to |sources|
      invariant Removing(w, b, sources, k)
    {
      ok := DeleteNextSource(w, sources, k, b);
      if !ok {
        return;
      }
    }
    ok := true;
  }

  /** The sources that have been accepted. */
  method DeleteAll(w: Worker, sources: seq<Path>) returns (ok: bool)
    requires WellFormed(w.fs) && AllSelectable(w.fs, sources) && AllExist(w.fs, sources, |sources|)
    requires w.total == CountOfAll(w.fs, sources, |sources|)
    modifies w`fs, w`cancelled, w`completed
    ensures Partly(w.fs, old(w.fs), sources, |sources|)
    ensures ok ==> Deleted(w.fs, w.completed, old(w.fs), sources, |sources|, old(w.completed))
    ensures ok ==> InOrder(old(w.fs), sources, |sources|)
    ensures w.calm && !old(w.cancelled) && InOrder(old(w.fs), sources, |sources|) ==> ok
    ensures ok ==> w.completed <= old(w.completed) + w.total
    ensures ok ==> (w.completed == old(w.completed) + w.total <==> AllApart(sources, |sources|))
  {
    CountIsExactIff(w.fs, sources, |sources|);
    NoneDeleted(w.fs, w.completed, sources);
    ghost var sure := w.calm && !w.cancelled && InOrder(w.fs, sources, |sources|);
    ok := DeleteSources(w, sources, Begun(w.fs, w.completed, sure));
  }

  /**
    `run` for a delete job.  On success exactly what the sources name is gone; otherwise some of it
    may be, and nothing else.
   */
  method RunDelete(w: Worker, sources: seq<Path>) returns (ok: bool)
    requires WellFormed(w.fs)
    modifies w
    ensures Partly(w.fs, old(w.fs), sources, |sources|)
    // nothing happens to a selection with the root, a link or a missing path in it
    ensures ok || w.fs != old(w.fs) ==> AllSelectable(old(w.fs), sources)
    // what stays is unchanged; what goes is a source or inside one; on success all of that goes
    ensures OnlyNamed(w.fs, old(w.fs), sources) && (ok ==> NoneLeft(w.fs, sources))
    // when nothing fails and nobody asks to stop: exactly when it succeeds
    ensures w.calm && !old(w.cancelled) ==> (ok <==> Deletable(old(w.fs), sources))
    ensures ok ==> Deleted(w.fs, w.completed, old(w.fs), sources, |sources|, old(w.completed))
    ensures ok ==> w.completed <= old(w.completed) + w.total
    ensures ok ==> (w.completed == old(w.completed) + w.total <==> AllApart(sources, |sources|))
  {
    ok := Preflight(w, sources);
    NoneDeleted(w.fs, w.completed, sources);
    if ok {
      ok := DeleteAll(w, sources);
    }
    InOrderMeans(old(w.fs), sources);
    WhatIsGone(w.fs, old(w.fs), sources, ok);
  }

  lemma InOrderMeans(fs: Fs, sources: seq<Path>)
    ensures AllSelectable(fs, sources) ==>
              (InOrder(fs, sources, |sources|) <==> forall i, j :: 0 <= i < j < |sources| ==> !(sources[i] <= sources[j]))
  {
    if AllSelectable(fs, sources) {
      assert forall k :: 0 <= k < |sources| ==> Selectable(fs, sources[k]);
      InOrderIff(fs, sources, |sources|);
    }
  }

  lemma NoneDeleted(fs: Fs, completed: nat, sources: seq<Path>)
    requires WellFormed(fs)
    ensures Deleted(fs, completed, fs, sources, 0, completed)
  {
    assert fs - {} == fs;
  }

  ghost predicate OnlyNamed(after: Fs, before: Fs, sources: seq<Path>) {
    && (forall p :: p in after ==> p in before && after[p] == before[p])
    && forall p :: p in before && p !in after ==> exists s :: s in sources && s <= p
  }

  ghost predicate NoneLeft(after: Fs, sources: seq<Path>) {
    forall p, s :: p in after && s in sources ==> !(s <= p)
  }

  lemma WhatIsGone(after: Fs, before: Fs, sources: seq<Path>, ok: bool)
    requires Partly(after, before, sources, |sources|)
    requires ok ==> after == before - UnderAll(before, sources, |sources|)
    ensures OnlyNamed(after, before, sources) && (ok ==> NoneLeft(after, sources))
  {
    AllNamed(before, sources);
  }

  /** Every source can be deleted, none lies inside an earlier one, and the items can be counted in 64 bits. */
  ghost predicate Deletable(fs: Fs, sources: seq<Path>) {
    && AllSelectable(fs, sources)
    && (forall i, j :: 0 <= i < j < |sources| ==> !(sources[i] <= sources[j]))
    && CountOfAll(fs, sources, |sources|) < U64_LIMIT
  }

  lemma {:induction false} NamedBy(fs: Fs, sources: seq<Path>, k: nat, p: Path)
    requires k <= |sources|
    ensures p in UnderAll(fs, sources, k) <==> p in fs && exists i :: 0 <= i < k && sources[i] <= p
  {
    if k > 0 {
      NamedBy(fs, sources, k - 1, p);
    }
  }

  /** What the sources name is what has one of them as a beginning. */
  lemma AllNamed(fs: Fs, sources: seq<Path>)
    ensures forall p :: p in UnderAll(fs, sources, |sources|) <==> p in fs && exists s :: s in sources && s <= p
  {
    forall p ensures p in UnderAll(fs, sources, |sources|) <==> p in fs && exists s :: s in sources && s <= p {
      NamedBy(fs, sources, |sources|, p);
      if i :| 0 <= i < |sources| && sources[i] <= p {
        assert sources[i] in sources;
      }
      if s :| s in sources && s <= p {
        var i :| 0 <= i < |sources| && sources[i] == s;
        assert sources[i] <= p;
      }
    }
  }

  // ----- When the count comes out -----

  /** The first k sources are apart from s. */
  predicate ApartFrom(sources: seq<Path>, k: nat, s: Path)
    requires k <= |sources|
  {
    k == 0 || (ApartFrom(sources, k - 1, s) && Apart(sources[k - 1], s))
  }

  /** No source lies inside another. */
  predicate AllApart(sources: seq<Path>, k: nat)
    requires k <= |sources|
  {
    k == 0 || (AllApart(sources, k - 1) && ApartFrom(sources, k - 1, sources[k - 1]))
  }

  lemma Overlap(fs: Fs, t: Path, s: Path)
    requires t in fs && s in fs
    ensures Under(fs, t) * Under(fs, s) == {} <==> Apart(t, s)
  {
    assert Below(t, s) ==> t in Under(fs, t) * Under(fs, s);
    assert Below(s, t) ==> s in Under(fs, t) * Under(fs, s);
  }

  lemma {:induction false} NewSource(fs: Fs, sources: seq<Path>, k: nat, s: Path)
    requires k <= |sources| && AllExist(fs, sources, k) && s in fs
    ensures UnderAll(fs, sources, k) * Under(fs, s) == {} <==> ApartFrom(sources, k, s)
  {
    if k > 0 {
      NewSource(fs, sources, k - 1, s);
      Overlap(fs, sources[k - 1], s);
      Distribute(UnderAll(fs, sources, k - 1), Under(fs, sources[k - 1]), Under(fs, s));
    }
  }

  lemma Distribute(ps: set<Path>, qs: set<Path>, rs: set<Path>)
    ensures (ps + qs) * rs == {} <==> ps * rs == {} && qs * rs == {}
  {
    assert (ps + qs) * rs == ps * rs + qs * rs;
    assert ps * rs <= ps * rs + qs * rs && qs * rs <= ps * rs + qs * rs;
  }

  lemma CardOverlap(ps: set<Path>, qs: set<Path>)
    ensures |ps + qs| <= |ps| + |qs|
    ensures |ps + qs| == |ps| + |qs| <==> ps * qs == {}
  {
    CardUnion(ps, qs - ps);
    assert ps + (qs - ps) == ps + qs;
    CardUnion(qs - ps, qs * ps);
    assert (qs - ps) + qs * ps == qs;
    assert qs * ps == ps * qs;
  }

  /** Counted source by source, nothing is counted twice exactly when no source lies inside another. */
  lemma {:induction false} CountIsExactIff(fs: Fs, sources: seq<Path>, k: nat)
    requires k <= |sources| && AllExist(fs, sources, k)
    ensures |UnderAll(fs, sources, k)| <= CountOfAll(fs, sources, k)
    ensures |UnderAll(fs, sources, k)| == CountOfAll(fs, sources, k) <==> AllApart(sources, k)
  {
    if k > 0 {
      CountIsExactIff(fs, sources, k - 1);
      NewSource(fs, sources, k - 1, sources[k - 1]);
      CardOverlap(UnderAll(fs, sources, k - 1), Under(fs, sources[k - 1]));
    }
  }

  /** With `/a/b` and then `/a` selected, three items are announced where there are two. */
  lemma NestedSelection(data: Bytes)
    ensures var fs: Fs := map[[] := Dir, ["a"] := Dir, ["a", "b"] := File(data)];
            |UnderAll(fs, [["a", "b"], ["a"]], 2)| == 2 && CountOfAll(fs, [["a", "b"], ["a"]], 2) == 3
  {
    var fs: Fs := map[[] := Dir, ["a"] := Dir, ["a", "b"] := File(data)];
    var a: Path, b: Path := ["a"], ["a", "b"];
    var sources := [b, a];
    assert Below(a, a) && Below(b, a) && Below(b, b) && !Below([], a) && !Below([], b) && !Below(a, b);
    assert Under(fs, a) == {a, b} && Under(fs, b) == {b};
    assert UnderAll(fs, sources, 1) == UnderAll(fs, sources, 0) + {b} == {b};
    assert UnderAll(fs, sources, 2) == {b} + {a, b} == {a, b};
    assert CountOfAll(fs, sources, 1) == CountOfAll(fs, sources, 0) + 1;
  }
}
