/** The file system of the SD card as a map from paths to nodes. */
module FileTree {
  import opened Bytes

  type Path = seq<string>

  datatype Node = File(data: Bytes) | Dir | Link

  type Fs = map<Path, Node>

  /** p is a, or lies inside it. */
  predicate Below(p: Path, a: Path) { a <= p }

  /** Neither lies inside the other. */
  predicate Apart(a: Path, b: Path) { !Below(a, b) && !Below(b, a) }

  /** Everything lies in a directory. */
  ghost predicate WellFormed(fs: Fs) {
    forall p, a :: p in fs && Below(p, a) && p != a ==> a in fs && fs[a].Dir?
  }

  function Parent(p: Path): Path
    requires p != []
  {
    p[..|p| - 1]
  }

  predicate IsDir(fs: Fs, p: Path) { p in fs && fs[p].Dir? }

  /** A new entry of an existing directory. */
  predicate CanCreate(fs: Fs, p: Path) { p != [] && p !in fs && IsDir(fs, Parent(p)) }

  lemma CreateKeepsWellFormed(fs: Fs, p: Path, n: Node)
    requires WellFormed(fs) && p != [] && IsDir(fs, Parent(p)) && (p in fs ==> !fs[p].Dir?)
    ensures WellFormed(fs[p := n])
  {
    forall q, a | q in fs[p := n] && Below(q, a) && q != a ensures a in fs[p := n] && fs[p := n][a].Dir? {
      if q == p && a != Parent(p) {
        assert Below(Parent(p), a);
      }
    }
  }

  // ----- Subtrees -----

  function Under(fs: Fs, a: Path): set<Path> { set p | p in fs && Below(p, a) }

  lemma NothingUnder(fs: Fs, a: Path)
    requires WellFormed(fs) && a !in fs
    ensures Under(fs, a) == {}
  {
  }

  /** The path in b that corresponds to p in a. */
  function Rebase(p: Path, a: Path, b: Path): (q: Path)
    requires Below(p, a)
    ensures Below(q, b) && q[|b|..] == p[|a|..] && |q| - |b| == |p| - |a|
  {
    b + p[|a|..]
  }

  lemma RebaseBack(p: Path, a: Path, b: Path)
    requires Below(p, a)
    ensures Rebase(Rebase(p, a, b), b, a) == p
  {
    assert p == a + p[|a|..];
  }

  lemma RebaseChild(p: Path, a: Path, b: Path, n: string)
    requires Below(p, a + [n])
    ensures Below(p, a) && Rebase(p, a + [n], b + [n]) == Rebase(p, a, b)
  {
    assert p[|a|..] == [n] + p[|a| + 1..];
  }

  /** The subtree at a, as it looks when it is put at b. */
  function Graft(fs: Fs, a: Path, b: Path): (g: Fs)
    ensures forall p {:trigger p in g} :: p in g <==> Below(p, b) && Rebase(p, b, a) in fs
    ensures forall p {:trigger g[p]} :: p in g ==> Below(p, b) && Rebase(p, b, a) in fs && g[p] == fs[Rebase(p, b, a)]
  {
    GraftKeys(fs, a, b);
    map p | p in (set q | q in Under(fs, a) :: Rebase(q, a, b)) :: fs[Rebase(p, b, a)]
  }

  lemma GraftKeys(fs: Fs, a: Path, b: Path)
    ensures forall q :: q in Under(fs, a) ==> Rebase(Rebase(q, a, b), b, a) == q
    ensures forall p :: Below(p, b) && Rebase(p, b, a) in fs ==>
              Rebase(p, b, a) in Under(fs, a) && Rebase(Rebase(p, b, a), a, b) == p
  {
    forall q | q in Under(fs, a) ensures Rebase(Rebase(q, a, b), b, a) == q { RebaseBack(q, a, b); }
    forall p | Below(p, b) && Rebase(p, b, a) in fs ensures Rebase(Rebase(p, b, a), a, b) == p { RebaseBack(p, b, a); }
  }

  /** Outside a the two file systems agree. */
  ghost predicate SameOutside(fs: Fs, fs2: Fs, a: Path) {
    forall p :: !Below(p, a) ==> (p in fs <==> p in fs2) && (p in fs ==> fs[p] == fs2[p])
  }

  /** Inside a they do. */
  ghost predicate SameInside(fs: Fs, fs2: Fs, a: Path) {
    forall p :: Below(p, a) ==> (p in fs <==> p in fs2) && (p in fs ==> fs[p] == fs2[p])
  }

  lemma GraftSame(fs: Fs, fs2: Fs, a: Path, b: Path)
    requires SameInside(fs, fs2, a)
    ensures Graft(fs, a, b) == Graft(fs2, a, b)
  {
  }

  /** What a rename does. */
  function Renamed(fs: Fs, a: Path, b: Path): Fs { (fs - Under(fs, a)) + Graft(fs, a, b) }

  /** What a recursive removal does. */
  function Pruned(fs: Fs, a: Path): Fs { fs - Under(fs, a) }

  /** Removing what was built at a new place leaves no trace. */
  lemma PruneNew(fs: Fs, fs2: Fs, a: Path)
    requires WellFormed(fs) && a !in fs && SameOutside(fs, fs2, a)
    ensures Pruned(fs2, a) == fs
  {
    NothingUnder(fs, a);
    assert forall p :: p in fs ==> !Below(p, a);
  }

  lemma PruneKeepsWellFormed(fs: Fs, a: Path)
    requires WellFormed(fs)
    ensures WellFormed(Pruned(fs, a))
  {
  }

  /** A subtree may be put at a new place whose parent is a directory. */
  lemma GraftKeepsWellFormed(fs: Fs, a: Path, b: Path)
    requires WellFormed(fs) && a in fs && CanCreate(fs, b)
    ensures WellFormed(fs + Graft(fs, a, b))
  {
    var g := Graft(fs, a, b);
    forall p, c | p in fs + g && Below(p, c) && p != c ensures c in fs + g && (fs + g)[c].Dir? {
      if p in g {
        if Below(c, b) {
          assert Below(Rebase(p, b, a), Rebase(c, b, a));
        } else {
          assert Below(Parent(b), c);
        }
      } else {
        NothingUnder(fs, b);
        assert !Below(c, b);
      }
    }
  }

  // ----- Sizes -----

  function Size(n: Node): nat { if n.File? then |n.data| else 0 }

  /** The bytes in all the files of a set of paths. */
  ghost function Sum(fs: Fs, ps: set<Path>): nat
    requires ps <= fs.Keys
  {
    if ps == {} then 0 else var p :| p in ps; Size(fs[p]) + Sum(fs, ps - {p})
  }

  lemma {:induction false} SumPick(fs: Fs, ps: set<Path>, p: Path)
    requires p in ps && ps <= fs.Keys
    ensures Sum(fs, ps) == Size(fs[p]) + Sum(fs, ps - {p})
    decreases ps
  {
    var q :| q in ps && Sum(fs, ps) == Size(fs[q]) + Sum(fs, ps - {q});
    if q != p {
      SumPick(fs, ps - {q}, p);
      SumPick(fs, ps - {p}, q);
      assert ps - {q} - {p} == ps - {p} - {q};
    }
  }

  lemma {:induction false} SumUnion(fs: Fs, ps: set<Path>, qs: set<Path>)
    requires ps <= fs.Keys && qs <= fs.Keys && ps !! qs
    ensures Sum(fs, ps + qs) == Sum(fs, ps) + Sum(fs, qs)
    decreases ps
  {
    if ps == {} {
      assert ps + qs == qs;
    } else {
      var p :| p in ps;
      SumPick(fs, ps, p);
      SumPick(fs, ps + qs, p);
      assert ps + qs - {p} == (ps - {p}) + qs;
      SumUnion(fs, ps - {p}, qs);
    }
  }

  lemma {:induction false} SumSame(fs: Fs, fs2: Fs, ps: set<Path>)
    requires ps <= fs.Keys && ps <= fs2.Keys && forall p :: p in ps ==> fs[p] == fs2[p]
    ensures Sum(fs, ps) == Sum(fs2, ps)
    decreases ps
  {
    if ps != {} {
      var p :| p in ps;
      SumPick(fs, ps, p);
      SumPick(fs2, ps, p);
      SumSame(fs, fs2, ps - {p});
    }
  }
}
