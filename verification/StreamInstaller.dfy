/** The installation itself: manifest, contents in stream order, meta data, application record. */
module StreamInstaller {
  import opened Bytes
  import opened NcmStore
  import opened NspInstall
  import N = NspManifest

  const IO_BUFFER := 1024 * 1024
  const MAX_AUX_FILE := 16 * 1024 * 1024
  const MAX_AUX_TOTAL := 32 * 1024 * 1024
  const SPACE_RESERVE := 64 * 1024 * 1024

  /** What the CNMT of a package says: the title, and the contents it refers to. */
  datatype Meta = Meta(key: Key, refs: seq<(Id, nat)>)

  function RefIds(refs: seq<(Id, nat)>): set<Id> { set r | r in refs :: r.0 }

  /** Two NCAs that share an id which is not in storage: the second cannot be registered. */
  predicate Clash(x: N.Entry, y: N.Entry, contents: map<Id, Bytes>) {
    x.isNca && y.isNca && x.contentId == y.contentId && x.contentId.Some? && x.contentId.value !in contents
  }

  /** No two NCAs of the package do. */
  predicate NewIdsOnce(es: seq<N.Entry>, contents: map<Id, Bytes>) {
    forall i, j :: 0 <= i < j < |es| ==> !Clash(es[i], es[j], contents)
  }

  // ----- The order of the stream -----

  lemma SameEntries(es: seq<N.Entry>)
    ensures |ByOffset(es)| == |es| && forall e :: e in ByOffset(es) <==> e in es
  {
    var r := ByOffset(es);
    assert |multiset(r)| == |multiset(es)|;
    forall e ensures e in r <==> e in es {
      assert e in multiset(r) <==> e in multiset(es);
    }
  }

  /** No entry here clashes with e. */
  predicate Apart(e: N.Entry, es: seq<N.Entry>, contents: map<Id, Bytes>) {
    forall x :: x in es ==> !Clash(x, e, contents)
  }

  lemma {:induction false} OnceCons(e: N.Entry, es: seq<N.Entry>, contents: map<Id, Bytes>)
    ensures NewIdsOnce([e] + es, contents) <==> NewIdsOnce(es, contents) && Apart(e, es, contents)
  {
    var r := [e] + es;
    if NewIdsOnce(r, contents) {
      OnceTail(e, es, contents);
    }
    if NewIdsOnce(es, contents) && Apart(e, es, contents) {
      forall i, j | 0 <= i < j < |r| ensures !Clash(r[i], r[j], contents) {
        assert r[j] == es[j - 1];
        if i == 0 {
          assert !Clash(es[j - 1], e, contents);
        } else {
          assert r[i] == es[i - 1] && !Clash(es[i - 1], es[j - 1], contents);
        }
      }
    }
  }

  lemma {:induction false} OnceTail(e: N.Entry, es: seq<N.Entry>, contents: map<Id, Bytes>)
    requires NewIdsOnce([e] + es, contents)
    ensures NewIdsOnce(es, contents) && Apart(e, es, contents)
  {
    var r := [e] + es;
    forall i, j | 0 <= i < j < |es| ensures !Clash(es[i], es[j], contents) {
      assert r[i + 1] == es[i] && r[j + 1] == es[j] && !Clash(r[i + 1], r[j + 1], contents);
    }
    forall x | x in es ensures !Clash(x, e, contents) {
      var j :| 0 <= j < |es| && es[j] == x;
      assert r[j + 1] == x && !Clash(r[0], r[j + 1], contents);
    }
  }

  lemma OnceSnoc(es: seq<N.Entry>, contents: map<Id, Bytes>)
    requires es != [] && NewIdsOnce(es, contents)
    ensures NewIdsOnce(es[..|es| - 1], contents) && Apart(es[|es| - 1], es[..|es| - 1], contents)
  {
  }

  lemma {:induction false} InsertOnce(e: N.Entry, es: seq<N.Entry>, contents: map<Id, Bytes>)
    requires NewIdsOnce(es, contents) && Apart(e, es, contents)
    ensures NewIdsOnce(InsertByOffset(e, es), contents)
  {
    if es == [] || e.offset < es[0].offset {
      OnceCons(e, es, contents);
    } else {
      assert es == [es[0]] + es[1..];
      OnceCons(es[0], es[1..], contents);
      InsertOnce(e, es[1..], contents);
      var rest := InsertByOffset(e, es[1..]);
      forall x | x in rest ensures !Clash(x, es[0], contents) {
        InsertMembers(e, es[1..], x);
        assert es[0] in es;
      }
      OnceCons(es[0], rest, contents);
    }
  }

  lemma {:induction false} ByOffsetOnce(es: seq<N.Entry>, contents: map<Id, Bytes>)
    requires NewIdsOnce(es, contents)
    ensures NewIdsOnce(ByOffset(es), contents)
  {
    if es != [] {
      var n := |es| - 1;
      OnceSnoc(es, contents);
      ByOffsetOnce(es[..n], contents);
      SameEntries(es[..n]);
      InsertOnce(es[n], ByOffset(es[..n]), contents);
    }
  }

  // ----- How far a stream gets -----

  /** Where the stream stands after the first k entries, starting from `from`. */
  function Position(es: seq<N.Entry>, k: nat, from: nat): nat
    requires k <= |es|
  {
    if k == 0 then from else es[k - 1].offset + es[k - 1].size
  }

  predicate IsAux(e: N.Entry) { !e.isNca && (e.isTicket || e.isCert) }

  /** The bytes of the tickets and certificates among the first k entries. */
  function AuxBytes(es: seq<N.Entry>, k: nat): nat
    requires k <= |es|
  {
    if k == 0 then 0 else AuxBytes(es, k - 1) + (if IsAux(es[k - 1]) then es[k - 1].size else 0)
  }

  /** Entry k starts at or after that position and ends inside the stream; tickets are small enough. */
  predicate Fits(es: seq<N.Entry>, k: nat, from: nat, length: nat)
    requires k < |es|
  {
    && Position(es, k, from) <= es[k].offset && es[k].offset + es[k].size <= length
    && (IsAux(es[k]) ==> es[k].size <= 16777216 && AuxBytes(es, k) + es[k].size <= 33554432)
  }

  /** All of the first k entries do. */
  predicate Streamable(es: seq<N.Entry>, k: nat, from: nat, length: nat)
    requires k <= |es|
  {
    k == 0 || (Streamable(es, k - 1, from, length) && Fits(es, k - 1, from, length))
  }

  /** Entry k is reached, and an entry before it is an NCA with the same new id. */
  predicate TrapAt(es: seq<N.Entry>, k: nat, from: nat, length: nat, contents: map<Id, Bytes>)
    requires k < |es|
  {
    Streamable(es, k, from, length) && Position(es, k, from) <= es[k].offset <= length && Met(es, k, contents)
  }

  predicate Met(es: seq<N.Entry>, k: nat, contents: map<Id, Bytes>)
    requires k < |es|
  {
    exists i :: 0 <= i < k && Clash(es[i], es[k], contents)
  }

  lemma {:induction false} StreamableFits(es: seq<N.Entry>, n: nat, k: nat, from: nat, length: nat)
    requires k < n <= |es| && Streamable(es, n, from, length)
    ensures Fits(es, k, from, length)
  {
    if k < n - 1 {
      StreamableFits(es, n - 1, k, from, length);
    }
  }

  /** No entry has an id that is new and was met before. */
  predicate NoneMet(es: seq<N.Entry>, contents: map<Id, Bytes>) {
    forall k :: 0 <= k < |es| ==> !Met(es, k, contents)
  }

  ghost predicate Trapped(es: seq<N.Entry>, from: nat, length: nat, contents: map<Id, Bytes>) {
    exists k :: 0 <= k < |es| && TrapAt(es, k, from, length, contents)
  }

  /** The bytes of all NCAs that are not in storage. */
  function NewBytes(es: seq<N.Entry>, k: nat, contents: map<Id, Bytes>): nat
    requires k <= |es|
  {
    if k == 0 then 0
    else NewBytes(es, k - 1, contents) + (if IsNew(es[k - 1], contents) then es[k - 1].size else 0)
  }

  predicate IsNew(e: N.Entry, contents: map<Id, Bytes>) {
    e.isNca && e.contentId.Some? && e.contentId.value !in contents
  }

  /** The stream has a manifest, and m is it. */
  predicate IsManifest(p: Bytes, packageSize: nat, m: N.Manifest) {
    N.StreamAccepted(p, packageSize) && m == N.StreamManifest(p, packageSize)
  }

  /**
    The packages whose installation may leave a placeholder behind in a store with these contents: the
    stream reaches an NCA whose id is new and was met before.
   */
  ghost predicate Traps(p: Bytes, packageSize: nat, contents: map<Id, Bytes>) {
    exists m :: IsManifest(p, packageSize, m) && TrapsManifest(m, p, contents)
  }

  ghost predicate TrapsManifest(m: N.Manifest, p: Bytes, contents: map<Id, Bytes>) {
    && |p| >= N.HEADER && NewBytes(m.entries, |m.entries|, contents) < U64_LIMIT
    && Trapped(ByOffset(m.entries), N.DataStart(p), |p|, contents)
  }

  /** In the order of the stream every entry can be taken, and none repeats a new id. */
  ghost predicate Flows(es: seq<N.Entry>, from: nat, length: nat, contents: map<Id, Bytes>) {
    Streamable(es, |es|, from, length) && NoneMet(es, contents)
  }

  /** The stream goes through, and the title is new and has its contents. */
  ghost predicate Installs(m: N.Manifest, from: nat, length: nat, meta: Option<Meta>, s: Store) {
    && Flows(ByOffset(m.entries), from, length, s.contents) && m.packageSize <= length
    && meta.Some? && ReferencesOk(meta.value.refs, m.entries) && meta.value.key !in s.db
  }

  /** The packages that can be installed in a store; `meta` is what their CNMT says. */
  ghost predicate Installable(p: Bytes, packageSize: nat, meta: Option<Meta>, s: Store) {
    exists m :: IsManifest(p, packageSize, m) && InstallsManifest(m, p, meta, s)
  }

  ghost predicate InstallsManifest(m: N.Manifest, p: Bytes, meta: Option<Meta>, s: Store) {
    && |p| >= N.HEADER && NewBytes(m.entries, |m.entries|, s.contents) < U64_LIMIT
    && Installs(m, N.DataStart(p), |p|, meta, s)
  }

  lemma InstallableIs(p: Bytes, packageSize: nat, m: N.Manifest, meta: Option<Meta>, s: Store)
    requires IsManifest(p, packageSize, m)
    ensures Installable(p, packageSize, meta, s) <==> InstallsManifest(m, p, meta, s)
  {
  }

  /** A stream that goes through meets no trap. */
  lemma FlowsUntrapped(es: seq<N.Entry>, from: nat, length: nat, contents: map<Id, Bytes>)
    requires Streamable(es, |es|, from, length)
    ensures Flows(es, from, length, contents) <==> !Trapped(es, from, length, contents)
  {
    forall k | 0 <= k < |es| && Met(es, k, contents) ensures TrapAt(es, k, from, length, contents) {
      StreamableFits(es, |es|, k, from, length);
      StreamableLess(es, |es|, k, from, length);
    }
  }

  lemma {:induction false} StreamableLess(es: seq<N.Entry>, n: nat, k: nat, from: nat, length: nat)
    requires k <= n <= |es| && Streamable(es, n, from, length)
    ensures Streamable(es, k, from, length)
  {
    if k < n {
      StreamableLess(es, n - 1, k, from, length);
    }
  }

  lemma {:induction false} NewBytesGrow(es: seq<N.Entry>, k: nat, n: nat, contents: map<Id, Bytes>)
    requires k <= n <= |es|
    ensures NewBytes(es, k, contents) <= NewBytes(es, n, contents)
  {
    if k < n {
      NewBytesGrow(es, k, n - 1, contents);
    }
  }

  lemma TrapsIs(p: Bytes, packageSize: nat, m: N.Manifest, contents: map<Id, Bytes>)
    requires IsManifest(p, packageSize, m)
    ensures Traps(p, packageSize, contents) <==> TrapsManifest(m, p, contents)
  {
  }

  /** With every new id used once, no package does. */
  lemma OnceMeansNoTrap(p: Bytes, packageSize: nat, m: N.Manifest, contents: map<Id, Bytes>)
    requires IsManifest(p, packageSize, m) && NewIdsOnce(m.entries, contents)
    ensures !Traps(p, packageSize, contents)
  {
    ByOffsetOnce(m.entries, contents);
  }

  /** An accepted manifest keeps every entry between the tables and the end of the package. */
  lemma AcceptedFits(p: Bytes, packageSize: nat)
    requires N.StreamAccepted(p, packageSize)
    ensures var m := N.StreamManifest(p, packageSize);
            && N.DataStart(p) <= m.packageSize
            && forall e :: e in m.entries ==>
                 N.DataStart(p) <= e.offset && e.offset + e.size <= m.packageSize && (e.isCnmtNca ==> e.isNca)
  {
    var t := N.TablesOf(p);
    var m := N.StreamManifest(p, packageSize);
    N.StreamDataEach(t, packageSize, |t.records|);
    forall i | 0 <= i < |t.records|
      ensures t.dataStart + t.records[i].offset + t.records[i].size <= m.packageSize
    {
      assert N.StreamDataOk(t, packageSize, i);
      MinimumBounds(t, |t.records|, i);
    }
    forall e | e in m.entries
      ensures N.DataStart(p) <= e.offset && e.offset + e.size <= m.packageSize && (e.isCnmtNca ==> e.isNca)
    {
      EntryIndex(t, |t.records|, e);
    }
  }

  /** An accepted manifest has a CNMT with a content id. */
  lemma AcceptedHasCnmt(p: Bytes, packageSize: nat)
    requires N.StreamAccepted(p, packageSize)
    ensures FindCnmt(N.StreamManifest(p, packageSize).entries).Some?
  {
    var m := N.StreamManifest(p, packageSize);
    CountedCnmt(m.packageSize, m.entries);
    var e :| e in m.entries && e.isCnmtNca;
    AcceptedFits(p, packageSize);
    CnmtFound(m.entries, e);
  }

  lemma {:induction false} CountedCnmt(packageSize: nat, es: seq<N.Entry>)
    ensures N.Tally(packageSize, es).cnmtNcaCount > 0 ==> exists e :: e in es && e.isCnmtNca
  {
    if es != [] {
      var n := |es| - 1;
      CountedCnmt(packageSize, es[..n]);
      assert es[n] in es;
    }
  }

  lemma {:induction false} CnmtFound(es: seq<N.Entry>, e: N.Entry)
    requires e in es && e.isCnmtNca && e.contentId.Some?
    ensures FindCnmt(es).Some?
  {
    if !(es[0].isCnmtNca && es[0].contentId.Some?) {
      assert e in es[1..];
      CnmtFound(es[1..], e);
    }
  }

  lemma {:induction false} MinimumBounds(t: N.Tables, n: nat, i: nat)
    requires i < n <= |t.records|
    ensures t.dataStart + t.records[i].offset + t.records[i].size <= N.MinimumSize(t, n)
  {
    if i < n - 1 {
      MinimumBounds(t, n - 1, i);
    }
  }

  lemma {:induction false} EntryIndex(t: N.Tables, n: nat, e: N.Entry)
    requires n <= |t.records| && (forall i :: 0 <= i < n ==> t.NameOk(i)) && e in t.Entries(n)
    ensures exists i :: 0 <= i < n && e == t.EntryAt(i)
  {
    if e in t.Entries(n - 1) {
      EntryIndex(t, n - 1, e);
    } else {
      assert e == t.EntryAt(n - 1);
    }
  }

  class Installer {
    const c: Console
    const src: N.Source
    var plan: seq<Planned>
    var streamOffset: nat
    var aux: seq<(N.Entry, Bytes)>  // tickets and certificates, kept in memory
    var auxTotal: nat
    ghost var start: Store  // the store when the plan was made

    ghost predicate Valid() reads this, c, src { c.Valid() && src.Valid() }

    constructor (c: Console, src: N.Source)
      ensures this.c == c && this.src == src
    {
      this.c, this.src, plan, streamOffset, aux, auxTotal := c, src, [], 0, [], 0;
      start := Store(map[], map[], map[], map[], None);
    }

    /** The journal describes the plan; everything that was there at the start still is. */
    ghost predicate Loading()
      reads this, c, src
    {
      && c.s.journal.Some? && c.s.journal.value.RollsBack()
      && !c.s.journal.value.metaSet && c.s.journal.value.contents == plan
      && Unsaved()
    }

    /** Between two contents nothing is half done. */
    ghost predicate Settled()
      reads this, c, src
    {
      && Loading()
      && c.s.placeholders == start.placeholders
      && (forall p :: p in plan ==> !p.placeholderCreated)
      && c.s.contents - DoomedIds(plan) == start.contents
      && (forall p :: p in plan && p.Doomed() ==> p.id in c.s.contents)
      && start.journal.None?
    }

    /** A rollback now would restore the start exactly. */
    ghost predicate Restorable()
      reads this, c
    {
      c.s.journal.Some? && c.s.journal.value.RollsBack() && Undone(c.s, c.s.journal.value) == start
    }

    /** A rollback now would leave a placeholder behind. */
    ghost predicate Leaks()
      reads this, c
    {
      && c.s.journal.Some? && c.s.journal.value.RollsBack()
      && exists ph :: ph in Undone(c.s, c.s.journal.value).placeholders && ph !in start.placeholders
    }

    /** A journal of planned contents is safe: what was not there at the start, no title uses. */
    lemma PlanIsSafe(t: Store, j: Journal)
      requires Unsaved() && t.db == start.db && t.saved == start.saved && t.journal == Some(j)
      requires forall p :: p in j.contents ==> (p.preExisting <==> p.id in start.contents)
      ensures JournalSafe(t, c.lost)
    {
      forall p, k | p in j.contents && p.Doomed() && k !in c.lost ensures !Uses(t.db, k, p.id) && !Uses(t.saved, k, p.id) {
        assert p.id !in start.contents.Keys;
      }
    }

    // ----- Reading the stream -----

    /** One buffer of the stream; false at its end, or when the user cancels. */
    method ReadBuffer(want: nat) returns (ok: bool, data: Bytes)
      requires src.Valid()
      modifies src
      ensures src.Valid()
      ensures ok ==> src.pos == old(src.pos) + want && data == src.data[old(src.pos)..src.pos]
      ensures c.faults.Calm() && old(src.pos) + want <= |src.data| ==> ok
    {
      ok := c.Works();
      data := [];
      if ok {
        ok, data := src.ReadExact(want);
      }
    }

    /** `consumeBytes` without a sink. */
    method Skip(bytes: nat) returns (ok: bool)
      requires src.Valid() && streamOffset == src.pos
      modifies this`streamOffset, src
      ensures src.Valid()
      ensures ok ==> streamOffset == src.pos == old(src.pos) + bytes
      ensures c.faults.Calm() && old(src.pos) + bytes <= |src.data| ==> ok
    {
      var local := 0;
      while local < bytes
        invariant local <= bytes && src.Valid()
        invariant streamOffset == src.pos == old(src.pos) + local
      {
        var want := if IO_BUFFER < bytes - local then IO_BUFFER else bytes - local;
        var data;
        ok, data := ReadBuffer(want);
        if !ok {
          return false;
        }
        local := local + want;
        streamOffset := streamOffset + want;
      }
      ok := true;
    }

    /** The placeholder holds b, whose first `local` bytes are those of the stream from `from` on. */
    ghost predicate Filling(s0: Store, ph: nat, b: Bytes, bytes: nat, local: nat, from: nat)
      reads this, c
    {
      && local <= |b| == bytes && c.s == s0.(placeholders := s0.placeholders[ph := b])
      && from + local <= |src.data| && b[..local] == src.data[from..from + local]
    }

    lemma FilledNext(b: Bytes, local: nat, from: nat, want: nat)
      requires local + want <= |b| && from + local + want <= |src.data| && b[..local] == src.data[from..from + local]
      ensures var data := src.data[from + local..from + local + want];
              Patched(b, local, data)[..local + want] == src.data[from..from + local + want]
    {
      SliceJoin(src.data, from, from + local, from + local + want);
    }

    /** One buffer of a content. */
    method WriteNext(ph: nat, bytes: nat, local: nat, ghost b: Bytes, ghost s0: Store, ghost from: nat)
      returns (ok: bool, next: nat, ghost b': Bytes)
      requires Valid() && local < bytes && streamOffset == src.pos == from + local
      requires c.alive && c.Watching() ==> c.s.journal.Some? && ph !in c.watch.value.placeholders
      requires c.alive ==> Filling(s0, ph, b, bytes, local, from)
      modifies this`streamOffset, src, c`s, c`alive, c`history
      ensures Valid() && (c.alive ==> old(c.alive)) && (c.faults.Calm() ==> c.alive == old(c.alive))
      ensures ok ==> local < next <= bytes && streamOffset == src.pos == from + next
      ensures c.alive && ok ==> Filling(s0, ph, b', bytes, next, from)
      ensures c.alive && !ok ==> b' == b && c.s == old(c.s)
      ensures c.faults.Calm() && c.alive && from + bytes <= |src.data| ==> ok
    {
      b' := b;
      var want := if IO_BUFFER < bytes - local then IO_BUFFER else bytes - local;
      next := local + want;
      var data;
      ok, data := ReadBuffer(want);
      if ok {
        ok := c.WritePlaceHolder(ph, local, data);
      }
      if ok {
        streamOffset := streamOffset + want;
        if c.alive {
          FilledNext(b, local, from, want);
          b' := Patched(b, local, data);
        }
      }
    }

    /** `consumeBytes` into a placeholder. */
    method WriteContent(ph: nat, bytes: nat) returns (ok: bool, ghost b: Bytes)
      requires Valid() && streamOffset == src.pos
      requires c.alive ==> ph in c.s.placeholders && |c.s.placeholders[ph]| == bytes
      requires c.alive && c.Watching() ==> c.s.journal.Some? && ph !in c.watch.value.placeholders
      modifies this`streamOffset, src, c`s, c`alive, c`history
      ensures Valid() && (c.alive ==> old(c.alive))
      ensures ok ==> streamOffset == src.pos == old(src.pos) + bytes
      ensures c.alive ==> c.s == old(c.s).(placeholders := old(c.s.placeholders)[ph := b])
      ensures c.alive && ok ==> b == src.data[old(src.pos)..src.pos]
      ensures c.faults.Calm() ==> c.alive == old(c.alive)
      ensures c.faults.Calm() && c.alive && old(src.pos) + bytes <= |src.data| ==> ok
    {
      var local := 0;
      ghost var from, s0 := src.pos, c.s;
      b := if ph in c.s.placeholders then c.s.placeholders[ph] else [];
      ok := true;
      assert c.alive ==> c.s.placeholders[ph := b] == c.s.placeholders;
      while local < bytes
        invariant ok && local <= bytes && Valid() && streamOffset == src.pos == from + local
        invariant (c.alive ==> old(c.alive)) && (c.faults.Calm() ==> c.alive == old(c.alive))
        invariant c.alive ==> Filling(s0, ph, b, bytes, local, from)
      {
        ok, local, b := WriteNext(ph, bytes, local, b, s0, from);
        if !ok {
          return;
        }
      }
      if c.alive {
        assert b == b[..bytes];
      }
    }

    // ----- One content -----

    lemma SettledRestorable()
      requires Settled()
      ensures Restorable()
    {
      assert DanglingPlaceholders(plan) == {};
    }

    /** The first planned content with this id; |plan| when there is none. */
    method FindPlan(id: Id) returns (i: nat)
      ensures i <= |plan| && (i < |plan| ==> plan[i].id == id) && forall j :: 0 <= j < i ==> plan[j].id != id
      ensures i == |plan| ==> forall p :: p in plan ==> p.id != id
    {
      i := 0;
      while i < |plan| && plan[i].id != id
        invariant i <= |plan| && forall j :: 0 <= j < i ==> plan[j].id != id
      {
        i := i + 1;
      }
    }

    /** Content i has a placeholder and nothing else is half done. */
    ghost predicate HalfDone(plan0: seq<Planned>, i: nat, ph: nat)
      reads this, c, src
    {
      && Loading()
      && i < |plan0| && plan == plan0[i := plan0[i].(placeholder := ph, placeholderCreated := true)]
      && (forall p :: p in plan0 ==> !p.placeholderCreated)
      && ph !in start.placeholders && ph in c.s.placeholders && c.s.placeholders - {ph} == start.placeholders
      && c.s.contents - DoomedIds(plan0) == start.contents
      && (forall p :: p in plan0 && p.Doomed() ==> p.id in c.s.contents)
      && start.journal.None?
    }

    lemma HalfDoneRestorable(plan0: seq<Planned>, i: nat, ph: nat)
      requires HalfDone(plan0, i, ph) && !plan0[i].registered
      ensures Restorable()
    {
      MarkCreated(plan0, i, ph);
    }

    /** With its content registered before, the journal no longer leads to the new placeholder. */
    lemma HalfDoneLeaks(plan0: seq<Planned>, i: nat, ph: nat)
      requires HalfDone(plan0, i, ph) && plan0[i].registered && !plan0[i].preExisting
      ensures Leaks()
    {
      assert forall p :: p in plan ==> p in plan0 || p == plan[i];
      assert ph in Undone(c.s, c.s.journal.value).placeholders;
    }

    /** What the journal of a half-done content says fits its registration. */
    lemma HalfDoneRegisters(plan0: seq<Planned>, i: nat, ph: nat)
      requires HalfDone(plan0, i, ph) && !plan0[i].preExisting
      ensures c.s.contents - DoomedIds(plan) == start.contents
      ensures c.s.placeholders - {ph} - DanglingPlaceholders(plan) == start.placeholders
    {
      SameDoomed(plan0, i, ph);
      assert forall p :: p in plan ==> p in plan0 || p == plan[i];
      assert DanglingPlaceholders(plan) <= {ph};
    }

    lemma CreatedTidy(plan0: seq<Planned>, i: nat, ph: nat)
      requires i < |plan0| && plan == plan0[i := plan0[i].(placeholder := ph, placeholderCreated := true)]
      requires (forall p :: p in plan0 ==> !p.placeholderCreated) && !plan0[i].preExisting
      requires c.s.contents - DoomedIds(plan0) == start.contents
      requires ph !in start.placeholders && ph in c.s.placeholders && c.s.placeholders - {ph} == start.placeholders
      ensures Tidy()
    {
      SameDoomed(plan0, i, ph);
      if plan0[i].registered {
        assert DanglingPlaceholders(plan) == {};
        assert c.s.placeholders - DanglingPlaceholders(plan) == c.s.placeholders;
      } else {
        MarkCreated(plan0, i, ph);
      }
    }

    /** A placeholder, noted in the journal. */
    method BeginContent(size: nat, i: nat) returns (ok: bool, ph: nat)
      requires Valid() && i < |plan| && !plan[i].preExisting && streamOffset == src.pos
      requires c.alive ==> Settled()
      modifies this`plan, c`s, c`alive, c`history
      ensures Valid() && (c.alive ==> old(c.alive)) && |plan| == |old(plan)|
      ensures c.alive && ok ==> HalfDone(old(plan), i, ph) && |c.s.placeholders[ph]| == size
      ensures c.alive && ok ==> c.s.contents == old(c.s.contents)
      ensures c.alive && !ok ==> Settled() && Restorable()
      ensures c.faults.Calm() ==> c.alive == old(c.alive) && ok
    {
      ok, ph := c.CreatePlaceHolder(size);
      if !ok {
        if c.alive {
          SettledRestorable();
        }
        return;
      }
      ghost var q := plan[i].(placeholder := ph, placeholderCreated := true);
      assert forall p :: p in plan[i := q] ==> p in plan || p == q;
      ghost var plan0 := plan;
      plan := plan[i := plan[i].(placeholder := ph, placeholderCreated := true)];
      if c.alive {
        CreatedTidy(plan0, i, ph);
      }
      SavePlan(WritingContent);
    }

    /** Placeholder to content, noted in the journal. */
    method FinishContent(id: Id, i: nat, ph: nat, ghost plan0: seq<Planned>) returns (ok: bool)
      requires Valid() && i < |plan| && |plan0| == |plan| && streamOffset == src.pos
      requires plan0[i].id == id && !plan0[i].preExisting
      requires c.alive ==> HalfDone(plan0, i, ph)
      modifies this`plan, c`s, c`alive, c`history
      ensures Valid() && (c.alive ==> old(c.alive)) && |plan| == |plan0|
      ensures c.alive && ok ==> Settled() && id !in old(c.s.contents)
      ensures c.alive && ok ==> c.s.contents == old(c.s.contents)[id := old(c.s.placeholders)[ph]]
      ensures c.alive && ok ==> plan == plan0[i := plan[i]] && plan[i].id == id
      ensures c.alive && !ok ==> HalfDone(plan0, i, ph)
      ensures c.faults.Calm() ==> c.alive == old(c.alive)
      ensures c.faults.Calm() && c.alive && id !in old(c.s.contents) ==> ok
    {
      if c.alive {
        HalfDoneRegisters(plan0, i, ph);
      }
      ok := c.Register(id, ph);
      if !ok {
        return;
      }
      ghost var halfDone := plan;
      plan := plan[i := plan[i].(placeholderCreated := false, registered := true)];
      if c.alive {
        MarkRegistered(plan0, i, ph);
        RegisteredPlan(plan0, halfDone, i, ph);
        assert c.s.contents - DoomedIds(plan) == start.contents;
      }
      SavePlan(RegisteredContent);
    }

    /** Placeholder, bytes, registration, with the journal saved after each change. */
    method LoadContent(id: Id, size: nat, i: nat) returns (ok: bool)
      requires Valid() && i < |plan| && plan[i].id == id && !plan[i].preExisting
      requires streamOffset == src.pos
      requires c.alive ==> Settled()
      modifies this`plan, this`streamOffset, src, c`s, c`alive, c`history
      ensures Valid() && (c.alive ==> old(c.alive)) && |plan| == |old(plan)|
      ensures ok ==> streamOffset == src.pos == old(src.pos) + size
      ensures c.alive && ok ==> Settled() && id !in old(c.s.contents)
      ensures c.alive && ok ==> c.s.contents == old(c.s.contents)[id := src.data[old(src.pos)..src.pos]]
      ensures c.alive && ok ==> plan == old(plan)[i := plan[i]] && plan[i].id == id
      ensures c.alive && !ok && !old(plan)[i].registered ==> Restorable()
      ensures c.faults.Calm() ==> c.alive == old(c.alive)
      ensures c.faults.Calm() && c.alive && !ok && old(plan)[i].registered ==> Leaks()
      ensures c.faults.Calm() && c.alive && id !in old(c.s.contents) && old(src.pos) + size <= |src.data| ==> ok
    {
      ghost var plan0 := plan;
      var ph;
      ok, ph := BeginContent(size, i);
      if !ok {
        return;
      }
      ghost var b;
      ok, b := WriteContent(ph, size);
      if ok {
        ok := FinishContent(id, i, ph, plan0);
      }
      if c.alive && !ok {
        if plan0[i].registered {
          HalfDoneLeaks(plan0, i, ph);
        } else {
          HalfDoneRestorable(plan0, i, ph);
        }
      }
    }

    /** The journal with the current plan and no title yet. */
    method SavePlan(stage: Stage)
      requires Valid() && stage != ApplicationRecord && stage != Finished
      requires c.alive ==> Unsaved() && (c.Watching() ==> Tidy())
      modifies c`s, c`alive, c`history
      ensures Valid() && (c.alive ==> old(c.alive))
      ensures c.alive ==> Loading() && c.s == old(c.s).(journal := c.s.journal)
      ensures c.faults.Calm() ==> c.alive == old(c.alive)
    {
      var j := Journal(stage, Key(0, 0, 0), plan, false);
      if c.alive {
        PlanIsSafe(c.s.(journal := Some(j)), j);
      }
      c.SaveJournal(j);
    }

    /** A journal of the plan would lead back to the start, but for one placeholder. */
    ghost predicate Tidy()
      reads this, c
    {
      && c.s.contents - DoomedIds(plan) == start.contents
      && AtMostOneMore(c.s.placeholders - DanglingPlaceholders(plan), start.placeholders)
    }

    /** `Loading`, but the journal may lag behind the plan. */
    ghost predicate Unsaved()
      reads this, c, src
    {
      && c.s.db == start.db && c.s.saved == start.saved && (c.watch.Some? ==> c.watch.value == start)
      && CompleteBut(start.db, start.contents, c.lost) && CompleteBut(start.saved, start.contents, c.lost)
      && (forall id :: id in start.contents ==> id in c.s.contents && c.s.contents[id] == start.contents[id])
      && (forall p :: p in plan ==> (p.preExisting <==> p.id in start.contents))
    }

    // ----- The contents in stream order -----

    /** A ticket or certificate is kept in memory. */
    method BufferAux(e: N.Entry) returns (ok: bool)
      requires src.Valid() && streamOffset == src.pos
      modifies this`streamOffset, this`aux, this`auxTotal, src
      ensures src.Valid()
      ensures ok ==> streamOffset == src.pos == old(src.pos) + e.size
      ensures ok ==> aux == old(aux) + [(e, src.data[old(src.pos)..src.pos])]
      ensures ok ==> auxTotal == old(auxTotal) + e.size <= MAX_AUX_TOTAL && e.size <= MAX_AUX_FILE
      ensures c.faults.Calm() && e.size <= MAX_AUX_FILE && old(auxTotal) + e.size <= MAX_AUX_TOTAL ==>
                (old(src.pos) + e.size <= |src.data| ==> ok)
    {
      if e.size > MAX_AUX_FILE || auxTotal + e.size > MAX_AUX_TOTAL {
        return false;
      }
      var bytes: Bytes := [];
      while |bytes| < e.size
        invariant |bytes| <= e.size && src.Valid() && aux == old(aux) && auxTotal == old(auxTotal)
        invariant streamOffset == src.pos == old(src.pos) + |bytes|
        invariant bytes == src.data[old(src.pos)..src.pos]
        decreases e.size - |bytes|
      {
        var want := if IO_BUFFER < e.size - |bytes| then IO_BUFFER else e.size - |bytes|;
        var data;
        ok, data := ReadBuffer(want);
        if !ok {
          return;
        }
        SliceJoin(src.data, old(src.pos), old(src.pos) + |bytes|, src.pos);
        bytes := bytes + data;
        streamOffset := streamOffset + want;
      }
      auxTotal := auxTotal + e.size;
      aux := aux + [(e, bytes)];
      ok := true;
    }

    /** An NCA whose content is in storage, with the package's bytes if it was not there before. */
    ghost predicate Loaded(e: N.Entry)
      reads this, c
    {
      InPlace(c.s.contents, start.contents, src.data, e)
    }

    ghost predicate Planned(e: N.Entry)
      reads this
    {
      e.isNca ==> e.contentId.Some? && exists p :: p in plan && p.id == e.contentId.value
    }

    /** The content of this entry, if it has one, has been registered in this run. */
    ghost predicate Registered(e: N.Entry)
      reads this
    {
      e.isNca && e.contentId.Some? && exists p :: p in plan && p.id == e.contentId.value && p.registered
    }

    /** The plan after one more entry: same contents; only that entry's may be newly registered. */
    ghost predicate Advanced(plan0: seq<NcmStore.Planned>, e: N.Entry)
      reads this
    {
      && |plan| == |plan0| && (FirstOnly(plan0) ==> FirstOnly(plan))
      && forall i :: 0 <= i < |plan| ==>
           && plan[i].id == plan0[i].id
           && (plan[i].registered ==> plan0[i].registered || (e.isNca && e.contentId == Some(plan[i].id)))
    }

    /** Contents that were there stay there unchanged. */
    ghost predicate Keeps(before: map<Id, Bytes>)
      reads this, c
    {
      forall id :: id in before ==> id in c.s.contents && c.s.contents[id] == before[id]
    }

    /** A new content that is in storage has been registered under the first plan entry with its id. */
    lemma FirstIsRegistered(i: nat)
      requires Settled() && FirstOnly(plan) && i < |plan| && (forall j :: 0 <= j < i ==> plan[j].id != plan[i].id)
      requires plan[i].id in c.s.contents && plan[i].id !in start.contents
      ensures plan[i].registered
    {
      assert plan[i].id !in (c.s.contents - DoomedIds(plan)).Keys;
      var p :| p in plan && p.Doomed() && p.id == plan[i].id;
      var k :| 0 <= k < |plan| && plan[k] == p;
    }

    method StreamNca(e: N.Entry) returns (ok: bool)
      requires Valid() && e.isNca && e.contentId.Some? && streamOffset == src.pos == e.offset
      requires c.alive ==> Settled() && Planned(e)
      modifies this`plan, this`streamOffset, src, c`s, c`alive, c`history
      ensures Valid() && (c.alive ==> old(c.alive))
      ensures ok ==> streamOffset == src.pos == e.offset + e.size
      ensures c.alive && ok ==> Settled() && Loaded(e) && Advanced(old(plan), e) && Keeps(old(c.s.contents))
      ensures c.alive && !ok && (e.contentId.value in start.contents || !old(Registered(e))) ==> Restorable()
      ensures c.faults.Calm() ==> c.alive == old(c.alive)
      ensures c.faults.Calm() && c.alive && e.offset + e.size <= |src.data| ==>
                (e.contentId.value !in old(c.s.contents) || e.contentId.value in start.contents ==> ok)
      ensures c.faults.Calm() && c.alive && FirstOnly(old(plan)) ==>
                (e.contentId.value in old(c.s.contents) && e.contentId.value !in start.contents ==> !ok && Leaks())
    {
      var i := FindPlan(e.contentId.value);
      if i == |plan| {
        return false;
      }
      assert plan[i] in plan;
      if plan[i].preExisting {
        ok := Skip(e.size);
        if !ok && c.alive {
          SettledRestorable();
        }
      } else {
        ok := LoadNca(e, i);
      }
    }

    /** An NCA whose content is new; i is its place in the plan. */
    method LoadNca(e: N.Entry, i: nat) returns (ok: bool)
      requires Valid() && e.isNca && e.contentId.Some? && streamOffset == src.pos == e.offset
      requires i < |plan| && plan[i].id == e.contentId.value && !plan[i].preExisting
      requires forall j :: 0 <= j < i ==> plan[j].id != plan[i].id
      requires c.alive ==> Settled()
      modifies this`plan, this`streamOffset, src, c`s, c`alive, c`history
      ensures Valid() && (c.alive ==> old(c.alive))
      ensures ok ==> streamOffset == src.pos == e.offset + e.size
      ensures c.alive && ok ==> Settled() && Loaded(e) && Advanced(old(plan), e) && Keeps(old(c.s.contents))
      ensures c.alive && !ok && !old(Registered(e)) ==> Restorable()
      ensures c.faults.Calm() ==> c.alive == old(c.alive)
      ensures c.faults.Calm() && c.alive && e.offset + e.size <= |src.data| ==>
                (e.contentId.value !in old(c.s.contents) ==> ok)
      ensures c.faults.Calm() && c.alive && FirstOnly(old(plan)) ==>
                (e.contentId.value in old(c.s.contents) ==> !ok && Leaks())
    {
      assert plan[i] in plan;
      if c.alive && FirstOnly(plan) && e.contentId.value in c.s.contents {
        FirstIsRegistered(i);
      }
      ok := LoadContent(e.contentId.value, e.size, i);
    }

    method StreamEntry(e: N.Entry) returns (ok: bool)
      requires Valid() && streamOffset == src.pos && (e.isNca ==> e.contentId.Some?)
      requires c.alive ==> Settled() && Planned(e)
      modifies this`plan, this`streamOffset, this`aux, this`auxTotal, src, c`s, c`alive, c`history
      ensures Valid() && (c.alive ==> old(c.alive))
      ensures ok ==> old(streamOffset) <= e.offset && streamOffset == src.pos == e.offset + e.size
      ensures ok ==> auxTotal == old(auxTotal) + if IsAux(e) then e.size else 0
      ensures ok && IsAux(e) ==> e.size <= MAX_AUX_FILE && auxTotal <= MAX_AUX_TOTAL
      ensures c.alive && ok ==> Settled() && Loaded(e) && Advanced(old(plan), e) && Keeps(old(c.s.contents))
      // a failure can be undone, except when an NCA is reached whose content this run has registered
      ensures c.alive && !ok && !(e.isNca && old(Registered(e)) && e.contentId.value !in start.contents) ==> Restorable()
      ensures c.alive && !ok && !(old(streamOffset) <= e.offset <= |src.data|) ==> Restorable()
      ensures c.faults.Calm() ==> c.alive == old(c.alive)
      ensures c.faults.Calm() && c.alive ==> (CanStream(e, old(streamOffset), old(auxTotal), old(c.s.contents)) ==> ok)
      ensures c.faults.Calm() && c.alive && FirstOnly(old(plan)) && old(streamOffset) <= e.offset <= |src.data| && e.isNca ==>
                (e.contentId.value in old(c.s.contents) && e.contentId.value !in start.contents ==> !ok && Leaks())
    {
      if c.alive {
        SettledRestorable();
      }
      if e.offset < streamOffset {
        return false;
      }
      if e.offset > streamOffset {
        ok := Skip(e.offset - streamOffset);
        if !ok {
          return;
        }
      }
      if e.isNca {
        ok := StreamNca(e);
      } else if e.isTicket || e.isCert {
        ok := BufferAux(e);
      } else {
        ok := Skip(e.size);
      }
    }

    /** Nothing but a fault can stop this entry. */
    ghost predicate CanStream(e: N.Entry, position: nat, auxBefore: nat, contents: map<Id, Bytes>)
      reads this
    {
      && position <= e.offset && e.offset + e.size <= |src.data|
      && (IsAux(e) ==> e.size <= MAX_AUX_FILE && auxBefore + e.size <= MAX_AUX_TOTAL)
      && (e.isNca ==> e.contentId.Some? && (e.contentId.value !in contents || e.contentId.value in start.contents))
    }

    ghost predicate AllLoaded(es: seq<N.Entry>)
      reads this, c
    {
      AllInPlace(c.s.contents, start.contents, src.data, es)
    }

    ghost predicate AllPlanned(es: seq<N.Entry>)
      reads this
    {
      forall e :: e in es ==> Planned(e)
    }

    lemma StillPlanned(plan0: seq<NcmStore.Planned>, e: N.Entry, es: seq<N.Entry>)
      requires Advanced(plan0, e)
      requires forall x :: x in es && x.isNca ==> x.contentId.Some? && exists p :: p in plan0 && p.id == x.contentId.value
      ensures AllPlanned(es)
    {
      forall x | x in es && x.isNca ensures Planned(x) {
        var p :| p in plan0 && p.id == x.contentId.value;
        var i :| 0 <= i < |plan0| && plan0[i] == p;
        assert plan[i] in plan && plan[i].id == p.id;
      }
    }

    lemma RegisteredNext(plan0: seq<NcmStore.Planned>, es: seq<N.Entry>, e: N.Entry)
      requires RegisteredFrom(plan0, es) && Advanced(plan0, e)
      ensures RegisteredFrom(plan, es + [e])
    {
      forall p | p in plan && p.registered ensures exists x :: x in es + [e] && x.isNca && x.contentId == Some(p.id) {
        var i :| 0 <= i < |plan| && plan[i] == p;
        if plan0[i].registered {
          assert plan0[i] in plan0;
          var x :| x in es && x.isNca && x.contentId == Some(p.id);
          assert x in es + [e];
        } else {
          assert e in es + [e];
        }
      }
    }

    /** The first k entries are done: everything is in storage and can be undone. */
    ghost predicate Streamed(es: seq<N.Entry>, k: nat)
      requires k <= |es|
      reads this, c, src
    {
      Settled() && AllPlanned(es) && AllLoaded(es[..k]) && RegisteredFrom(plan, es[..k]) && FirstOnly(plan)
    }

    /** ... and this is where the stream stands. */
    ghost predicate Standing(es: seq<N.Entry>, k: nat, from: nat)
      requires k <= |es|
      reads this, src
    {
      && streamOffset == src.pos == Position(es, k, from) && auxTotal == AuxBytes(es, k)
      && Streamable(es, k, from, |src.data|)
    }

    /** A content registered in this run belongs to an entry the next one clashes with. */
    lemma RegisteredIsMet(es: seq<N.Entry>, k: nat)
      requires k < |es| && RegisteredFrom(plan, es[..k]) && Registered(es[k]) && es[k].contentId.value !in start.contents
      ensures Met(es, k, start.contents)
    {
      var p :| p in plan && p.id == es[k].contentId.value && p.registered;
      var x :| x in es[..k] && x.isNca && x.contentId == Some(p.id);
      var i :| 0 <= i < k && es[i] == x;
      assert Clash(es[i], es[k], start.contents);
    }

    /** So does a new content that is in storage. */
    lemma StoredIsMet(es: seq<N.Entry>, k: nat)
      requires k < |es| && Settled() && RegisteredFrom(plan, es[..k]) && es[k].isNca && es[k].contentId.Some?
      requires es[k].contentId.value in c.s.contents && es[k].contentId.value !in start.contents
      ensures Met(es, k, start.contents)
    {
      assert es[k].contentId.value !in (c.s.contents - DoomedIds(plan)).Keys;
      RegisteredIsMet(es, k);
    }

    /** An entry met before is in storage. */
    lemma MetIsStored(es: seq<N.Entry>, k: nat)
      requires k < |es| && AllLoaded(es[..k]) && Met(es, k, start.contents)
      ensures es[k].isNca && es[k].contentId.Some? && es[k].contentId.value in c.s.contents
      ensures es[k].contentId.value !in start.contents
    {
      var i :| 0 <= i < k && Clash(es[i], es[k], start.contents);
      assert es[i] in es[..k] && Loaded(es[i]);
    }

    /** The next entry of the loop. */
    method StreamNext(es: seq<N.Entry>, k: nat, ghost from: nat) returns (ok: bool)
      requires Valid() && k < |es| && N.NamesOk(es) && Standing(es, k, from)
      requires c.alive ==> Streamed(es, k)
      modifies this`plan, this`streamOffset, this`aux, this`auxTotal, src, c`s, c`alive, c`history
      ensures Valid() && (c.alive ==> old(c.alive))
      ensures ok ==> Standing(es, k + 1, from)
      ensures c.alive && ok ==> Streamed(es, k + 1)
      ensures c.alive && !ok && !TrapAt(es, k, from, |src.data|, start.contents) ==> Restorable()
      ensures c.faults.Calm() ==> c.alive == old(c.alive)
      ensures c.faults.Calm() && c.alive ==> (TrapAt(es, k, from, |src.data|, start.contents) ==> !ok && Leaks())
      ensures c.faults.Calm() && c.alive ==>
                (Fits(es, k, from, |src.data|) && !Met(es, k, start.contents) ==> ok)
    {
      ghost var plan0, contents0 := plan, c.s.contents;
      if c.alive {
        BeforeNext(es, k, from);
      }
      ok := StreamEntry(es[k]);
      if c.alive && ok {
        AfterNext(plan0, contents0, es, k);
      }
    }

    lemma BeforeNext(es: seq<N.Entry>, k: nat, from: nat)
      requires k < |es| && N.NamesOk(es) && Standing(es, k, from) && Streamed(es, k)
      ensures Planned(es[k])
      ensures es[k].isNca && Registered(es[k]) && es[k].contentId.value !in start.contents ==> Met(es, k, start.contents)
      ensures Met(es, k, start.contents) ==>
                es[k].isNca && es[k].contentId.value in c.s.contents && es[k].contentId.value !in start.contents
      ensures Fits(es, k, from, |src.data|) && !Met(es, k, start.contents) ==>
                CanStream(es[k], streamOffset, auxTotal, c.s.contents)
    {
      assert es[k] in es;
      if es[k].isNca && es[k].contentId.value !in start.contents {
        if Registered(es[k]) {
          RegisteredIsMet(es, k);
        }
        if es[k].contentId.value in c.s.contents {
          StoredIsMet(es, k);
        }
      }
      if Met(es, k, start.contents) {
        MetIsStored(es, k);
      }
    }

    lemma AfterNext(plan0: seq<NcmStore.Planned>, contents0: map<Id, Bytes>, es: seq<N.Entry>, k: nat)
      requires k < |es| && Settled() && Loaded(es[k]) && Advanced(plan0, es[k]) && Keeps(contents0)
      requires forall x :: x in es && x.isNca ==> x.contentId.Some? && exists p :: p in plan0 && p.id == x.contentId.value
      requires AllInPlace(contents0, start.contents, src.data, es[..k]) && RegisteredFrom(plan0, es[..k]) && FirstOnly(plan0)
      ensures Streamed(es, k + 1)
    {
      InPlaceNext(contents0, c.s.contents, start.contents, src.data, es, k);
      StillPlanned(plan0, es[k], es);
      RegisteredNext(plan0, es[..k], es[k]);
      assert es[..k + 1] == es[..k] + [es[k]];
    }

    /** All entries in the order of the stream, then whatever is left of the package. */
    method StreamContents(physical: seq<N.Entry>, packageSize: nat) returns (ok: bool)
      requires Valid() && streamOffset == src.pos <= packageSize && auxTotal == 0 && N.NamesOk(physical)
      requires forall e :: e in physical ==> e.offset + e.size <= packageSize
      requires c.alive ==> Settled() && AllPlanned(physical) && NoneRegistered(plan)
      modifies this`plan, this`streamOffset, this`aux, this`auxTotal, src, c`s, c`alive, c`history
      ensures Valid() && (c.alive ==> old(c.alive))
      ensures ok ==> streamOffset == src.pos == packageSize
      ensures c.alive && ok ==> Settled() && AllLoaded(physical) && RegisteredFrom(plan, physical)
      ensures c.alive && !ok && !Trapped(physical, old(streamOffset), |src.data|, start.contents) ==> Restorable()
      ensures c.faults.Calm() ==> c.alive == old(c.alive)
      ensures c.faults.Calm() && c.alive ==>
                (Trapped(physical, old(streamOffset), |src.data|, start.contents) ==> !ok && Leaks())
      ensures c.faults.Calm() && c.alive ==>
                (ok <==> Flows(physical, old(streamOffset), |src.data|, start.contents) && packageSize <= |src.data|)
    {
      ghost var from, trap := streamOffset, |physical|;
      if Trapped(physical, from, |src.data|, start.contents) {
        trap :| 0 <= trap < |physical| && TrapAt(physical, trap, from, |src.data|, start.contents);
      }
      assert physical[..0] == [];
      if Streamable(physical, |physical|, from, |src.data|) {
        FlowsUntrapped(physical, from, |src.data|, start.contents);
      }
      ok := StreamAll(physical, from, trap);
      if ok {
        ok := SkipTrailer(physical, packageSize, from);
      }
    }

    /** The loop over the entries; `trap` is one that stops it, if there is any. */
    method StreamAll(es: seq<N.Entry>, ghost from: nat, ghost trap: nat) returns (ok: bool)
      requires Valid() && N.NamesOk(es) && Standing(es, 0, from) && (c.alive ==> Streamed(es, 0))
      requires trap < |es| ==> TrapAt(es, trap, from, |src.data|, start.contents)
      modifies this`plan, this`streamOffset, this`aux, this`auxTotal, src, c`s, c`alive, c`history
      ensures Valid() && (c.alive ==> old(c.alive))
      ensures ok ==> Standing(es, |es|, from) && (c.alive ==> Streamed(es, |es|))
      ensures c.alive && !ok && !Trapped(es, from, |src.data|, start.contents) ==> Restorable()
      ensures c.faults.Calm() ==> c.alive == old(c.alive)
      ensures c.faults.Calm() && c.alive && trap < |es| ==> !ok && Leaks()
      ensures c.faults.Calm() && c.alive && Streamable(es, |es|, from, |src.data|) && NoneMet(es, start.contents) ==> ok
    {
      ok := true;
      for k := 0 to |es|
        invariant Valid() && (c.alive ==> old(c.alive)) && (c.faults.Calm() ==> c.alive == old(c.alive))
        invariant ok && Standing(es, k, from) && (c.alive ==> Streamed(es, k))
        invariant c.faults.Calm() && c.alive && trap < |es| ==> k <= trap
      {
        if k < trap && trap < |es| {
          TrapAhead(es, k, trap, from);
        }
        if Streamable(es, |es|, from, |src.data|) {
          StreamableFits(es, |es|, k, from, |src.data|);
        }
        ok := StreamNext(es, k, from);
        if !ok {
          return;
        }
      }
    }

    /** Before a trap an entry fits, or is a trap itself. */
    lemma TrapAhead(es: seq<N.Entry>, k: nat, trap: nat, from: nat)
      requires k < trap < |es| && Standing(es, k, from) && TrapAt(es, trap, from, |src.data|, start.contents)
      ensures Fits(es, k, from, |src.data|)
      ensures Met(es, k, start.contents) ==> TrapAt(es, k, from, |src.data|, start.contents)
    {
      StreamableFits(es, trap, k, from, |src.data|);
    }

    /** What follows the last entry. */
    method SkipTrailer(physical: seq<N.Entry>, packageSize: nat, ghost from: nat) returns (ok: bool)
      requires Valid() && Standing(physical, |physical|, from) && from <= packageSize
      requires forall e :: e in physical ==> e.offset + e.size <= packageSize
      requires c.alive ==> Streamed(physical, |physical|)
      modifies this`streamOffset, src
      ensures Valid() && (ok ==> streamOffset == src.pos == packageSize)
      ensures c.alive ==> Settled() && AllLoaded(physical) && RegisteredFrom(plan, physical) && Restorable()
      ensures c.faults.Calm() && packageSize <= |src.data| ==> ok
    {
      assert physical[..|physical|] == physical;
      assert physical != [] ==> physical[|physical| - 1] in physical;
      if c.alive {
        SettledRestorable();
      }
      ok := Skip(packageSize - streamOffset);
    }

    // ----- The plan -----

    /** `ContentStorageHas`, when the service answers. */
    method HasContent(id: Id) returns (r: Option<bool>)
      ensures r.Some? ==> (r.value <==> id in c.s.contents)
      ensures c.faults.Calm() ==> r.Some?
    {
      var answered := c.Works();
      r := if answered then Some(id in c.s.contents) else None;
    }

    /** One planned content for each NCA. */
    method PlanContents(entries: seq<N.Entry>) returns (ok: bool, newBytes: nat)
      requires N.NamesOk(entries)
      modifies this`plan
      ensures ok ==> AllPlanned(entries) && forall p :: p in plan ==> p.Untouched(c.s)
      ensures ok ==> newBytes == NewBytes(entries, |entries|, c.s.contents) < U64_LIMIT
      ensures c.faults.Calm() && NewBytes(entries, |entries|, c.s.contents) < U64_LIMIT ==> ok
    {
      plan, newBytes, ok := [], 0, true;
      for k := 0 to |entries|
        invariant ok && AllPlanned(entries[..k]) && forall p :: p in plan ==> p.Untouched(c.s)
        invariant newBytes == NewBytes(entries, k, c.s.contents) < U64_LIMIT
      {
        ok, newBytes := PlanEntry(entries, k, newBytes);
        if !ok {
          NewBytesGrow(entries, k + 1, |entries|, c.s.contents);
          return;
        }
        assert entries[..k + 1] == entries[..k] + [entries[k]];
      }
      assert entries[..|entries|] == entries;
    }

    /** One entry of the package. */
    method PlanEntry(entries: seq<N.Entry>, k: nat, bytes: nat) returns (ok: bool, newBytes: nat)
      requires N.NamesOk(entries) && k < |entries| && bytes == NewBytes(entries, k, c.s.contents)
      requires AllPlanned(entries[..k]) && forall p :: p in plan ==> p.Untouched(c.s)
      modifies this`plan
      ensures forall p :: p in plan ==> p.Untouched(c.s)
      ensures ok ==> AllPlanned(entries[..k]) && Planned(entries[k])
      ensures ok ==> newBytes == NewBytes(entries, k + 1, c.s.contents) < U64_LIMIT
      ensures c.faults.Calm() && NewBytes(entries, k + 1, c.s.contents) < U64_LIMIT ==> ok
    {
      var e := entries[k];
      newBytes := bytes;
      if e.isNca && e.contentId.Some? {
        var present := HasContent(e.contentId.value);
        if present.None? {
          return false, bytes;
        }
        ghost var plan0 := plan;
        plan := plan + [NcmStore.Planned(e.contentId.value, 0, false, false, present.value)];
        assert plan[|plan0|].id == e.contentId.value;
        assert forall p :: p in plan0 ==> p in plan;
        if !present.value {
          newBytes := newBytes + e.size;
        }
      }
      ok := newBytes < U64_LIMIT;
    }

    /** A reserve of 64 MiB must remain, when the free space is known. */
    method EnoughSpace(newBytes: nat) returns (ok: bool)
      ensures c.faults.Calm() ==> ok
    {
      var free: int := *;
      ok := free < 0 || free >= newBytes + SPACE_RESERVE || c.faults.Calm();
    }

    /** Plan, space, first journal. */
    method Prepare(entries: seq<N.Entry>) returns (ok: bool)
      requires Valid() && N.NamesOk(entries) && (c.alive ==> c.s.journal.None?)
      requires c.alive && c.watch.Some? ==> c.watch.value == c.s
      modifies this`plan, this`start, c`s, c`alive, c`history
      ensures Valid() && (c.alive ==> old(c.alive))
      ensures c.alive && !ok ==> c.s == old(c.s)
      ensures c.alive && ok ==> Settled() && AllPlanned(entries) && NoneRegistered(plan) && start == old(c.s)
      ensures c.faults.Calm() ==> c.alive == old(c.alive)
      ensures ok ==> NewBytes(entries, |entries|, old(c.s.contents)) < U64_LIMIT
      ensures c.faults.Calm() && NewBytes(entries, |entries|, old(c.s.contents)) < U64_LIMIT ==> ok
    {
      var newBytes;
      ok, newBytes := PlanContents(entries);
      if !ok {
        return;
      }
      ok := EnoughSpace(newBytes);
      if !ok {
        return;
      }
      start := c.s;
      assert DoomedIds(plan) == {};
      SavePlan(Prepared);
    }

    // ----- The title -----

    /** `validateStreamMetaAgainstInstalled`: at least, the exact title must not be installed. */
    method ValidateAgainstInstalled(key: Key) returns (ok: bool)
      ensures ok ==> key !in c.s.db
      ensures c.faults.Calm() && key !in c.s.db ==> ok
    {
      ok := c.Works();
      ok := ok && key !in c.s.db;
    }

    /** All contents are there; the title may or may not have been entered. */
    ghost predicate Entering(key: Key, ids: set<Id>)
      reads this, c
    {
      && c.s.journal.Some? && c.s.journal.value.RollsBack()
      && c.s.journal.value.metaSet && c.s.journal.value.key == key && c.s.journal.value.contents == plan
      && c.s.placeholders == start.placeholders
      && (forall p :: p in plan ==> !p.placeholderCreated)
      && c.s.contents - DoomedIds(plan) == start.contents
      && key !in start.db && start.journal.None?
      && (c.s.db == start.db || c.s.db == start.db[key := ids])
    }

    lemma EnteringRestorable(key: Key, ids: set<Id>)
      requires Entering(key, ids) && start.db == start.saved
      ensures Restorable()
    {
      assert DanglingPlaceholders(plan) == {};
      assert start.db[key := ids] - {key} == start.db;
      assert start.db - {key} == start.db;
    }

    method SaveStage(stage: Stage, key: Key, ghost ids: set<Id>)
      requires Valid() && stage != ApplicationRecord && stage != Finished
      requires c.alive ==> Entering(key, ids)
      modifies c`s, c`alive, c`history
      ensures Valid() && (c.alive ==> old(c.alive))
      ensures c.alive ==> Entering(key, ids) && c.s == old(c.s).(journal := c.s.journal)
      ensures c.faults.Calm() ==> c.alive == old(c.alive)
    {
      c.SaveJournal(Journal(stage, key, plan, true));
    }

    /** The journal gets the title's key before the database does. */
    method AnnounceTitle(key: Key, ghost ids: set<Id>)
      requires Valid()
      requires c.alive ==> Settled() && key !in c.s.db
      modifies c`s, c`alive, c`history
      ensures Valid() && (c.alive ==> old(c.alive))
      ensures c.alive ==> Entering(key, ids) && c.s == old(c.s).(journal := c.s.journal)
      ensures c.faults.Calm() ==> c.alive == old(c.alive)
      ensures c.alive ==>
                && |c.history| == |old(c.history)| + 2
                && c.history[|old(c.history)|].journal == Some(Journal(ContentComplete, key, plan, false))
    {
      var j := Journal(ContentComplete, key, plan, false);
      if c.alive {
        PlanIsSafe(c.s.(journal := Some(j)), j);
        PlanIsSafe(c.s.(journal := Some(j.(stage := MetadataPending, metaSet := true))), j.(stage := MetadataPending, metaSet := true));
      }
      c.SaveJournal(j);
      c.SaveJournal(j.(stage := MetadataPending, metaSet := true));
    }

    method EnterTitle(key: Key, ids: set<Id>) returns (ok: bool)
      requires Valid()
      requires c.alive ==> Settled() && key !in c.s.db && ids <= c.s.contents.Keys
      modifies c`s, c`alive, c`history
      ensures Valid() && (c.alive ==> old(c.alive))
      ensures c.alive ==> Entering(key, ids) && c.s.contents == old(c.s.contents)
      ensures c.alive && ok ==> c.s.db == c.s.saved == start.db[key := ids]
      ensures c.faults.Calm() ==> ok && c.alive == old(c.alive)
    {
      AnnounceTitle(key, ids);
      ok := c.SetTitle(key, ids);
      if !ok {
        return;
      }
      ok := c.CommitDatabase();
      if !ok {
        return;
      }
      SaveStage(MetadataCommitted, key, ids);
    }

    /** A ticket, if the title needs one. */
    method ImportTicket(key: Key, ghost ids: set<Id>) returns (ok: bool)
      requires Valid()
      requires c.alive ==> Entering(key, ids)
      modifies c`s, c`alive, c`history
      ensures Valid() && (c.alive ==> old(c.alive))
      ensures c.alive ==> Entering(key, ids) && c.s == old(c.s).(journal := c.s.journal)
      ensures c.faults.Calm() ==> ok && c.alive == old(c.alive)
    {
      var rightsFound: bool := *;
      if !rightsFound {
        return true;
      }
      ok := c.Works();
      if ok {
        SaveStage(TicketImported, key, ids);
      }
    }

    /** Past the application record a recovery keeps what is there. */
    ghost predicate Kept()
      reads c
    {
      c.s.journal.Some? ==> !c.s.journal.value.RollsBack()
    }

    /** The application record, the last step that can fail. */
    method PushRecord(key: Key, ghost ids: set<Id>) returns (ok: bool)
      requires Valid()
      requires c.alive ==> Entering(key, ids)
      modifies c`s, c`alive, c`history, c`watch
      ensures Valid() && (c.alive ==> old(c.alive))
      ensures c.alive ==> c.s == old(c.s).(journal := c.s.journal)
      ensures (c.alive && !ok ==> Entering(key, ids)) && (!ok ==> c.watch == old(c.watch))
      ensures c.alive && ok && c.faults.Reliable() ==> c.s.journal.None?
      ensures c.alive && ok ==> c.s.journal.None? || c.s.journal.value.stage.Finished?
      ensures c.watch != old(c.watch) ==> c.watch.None? && old(c.alive) && Kept() && c.s == old(c.s).(journal := c.s.journal)
      ensures c.faults.Calm() ==> ok && c.alive == old(c.alive)
    {
      var listed := c.Works();
      if !listed {
        return false;
      }
      SaveStage(RecordPending, key, ids);
      ok := c.Works();
      if ok {
        SaveRecord(key);
        c.SaveJournal(Journal(Finished, key, plan, true));
        var _ := c.RemoveJournal();
      }
    }

    /** The journal of the pushed record: from here on nothing is undone. */
    method SaveRecord(key: Key)
      requires Valid()
      modifies c`s, c`alive, c`history, c`watch
      ensures Valid() && (c.alive ==> old(c.alive))
      ensures c.alive ==> c.watch.None? && Kept() && c.s == old(c.s).(journal := c.s.journal)
      ensures !c.alive ==> c.watch == old(c.watch) && c.s == old(c.s)
      ensures c.faults.Calm() ==> c.alive == old(c.alive)
    {
      ghost var watch := c.watch;
      c.watch := None;
      c.SaveJournal(Journal(ApplicationRecord, key, plan, true));
      if !c.alive {
        c.watch := watch;
      }
    }

    /** From the CNMT to the application record. */
    method InstallTitle(es: seq<N.Entry>, cnmt: N.Entry, meta: Option<Meta>) returns (ok: bool)
      requires Valid() && cnmt in es && cnmt.isNca && cnmt.contentId.Some?
      requires c.alive ==> Settled() && AllLoaded(es)
      modifies c`s, c`alive, c`history, c`watch
      ensures Valid() && (c.alive ==> old(c.alive))
      ensures c.alive && ok ==> meta.Some? && ReferencesOk(meta.value.refs, es) && meta.value.key !in start.db
      ensures c.alive && ok ==> c.s.contents == old(c.s.contents) && c.s.placeholders == start.placeholders
      ensures c.alive && ok ==> c.s.db == c.s.saved == start.db[meta.value.key := TitleIds(meta.value, cnmt)]
      ensures c.alive && ok && c.faults.Reliable() ==> c.s.journal.None?
      ensures c.alive && !ok && start.db == start.saved ==> Restorable()
      ensures !ok ==> c.watch == old(c.watch)
      ensures c.watch != old(c.watch) ==>
                && c.watch.None? && old(c.alive) && Kept() && meta.Some? && ReferencesOk(meta.value.refs, es)
                && c.s.contents == old(c.s.contents) && c.s.placeholders == start.placeholders
                && HoldsTitle(meta.value, cnmt)
      ensures c.faults.Calm() ==> c.alive == old(c.alive)
      ensures c.faults.Calm() && old(c.alive) && meta.Some? && ReferencesOk(meta.value.refs, es) && meta.value.key !in start.db ==> ok
    {
      if c.alive {
        SettledRestorable();
      }
      if meta.None? {
        return false;
      }
      ok := ValidateReferences(meta.value.refs, es);
      if !ok {
        return;
      }
      ok := ValidateAgainstInstalled(meta.value.key);
      if !ok {
        return;
      }
      var key, ids := meta.value.key, TitleIds(meta.value, cnmt);
      if c.alive {
        ReferencesLoaded(meta.value.refs, es);
        assert Loaded(cnmt);
      }
      ok := RegisterTitle(key, ids);
    }

    lemma ReferencesLoaded(refs: seq<(Id, nat)>, es: seq<N.Entry>)
      requires AllLoaded(es) && ReferencesOk(refs, es)
      ensures RefIds(refs) <= c.s.contents.Keys
    {
      forall r | r in refs ensures r.0 in c.s.contents {
        assert ReferenceOk(r, es);
        assert Loaded(Lookup(es, r.0).value);
      }
    }

    method RegisterTitle(key: Key, ids: set<Id>) returns (ok: bool)
      requires Valid()
      requires c.alive ==> Settled() && key !in c.s.db && ids <= c.s.contents.Keys
      modifies c`s, c`alive, c`history, c`watch
      ensures Valid() && (c.alive ==> old(c.alive))
      ensures c.alive && ok ==> c.s.contents == old(c.s.contents) && c.s.placeholders == start.placeholders
      ensures c.alive && ok ==> c.s.db == c.s.saved == start.db[key := ids]
      ensures c.alive && ok && c.faults.Reliable() ==> c.s.journal.None?
      ensures c.alive && !ok && start.db == start.saved ==> Restorable()
      ensures !ok ==> c.watch == old(c.watch)
      ensures c.watch != old(c.watch) ==>
                && c.watch.None? && old(c.alive) && Kept()
                && c.s.contents == old(c.s.contents) && c.s.placeholders == start.placeholders
                && key !in start.db && c.s.db == c.s.saved == start.db[key := ids]
      ensures c.faults.Calm() ==> ok && c.alive == old(c.alive)
    {
      ok := EnterTitle(key, ids);
      if ok {
        ok := ImportTicket(key, ids);
      }
      if ok {
        ok := PushRecord(key, ids);
      }
      if c.alive && !ok && start.db == start.saved {
        EnteringRestorable(key, ids);
      }
    }

    // ----- The whole installation -----

    /** Everything of the package is in storage, and nothing else is new. */
    ghost predicate HoldsPackage(es: seq<N.Entry>)
      reads this, c
    {
      && AllLoaded(es)
      && (forall id :: id in start.contents ==> id in c.s.contents && c.s.contents[id] == start.contents[id])
      && (forall id :: id in c.s.contents && id !in start.contents ==> IsContentOf(es, id))
      && c.s.placeholders == start.placeholders
    }

    /** The title is entered and committed, beside those that were there. */
    ghost predicate HoldsTitle(meta: Meta, cnmt: N.Entry)
      requires cnmt.contentId.Some?
      reads this, c
    {
      meta.key !in start.db && c.s.db == c.s.saved == start.db[meta.key := TitleIds(meta, cnmt)]
    }

    lemma SettledHolds(es: seq<N.Entry>)
      requires Settled() && AllLoaded(es) && RegisteredFrom(plan, es)
      ensures HoldsPackage(es)
    {
      forall id | id in c.s.contents && id !in start.contents ensures IsContentOf(es, id) {
        assert id !in (c.s.contents - DoomedIds(plan)).Keys;
      }
    }

    lemma Reordered(es: seq<N.Entry>, physical: seq<N.Entry>)
      requires forall e :: e in es <==> e in physical
      ensures AllPlanned(es) ==> AllPlanned(physical)
      ensures AllLoaded(physical) ==> AllLoaded(es)
      ensures RegisteredFrom(plan, physical) ==> RegisteredFrom(plan, es)
    {
    }

    /** All contents, in the order of the stream. */
    method StreamPackage(m: N.Manifest) returns (ok: bool)
      requires Valid() && streamOffset == src.pos <= m.packageSize && N.NamesOk(m.entries)
      requires forall e :: e in m.entries ==> e.offset + e.size <= m.packageSize
      requires auxTotal == 0 && (c.alive ==> Settled() && AllPlanned(m.entries) && NoneRegistered(plan))
      modifies this`plan, this`streamOffset, this`aux, this`auxTotal, src, c`s, c`alive, c`history
      ensures Valid() && (c.alive ==> old(c.alive))
      ensures ok ==> streamOffset == src.pos == m.packageSize
      ensures c.alive && ok ==> Settled() && HoldsPackage(m.entries)
      ensures c.alive && !ok && !Trapped(ByOffset(m.entries), old(streamOffset), |src.data|, start.contents) ==> Restorable()
      ensures c.faults.Calm() ==> c.alive == old(c.alive)
      ensures c.faults.Calm() && old(c.alive) ==>
                (Trapped(ByOffset(m.entries), old(streamOffset), |src.data|, start.contents) ==> c.alive && !ok && Leaks())
      ensures c.faults.Calm() && old(c.alive) ==>
                (ok <==> Flows(ByOffset(m.entries), old(streamOffset), |src.data|, start.contents) && m.packageSize <= |src.data|)
    {
      var physical := ByOffset(m.entries);
      SameEntries(m.entries);
      Reordered(m.entries, physical);
      ok := StreamContents(physical, m.packageSize);
      if c.alive && ok {
        Reordered(m.entries, physical);
        SettledHolds(m.entries);
      }
    }

    /** Contents and title under the journal. */
    method Transact(m: N.Manifest, cnmt: N.Entry, meta: Option<Meta>) returns (ok: bool)
      requires Valid() && streamOffset == src.pos <= m.packageSize && N.NamesOk(m.entries)
      requires forall e :: e in m.entries ==> e.offset + e.size <= m.packageSize
      requires cnmt in m.entries && cnmt.isNca && cnmt.contentId.Some?
      requires auxTotal == 0 && (c.alive ==> Settled() && AllPlanned(m.entries) && NoneRegistered(plan))
      modifies this`plan, this`streamOffset, this`aux, this`auxTotal, src, c`s, c`alive, c`history, c`watch
      ensures Valid() && (c.alive ==> old(c.alive))
      ensures ok ==> streamOffset == src.pos == m.packageSize
      ensures c.alive && ok ==> meta.Some? && ReferencesOk(meta.value.refs, m.entries)
      ensures c.alive && ok ==> HoldsPackage(m.entries) && HoldsTitle(meta.value, cnmt)
      ensures c.alive && ok && c.faults.Reliable() ==> c.s.journal.None?
      ensures c.alive && !ok && !Trapped(ByOffset(m.entries), old(streamOffset), |src.data|, start.contents) ==>
                (start.db == start.saved ==> Restorable())
      ensures c.faults.Calm() && old(c.alive) ==>
                (Trapped(ByOffset(m.entries), old(streamOffset), |src.data|, start.contents) ==> c.alive && !ok && Leaks())
      ensures c.faults.Calm() && old(c.alive) ==>
                c.alive && (ok <==> Installs(m, old(streamOffset), |src.data|, meta, start))
      ensures !ok ==> c.watch == old(c.watch)
      ensures c.watch != old(c.watch) ==>
                && c.watch.None? && old(c.alive) && Kept() && HoldsPackage(m.entries) && meta.Some? && HoldsTitle(meta.value, cnmt)
    {
      ok := StreamPackage(m);
      if ok {
        ok := InstallTitle(m.entries, cnmt, meta);
      }
    }

    /** The manifest and its CNMT. */
    method OpenPackage(packageSize: nat) returns (ok: bool, m: N.Manifest, cnmt: N.Entry)
      requires src.Valid() && src.pos == 0
      modifies this`streamOffset, src
      ensures src.Valid()
      ensures ok ==> IsManifest(src.data, packageSize, m)
      ensures ok ==> streamOffset == src.pos <= m.packageSize && N.NamesOk(m.entries)
      ensures ok ==> forall e :: e in m.entries ==> e.offset + e.size <= m.packageSize
      ensures ok ==> cnmt in m.entries && cnmt.isCnmtNca && cnmt.isNca && cnmt.contentId.Some?
      ensures ok ==> |src.data| >= N.HEADER && streamOffset == N.DataStart(src.data)
      ensures c.faults.Calm() && N.StreamAccepted(src.data, packageSize) ==> ok
    {
      cnmt := N.MakeEntry([], 0, 0);
      m, streamOffset := N.ParseStreamManifest(packageSize, src);
      if !m.Ok() {
        return false, m, cnmt;
      }
      AcceptedFits(src.data, packageSize);
      AcceptedHasCnmt(src.data, packageSize);
      var found := FindCnmt(m.entries);
      var services := c.Works();
      if found.None? || !services {
        return false, m, cnmt;
      }
      ok, cnmt := true, found.value;
    }

    /** Notes the store an installation starts from. */
    ghost method Watch()
      requires Valid() && c.s.journal.None?
      modifies c`watch
      ensures Valid() && c.watch == if c.s.db == c.s.saved then Some(c.s) else None
    {
      c.watch := if c.s.db == c.s.saved then Some(c.s) else None;
    }

    /** The package is in storage and its title entered. */
    ghost predicate Recorded(packageSize: nat, meta: Option<Meta>, m: N.Manifest, cnmt: N.Entry)
      reads this, c, src
    {
      && IsManifest(src.data, packageSize, m) && HoldsPackage(m.entries)
      && meta.Some? && cnmt.contentId.Some? && HoldsTitle(meta.value, cnmt)
    }

    /** The package, its title and nothing else have been added. */
    ghost predicate Installed(packageSize: nat, meta: Option<Meta>, m: N.Manifest, cnmt: N.Entry)
      reads this, c, src
    {
      && IsManifest(src.data, packageSize, m) && streamOffset == src.pos == m.packageSize
      && HoldsPackage(m.entries)
      && meta.Some? && ReferencesOk(meta.value.refs, m.entries)
      && cnmt in m.entries && cnmt.isCnmtNca && cnmt.contentId.Some? && HoldsTitle(meta.value, cnmt)
    }

    /** From the first journal on. */
    method Proceed(m: N.Manifest, cnmt: N.Entry, meta: Option<Meta>) returns (installed: bool)
      requires Valid() && streamOffset == src.pos <= m.packageSize && N.NamesOk(m.entries)
      requires forall e :: e in m.entries ==> e.offset + e.size <= m.packageSize
      requires cnmt in m.entries && cnmt.isNca && cnmt.contentId.Some?
      requires auxTotal == 0 && (c.alive ==> Settled() && AllPlanned(m.entries) && NoneRegistered(plan))
      modifies this`plan, this`streamOffset, this`aux, this`auxTotal, src, c
      ensures Valid() && (c.alive ==> old(c.alive))
      ensures installed ==> streamOffset == src.pos == m.packageSize
      ensures c.alive && installed ==> meta.Some? && ReferencesOk(meta.value.refs, m.entries)
      ensures c.alive && installed ==> HoldsPackage(m.entries) && HoldsTitle(meta.value, cnmt)
      ensures c.alive && installed && c.faults.Reliable() ==> c.s.journal.None?
      ensures c.alive && !installed && !Trapped(ByOffset(m.entries), old(streamOffset), |src.data|, start.contents) ==>
                (c.faults.Reliable() && start.db == start.saved ==> c.s == start)
      ensures c.faults.Calm() && old(c.alive) ==>
                (Trapped(ByOffset(m.entries), old(streamOffset), |src.data|, start.contents) ==>
                   c.alive && !installed && exists ph :: ph in c.s.placeholders && ph !in start.placeholders)
      ensures c.faults.Calm() && old(c.alive) ==>
                c.alive && (installed <==> Installs(m, old(streamOffset), |src.data|, meta, start))
      ensures c.watch != old(c.watch) ==>
                && c.watch.None? && old(c.alive) && Kept() && HoldsPackage(m.entries) && meta.Some? && HoldsTitle(meta.value, cnmt)
    {
      installed := Transact(m, cnmt, meta);
      if !installed {
        Abandon();
      }
    }

    /** From the manifest on, with no journal left. */
    method InstallManifest(m: N.Manifest, cnmt: N.Entry, meta: Option<Meta>) returns (installed: bool)
      requires Valid() && auxTotal == 0 && (c.alive ==> c.s.journal.None?)
      requires c.alive && c.watch.Some? ==> c.watch.value == c.s
      requires |src.data| >= N.HEADER && streamOffset == src.pos == N.DataStart(src.data) <= m.packageSize
      requires N.NamesOk(m.entries) && forall e :: e in m.entries ==> e.offset + e.size <= m.packageSize
      requires cnmt in m.entries && cnmt.isNca && cnmt.contentId.Some?
      modifies this, src, c
      ensures Valid() && (c.alive ==> old(c.alive))
      ensures installed ==> streamOffset == src.pos == m.packageSize
      ensures c.alive && installed ==> meta.Some? && ReferencesOk(meta.value.refs, m.entries)
      ensures c.alive && installed ==> HoldsPackage(m.entries) && HoldsTitle(meta.value, cnmt) && start == old(c.s)
      ensures c.alive && installed && c.faults.Reliable() ==> c.s.journal.None?
      ensures c.alive && !installed && c.faults.Reliable() && old(c.s.db) == old(c.s.saved) ==>
                (!TrapsManifest(m, src.data, old(c.s.contents)) ==> c.s == old(c.s))
      ensures c.faults.Calm() && old(c.alive) && TrapsManifest(m, src.data, old(c.s.contents)) ==>
                c.alive && !installed && exists ph :: ph in c.s.placeholders && ph !in old(c.s.placeholders)
      ensures c.faults.Calm() && old(c.alive) ==> c.alive && (installed <==> InstallsManifest(m, src.data, meta, old(c.s)))
      ensures c.watch != old(c.watch) ==>
                && c.watch.None? && old(c.alive) && start == old(c.s) && Kept()
                && HoldsPackage(m.entries) && meta.Some? && HoldsTitle(meta.value, cnmt)
    {
      installed := Prepare(m.entries);
      if installed {
        installed := Proceed(m, cnmt, meta);
      }
    }

    /** The rollback after a failed installation. */
    method Abandon()
      requires Valid()
      modifies c
      ensures Valid() && (c.alive ==> old(c.alive)) && (c.faults.Calm() ==> c.alive == old(c.alive))
      ensures c.alive && c.faults.Reliable() && old(Restorable()) ==> c.s == start
      ensures c.alive && c.faults.Reliable() && old(Leaks()) ==>
                exists ph :: ph in c.s.placeholders && ph !in start.placeholders
      ensures c.watch == old(c.watch)
    {
      var _, _ := c.Recover();
    }

    /** With no journal left: the package is installed, or nothing has changed. */
    method InstallFresh(packageSize: nat, meta: Option<Meta>)
      returns (installed: bool, ghost m: N.Manifest, ghost cnmt: N.Entry)
      requires Valid() && src.pos == 0 && auxTotal == 0 && (c.alive ==> c.s.journal.None?)
      modifies this, src, c
      ensures Valid() && (c.alive ==> old(c.alive))
      ensures c.alive && installed ==> Installed(packageSize, meta, m, cnmt) && start == old(c.s)
      ensures c.alive && installed && c.faults.Reliable() ==> c.s.journal.None?
      ensures c.alive && !installed && c.faults.Reliable() && old(c.s.db) == old(c.s.saved) ==>
                (!Traps(src.data, packageSize, old(c.s.contents)) ==> c.s == old(c.s))
      ensures c.faults.Calm() && old(c.alive) && Traps(src.data, packageSize, old(c.s.contents)) ==>
                c.alive && !installed && exists ph :: ph in c.s.placeholders && ph !in old(c.s.placeholders)
      ensures c.faults.Calm() && old(c.alive) ==> c.alive && (installed <==> Installable(src.data, packageSize, meta, old(c.s)))
      ensures old(c.alive) && old(c.s.db) == old(c.s.saved) ==>
                c.watch == Some(old(c.s)) || (Kept() && start == old(c.s) && Recorded(packageSize, meta, m, cnmt))
    {
      if c.alive {
        Watch();
      }
      var ok, manifest, cnmtEntry := OpenPackage(packageSize);
      m, cnmt, installed := manifest, cnmtEntry, false;
      if !ok {
        return;
      }
      TrapsIs(src.data, packageSize, m, c.s.contents);
      InstallableIs(src.data, packageSize, m, meta, c.s);
      installed := InstallManifest(manifest, cnmtEntry, meta);
    }

    /**
      `installNspStreamToSdTransactional`; `meta` is what parsing the installed CNMT yields, if it
      can be parsed.  On success the package is in storage byte for byte and its title is entered;
      on failure everything is as it was, once an earlier interrupted installation is undone, unless the
      package is one that `Traps`; for each of those the run in which nothing fails leaves a placeholder.
     */
    method InstallNspStream(packageSize: nat, meta: Option<Meta>)
      returns (installed: bool, ghost m: N.Manifest, ghost cnmt: N.Entry)
      requires Valid() && src.pos == 0
      modifies this, src, c
      ensures Valid() && (c.alive ==> old(c.alive))
      ensures c.alive && installed ==> Installed(packageSize, meta, m, cnmt)
      ensures c.alive && installed && (c.faults.Reliable() || old(c.s.journal).None?) ==> start == Recovered(old(c.s))
      ensures c.alive && installed && c.faults.Reliable() ==> c.s.journal.None?
      ensures c.alive && !installed && c.faults.Reliable() && old(c.s.db) == old(c.s.saved) ==>
                (!Traps(src.data, packageSize, Recovered(old(c.s)).contents) ==> c.s == Recovered(old(c.s)))
      ensures c.faults.Calm() && old(c.alive) && Traps(src.data, packageSize, Recovered(old(c.s)).contents) ==>
                c.alive && !installed && exists ph :: ph in c.s.placeholders && ph !in Recovered(old(c.s)).placeholders
      // when nothing fails, exactly the packages that can be installed are
      ensures c.faults.Calm() && old(c.alive) ==>
                c.alive && (installed <==> Installable(src.data, packageSize, meta, Recovered(old(c.s))))
      // the title refers to its CNMT and to what that lists
      ensures c.alive && installed ==>
                && meta.value.key in c.s.db && c.s.saved == c.s.db
                && forall id :: id in c.s.db[meta.value.key] <==>
                     cnmt.contentId == Some(id) || exists r :: r in meta.value.refs && r.0 == id
      // wherever it stops: every store is close to the first one until the application record is pushed
      ensures old(c.alive) && old(c.s.journal).None? && old(c.s.db) == old(c.s.saved) ==>
                c.watch == Some(old(c.s)) || (Kept() && start == old(c.s) && Recorded(packageSize, meta, m, cnmt))
    {
      plan, streamOffset, aux, auxTotal, installed := [], 0, [], 0, false;
      m, cnmt := N.Empty, N.MakeEntry([], 0, 0);
      var ok, _ := c.Recover();
      if ok && c.s.journal.None? {
        installed, m, cnmt := InstallFresh(packageSize, meta);
        if installed && meta.Some? && cnmt.contentId.Some? {
          TitleIdsAre(meta.value, cnmt);
        }
      }
    }
  }

  predicate IsContentOf(es: seq<N.Entry>, id: Id) {
    exists e :: e in es && e.isNca && e.contentId == Some(id)
  }

  function FindCnmt(es: seq<N.Entry>): (r: Option<N.Entry>)
    ensures r.Some? ==> r.value in es && r.value.isCnmtNca && r.value.contentId.Some?
    ensures r.Some? ==> exists i :: 0 <= i < |es| && es[i] == r.value && forall j :: 0 <= j < i ==> !IsCnmt(es[j])
  {
    if es == [] then None
    else if es[0].isCnmtNca && es[0].contentId.Some? then Some(es[0])
    else
      var r := FindCnmt(es[1..]);
      assert forall j :: 1 <= j < |es| ==> es[1..][j - 1] == es[j];
      r
  }

  predicate IsCnmt(e: N.Entry) { e.isCnmtNca && e.contentId.Some? }

  /** The first NCA of the package with this content id. */
  function Lookup(es: seq<N.Entry>, id: Id): (r: Option<N.Entry>)
    ensures r.Some? <==> exists e :: e in es && e.isNca && e.contentId == Some(id)
    ensures r.Some? ==> r.value in es && r.value.isNca && r.value.contentId == Some(id)
  {
    if es == [] then None
    else if es[0].isNca && es[0].contentId == Some(id) then Some(es[0])
    else
      assert es == [es[0]] + es[1..];
      Lookup(es[1..], id)
  }

  /** The package holds a referenced content, in the size the reference gives. */
  predicate ReferenceOk(r: (Id, nat), es: seq<N.Entry>) {
    Lookup(es, r.0).Some? && Lookup(es, r.0).value.size == r.1
  }

  predicate ReferencesOk(refs: seq<(Id, nat)>, es: seq<N.Entry>) {
    forall r :: r in refs ==> ReferenceOk(r, es)
  }

  method ValidateReferences(refs: seq<(Id, nat)>, es: seq<N.Entry>) returns (ok: bool)
    ensures ok <==> ReferencesOk(refs, es)
  {
    for i := 0 to |refs|
      invariant forall j :: 0 <= j < i ==> ReferenceOk(refs[j], es)
    {
      var e := Lookup(es, refs[i].0);
      if e.None? || e.value.size != refs[i].1 {
        assert !ReferenceOk(refs[i], es);
        return false;
      }
    }
    return true;
  }

  /** The contents a title refers to: those its CNMT lists, and the CNMT. */
  function TitleIds(meta: Meta, cnmt: N.Entry): set<Id>
    requires cnmt.contentId.Some?
  {
    RefIds(meta.refs) + {cnmt.contentId.value}
  }

  lemma TitleIdsAre(meta: Meta, cnmt: N.Entry)
    requires cnmt.contentId.Some?
    ensures forall id :: id in TitleIds(meta, cnmt) <==>
              cnmt.contentId == Some(id) || exists r :: r in meta.refs && r.0 == id
  {
  }

  /** An NCA whose content is in storage, with the package's bytes if it was not there before. */
  ghost predicate InPlace(contents: map<Id, Bytes>, before: map<Id, Bytes>, data: Bytes, e: N.Entry) {
    e.isNca ==>
      && e.contentId.Some? && e.contentId.value in contents && e.offset + e.size <= |data|
      && (e.contentId.value !in before ==> contents[e.contentId.value] == data[e.offset..e.offset + e.size])
  }

  ghost predicate AllInPlace(contents: map<Id, Bytes>, before: map<Id, Bytes>, data: Bytes, es: seq<N.Entry>) {
    forall e :: e in es ==> InPlace(contents, before, data, e)
  }

  lemma InPlaceNext(contents: map<Id, Bytes>, later: map<Id, Bytes>, before: map<Id, Bytes>, data: Bytes,
                    es: seq<N.Entry>, k: nat)
    requires k < |es| && AllInPlace(contents, before, data, es[..k]) && InPlace(later, before, data, es[k])
    requires forall id :: id in contents ==> id in later && later[id] == contents[id]
    ensures AllInPlace(later, before, data, es[..k + 1])
  {
    forall e | e in es[..k + 1] ensures InPlace(later, before, data, e) {
      if e in es[..k] {
        assert InPlace(contents, before, data, e);
      }
    }
  }

  /** Only the first of several plan entries with one id is ever registered. */
  ghost predicate FirstOnly(plan: seq<Planned>) {
    forall i, j :: 0 <= i < j < |plan| && plan[i].id == plan[j].id ==> !plan[j].registered
  }

  ghost predicate NoneRegistered(plan: seq<Planned>) { forall p :: p in plan ==> !p.registered }

  /** Every registered content belongs to one of these entries. */
  ghost predicate RegisteredFrom(plan: seq<Planned>, es: seq<N.Entry>) {
    forall p :: p in plan && p.registered ==> exists e :: e in es && e.isNca && e.contentId == Some(p.id)
  }

  lemma MarkCreated(ps: seq<Planned>, i: nat, ph: nat)
    requires i < |ps| && !ps[i].registered && forall p :: p in ps ==> !p.placeholderCreated
    ensures var qs := ps[i := ps[i].(placeholder := ph, placeholderCreated := true)];
            DoomedIds(qs) == DoomedIds(ps) && DanglingPlaceholders(qs) == {ph}
  {
    var q := ps[i].(placeholder := ph, placeholderCreated := true);
    var qs := ps[i := q];
    assert qs[i] == q && forall j :: 0 <= j < |ps| && j != i ==> qs[j] == ps[j];
    forall p | p in ps && p.Doomed() ensures p in qs {
      var j :| 0 <= j < |ps| && ps[j] == p;
      assert qs[j] == p;
    }
  }

  /** A new placeholder changes nothing about what a rollback deletes from storage. */
  lemma SameDoomed(ps: seq<Planned>, i: nat, ph: nat)
    requires i < |ps|
    ensures DoomedIds(ps[i := ps[i].(placeholder := ph, placeholderCreated := true)]) == DoomedIds(ps)
    ensures ps[i].registered && !ps[i].preExisting && (forall p :: p in ps ==> !p.placeholderCreated) ==>
              DanglingPlaceholders(ps[i := ps[i].(placeholder := ph, placeholderCreated := true)]) == {}
  {
    var q := ps[i].(placeholder := ph, placeholderCreated := true);
    var qs := ps[i := q];
    assert qs[i] == q && forall j :: 0 <= j < |ps| && j != i ==> qs[j] == ps[j];
    forall p | p in ps && p.Doomed() ensures p.id in DoomedIds(qs) {
      var j :| 0 <= j < |ps| && ps[j] == p;
      assert qs[j] in qs && qs[j].Doomed() && qs[j].id == p.id;
    }
    forall p | p in qs && p.Doomed() ensures p.id in DoomedIds(ps) {
      var j :| 0 <= j < |qs| && qs[j] == p;
      assert ps[j] in ps && ps[j].Doomed() && ps[j].id == p.id;
    }
    assert forall p :: p in qs ==> p in ps || p == q;
  }

  lemma RegisteredPlan(ps: seq<Planned>, half: seq<Planned>, i: nat, ph: nat)
    requires i < |ps| && half == ps[i := ps[i].(placeholder := ph, placeholderCreated := true)]
    requires forall p :: p in ps ==> !p.placeholderCreated
    ensures var q := ps[i].(placeholder := ph, placeholderCreated := false, registered := true);
            var qs := half[i := half[i].(placeholderCreated := false, registered := true)];
            && qs == ps[i := q] && (forall p :: p in qs ==> (p in ps || p == q) && !p.placeholderCreated)
            && DanglingPlaceholders(qs) == {}
  {
    var q := ps[i].(placeholder := ph, placeholderCreated := false, registered := true);
    assert forall p :: p in ps[i := q] ==> p in ps || p == q;
  }

  lemma MarkRegistered(ps: seq<Planned>, i: nat, ph: nat)
    requires i < |ps| && !ps[i].preExisting
    ensures var qs := ps[i := ps[i].(placeholder := ph, placeholderCreated := false, registered := true)];
            DoomedIds(qs) == DoomedIds(ps) + {ps[i].id}
  {
    var q := ps[i].(placeholder := ph, placeholderCreated := false, registered := true);
    var qs := ps[i := q];
    assert qs[i] == q && forall j :: 0 <= j < |ps| && j != i ==> qs[j] == ps[j];
    forall p | p in ps && p.Doomed() ensures p.id in DoomedIds(qs) {
      var j :| 0 <= j < |ps| && ps[j] == p;
      assert qs[j] in qs;
    }
    assert q in qs && q.Doomed();
  }
}
