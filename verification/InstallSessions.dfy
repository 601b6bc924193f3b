/** Whole lives of a console: any sequence of installations, failures, power losses and recoveries. */
module InstallSessions {
  import opened Bytes
  import opened NcmStore
  import opened NspInstall
  import opened StreamInstaller
  import N = NspManifest
  import PackageReader

  /** What the user does between two starts of the program. */
  datatype Session =
    | Install(package: Bytes, packageSize: nat, meta: Option<Meta>)
    | RecoverOnly

  /** Every session may stop at any step, and so may every recovery. */
  method Sessions(c: Console, sessions: seq<Session>)
    requires c.Valid()
    modifies c
    ensures c.Valid()
  {
    for i := 0 to |sessions|
      invariant c.Valid()
    {
      var restart: bool := *;
      if restart || !c.alive {
        c.Reboot();
      }
      match sessions[i]
      case Install(package, packageSize, meta) =>
        var src := new N.Source(package);
        var installer := new Installer(c, src);
        var _, _, _ := installer.InstallNspStream(packageSize, meta);
      case RecoverOnly =>
        var _, _ := c.Recover();
    }
  }

  /**
    After any life of a console with complete titles, whatever failed and whenever power was lost.
    `results` says which database calls of its rollbacks work, `history` is every store it was in from
    first to last, and `rollbacks` are those that got past their database calls, each from a store of the
    history and with the results given.  A title that is not complete was stranded by one of them, whose
    removal of the title or whose commit failed with the title's contents among those it deletes; without
    such a rollback every title is complete.  The titles the console had at first are still there with the
    same contents, byte for byte.
   */
  method Lifetime(before: Store, faults: Faults, results: seq<(bool, bool)>, sessions: seq<Session>)
    returns (after: Store, ghost rollbacks: seq<Rollback>, ghost history: seq<Store>)
    requires Complete(before.db, before.contents) && before.saved == before.db && before.journal.None?
    requires faults.Database() ==> results == []
    ensures history != [] && history[0] == before && history[|history| - 1] == after
    ensures forall i :: 0 <= i < |rollbacks| ==>
              rollbacks[i].before in history && (rollbacks[i].removed, rollbacks[i].committed) == ResultOf(results, i)
    ensures CompleteBut(after.db, after.contents, Lost(rollbacks)) && CompleteBut(after.saved, after.contents, Lost(rollbacks))
    ensures (forall r :: r in rollbacks ==> !r.Loses()) ==>
              Complete(after.db, after.contents) && Complete(after.saved, after.contents)
    ensures (forall r :: r in results ==> r == (true, true)) ==>
              Complete(after.db, after.contents) && Complete(after.saved, after.contents)
    ensures Lost(rollbacks) !! before.db.Keys
    ensures forall k :: k in before.db ==> k in after.db && after.db[k] == before.db[k]
    ensures forall k :: k in before.db ==> k in after.saved && after.saved[k] == before.db[k]
    ensures forall k, id :: Uses(before.db, k, id) ==>
              id in before.contents && id in after.contents && after.contents[id] == before.contents[id]
  {
    var c := new Console(before, faults, results, Base(before.db, before.contents));
    Sessions(c, sessions);
    after, rollbacks, history := c.s, c.rollbacks, c.history;
    forall i | 0 <= i < |rollbacks|
      ensures rollbacks[i].before in history && (rollbacks[i].removed, rollbacks[i].committed) == ResultOf(results, i)
    {
      LoggedEach(rollbacks, |rollbacks|, history, results, i);
    }
    if forall r :: r in results ==> r == (true, true) {
      AllWorkNoneLoses(rollbacks, results);
    }
    if forall r :: r in rollbacks ==> !r.Loses() {
      NoneLost(rollbacks);
    }
  }

  /** The start, or the start and one placeholder or one content more. */
  ghost predicate AlmostRestored(s: Store, start: Store) {
    s.journal.None? && s.db == start.db && s.saved == start.saved && OneMore(s.contents, s.placeholders, start)
  }

  /** The contents of the package and nothing else beside those of the start. */
  ghost predicate PackageIn(contents: map<Id, Bytes>, before: map<Id, Bytes>, package: Bytes, es: seq<N.Entry>) {
    && AllInPlace(contents, before, package, es)
    && (forall id :: id in before ==> id in contents && contents[id] == before[id])
    && (forall id :: id in contents && id !in before ==> IsContentOf(es, id))
  }

  /** The start with the package and its title added. */
  ghost predicate Added(s: Store, start: Store, package: Bytes, es: seq<N.Entry>, meta: Option<Meta>, cnmt: N.Entry) {
    && PackageIn(s.contents, start.contents, package, es) && s.placeholders == start.placeholders
    && meta.Some? && cnmt.contentId.Some? && meta.value.key !in start.db && meta.value.key in s.db
    && s.db == s.saved == start.db[meta.value.key := s.db[meta.value.key]]
    && forall id :: id in s.db[meta.value.key] <==>
         cnmt.contentId == Some(id) || exists r :: r in meta.value.refs && r.0 == id
  }

  /** An installation that may lose power, and which side of its application record it got to. */
  method InstallOnce(c: Console, package: Bytes, packageSize: nat, meta: Option<Meta>)
    returns (ghost m: N.Manifest, ghost cnmt: N.Entry)
    requires c.Valid() && c.alive && c.s.journal.None? && c.s.db == c.s.saved
    modifies c
    ensures c.Valid()
    ensures c.watch == Some(old(c.s)) ||
            (Final(c.s) && IsManifest(package, packageSize, m) && Added(c.s, old(c.s), package, m.entries, meta, cnmt))
  {
    var src := new N.Source(package);
    var installer := new Installer(c, src);
    var installed;
    installed, m, cnmt := installer.InstallNspStream(packageSize, meta);
    if c.watch != Some(old(c.s)) {
      assert installer.HoldsPackage(m.entries) && installer.HoldsTitle(meta.value, cnmt);
      TitleIdsAre(meta.value, cnmt);
      assert PackageIn(c.s.contents, old(c.s.contents), package, m.entries);
    }
  }

  /**
    An installation that may lose power at any step, then restarts whose recoveries may lose it again.
    Once one of them gets to its end, the package and its title are there and nothing else is new, if the
    application record was reached; or else everything is as it was at first, but for at most one
    placeholder or one content (`CutAfterCreate`, `CutAfterRegister`).
   */
  method CutAndRecover(c: Console, package: Bytes, packageSize: nat, meta: Option<Meta>, restarts: nat)
    returns (ghost m: N.Manifest, ghost cnmt: N.Entry)
    requires c.Valid() && c.alive && c.faults.Reliable() && c.s.journal.None? && c.s.db == c.s.saved
    modifies c
    ensures c.Valid()
    ensures c.alive && restarts > 0 ==>
              && c.s.journal.None?
              && (AlmostRestored(c.s, old(c.s)) ||
                  (IsManifest(package, packageSize, m) && Added(c.s, old(c.s), package, m.entries, meta, cnmt)))
  {
    m, cnmt := InstallOnce(c, package, packageSize, meta);
    ghost var watch, end := c.watch, c.s;
    for i := 0 to restarts
      invariant c.Valid() && c.watch == watch && (c.alive && i > 0 ==> c.s.journal.None?)
      invariant Final(end) ==> Final(c.s) && c.s == end.(journal := c.s.journal)
    {
      c.Restart();
    }
  }

  lemma {:induction false} AllWorkNoneLoses(rs: seq<Rollback>, results: seq<(bool, bool)>)
    requires forall r :: r in results ==> r == (true, true)
    requires forall i :: 0 <= i < |rs| ==> (rs[i].removed, rs[i].committed) == ResultOf(results, i)
    ensures forall r :: r in rs ==> !r.Loses()
  {
    forall r | r in rs ensures !r.Loses() {
      var i :| 0 <= i < |rs| && rs[i] == r;
      assert i < |results| ==> results[i] in results;
    }
  }

  lemma {:induction false} NoneLost(rs: seq<Rollback>)
    requires forall r :: r in rs ==> !r.Loses()
    ensures Lost(rs) == {}
  {
    if rs != [] {
      NoneLost(rs[..|rs| - 1]);
    }
  }

  // ----- The random-access installer as the reference -----

  /** One content as the random-access installer reads it: seek, then buffer by buffer. */
  method ReadContent(file: PackageReader.Reader, offset: nat, size: nat) returns (ok: bool, data: Bytes)
    requires file.Valid()
    modifies file`position, file`currentPart, file`streamPos
    ensures file.Valid()
    ensures offset + size <= |Concat(file.parts)| ==> ok
    ensures ok ==> offset + size <= |Concat(file.parts)| && data == Concat(file.parts)[offset..offset + size]
  {
    ghost var whole := Concat(file.parts);
    data := [];
    ok := file.Seek(offset);
    if !ok {
      return;
    }
    while |data| < size
      invariant file.Valid() && |data| <= size && file.position == offset + |data| <= |whole|
      invariant data == whole[offset..file.position]
      decreases size - |data|
    {
      var want := if IO_BUFFER < size - |data| then IO_BUFFER else size - |data|;
      var chunk;
      ok, chunk := file.Read(want);
      if !ok {
        return;
      }
      SliceJoin(whole, offset, offset + |data|, file.position);
      data := data + chunk;
    }
  }

  /** A content of the package that was not there before holds the package's bytes. */
  ghost predicate NewMatches(contents: map<Id, Bytes>, before: map<Id, Bytes>, data: Bytes, e: N.Entry) {
    e.isNca && e.contentId.Some? && e.contentId.value !in before ==>
      && e.contentId.value in contents && e.offset + e.size <= |data|
      && contents[e.contentId.value] == data[e.offset..e.offset + e.size]
  }

  /** Do the new contents hold what the random-access installer would have written? */
  method SameAsRandomAccess(parts: seq<Bytes>, es: seq<N.Entry>, before: map<Id, Bytes>, contents: map<Id, Bytes>)
      returns (same: bool)
    requires parts != []
    ensures same <==> forall e :: e in es ==> NewMatches(contents, before, Concat(parts), e)
  {
    var file := new PackageReader.Reader(parts);
    var ok := file.Open();
    for k := 0 to |es|
      invariant file.Valid() && file.parts == parts
      invariant forall j :: 0 <= j < k ==> NewMatches(contents, before, Concat(parts), es[j])
    {
      var e := es[k];
      if e.isNca && e.contentId.Some? && e.contentId.value !in before {
        var data;
        ok, data := ReadContent(file, e.offset, e.size);
        if !ok || e.contentId.value !in contents || contents[e.contentId.value] != data {
          assert e in es && !NewMatches(contents, before, Concat(parts), e);
          return false;
        }
      }
    }
    forall e | e in es ensures NewMatches(contents, before, Concat(parts), e) {
      var j :| 0 <= j < |es| && es[j] == e;
    }
    return true;
  }

  /** A successful streaming installation agrees with the random-access manifest and bytes. */
  method InstallAndCompare(c: Console, parts: seq<Bytes>, meta: Option<Meta>) returns (installed: bool, same: bool)
    requires c.Valid() && c.s.journal.None? && 0 < |Concat(parts)| < U64_LIMIT
    modifies c
    ensures c.Valid()
    ensures c.alive && installed ==> same
  {
    var before := c.s.contents;
    var src := new N.Source(Concat(parts));
    var installer := new Installer(c, src);
    ghost var m, cnmt;
    installed, m, cnmt := installer.InstallNspStream(|src.data|, meta);
    var random := N.InspectNspManifest(parts);
    N.ParsersAgree(src.data);
    assert c.alive && installed ==> forall e :: e in m.entries ==> InPlace(c.s.contents, before, src.data, e);
    same := random.Ok();
    if same {
      same := SameAsRandomAccess(parts, random.entries, before, c.s.contents);
    }
  }
}
