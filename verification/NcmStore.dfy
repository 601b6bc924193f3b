/**
  The content storage, the meta database and the install journal on the SD card, as the transactional
  installer sees them, and what rolling back a journal does to them.
 */
module NcmStore {
  import opened Bytes

  type Id = Bytes

  datatype Key = Key(title: nat, version: nat, kind: nat)

  /** One content of the package being installed. */
  datatype Planned = Planned(id: Id, placeholder: nat, placeholderCreated: bool, registered: bool, preExisting: bool) {
    /** Rollback deletes the content ... */
    predicate Doomed() { registered && !preExisting }

    /** ... or else its placeholder. */
    predicate Dangling() { !Doomed() && placeholderCreated }

    /** As planned: nothing done yet. */
    predicate Untouched(s: Store) { !placeholderCreated && !registered && (preExisting <==> id in s.contents) }
  }

  datatype Stage =
    | Prepared | WritingContent | RegisteredContent | ContentComplete | MetadataPending
    | MetadataCommitted | TicketImported | RecordPending | ApplicationRecord | Finished

  datatype Journal = Journal(stage: Stage, key: Key, contents: seq<Planned>, metaSet: bool) {
    /** Before the application record is pushed, recovery undoes the installation. */
    predicate RollsBack() { stage != ApplicationRecord && stage != Finished }

    /** ... and takes its title out of the database. */
    predicate Removes() { RollsBack() && metaSet }
  }

  /** `db` is the meta database in memory, `saved` its committed form. */
  datatype Store = Store(contents: map<Id, Bytes>, placeholders: map<nat, Bytes>,
                         db: map<Key, set<Id>>, saved: map<Key, set<Id>>, journal: Option<Journal>)

  predicate Uses(db: map<Key, set<Id>>, k: Key, id: Id) { k in db && id in db[k] }

  /** Every installed title has all the contents it refers to ... */
  predicate Complete(db: map<Key, set<Id>>, contents: map<Id, Bytes>) {
    forall k :: k in db ==> db[k] <= contents.Keys
  }

  /** ... with these exceptions. */
  predicate CompleteBut(db: map<Key, set<Id>>, contents: map<Id, Bytes>, lost: set<Key>) {
    forall k :: k in db && k !in lost ==> db[k] <= contents.Keys
  }

  /** The contents a rollback deletes are used by no title but the one it removes, or a lost one. */
  ghost predicate JournalSafe(s: Store, lost: set<Key>) {
    s.journal.Some? && s.journal.value.RollsBack() ==>
      var j := s.journal.value;
      forall p, k :: p in j.contents && p.Doomed() && (Uses(s.db, k, p.id) || Uses(s.saved, k, p.id)) ==>
        (j.metaSet && k == j.key) || k in lost
  }

  /** Every title that is not lost is complete, and rolling back would keep it so. */
  ghost predicate Inv(s: Store, lost: set<Key>) {
    CompleteBut(s.db, s.contents, lost) && CompleteBut(s.saved, s.contents, lost) && JournalSafe(s, lost)
  }

  /** Some installed titles and the bytes of their contents. */
  datatype Base = Base(titles: map<Key, set<Id>>, bytes: map<Id, Bytes>)

  /** These titles are still installed, with the same contents, and no rollback is about to remove one. */
  ghost predicate Protects(s: Store, base: Base) {
    && (forall k :: k in base.titles ==> k in s.db && s.db[k] == base.titles[k] && k in s.saved && s.saved[k] == base.titles[k])
    && (forall k, id :: Uses(base.titles, k, id) ==> id in s.contents && id in base.bytes && s.contents[id] == base.bytes[id])
    && (s.journal.Some? && s.journal.value.Removes() ==> s.journal.value.key !in base.titles)
  }

  /** What every step keeps, crash or no crash. */
  ghost predicate Safe(s: Store, base: Base, lost: set<Key>) {
    Inv(s, lost) && Protects(s, base) && base.titles.Keys !! lost
  }

  // ----- Rollback -----

  function DoomedIds(ps: seq<Planned>): set<Id> { set p | p in ps && p.Doomed() :: p.id }

  function DanglingPlaceholders(ps: seq<Planned>): set<nat> { set p | p in ps && p.Dangling() :: p.placeholder }

  /** The database once a rollback has tried to take its title out ... */
  function DbAfter(s: Store, j: Journal, removed: bool): map<Key, set<Id>> {
    if j.metaSet && removed then s.db - {j.key} else s.db
  }

  /** ... and to commit it. */
  function SavedAfter(s: Store, j: Journal, removed: bool, committed: bool): map<Key, set<Id>> {
    if j.metaSet && committed then DbAfter(s, j, removed) else s.saved
  }

  /** A rollback whose two database calls have these results; the code ignores them and goes on. */
  function RolledBack(s: Store, j: Journal, removed: bool, committed: bool): Store {
    Store(s.contents - DoomedIds(j.contents), s.placeholders - DanglingPlaceholders(j.contents),
          DbAfter(s, j, removed), SavedAfter(s, j, removed, committed), None)
  }

  /** A store with the journal's installation undone. */
  function Undone(s: Store, j: Journal): Store { RolledBack(s, j, true, true) }

  /** A store after a recovery in which nothing fails. */
  function Recovered(s: Store): (t: Store)
    ensures t.journal.None? && (s.db == s.saved ==> t.db == t.saved)
  {
    match s.journal
    case None => s
    case Some(j) => if j.RollsBack() then Undone(s, j) else s.(journal := None)
  }

  /** The journal's title is in the database and refers to a content the rollback deletes. */
  predicate Exposed(db: map<Key, set<Id>>, j: Journal) {
    j.metaSet && j.key in db && db[j.key] * DoomedIds(j.contents) != {}
  }

  /** In which stores, and with which results of the database calls, a rollback strands its title. */
  predicate Strands(s: Store, j: Journal, removed: bool, committed: bool) {
    || (!removed && Exposed(s.db, j))
    || (!committed && Exposed(s.saved, j))
  }

  /** Deleting contents keeps every title complete exactly when no title uses them. */
  lemma DeleteKeepsCompleteIff(db: map<Key, set<Id>>, contents: map<Id, Bytes>, ids: set<Id>)
    requires Complete(db, contents)
    ensures Complete(db, contents - (ids * contents.Keys)) <==>
              forall k, id :: id in ids ==> !Uses(db, k, id)
  {
    var rest := contents - (ids * contents.Keys);
    if Complete(db, rest) {
      forall k, id | id in ids ensures !Uses(db, k, id) {
        assert id !in rest.Keys;
      }
    } else {
      var k :| k in db && !(db[k] <= rest.Keys);
      var id :| id in db[k] && id !in rest.Keys;
      assert id in contents.Keys && Uses(db, k, id);
    }
  }

  /** A database after a rollback: complete exactly when the journal's title is out of it or not exposed. */
  lemma DatabaseCompleteIff(s: Store, j: Journal, db: map<Key, set<Id>>)
    requires Inv(s, {}) && s.journal == Some(j) && j.RollsBack()
    requires forall k :: k in db ==> (k in s.db && db[k] == s.db[k]) || (k in s.saved && db[k] == s.saved[k])
    ensures Complete(db, s.contents - DoomedIds(j.contents)) <==> !Exposed(db, j)
  {
    var rest := s.contents - DoomedIds(j.contents);
    if Exposed(db, j) {
      var id :| id in db[j.key] && id in DoomedIds(j.contents);
      assert id !in rest.Keys;
    } else {
      forall k, id | k in db && id in db[k] ensures id in rest.Keys {
        assert Uses(s.db, k, id) || Uses(s.saved, k, id);
        if j.metaSet && k == j.key {
          assert id !in db[k] * DoomedIds(j.contents);
        } else {
          assert forall p :: p in j.contents && p.Doomed() ==> p.id != id;
        }
      }
    }
  }

  /**
    Exactly when a rollback keeps every title complete, in terms of the store it starts from and of
    whether its two database calls worked.
   */
  lemma RollbackKeepsCompleteIff(s: Store, removed: bool, committed: bool)
    requires Inv(s, {}) && s.journal.Some? && s.journal.value.RollsBack()
    ensures var j := s.journal.value; var r := RolledBack(s, j, removed, committed);
            && (Complete(r.db, r.contents) <==> removed || !Exposed(s.db, j))
            && (Complete(r.db, r.contents) && Complete(r.saved, r.contents) <==> !Strands(s, j, removed, committed))
  {
    var j := s.journal.value;
    var db, saved := DbAfter(s, j, removed), SavedAfter(s, j, removed, committed);
    DatabaseCompleteIff(s, j, db);
    DatabaseCompleteIff(s, j, saved);
  }

  /** A title that is entered and committed, in an installation that was cut before its last step. */
  function CutStore(): (Store, Journal) {
    var key, id := Key(1, 0, 0x80), [1];
    var j := Journal(MetadataCommitted, key, [Planned(id, 0, false, true, false)], true);
    (Store(map[id := [7]], map[], map[key := {id}], map[key := {id}], Some(j)), j)
  }

  /** There the rollback deletes the title's content and keeps the title, if either call fails. */
  lemma StrandedTitle()
    ensures var (s, j) := CutStore();
            && Inv(s, {}) && s.journal == Some(j) && j.RollsBack()
            && !Complete(RolledBack(s, j, false, true).db, RolledBack(s, j, false, true).contents)
            && !Complete(RolledBack(s, j, true, false).saved, RolledBack(s, j, true, false).contents)
  {
    var (s, j) := CutStore();
    var p := Planned([1], 0, false, true, false);
    assert j.contents[0] == p && p in j.contents && p.Doomed();
    assert p.id in DoomedIds(j.contents) && p.id in s.db[j.key];
    assert p.id in s.db[j.key] * DoomedIds(j.contents);
    RollbackKeepsCompleteIff(s, false, true);
    RollbackKeepsCompleteIff(s, true, false);
  }

  /** One rollback: the store it started from and the results of its database calls. */
  datatype Rollback = Rollback(before: Store, removed: bool, committed: bool) {
    predicate Loses() {
      before.journal.Some? && before.journal.value.RollsBack() && Strands(before, before.journal.value, removed, committed)
    }
  }

  /** The results of the database calls of rollback i: as given, and good beyond that. */
  function ResultOf(results: seq<(bool, bool)>, i: nat): (bool, bool) {
    if i < |results| then results[i] else (true, true)
  }

  /** The first n rollbacks of a log started from stores the console was in, with the results given. */
  ghost predicate Logged(rs: seq<Rollback>, n: nat, history: seq<Store>, results: seq<(bool, bool)>)
    requires n <= |rs|
  {
    n == 0 || (
      && Logged(rs, n - 1, history, results)
      && rs[n - 1].before in history && (rs[n - 1].removed, rs[n - 1].committed) == ResultOf(results, n - 1))
  }

  lemma {:induction false} LoggedGrows(rs: seq<Rollback>, n: nat, history: seq<Store>, s: Store, results: seq<(bool, bool)>)
    requires n <= |rs| && Logged(rs, n, history, results)
    ensures Logged(rs, n, history + [s], results)
  {
    if n > 0 {
      LoggedGrows(rs, n - 1, history, s, results);
    }
  }

  lemma {:induction false} LoggedNext(rs: seq<Rollback>, n: nat, r: Rollback, history: seq<Store>, results: seq<(bool, bool)>)
    requires n <= |rs| && Logged(rs, n, history, results)
    ensures Logged(rs + [r], n, history, results)
  {
    if n > 0 {
      LoggedNext(rs, n - 1, r, history, results);
    }
  }

  lemma {:induction false} LoggedOneMore(rs: seq<Rollback>, r: Rollback, history: seq<Store>, results: seq<(bool, bool)>)
    requires Logged(rs, |rs|, history, results)
    requires r.before in history && (r.removed, r.committed) == ResultOf(results, |rs|)
    ensures Logged(rs + [r], |rs| + 1, history, results)
  {
    LoggedNext(rs, |rs|, r, history, results);
  }

  lemma {:induction false} LoggedEach(rs: seq<Rollback>, n: nat, history: seq<Store>, results: seq<(bool, bool)>, i: nat)
    requires i < n <= |rs| && Logged(rs, n, history, results)
    ensures rs[i].before in history && (rs[i].removed, rs[i].committed) == ResultOf(results, i)
  {
    if i < n - 1 {
      LoggedEach(rs, n - 1, history, results, i);
    }
  }

  /** The titles some rollback has stranded. */
  ghost function Lost(rs: seq<Rollback>): set<Key> {
    if rs == [] then {}
    else
      var n := |rs| - 1;
      Lost(rs[..n]) + (if rs[n].Loses() then {rs[n].before.journal.value.key} else {})
  }

  lemma LostNext(rs: seq<Rollback>, r: Rollback)
    ensures Lost(rs + [r]) == Lost(rs) + (if r.Loses() then {r.before.journal.value.key} else {})
  {
    assert (rs + [r])[..|rs|] == rs;
  }

  /** Rolling back a safe journal with working calls keeps the invariant: no title loses a content. */
  lemma UndoKeepsInv(s: Store)
    requires Inv(s, {}) && s.journal.Some? && s.journal.value.RollsBack()
    ensures Inv(Undone(s, s.journal.value), {})
  {
    RollbackKeepsCompleteIff(s, true, true);
  }

  // ----- Steps -----

  /** Entering the title the journal announces is safe once its contents are there. */
  lemma EnterIsSafe(s: Store, base: Base, lost: set<Key>, key: Key, ids: set<Id>)
    requires Safe(s, base, lost) && ids <= s.contents.Keys
    requires s.journal.Some? && s.journal.value.Removes() && s.journal.value.key == key
    ensures Safe(s.(db := s.db[key := ids]), base, lost)
  {
    var t := s.(db := s.db[key := ids]);
    forall p, k | p in s.journal.value.contents && p.Doomed() && Uses(t.db, k, p.id) ensures k == key || k in lost {
      if k != key {
        assert Uses(s.db, k, p.id);
      }
    }
  }

  lemma RemoveIsSafe(s: Store, base: Base, lost: set<Key>, key: Key)
    requires Safe(s, base, lost) && s.journal.Some? && s.journal.value.Removes() && s.journal.value.key == key
    ensures Safe(s.(db := s.db - {key}), base, lost)
  {
    var t := s.(db := s.db - {key});
    forall p, k | p in s.journal.value.contents && p.Doomed() && Uses(t.db, k, p.id) ensures k == key || k in lost {
      assert Uses(s.db, k, p.id);
    }
  }

  lemma CommitIsSafe(s: Store, base: Base, lost: set<Key>)
    requires Safe(s, base, lost)
    ensures Safe(s.(saved := s.db), base, lost) && Safe(s.(db := s.saved), base, lost)
  {
  }

  /** Deleting a content no title uses is safe. */
  lemma DeleteIsSafe(s: Store, base: Base, lost: set<Key>, id: Id)
    requires Safe(s, base, lost) && id in s.contents
    requires forall k :: k !in lost ==> !Uses(s.db, k, id) && !Uses(s.saved, k, id)
    ensures Safe(s.(contents := s.contents - {id}), base, lost)
  {
    var t := s.(contents := s.contents - {id});
    forall k | k in s.db && k !in lost ensures s.db[k] <= t.contents.Keys {
      assert !Uses(s.db, k, id);
    }
    forall k | k in s.saved && k !in lost ensures s.saved[k] <= t.contents.Keys {
      assert !Uses(s.saved, k, id);
    }
    forall k, x | Uses(base.titles, k, x) ensures x != id {
      assert Uses(s.db, k, x);
    }
  }

  /** So is a new content. */
  lemma AddIsSafe(s: Store, base: Base, lost: set<Key>, id: Id, data: Bytes)
    requires Safe(s, base, lost) && id !in s.contents
    ensures Safe(s.(contents := s.contents[id := data]), base, lost)
  {
    var t := s.(contents := s.contents[id := data]);
    assert s.contents.Keys <= t.contents.Keys;
  }

  /** Giving up the journal's title is safe, and then its contents may go. */
  lemma LoseIsSafe(s: Store, base: Base, lost: set<Key>, key: Key)
    requires Safe(s, base, lost) && key !in base.titles
    ensures Safe(s, base, lost + {key})
  {
  }

  /**
    After its database calls a rollback may delete: whatever still uses one of its contents is lost, with
    the journal's own title when it is stranded.
   */
  lemma MayDelete(s: Store, t: Store, lost: set<Key>, removed: bool, committed: bool)
    requires Inv(s, lost) && s.journal.Some? && s.journal.value.RollsBack()
    requires var j := s.journal.value;
             t.db == DbAfter(s, j, removed) && t.saved == SavedAfter(s, j, removed, committed)
    ensures var j := s.journal.value; var given := if Strands(s, j, removed, committed) then lost + {j.key} else lost;
            forall p, k :: p in j.contents && p.Doomed() && k !in given ==> !Uses(t.db, k, p.id) && !Uses(t.saved, k, p.id)
  {
    var j := s.journal.value;
    var given := if Strands(s, j, removed, committed) then lost + {j.key} else lost;
    forall p, k | p in j.contents && p.Doomed() && (Uses(t.db, k, p.id) || Uses(t.saved, k, p.id)) ensures k in given {
      assert Uses(s.db, k, p.id) || Uses(s.saved, k, p.id);
      if k !in lost {
        assert k == j.key && p.id in DoomedIds(j.contents);
        assert Uses(s.db, k, p.id) ==> p.id in s.db[k] * DoomedIds(j.contents);
        assert Uses(s.saved, k, p.id) ==> p.id in s.saved[k] * DoomedIds(j.contents);
      }
    }
  }

  // ----- Close to a start -----

  /** The same, or with one entry more. */
  ghost predicate AtMostOneMore<K(!new), V>(m: map<K, V>, n: map<K, V>) {
    m == n || exists k :: k in m && k !in n && m - {k} == n
  }

  /** The contents and placeholders of the start, or with one content or one placeholder more. */
  ghost predicate OneMore(contents: map<Id, Bytes>, placeholders: map<nat, Bytes>, start: Store) {
    || (contents == start.contents && AtMostOneMore(placeholders, start.placeholders))
    || (placeholders == start.placeholders && AtMostOneMore(contents, start.contents))
  }

  /** A database without the title a rollback of j would remove. */
  function CutDb(db: map<Key, set<Id>>, j: Journal): map<Key, set<Id>> {
    if j.metaSet then db - {j.key} else db
  }

  /** The databases of the start, once the journal's title is out of them. */
  ghost predicate SameTitles(s: Store, j: Journal, start: Store) {
    j.RollsBack() && CutDb(s.db, j) == start.db && CutDb(s.saved, j) == start.saved
  }

  /** A store from which a working rollback leads back to the start, but for one content or placeholder. */
  ghost predicate Close(s: Store, start: Store) {
    match s.journal
    case None => s.db == start.db && s.saved == start.saved && OneMore(s.contents, s.placeholders, start)
    case Some(j) =>
      && SameTitles(s, j, start)
      && OneMore(s.contents - DoomedIds(j.contents), s.placeholders - DanglingPlaceholders(j.contents), start)
  }

  /** ... to the start exactly. */
  ghost predicate Exact(s: Store, j: Journal, start: Store) {
    && SameTitles(s, j, start)
    && s.contents - DoomedIds(j.contents) == start.contents
    && s.placeholders - DanglingPlaceholders(j.contents) == start.placeholders
  }

  lemma CloseIsRecovered(s: Store, start: Store)
    requires Close(s, start) && start.db == start.saved
    ensures Close(s.(db := s.saved), start) && Close(Recovered(s.(db := s.saved)), start)
    ensures Close(Recovered(s), start)
  {
  }

  lemma CreatedIsClose(s: Store, j: Journal, start: Store, ph: nat, data: Bytes)
    requires s.journal == Some(j) && Exact(s, j, start) && ph !in s.placeholders
    ensures Close(s.(placeholders := s.placeholders[ph := data]), start)
  {
    var t := s.placeholders[ph := data] - DanglingPlaceholders(j.contents);
    if ph in DanglingPlaceholders(j.contents) {
      assert t == start.placeholders;
    } else {
      assert ph !in start.placeholders && t - {ph} == start.placeholders;
    }
  }

  /** A cut between the creation of a placeholder and the journal that names it leaves just that one. */
  lemma CutAfterCreate(s: Store, j: Journal, start: Store, ph: nat, data: Bytes)
    requires s.journal == Some(j) && Exact(s, j, start) && start.journal.None? && start.db == start.saved
    requires ph !in s.placeholders && ph !in DanglingPlaceholders(j.contents)
    ensures Recovered(s.(placeholders := s.placeholders[ph := data]))
         == start.(placeholders := start.placeholders[ph := data])
  {
    var t := s.(placeholders := s.placeholders[ph := data]);
    assert t.placeholders - DanglingPlaceholders(j.contents) == start.placeholders[ph := data];
    assert Recovered(t) == Undone(t, j);
  }

  /** Writing to a placeholder that was not there at the start changes nothing of this. */
  lemma WrittenIsClose(s: Store, start: Store, ph: nat, data: Bytes)
    requires Close(s, start) && s.journal.Some? && ph in s.placeholders && ph !in start.placeholders
    ensures Close(s.(placeholders := s.placeholders[ph := data]), start)
  {
    var dangling := DanglingPlaceholders(s.journal.value.contents);
    var was, now := s.placeholders - dangling, s.placeholders[ph := data] - dangling;
    if ph in dangling {
      assert now == was;
    } else {
      assert ph in was && was != start.placeholders;
      var k :| k in was && k !in start.placeholders && was - {k} == start.placeholders;
      assert k == ph && now - {k} == start.placeholders;
    }
  }

  lemma RegisteredIsClose(s: Store, j: Journal, start: Store, id: Id, ph: nat)
    requires s.journal == Some(j) && SameTitles(s, j, start) && ph in s.placeholders && id !in s.contents
    requires s.contents - DoomedIds(j.contents) == start.contents
    requires s.placeholders - {ph} - DanglingPlaceholders(j.contents) == start.placeholders
    ensures Close(s.(contents := s.contents[id := s.placeholders[ph]], placeholders := s.placeholders - {ph}), start)
  {
    var now := s.contents[id := s.placeholders[ph]] - DoomedIds(j.contents);
    if id in DoomedIds(j.contents) {
      assert now == start.contents;
    } else {
      assert id !in (s.contents - DoomedIds(j.contents)).Keys;
      assert now - {id} == start.contents;
    }
  }

  /** A cut between a registration and the journal that says so leaves just that content. */
  lemma CutAfterRegister(s: Store, j: Journal, start: Store, id: Id, ph: nat)
    requires s.journal == Some(j) && Exact(s, j, start) && start.journal.None? && start.db == start.saved
    requires ph in s.placeholders && ph in DanglingPlaceholders(j.contents) && id !in s.contents && id !in DoomedIds(j.contents)
    ensures Recovered(s.(contents := s.contents[id := s.placeholders[ph]], placeholders := s.placeholders - {ph}))
         == start.(contents := start.contents[id := s.placeholders[ph]])
  {
    var t := s.(contents := s.contents[id := s.placeholders[ph]], placeholders := s.placeholders - {ph});
    assert t.contents - DoomedIds(j.contents) == start.contents[id := s.placeholders[ph]];
    assert t.placeholders - DanglingPlaceholders(j.contents) == start.placeholders;
    assert Recovered(t) == Undone(t, j);
  }

  /** So do the steps of a rollback. */
  lemma UndoneIsClose(s: Store, j: Journal, start: Store, p: Planned)
    requires Close(s, start) && s.journal == Some(j) && p in j.contents
    ensures p.Doomed() ==> Close(s.(contents := s.contents - {p.id}), start)
    ensures p.Dangling() ==> Close(s.(placeholders := s.placeholders - {p.placeholder}), start)
  {
    if p.Doomed() {
      assert p.id in DoomedIds(j.contents);
      assert s.contents - {p.id} - DoomedIds(j.contents) == s.contents - DoomedIds(j.contents);
    }
    if p.Dangling() {
      assert p.placeholder in DanglingPlaceholders(j.contents);
      assert s.placeholders - {p.placeholder} - DanglingPlaceholders(j.contents)
          == s.placeholders - DanglingPlaceholders(j.contents);
    }
  }

  /** And those that touch the databases. */
  lemma TitleIsClose(s: Store, j: Journal, start: Store, ids: set<Id>)
    requires Close(s, start) && s.journal == Some(j) && start.db == start.saved
    ensures Close(s.(saved := s.db), start)
    ensures j.metaSet ==> Close(s.(db := s.db[j.key := ids]), start) && Close(s.(db := s.db - {j.key}), start)
  {
    if j.metaSet {
      assert s.db[j.key := ids] - {j.key} == s.db - {j.key};
      assert s.db - {j.key} - {j.key} == s.db - {j.key};
    }
  }
}
