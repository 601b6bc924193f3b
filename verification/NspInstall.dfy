/**
  The steps of the streaming installer and of its recovery: contents are written to placeholders and
  registered while the package arrives, then the title is entered in the meta database, all under a
  journal from which an interrupted installation is rolled back.

  Power may be lost before any step: then `alive` is false and nothing that follows has an effect until
  `Reboot`.
 */
module NspInstall {
  import opened Bytes
  import opened NcmStore
  import BufHelper
  import N = NspManifest

  /** What may go wrong. */
  datatype Faults =
    | NoFaults          // nothing: every call that can work does, and power stays
    | ForwardFaults     // power loss and failing calls, except those a rollback relies on
    | AllButDatabase    // also those, except the database calls of a rollback
    | AnyFaults
  {
    predicate Calm() { NoFaults? }

    predicate Reliable() { NoFaults? || ForwardFaults? }

    predicate Database() { !AnyFaults? }
  }

  /** What happened in a recovery. */
  datatype Outcome = Outcome(ran: bool, removed: bool, committed: bool, deleted: bool)

  class Console {
    var s: Store
    var alive: bool
    const faults: Faults
    /** Titles installed at some time, and what their contents were. */
    ghost const base: Base
    /** Did the database calls of rollback i work?  (Title removed, database committed.) */
    const results: seq<(bool, bool)>
    var count: nat  // rollbacks that got past their database calls
    /** Every store the console has been in, oldest first, those rollbacks, and the titles they stranded. */
    ghost const first: Store
    ghost var history: seq<Store>
    ghost var rollbacks: seq<Rollback>
    ghost var lost: set<Key>
    /** The store when the current installation began, until its application record is pushed. */
    ghost var watch: Option<Store>

    /** With working rollbacks, every store on the way is close to it. */
    ghost predicate Watched(t: Store) reads this {
      faults.Reliable() && watch.Some? ==> watch.value.db == watch.value.saved && Close(t, watch.value)
    }

    ghost predicate Watching() reads this { faults.Reliable() && watch.Some? }

    ghost predicate Valid() reads this {
      && Watched(s)
      && Safe(s, base, lost) && lost == Lost(rollbacks) && (faults.Database() ==> lost == {} && results == [])
      && history != [] && history[0] == first && history[|history| - 1] == s
      && count == |rollbacks| && Logged(rollbacks, count, history, results)
    }

    constructor (s: Store, faults: Faults, results: seq<(bool, bool)>, ghost base: Base)
      requires Safe(s, base, {}) && (faults.Database() ==> results == [])
      ensures Valid() && this.s == s && alive && this.faults == faults && this.base == base && this.results == results
      ensures rollbacks == [] && history == [s] && first == s && watch.None?
    {
      this.s, this.alive, this.faults, this.results, this.base := s, true, faults, results, base;
      count, first, history, rollbacks, lost, watch := 0, s, [s], [], {}, None;
    }

    // ----- Single steps -----

    method Tick()
      modifies this`alive
      ensures (alive ==> old(alive)) && (faults.Calm() ==> alive == old(alive))
    {
      if * {
        alive := alive && faults.Calm();
      }
    }

    /** A step that can only be interrupted, to any store that keeps the invariant. */
    method Step(t: Store)
      requires Valid() && (alive ==> Safe(t, base, lost) && Watched(t))
      modifies this`s, this`alive, this`history
      ensures Valid() && (alive ==> old(alive) && s == t) && (faults.Calm() ==> alive == old(alive))
      ensures old(history) <= history && (!alive ==> s == old(s)) && (alive ==> history == old(history) + [s])
    {
      Tick();
      if alive {
        s := t;
        LoggedGrows(rollbacks, count, history, s, results);
        history := history + [s];
      }
    }

    /** Does a call of an installation work? */
    method Works() returns (b: bool)
      ensures faults.Calm() ==> b
    {
      b := *;
      b := b || faults.Calm();
    }

    /** Does a call of a rollback fail? */
    method RollbackCallFails() returns (f: bool)
      ensures faults.Reliable() ==> !f
    {
      f := *;
      f := f && !faults.Reliable();
    }

    /** After power loss the database is as it was last committed. */
    method Reboot()
      requires Valid()
      modifies this`s, this`alive, this`history
      ensures Valid() && old(history) <= history && alive && s == old(s).(db := old(s).saved)
    {
      CommitIsSafe(s, base, lost);
      if Watching() {
        CloseIsRecovered(s, watch.value);
      }
      alive := true;
      s := s.(db := s.saved);
      LoggedGrows(rollbacks, count, history, s, results);
      history := history + [s];
    }

    // ----- Forward steps of an installation -----

    method SaveJournal(j: Journal)
      requires Valid()
      requires alive ==> JournalSafe(s.(journal := Some(j)), lost) && (j.Removes() ==> j.key !in base.titles)
      requires alive ==> Watched(s.(journal := Some(j)))
      modifies this`s, this`alive, this`history
      ensures Valid() && old(history) <= history && (alive ==> old(alive) && s == old(s).(journal := Some(j)))
      ensures alive ==> history == old(history) + [s]
      ensures (faults.Calm() ==> alive == old(alive)) && (!alive ==> s == old(s))
    {
      Step(s.(journal := Some(j)));
    }

    /** An id no placeholder has. */
    method GeneratePlaceHolderId() returns (ph: nat)
      ensures ph !in s.placeholders
    {
      var todo := s.placeholders.Keys;
      ph := 0;
      while todo != {}
        invariant forall k :: k in s.placeholders && k !in todo ==> k < ph
      {
        var k :| k in todo;
        ph := if k >= ph then k + 1 else ph;
        todo := todo - {k};
      }
      var other: nat := *;
      if other !in s.placeholders {
        ph := other;
      }
    }

    /** A new placeholder under a generated id. */
    method CreatePlaceHolder(size: nat) returns (ok: bool, ph: nat)
      requires Valid()
      requires alive && Watching() ==> s.journal.Some? && Exact(s, s.journal.value, watch.value)
      modifies this`s, this`alive, this`history
      ensures Valid() && old(history) <= history && (alive ==> old(alive)) && (faults.Calm() ==> alive == old(alive) && ok)
      ensures alive && ok ==> ph !in old(s.placeholders)
      ensures alive ==>
                s == if ok then old(s).(placeholders := old(s.placeholders)[ph := BufHelper.Zeros(size)]) else old(s)
    {
      ph := GeneratePlaceHolderId();
      ok := Works();
      if ok {
        if alive && Watching() {
          CreatedIsClose(s, s.journal.value, watch.value, ph, BufHelper.Zeros(size));
        }
        Step(s.(placeholders := s.placeholders[ph := BufHelper.Zeros(size)]));
      }
    }

    method WritePlaceHolder(ph: nat, at: nat, data: Bytes) returns (ok: bool)
      requires Valid()
      requires alive && Watching() ==> s.journal.Some? && ph !in watch.value.placeholders
      modifies this`s, this`alive, this`history
      ensures Valid() && old(history) <= history && (alive ==> old(alive)) && (faults.Calm() ==> alive == old(alive))
      ensures alive && !ok ==> s == old(s)
      ensures alive && ok ==>
                && ph in old(s.placeholders) && at + |data| <= |old(s.placeholders)[ph]|
                && s == old(s).(placeholders := old(s.placeholders)[ph := Patched(old(s.placeholders)[ph], at, data)])
      ensures faults.Calm() && ph in old(s.placeholders) && at + |data| <= |old(s.placeholders)[ph]| ==> ok
    {
      ok := Works();
      if !ok || ph !in s.placeholders || at + |data| > |s.placeholders[ph]| {
        return false;
      }
      if alive && Watching() {
        WrittenIsClose(s, watch.value, ph, Patched(s.placeholders[ph], at, data));
      }
      Step(s.(placeholders := s.placeholders[ph := Patched(s.placeholders[ph], at, data)]));
    }

    /** Turns a placeholder into a content; refused when the content exists. */
    method Register(id: Id, ph: nat) returns (ok: bool)
      requires Valid()
      requires alive && Watching() ==>
                 && s.journal.Some? && s.contents - DoomedIds(s.journal.value.contents) == watch.value.contents
                 && s.placeholders - {ph} - DanglingPlaceholders(s.journal.value.contents) == watch.value.placeholders
      modifies this`s, this`alive, this`history
      ensures Valid() && old(history) <= history && (alive ==> old(alive)) && (faults.Calm() ==> alive == old(alive))
      ensures alive && !ok ==> s == old(s)
      ensures alive && ok ==>
                && id !in old(s.contents) && ph in old(s.placeholders)
                && s == old(s).(contents := old(s.contents)[id := old(s.placeholders)[ph]],
                                placeholders := old(s.placeholders) - {ph})
      ensures faults.Calm() && id !in old(s.contents) && ph in old(s.placeholders) ==> ok
    {
      ok := Works();
      if !ok || id in s.contents || ph !in s.placeholders {
        return false;
      }
      AddIsSafe(s, base, lost, id, s.placeholders[ph]);
      if alive && Watching() {
        RegisteredIsClose(s, s.journal.value, watch.value, id, ph);
      }
      Step(s.(contents := s.contents[id := s.placeholders[ph]], placeholders := s.placeholders - {ph}));
    }

    /** Enters a title in the database in memory. */
    method SetTitle(key: Key, ids: set<Id>) returns (ok: bool)
      requires Valid()
      requires alive ==> ids <= s.contents.Keys
      requires alive ==> s.journal.Some? && s.journal.value.Removes() && s.journal.value.key == key
      modifies this`s, this`alive, this`history
      ensures Valid() && old(history) <= history && (alive ==> old(alive))
      ensures alive ==> s == if ok then old(s).(db := old(s.db)[key := ids]) else old(s)
      ensures faults.Calm() ==> ok && alive == old(alive)
    {
      ok := Works();
      if ok {
        if alive {
          EnterIsSafe(s, base, lost, key, ids);
          if Watching() {
            TitleIsClose(s, s.journal.value, watch.value, ids);
          }
        }
        Step(s.(db := s.db[key := ids]));
      }
    }

    method CommitDatabase() returns (ok: bool)
      requires Valid() && (alive ==> s.journal.Some?)
      modifies this`s, this`alive, this`history
      ensures Valid() && old(history) <= history && (alive ==> old(alive))
      ensures alive ==> s == if ok then old(s).(saved := old(s.db)) else old(s)
      ensures faults.Calm() ==> ok && alive == old(alive)
    {
      ok := Works();
      if ok {
        CommitIsSafe(s, base, lost);
        if alive && Watching() {
          TitleIsClose(s, s.journal.value, watch.value, {});
        }
        Step(s.(saved := s.db));
      }
    }

    // ----- Recovery -----

    method RemoveJournal() returns (ok: bool)
      requires Valid() && (alive ==> Watched(s.(journal := None)))
      modifies this`s, this`alive, this`history
      ensures Valid() && old(history) <= history && (alive ==> old(alive)) && (faults.Calm() ==> alive == old(alive))
      ensures alive ==> s == if ok then old(s).(journal := None) else old(s)
      ensures (faults.Reliable() ==> ok) && (!alive ==> s == old(s))
    {
      var f := RollbackCallFails();
      ok := !f;
      if ok {
        Step(s.(journal := None));
      }
    }

    /** Tries to take the title of the journal out of the database and to commit; ignores the results. */
    method RemoveTitle(j: Journal)
      requires Valid() && j.RollsBack() && (alive ==> s.journal == Some(j))
      modifies this`s, this`alive, this`history
      ensures Valid() && old(history) <= history && (alive ==> old(alive)) && (faults.Calm() ==> alive == old(alive))
      ensures var (removed, committed) := ResultOf(results, count);
              alive ==> s == old(s).(db := DbAfter(old(s), j, removed), saved := SavedAfter(old(s), j, removed, committed))
    {
      var (removed, committed) := ResultOf(results, count);
      if j.metaSet {
        if removed {
          if alive {
            RemoveIsSafe(s, base, lost, j.key);
            if Watching() {
              TitleIsClose(s, j, watch.value, {});
            }
          }
          Step(s.(db := s.db - {j.key}));
        }
        if committed {
          CommitIsSafe(s, base, lost);
          if alive && Watching() {
            TitleIsClose(s, j, watch.value, {});
          }
          Step(s.(saved := s.db));
        }
      }
    }

    /** Notes a rollback that got past its database calls; a title it strands is lost from here on. */
    method Note(ghost before: Store)
      requires Valid() && before.journal.Some? && before in history
      requires var r := Rollback(before, ResultOf(results, count).0, ResultOf(results, count).1);
               r.Loses() ==> !faults.Database() && before.journal.value.key !in base.titles
      modifies this`rollbacks, this`lost, this`count
      ensures var r := Rollback(before, ResultOf(results, old(count)).0, ResultOf(results, old(count)).1);
              && Valid() && rollbacks == old(rollbacks) + [r]
              && lost == if r.Loses() then old(lost) + {before.journal.value.key} else old(lost)
    {
      ghost var r := Rollback(before, ResultOf(results, count).0, ResultOf(results, count).1);
      LostNext(rollbacks, r);
      LoggedOneMore(rollbacks, r, history, results);
      if r.Loses() {
        LoseIsSafe(s, base, lost, before.journal.value.key);
        lost := lost + {before.journal.value.key};
      }
      rollbacks, count := rollbacks + [r], count + 1;
    }

    /** One entry of the journal: its content goes, or else its placeholder. */
    method UndoEntry(p: Planned) returns (ghost deleted: bool)
      requires Valid()
      requires alive && p.Doomed() ==> forall k :: k !in lost ==> !Uses(s.db, k, p.id) && !Uses(s.saved, k, p.id)
      requires alive ==> s.journal.Some? && p in s.journal.value.contents
      modifies this`s, this`alive, this`history
      ensures Valid() && old(history) <= history && (alive ==> old(alive)) && (faults.Calm() ==> alive == old(alive))
      ensures alive ==> s.db == old(s.db) && s.saved == old(s.saved) && s.journal == old(s.journal)
      ensures alive && deleted ==>
                && s.contents == old(s.contents) - (if p.Doomed() then {p.id} else {})
                && s.placeholders == old(s.placeholders) - (if p.Dangling() then {p.placeholder} else {})
      ensures faults.Reliable() ==> deleted
    {
      var f := RollbackCallFails();
      deleted := !f;
      if f {
        return;
      }
      if alive && Watching() {
        UndoneIsClose(s, s.journal.value, watch.value, p);
      }
      if p.registered && !p.preExisting {
        if p.id in s.contents {
          if alive {
            DeleteIsSafe(s, base, lost, p.id);
          }
          Step(s.(contents := s.contents - {p.id}));
        }
      } else if p.placeholderCreated {
        if p.placeholder in s.placeholders {
          Step(s.(placeholders := s.placeholders - {p.placeholder}));
        }
      }
    }

    /** The whole journal, last entry first. */
    method UndoContents(j: Journal) returns (ghost deleted: bool)
      requires Valid() && (alive ==> s.journal == Some(j))
      requires alive ==> forall p, k :: p in j.contents && p.Doomed() && k !in lost ==> !Uses(s.db, k, p.id) && !Uses(s.saved, k, p.id)
      modifies this`s, this`alive, this`history
      ensures Valid() && old(history) <= history && (alive ==> old(alive)) && (faults.Calm() ==> alive == old(alive))
      ensures alive ==> s.db == old(s.db) && s.saved == old(s.saved) && s.journal == old(s.journal)
      ensures alive && deleted ==> EntriesGone(s, old(s), j.contents)
      ensures faults.Reliable() ==> deleted
    {
      var i := |j.contents|;
      deleted := true;
      while i > 0
        invariant 0 <= i <= |j.contents| && (faults.Reliable() ==> deleted)
        invariant Valid() && old(history) <= history && (alive ==> old(alive)) && (faults.Calm() ==> alive == old(alive))
        invariant alive ==> s.db == old(s.db) && s.saved == old(s.saved) && s.journal == old(s.journal)
        invariant alive && deleted ==> EntriesGone(s, old(s), j.contents[i..])
      {
        i := i - 1;
        assert j.contents[i] in j.contents;
        ghost var was := s;
        ghost var one := UndoEntry(j.contents[i]);
        deleted := deleted && one;
        if alive && deleted {
          UndoStep(old(s), was, s, j.contents, i);
        }
      }
      assert j.contents[0..] == j.contents;
    }

    /** The rollback of a journal: database calls, then every entry. */
    method RollBack(j: Journal) returns (ghost o: Outcome)
      requires Valid() && j.RollsBack() && (alive ==> s.journal == Some(j))
      modifies this
      ensures Valid() && old(history) <= history && (alive ==> old(alive)) && (faults.Calm() ==> alive == old(alive))
      ensures o.ran && (o.removed, o.committed) == ResultOf(results, old(count)) && (faults.Reliable() ==> o.deleted)
      ensures alive ==> s.journal == old(s.journal)
      ensures alive ==> s.db == DbAfter(old(s), j, o.removed) && s.saved == SavedAfter(old(s), j, o.removed, o.committed)
      ensures alive && o.deleted ==>
                s == RolledBack(old(s), j, o.removed, o.committed).(journal := old(s.journal))
      ensures watch == old(watch)
      ensures rollbacks == old(rollbacks) || rollbacks == old(rollbacks) + [Rollback(old(s), o.removed, o.committed)]
      ensures alive ==> rollbacks == old(rollbacks) + [Rollback(old(s), o.removed, o.committed)]
    {
      ghost var before, result := s, ResultOf(results, count);
      RemoveTitle(j);
      o := Outcome(true, result.0, result.1, false);
      if alive {
        MayDelete(before, s, lost, result.0, result.1);
        Note(before);
      }
      ghost var deleted := UndoContents(j);
      o := o.(deleted := deleted);
    }

    /** `recoverStaleRealInstall`. */
    method Recover() returns (ok: bool, ghost o: Outcome)
      requires Valid()
      modifies this
      ensures Valid() && old(history) <= history && (alive ==> old(alive)) && (faults.Calm() ==> alive == old(alive))
      ensures watch == old(watch)
      ensures alive && ok ==> s.journal.None?
      ensures old(s.journal).None? ==> ok && s == old(s) && alive == old(alive)
      // past the application record nothing is undone
      ensures old(s.journal).Some? && !old(s.journal).value.RollsBack() ==> s == old(s) || s == old(s).(journal := None)
      // with working calls: the installation is undone
      ensures alive && faults.Reliable() ==> ok && s == Recovered(old(s))
      ensures faults.Database() ==> lost == old(lost)
      // otherwise: what is in the databases, and exactly when a title is stranded
      ensures alive && !o.ran ==> (s == old(s) || s == old(s).(journal := None)) && rollbacks == old(rollbacks)
      ensures alive && o.ran ==> old(s.journal).Some? && old(s.journal).value.RollsBack()
      ensures alive && o.ran ==> (o.removed, o.committed) == ResultOf(results, old(count))
      ensures alive && o.ran ==> rollbacks == old(rollbacks) + [Rollback(old(s), o.removed, o.committed)]
      ensures alive && o.ran && o.deleted ==>
                s == RolledBack(old(s), old(s.journal).value, o.removed, o.committed).(journal := s.journal)
      ensures alive && o.ran && o.deleted && old(lost) == {} ==>
                (Complete(s.db, s.contents) && Complete(s.saved, s.contents) <==>
                   !Strands(old(s), old(s.journal).value, o.removed, o.committed))
    {
      o := Outcome(false, true, true, true);
      if s.journal.None? {
        return true, o;
      }
      var j := s.journal.value;
      var f := RollbackCallFails();
      if f {
        return false, o;
      }
      if j.RollsBack() {
        o := RollBack(j);
        if old(lost) == {} {
          RollbackKeepsCompleteIff(old(s), o.removed, o.committed);
        }
        if alive && Watching() {
          CloseIsRecovered(old(s), watch.value);
        }
      }
      ok := RemoveJournal();
    }

    /** A start of the program, after power loss or not: it recovers first. */
    method Restart()
      requires Valid() && faults.Reliable()
      modifies this
      ensures Valid() && watch == old(watch)
      ensures alive ==> s.journal.None?
      ensures old(Final(s)) ==> Final(s) && s == old(s).(journal := s.journal)
    {
      if !alive {
        Reboot();
      }
      var _, _ := Recover();
    }
  }

  /** Committed, and no recovery will undo it. */
  predicate Final(s: Store) {
    s.db == s.saved && (s.journal.Some? ==> !s.journal.value.RollsBack())
  }

  /** t is s without what these entries of a journal name. */
  predicate EntriesGone(t: Store, s: Store, ps: seq<Planned>) {
    && t.contents == s.contents - DoomedIds(ps)
    && t.placeholders == s.placeholders - DanglingPlaceholders(ps)
  }

  lemma {:induction false} UndoStep(before: Store, s: Store, t: Store, ps: seq<Planned>, i: nat)
    requires i < |ps| && EntriesGone(s, before, ps[i + 1..])
    requires t.contents == s.contents - (if ps[i].Doomed() then {ps[i].id} else {})
    requires t.placeholders == s.placeholders - (if ps[i].Dangling() then {ps[i].placeholder} else {})
    ensures EntriesGone(t, before, ps[i..])
  {
    assert ps[i..] == [ps[i]] + ps[i + 1..];
    assert DoomedIds(ps[i..]) == DoomedIds(ps[i + 1..]) + (if ps[i].Doomed() then {ps[i].id} else {});
    assert DanglingPlaceholders(ps[i..]) ==
           DanglingPlaceholders(ps[i + 1..]) + (if ps[i].Dangling() then {ps[i].placeholder} else {});
  }

  function Patched(b: Bytes, at: nat, data: Bytes): (r: Bytes)
    requires at + |data| <= |b|
    ensures |r| == |b| && r[..at] == b[..at] && r[..at + |data|] == b[..at] + data
    ensures r[at + |data|..] == b[at + |data|..]
  {
    var r := b[..at] + data + b[at + |data|..];
    assert r[..at] == b[..at] && r[..at + |data|] == b[..at] + data;
    r
  }

  // ----- Physical order -----

  predicate Sorted(es: seq<N.Entry>) { forall i, j :: 0 <= i < j < |es| ==> es[i].offset <= es[j].offset }

  function InsertByOffset(e: N.Entry, es: seq<N.Entry>): (r: seq<N.Entry>)
    ensures multiset(r) == multiset(es) + multiset{e}
  {
    if es == [] || e.offset < es[0].offset then [e] + es
    else
      assert es == [es[0]] + es[1..];
      [es[0]] + InsertByOffset(e, es[1..])
  }

  /** A stable sort by offset. */
  function ByOffset(es: seq<N.Entry>): (r: seq<N.Entry>)
    ensures multiset(r) == multiset(es)
  {
    if es == [] then []
    else
      assert es == es[..|es| - 1] + [es[|es| - 1]];
      InsertByOffset(es[|es| - 1], ByOffset(es[..|es| - 1]))
  }

  /** No entry comes before this offset. */
  predicate AllFrom(offset: nat, es: seq<N.Entry>) { forall e :: e in es ==> offset <= e.offset }

  lemma InsertMembers(e: N.Entry, es: seq<N.Entry>, x: N.Entry)
    ensures x in InsertByOffset(e, es) <==> x == e || x in es
  {
    assert x in multiset(InsertByOffset(e, es)) <==> x in multiset(es) + multiset{e};
  }

  lemma SortedCons(e: N.Entry, es: seq<N.Entry>)
    ensures Sorted([e] + es) <==> AllFrom(e.offset, es) && Sorted(es)
  {
    var r := [e] + es;
    assert forall i :: 0 <= i < |es| ==> es[i] == r[i + 1];
    if Sorted(r) {
      forall x | x in es ensures e.offset <= x.offset {
        var i :| 0 <= i < |es| && es[i] == x;
        assert r[0].offset <= r[i + 1].offset;
      }
      forall i, j | 0 <= i < j < |es| ensures es[i].offset <= es[j].offset {
        assert r[i + 1].offset <= r[j + 1].offset;
      }
    }
  }

  lemma InsertFrom(offset: nat, e: N.Entry, es: seq<N.Entry>)
    requires AllFrom(offset, es) && offset <= e.offset
    ensures AllFrom(offset, InsertByOffset(e, es))
  {
    forall x | x in InsertByOffset(e, es) ensures offset <= x.offset {
      InsertMembers(e, es, x);
    }
  }

  lemma {:induction false} InsertSorts(e: N.Entry, es: seq<N.Entry>)
    requires Sorted(es)
    ensures Sorted(InsertByOffset(e, es))
  {
    if es == [] || e.offset < es[0].offset {
      SortedCons(e, es);
    } else {
      assert es == [es[0]] + es[1..];
      SortedCons(es[0], es[1..]);
      InsertSorts(e, es[1..]);
      InsertFrom(es[0].offset, e, es[1..]);
      SortedCons(es[0], InsertByOffset(e, es[1..]));
    }
  }

  lemma {:induction false} ByOffsetSorts(es: seq<N.Entry>)
    ensures Sorted(ByOffset(es))
  {
    if es != [] {
      ByOffsetSorts(es[..|es| - 1]);
      InsertSorts(es[|es| - 1], ByOffset(es[..|es| - 1]));
    }
  }

  lemma {:induction false} InsertLast(e: N.Entry, es: seq<N.Entry>)
    requires forall x :: x in es ==> x.offset <= e.offset
    ensures InsertByOffset(e, es) == es + [e]
  {
    if es != [] {
      assert es[0] in es && es == [es[0]] + es[1..];
      InsertLast(e, es[1..]);
    }
  }

  lemma {:induction false} SortedFront(es: seq<N.Entry>, n: nat)
    requires Sorted(es) && |es| == n + 1
    ensures Sorted(es[..n]) && (forall x :: x in es[..n] ==> x.offset <= es[n].offset) && es == es[..n] + [es[n]]
  {
    forall x | x in es[..n] ensures x.offset <= es[n].offset {
      var i :| 0 <= i < n && es[..n][i] == x;
      assert es[i].offset <= es[n].offset;
    }
  }

  /** Entries in order keep their order, those at the same offset included. */
  lemma {:induction false} SortedStays(es: seq<N.Entry>)
    requires Sorted(es)
    ensures ByOffset(es) == es
  {
    if es != [] {
      SortedFront(es, |es| - 1);
      SortedStays(es[..|es| - 1]);
      InsertLast(es[|es| - 1], es[..|es| - 1]);
    }
  }
}
