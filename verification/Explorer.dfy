/**
  The file operations of the explorer's worker thread.  Every call may fail; another thread may ask it
  to stop at any time.  Only the removals of a rollback are assumed to work.
 */
module Explorer {
  import opened Bytes
  import opened FileTree

  const BUFFER := 64 * 1024
  const TEMP_ATTEMPTS := 1000

  /** `.aio-copy-<n>.tmp` */
  function TempName(n: nat): string { ".aio-copy-" + Decimal(n) + ".tmp" }

  function Decimal(n: nat): string {
    if n < 10 then [('0' as int + n) as char] else Decimal(n / 10) + [('0' as int + n % 10) as char]
  }

  /** The number a text of digits stands for. */
  function Number(s: string): int {
    if s == "" then 0 else 10 * Number(s[..|s| - 1]) + (s[|s| - 1] as int - '0' as int)
  }

  lemma {:induction false} DecimalReads(n: nat)
    ensures Number(Decimal(n)) == n && forall c :: c in Decimal(n) ==> '0' <= c <= '9'
  {
    var last := ('0' as int + n % 10) as char;
    if n >= 10 {
      DecimalReads(n / 10);
      assert Decimal(n) == Decimal(n / 10) + [last];
      assert Decimal(n)[..|Decimal(n)| - 1] == Decimal(n / 10);
    } else {
      assert Decimal(n) == [('0' as int + n) as char] && [('0' as int + n) as char][..0] == "";
    }
  }

  /** The entries of a directory, each once. */
  ghost predicate Listing(fs: Fs, a: Path, names: seq<string>) {
    && (forall n :: n in names <==> a + [n] in fs)
    && forall i, j :: 0 <= i < j < |names| ==> names[i] != names[j]
  }

  /** Name number n beside the target. */
  predicate IsAttempt(target: Path, n: nat, p: Path) {
    target != [] && p == target[..|target| - 1] + [".aio-copy-" + Decimal(n) + ".tmp"]
  }

  /** One of those names is free. */
  ghost predicate FreeName(fs: Fs, target: Path) {
    exists n: nat, p: Path :: n < 1000 && IsAttempt(target, n, p) && p != target && p !in fs
  }

  const FIRST_TEMP := ".aio-copy-0.tmp"

  /** The first temporary name is free if no sibling has it. */
  lemma FirstIsFree(fs: Fs, directory: Path, n: string)
    requires n != FIRST_TEMP && directory + [FIRST_TEMP] !in fs
    ensures FreeName(fs, directory + [n])
  {
    var zero: nat := 0;
    assert Decimal(zero) == [('0' as int + zero) as char] == "0";
    assert ".aio-copy-" + Decimal(zero) + ".tmp" == FIRST_TEMP;
    assert (directory + [n])[..|directory + [n]| - 1] == directory;
    assert IsAttempt(directory + [n], zero, directory + [FIRST_TEMP]);
    assert (directory + [FIRST_TEMP])[|directory|] != (directory + [n])[|directory|];
  }

  class Worker {
    const calm: bool  // no call fails and nobody asks to stop
    var fs: Fs
    var cancelled: bool
    var completed: nat
    var total: nat

    constructor (fs: Fs, calm: bool)
      ensures this.fs == fs && this.calm == calm && completed == 0 && total == 0 && !cancelled
    {
      this.fs, this.calm, cancelled, completed, total := fs, calm, false, 0, 0;
    }

    /** Does a call work? */
    method Works() returns (b: bool)
      ensures calm ==> b
    {
      b := *;
      b := b || calm;
    }

    /** Once set, the request to stop stays set. */
    method Cancelled() returns (b: bool)
      modifies this`cancelled
      ensures b == cancelled && (old(cancelled) ==> cancelled) && (calm ==> cancelled == old(cancelled))
    {
      var asked: bool := *;
      if asked && !calm {
        cancelled := true;
      }
      b := cancelled;
    }

    /** The names in a directory, in whatever order the system gives them. */
    method List(a: Path) returns (names: seq<string>)
      ensures Listing(fs, a, names)
    {
      var todo := set p | p in fs && |p| == |a| + 1 && Below(p, a) :: p[|a|];
      names := [];
      assert forall n :: n in todo ==> a + [n] in fs by {
        assert forall p :: Below(p, a) && |p| == |a| + 1 ==> p == a + [p[|a|]];
      }
      assert forall n :: a + [n] in fs ==> Below(a + [n], a) && n in todo;
      while todo != {}
        invariant forall n :: a + [n] in fs <==> n in todo || n in names
        invariant forall n :: n in names ==> n !in todo
        invariant forall i, j :: 0 <= i < j < |names| ==> names[i] != names[j]
      {
        var n :| n in todo;
        names, todo := names + [n], todo - {n};
      }
    }

    /** A directory has been listed to its end and nobody has asked to stop. */
    method ListingEnds() returns (ok: bool)
      modifies this`cancelled
      ensures (old(cancelled) ==> cancelled) && (ok ==> !cancelled)
      ensures calm ==> cancelled == old(cancelled) && (!cancelled ==> ok)
    {
      var stop := Cancelled();
      ok := Works();
      ok := ok && !stop;
    }

    method CreateDirectory(p: Path) returns (ok: bool)
      requires WellFormed(fs)
      modifies this`fs
      ensures WellFormed(fs)
      ensures ok ==> CanCreate(old(fs), p)
      ensures fs == if ok then old(fs)[p := Dir] else old(fs)
      ensures calm && CanCreate(old(fs), p) ==> ok
    {
      ok := Works();
      if !ok || p == [] || p in fs || !IsDir(fs, p[..|p| - 1]) {
        return false;
      }
      CreateKeepsWellFormed(fs, p, Dir);
      fs := fs[p := Dir];
    }

    /** Creates or rewrites a file; a failure may leave anything in it. */
    method WriteFile(p: Path, data: Bytes) returns (ok: bool)
      requires WellFormed(fs) && p != [] && (p in fs ==> !fs[p].Dir?)
      modifies this`fs
      ensures WellFormed(fs)
      ensures fs == old(fs) || (p in fs && fs[p].File? && fs == old(fs)[p := fs[p]])
      ensures ok ==> IsDir(old(fs), Parent(p)) && fs == old(fs)[p := File(data)]
      ensures calm && IsDir(old(fs), Parent(p)) ==> ok
    {
      if !IsDir(fs, p[..|p| - 1]) {
        return false;
      }
      var written: int := *;
      CreateKeepsWellFormed(fs, p, File(data));
      if 0 <= written < |data| && !calm {
        CreateKeepsWellFormed(fs, p, File(data[..written]));
        fs := fs[p := File(data[..written])];
        return false;
      }
      fs := fs[p := File(data)];
      ok := Works();
    }

    /** Removes a file, or a directory if it is empty. */
    method Remove(p: Path)
      requires WellFormed(fs)
      modifies this`fs
      ensures WellFormed(fs)
      ensures fs == if Under(old(fs), p) <= {p} then old(fs) - {p} else old(fs)
    {
      if Under(fs, p) <= {p} {
        assert fs - {p} == Pruned(fs, p);
        PruneKeepsWellFormed(fs, p);
        fs := fs - {p};
      }
    }

    method RemoveAll(p: Path)
      requires WellFormed(fs)
      modifies this`fs
      ensures WellFormed(fs) && fs == Pruned(old(fs), p)
    {
      PruneKeepsWellFormed(fs, p);
      fs := Pruned(fs, p);
    }

    /** An unused name beside the target, and not the target's. */
    method TempFor(target: Path) returns (tmp: Option<Path>)
      ensures tmp.Some? ==>
                target != [] && tmp.value != [] && Parent(tmp.value) == Parent(target) && tmp.value != target && tmp.value !in fs
      // the first free one of .aio-copy-0.tmp to .aio-copy-999.tmp
      ensures tmp.Some? ==>
                exists n: nat :: n < 1000 && IsAttempt(target, n, tmp.value)
                  && forall k: nat, p: Path :: k < n && IsAttempt(target, k, p) ==> p == target || p in fs
      ensures calm && FreeName(fs, target) ==> tmp.Some?
    {
      if target == [] {
        return None;
      }
      for n := 0 to TEMP_ATTEMPTS
        invariant forall k: nat, p: Path :: k < n && IsAttempt(target, k, p) ==> p == target || p in fs
      {
        assert IsAttempt(target, n, target[..|target| - 1] + [TempName(n)]);
        var candidate := target[..|target| - 1] + [TempName(n)];
        if candidate != target {
          var answered := Works();
          if !answered {
            return None;
          }
          if candidate !in fs {
            return Some(candidate);
          }
        }
      }
      return None;
    }

    // ----- One file -----

    /** The bytes go to the temporary file buffer by buffer. */
    method CopyBytes(data: Bytes, tmp: Path) returns (ok: bool)
      requires WellFormed(fs) && tmp != [] && tmp !in fs
      modifies this`fs, this`cancelled, this`completed
      ensures WellFormed(fs) && SameBut(old(fs), fs, tmp) && (old(cancelled) ==> cancelled)
      ensures ok ==> IsDir(old(fs), Parent(tmp)) && fs == old(fs)[tmp := File(data)]
      ensures ok ==> completed == old(completed) + |data| && !cancelled
      ensures calm ==> cancelled == old(cancelled) && (!cancelled && IsDir(old(fs), Parent(tmp)) ==> ok)
    {
      ok := WriteFile(tmp, []);
      var copied := 0;
      while copied < |data| && ok
        invariant copied <= |data| && WellFormed(fs) && SameBut(old(fs), fs, tmp) && (old(cancelled) ==> cancelled)
        invariant ok ==> IsDir(old(fs), Parent(tmp)) && fs == old(fs)[tmp := File(data[..copied])]
        invariant ok ==> completed == old(completed) + copied
        invariant calm ==> cancelled == old(cancelled) && (!cancelled && IsDir(old(fs), Parent(tmp)) ==> ok)
        decreases ok, |data| - copied
      {
        var stop := Cancelled();
        if stop {
          return false;
        }
        var count := if BUFFER < |data| - copied then BUFFER else |data| - copied;
        ok := WriteFile(tmp, data[..copied + count]);
        if ok {
          copied := copied + count;
          completed := completed + count;
        }
      }
      if ok {
        assert data[..copied] == data;
        var stop := Cancelled();
        ok := !stop;
      }
    }

    /** A new file, through a temporary file in its directory; a failure leaves no trace. */
    method Store(dst: Path, data: Bytes) returns (ok: bool)
      requires WellFormed(fs)
      modifies this`fs, this`cancelled, this`completed
      ensures WellFormed(fs) && (old(cancelled) ==> cancelled)
      ensures !ok ==> fs == old(fs)
      ensures ok ==> CanCreate(old(fs), dst) && fs == old(fs)[dst := File(data)]
      ensures ok ==> completed == old(completed) + |data| && !cancelled
      ensures calm ==> cancelled == old(cancelled)
      ensures calm && !cancelled && CanCreate(old(fs), dst) && FreeName(old(fs), dst) ==> ok
    {
      var tmp := TempFor(dst);
      if tmp.None? {
        return false;
      }
      ok := CopyBytes(data, tmp.value);
      if ok && dst !in fs {
        ok := RenameTemp(tmp.value, dst, data, old(fs));
      } else {
        ok := false;
      }
      if !ok {
        RemoveTemp(tmp.value, old(fs));
      }
    }

    /** `copyFile`. */
    method CopyFile(src: Path, dst: Path) returns (ok: bool)
      requires WellFormed(fs)
      modifies this`fs, this`cancelled, this`completed
      ensures WellFormed(fs)
      ensures !ok ==> fs == old(fs)
      ensures ok ==>
                && src in old(fs) && old(fs)[src].File? && CanCreate(old(fs), dst)
                && fs == old(fs)[dst := old(fs)[src]]
                && completed == old(completed) + |old(fs)[src].data| && !cancelled
      ensures calm ==> cancelled == old(cancelled)
      ensures calm && !cancelled && src in old(fs) && old(fs)[src].File? && CanCreate(old(fs), dst) && FreeName(old(fs), dst) ==> ok
    {
      ok := Works();
      if !ok || src !in fs || !fs[src].File? {
        return false;
      }
      ok := Store(dst, fs[src].data);
    }

    /** The finished temporary file takes its final name. */
    method RenameTemp(tmp: Path, dst: Path, data: Bytes, ghost before: Fs) returns (ok: bool)
      requires WellFormed(fs) && WellFormed(before) && CanCreate(before, dst) && CanCreate(before, tmp)
      requires dst !in fs && fs == before[tmp := File(data)]
      modifies this`fs
      ensures WellFormed(fs)
      ensures fs == if ok then before[dst := File(data)] else old(fs)
      ensures calm ==> ok
    {
      ok := Works();
      if ok {
        CreateKeepsWellFormed(before, dst, File(data));
        RenamedFile(before, tmp, dst, File(data));
        fs := Renamed(fs, tmp, dst);
      }
    }

    method RemoveTemp(tmp: Path, ghost before: Fs)
      requires WellFormed(fs) && WellFormed(before) && tmp !in before && SameBut(before, fs, tmp)
      modifies this`fs
      ensures WellFormed(fs) && fs == before
    {
      NothingUnder(before, tmp);
      assert forall p :: p in fs && p != tmp ==> p in before;
      Remove(tmp);
    }
  }

  /** The file systems differ at most at p. */
  ghost predicate SameBut(fs: Fs, fs2: Fs, p: Path) {
    fs2 == fs || (p in fs2 && fs2 == fs[p := fs2[p]])
  }

  lemma RenamedFile(fs: Fs, a: Path, b: Path, n: Node)
    requires WellFormed(fs) && CanCreate(fs, a) && CanCreate(fs, b) && a != b
    ensures Renamed(fs[a := n], a, b) == fs[b := n]
  {
    NothingUnder(fs, a);
    assert Under(fs[a := n], a) == {a};
    var g := Graft(fs[a := n], a, b);
    assert Rebase(b, b, a) == a;
    forall p | p in g ensures p == b {
      assert Rebase(p, b, a) in Under(fs[a := n], a);
    }
    assert g == map[b := n];
  }
}
