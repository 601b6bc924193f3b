/**
  Packages with two NCAs of one content id: the ones whose installation leaves a placeholder behind.  Made
  with the builder of NSP images, for every id and any contents.
 */
module TwinPackage {
  import opened Bytes
  import opened NcmStore
  import opened NspInstall
  import opened StreamInstaller
  import opened BuiltPackage
  import N = NspManifest
  import P = Pfs0Builder

  /** A CNMT and another NCA under one id. */
  function Twin(hex: Bytes, id: Id, cnmt: Bytes, other: Bytes): seq<Content> {
    [Content(hex, id, true, cnmt), Content(hex, id, false, other)]
  }

  /** The stream reaches the second entry, which repeats the id of the first. */
  lemma {:induction false} TwinTrapped(es: seq<N.Entry>, cs: seq<Content>, from: nat, length: nat, contents: map<Id, Bytes>)
    requires Lists(es, cs, from) && |cs| == 2 && cs[0].id == cs[1].id
    requires from + |P.DataUpTo(Files(cs), 2)| <= length
    ensures Trapped(es, from, length, contents) <==> cs[0].id !in contents
  {
    ListedIs(es, cs, from, 0);
    ListedIs(es, cs, from, 1);
    if cs[0].id !in contents {
      ListedStreams(es, cs, 1, from, length);
      P.DataPrefix(Files(cs), 1, 2);
      assert Clash(es[0], es[1], contents);
      assert TrapAt(es, 1, from, length, contents);
    }
  }

  /**
    Installed on a console without that content, a package with two NCAs of one id leaves a placeholder
    behind; with the content there it does not.
   */
  lemma {:induction false} TwinTraps(hex: Bytes, id: Id, cnmt: Bytes, other: Bytes, contents: map<Id, Bytes>)
    requires |id| == 16 && N.IsHexOf(hex, id) && P.Representable(Files(Twin(hex, id, cnmt, other)))
    ensures var p := P.Image(Files(Twin(hex, id, cnmt, other)));
            N.StreamAccepted(p, |p|) && (Traps(p, |p|, contents) <==> id !in contents)
  {
    var cs := Twin(hex, id, cnmt, other);
    var p := P.Image(Files(cs));
    BuiltIsAccepted(cs, 0);
    P.ImageSections(Files(cs));
    var m := N.StreamManifest(p, |p|);
    OffsetsAscend(m.entries, cs, N.DataStart(p));
    SortedStays(m.entries);
    TwinTrapped(m.entries, cs, N.DataStart(p), |p|, contents);
    ListedBytes(m.entries, cs, 2, N.DataStart(p), contents);
    TrapsIs(p, |p|, m, contents);
  }

  /** Such packages exist for every id and all file contents the format can hold. */
  lemma {:induction false} TwinRepresentable(hex: Bytes, id: Id, cnmt: Bytes, other: Bytes)
    requires |id| == 16 && N.IsHexOf(hex, id) && |cnmt| + |other| < U64_LIMIT - 0x1000
    ensures P.Representable(Files(Twin(hex, id, cnmt, other)))
  {
    var cs := Twin(hex, id, cnmt, other);
    var fs := Files(cs);
    assert |P.NamesUpTo(fs, 1)| == |P.NamesUpTo(fs, 0)| + 42 && |P.NamesUpTo(fs, 2)| == |P.NamesUpTo(fs, 1)| + 37;
    assert |P.DataUpTo(fs, 1)| == |P.DataUpTo(fs, 0)| + |cnmt| && |P.DataUpTo(fs, 2)| == |P.DataUpTo(fs, 1)| + |other|;
    NoNul(cs[0]);
    NoNul(cs[1]);
  }

  lemma {:induction false} NoNul(c: Content)
    requires c.Named()
    ensures 0 !in c.Name()
  {
    forall i | 0 <= i < 32 ensures c.hex[i] != 0 {
      DigitsOnly(c.hex, c.id, i);
    }
  }

  /** On an empty console on which nothing fails, installing one leaves a placeholder behind. */
  method TwinRun(hex: Bytes, id: Id, cnmt: Bytes, other: Bytes, meta: Option<Meta>) returns (after: Store)
    requires |id| == 16 && N.IsHexOf(hex, id) && |cnmt| + |other| < U64_LIMIT - 0x1000
    ensures after.placeholders != map[]
  {
    TwinRepresentable(hex, id, cnmt, other);
    TwinTraps(hex, id, cnmt, other, map[]);
    var image := P.BuildPfs0(Files(Twin(hex, id, cnmt, other)));
    after := CalmRun(image, |image|, meta);
  }

  /** The installation of a package on an empty console on which nothing fails. */
  method CalmRun(package: Bytes, packageSize: nat, meta: Option<Meta>) returns (after: Store)
    ensures Traps(package, packageSize, map[]) ==> after.placeholders != map[]
  {
    var c := new Console(Store(map[], map[], map[], map[], None), NoFaults, [], Base(map[], map[]));
    var src := new N.Source(package);
    var installer := new Installer(c, src);
    var _, _, _ := installer.InstallNspStream(packageSize, meta);
    after := c.s;
  }
}
