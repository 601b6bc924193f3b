/**
  From files to an installed title: a package made by the builder of NSP images out of any contents, read
  by both manifest parsers and installed from the stream.
 */
module BuiltPackage {
  import opened Bytes
  import opened NcmStore
  import opened NspInstall
  import opened StreamInstaller
  import N = NspManifest
  import P = Pfs0Builder

  // ----- Names -----

  /** The text of some bytes, two digits each. */
  function HexText(bytes: Bytes, upper: bool): (text: Bytes)
    ensures N.IsHexOf(text, bytes)
  {
    if bytes == [] then []
    else
      var digits := if upper then "0123456789ABCDEF" else "0123456789abcdef";
      var rest := HexText(bytes[1..], upper);
      var text := [Code(digits, bytes[0] / 16), Code(digits, bytes[0] % 16)] + rest;
      assert text[2..] == rest;
      N.HexTail(text, bytes);
      text
  }

  function Code(digits: string, value: nat): (b: byte)
    requires digits in {"0123456789abcdef", "0123456789ABCDEF"} && value < 16
    ensures N.IsDigit(b, value)
  {
    if digits == "0123456789abcdef" then
      (if value < 10 then 0x30 + value else 0x57 + value)
    else
      (if value < 10 then 0x30 + value else 0x37 + value)
  }

  /** A content of a package; `hex` are the digits of its id, in any mixture of cases. */
  datatype Content = Content(hex: Bytes, id: Id, cnmt: bool, data: Bytes) {
    predicate Named() { |id| == 16 && N.IsHexOf(hex, id) }

    function Name(): Bytes { hex + if cnmt then N.DOT_CNMT_NCA else N.DOT_NCA }

    /** What a parser should say of it. */
    function EntryAt(offset: nat): N.Entry {
      N.Entry(Name(), offset, |data|, true, cnmt, false, false, Some(id))
    }
  }

  lemma {:induction false} EndsIn(hex: Bytes, cnmt: bool)
    requires |hex| == 32 && hex[27] != 0x2E
    ensures var name := hex + if cnmt then N.DOT_CNMT_NCA else N.DOT_NCA;
            && N.Ends(name, ".nca") && (N.Ends(name, ".cnmt.nca") <==> cnmt)
            && !N.Ends(name, ".tik") && !N.Ends(name, ".cert")
  {
    var name := hex + if cnmt then N.DOT_CNMT_NCA else N.DOT_NCA;
    var n := |name|;
    assert name[n - 4] == 0x2E && name[n - 3] == 0x6E && name[n - 2] == 0x63 && name[n - 1] == 0x61;
    if cnmt {
      assert name[n - 9] == 0x2E && name[n - 8] == 0x63 && name[n - 7] == 0x6E && name[n - 6] == 0x6D && name[n - 5] == 0x74;
    } else {
      assert name[n - 9] == hex[27];
      assert N.Ends(name, ".cnmt.nca") ==> N.IsLetter(name[n - 9 + 0], ".cnmt.nca"[0]);
    }
    assert N.Ends(name, ".tik") ==> N.IsLetter(name[n - 4 + 3], ".tik"[3]);
    assert N.Ends(name, ".cert") ==> N.IsLetter(name[n - 5 + 4], ".cert"[4]);
  }

  /** Digits are no dots, and not NUL. */
  lemma {:induction false} DigitsOnly(hex: Bytes, id: Bytes, i: nat)
    requires N.IsHexOf(hex, id) && i < |hex|
    ensures hex[i] != 0x2E && hex[i] != 0
  {
    assert N.IsDigit(hex[2 * (i / 2)], id[i / 2] / 16) && N.IsDigit(hex[2 * (i / 2) + 1], id[i / 2] % 16);
  }

  /** The entry of a content has its id, and is a CNMT just when the content is. */
  lemma {:induction false} EntryIs(c: Content, offset: nat)
    requires c.Named()
    ensures N.MakeEntry(c.Name(), offset, |c.data|) == c.EntryAt(offset)
  {
    DigitsOnly(c.hex, c.id, 27);
    EndsIn(c.hex, c.cnmt);
    N.EntryReadRight(c.Name(), offset, |c.data|);
    assert c.Name()[..32] == c.hex && c.Name()[32] == 0x2E;
  }

  // ----- Packages -----

  predicate AllNamed(cs: seq<Content>) { forall i :: 0 <= i < |cs| ==> cs[i].Named() }

  predicate OneCnmt(cs: seq<Content>, k: nat) {
    k < |cs| && forall i :: 0 <= i < |cs| ==> (cs[i].cnmt <==> i == k)
  }

  function Files(cs: seq<Content>): (fs: seq<P.FileEntry>)
    ensures |fs| == |cs| && forall i :: 0 <= i < |cs| ==> fs[i] == P.FileEntry(cs[i].Name(), cs[i].data)
  {
    if cs == [] then []
    else Files(cs[..|cs| - 1]) + [P.FileEntry(cs[|cs| - 1].Name(), cs[|cs| - 1].data)]
  }

  /** Entry i is content i, right after those before it. */
  predicate ListedAt(es: seq<N.Entry>, cs: seq<Content>, from: nat, i: nat)
    requires i < |es| == |cs|
  {
    es[i] == cs[i].EntryAt(from + |P.DataUpTo(Files(cs), i)|)
  }

  /** The entries of the package. */
  ghost predicate Lists(es: seq<N.Entry>, cs: seq<Content>, from: nat) {
    |es| == |cs| && forall i :: 0 <= i < |cs| ==> ListedAt(es, cs, from, i)
  }

  /** The tables name file i and say where its data is. */
  predicate Shows(t: N.Tables, fs: seq<P.FileEntry>, i: nat)
    requires i < |t.records| == |fs|
  {
    && t.NameOk(i) && t.NameAt(i) == fs[i].name
    && t.records[i].offset == |P.DataUpTo(fs, i)| && t.records[i].size == |fs[i].data|
  }

  /** Where the builder put file i. */
  lemma {:induction false} RecordOf(p: Bytes, fs: seq<P.FileEntry>, i: nat)
    requires P.SectionsAre(p, fs) && |p| < U64_LIMIT && i < |fs|
    ensures N.TablesOf(p).records[i].offset == |P.DataUpTo(fs, i)| && N.TablesOf(p).records[i].size == |fs[i].data|
  {
    P.DataRead(fs, i);
    P.NamesPrefix(fs, i, |fs|);
    assert |P.DataUpTo(fs, |fs|)| <= |p|;
    assert |P.NamesUpTo(fs, i)| <= |P.Strings(fs)|;
    P.RecordRead(fs, i);
  }

  lemma {:induction false} ReadsName(p: Bytes, i: nat, e: P.FileEntry)
    requires N.HeaderOk(p) && i < N.FileCount(p) && P.Reads(p, i, e)
    ensures N.TablesOf(p).NameOk(i) && N.TablesOf(p).NameAt(i) == e.name
  {
  }

  lemma {:induction false} AllShown(p: Bytes, fs: seq<P.FileEntry>)
    requires P.SectionsAre(p, fs) && |p| < U64_LIMIT && forall i :: 0 <= i < |fs| ==> P.Reads(p, i, fs[i])
    ensures forall i :: 0 <= i < |fs| ==> Shows(N.TablesOf(p), fs, i)
  {
    forall i | 0 <= i < |fs| ensures Shows(N.TablesOf(p), fs, i) {
      RecordOf(p, fs, i);
      ReadsName(p, i, fs[i]);
    }
  }

  /** The parsers make the entry of this content out of its name, wherever it is. */
  ghost predicate Makes(c: Content) {
    forall offset: nat :: N.MakeEntry(c.Name(), offset, |c.data|) == c.EntryAt(offset)
  }

  lemma {:induction false} NamedMakes(cs: seq<Content>)
    requires AllNamed(cs)
    ensures forall i :: 0 <= i < |cs| ==> Makes(cs[i])
  {
    forall i | 0 <= i < |cs| ensures Makes(cs[i]) {
      forall offset: nat ensures N.MakeEntry(cs[i].Name(), offset, |cs[i].data|) == cs[i].EntryAt(offset) {
        EntryIs(cs[i], offset);
      }
    }
  }

  /** The entry made from the tables. */
  lemma {:induction false} EntryFrom(t: N.Tables, i: nat, name: Bytes, at: nat, size: nat, e: N.Entry)
    requires i < |t.records| && t.NameOk(i) && t.NameAt(i) == name
    requires t.dataStart + t.records[i].offset == at && t.records[i].size == size
    requires N.MakeEntry(name, at, size) == e
    ensures t.EntryAt(i) == e
  {
  }

  lemma {:induction false} AllListed(t: N.Tables, cs: seq<Content>)
    requires |t.records| == |cs| && t.NamesOk() && forall i :: 0 <= i < |cs| ==> Makes(cs[i])
    requires forall i :: 0 <= i < |cs| ==> Shows(t, Files(cs), i)
    ensures Lists(t.Entries(|cs|), cs, t.dataStart)
  {
    forall i | 0 <= i < |cs| ensures ListedAt(t.Entries(|cs|), cs, t.dataStart, i) {
      var at := t.dataStart + |P.DataUpTo(Files(cs), i)|;
      assert Shows(t, Files(cs), i) && Makes(cs[i]);
      EntryFrom(t, i, cs[i].Name(), at, |cs[i].data|, cs[i].EntryAt(at));
      N.EntriesAt(t, |cs|, i);
    }
  }

  /** What the lists say of one content. */
  lemma {:induction false} ListedIs(es: seq<N.Entry>, cs: seq<Content>, from: nat, i: nat)
    requires Lists(es, cs, from) && i < |cs|
    ensures es[i].isNca && (es[i].isCnmtNca <==> cs[i].cnmt) && !es[i].isTicket && !es[i].isCert
    ensures es[i].contentId == Some(cs[i].id) && es[i].size == |cs[i].data| && es[i].offset == from + |P.DataUpTo(Files(cs), i)|
    ensures P.DataUpTo(Files(cs), i + 1) == P.DataUpTo(Files(cs), i) + cs[i].data
  {
    assert ListedAt(es, cs, from, i);
  }

  /** With one CNMT among them, the counts are as both parsers want them. */
  lemma {:induction false} CountsFit(m: N.Manifest, cs: seq<Content>, from: nat, k: nat)
    requires N.Counted(m) && Lists(m.entries, cs, from) && OneCnmt(cs, k)
    ensures m.ncaCount == |cs| > 0 && m.cnmtNcaCount == 1 && m.ticketCount == m.certCount == 0 && N.NamesOk(m.entries)
  {
    var es := m.entries;
    forall i | 0 <= i < |es|
      ensures N.Is(es[i], N.Nca) && (N.Is(es[i], N.CnmtNca) <==> i == k) && !N.Is(es[i], N.Ticket) && !N.Is(es[i], N.Cert)
      ensures es[i].contentId.Some?
    {
      ListedIs(es, cs, from, i);
    }
    N.WhichAll(es, N.Nca);
    assert N.Which(es, N.CnmtNca) == {k};
    assert N.Which(es, N.Ticket) == {} == N.Which(es, N.Cert);
  }

  /** Both parsers accept the package, and find the contents under their ids. */
  lemma {:induction false} BuiltIsAccepted(cs: seq<Content>, k: nat)
    requires AllNamed(cs) && OneCnmt(cs, k) && P.Representable(Files(cs))
    ensures var p := P.Image(Files(cs));
            && N.StreamAccepted(p, |p|) && N.Accepted(p) && |p| >= N.HEADER
            && N.StreamManifest(p, |p|) == N.ManifestOf(p, |p|)
            && Lists(N.ManifestOf(p, |p|).entries, cs, N.DataStart(p))
  {
    var p := P.Image(Files(cs));
    P.ImageSections(Files(cs));
    P.RoundTrip(Files(cs));
    AllShown(p, Files(cs));
    NamedMakes(cs);
    AllListed(N.TablesOf(p), cs);
    N.ManifestIsRight(p, |p|);
    CountsFit(N.ManifestOf(p, |p|), cs, N.DataStart(p), k);
    N.SameBounds(N.TablesOf(p), |p|);
    N.ParsersAgree(p);
  }

  /** The file of a content is a slice of the image. */
  lemma {:induction false} DataListed(cs: seq<Content>, i: nat)
    requires P.Representable(Files(cs)) && i < |cs|
    ensures var p := P.Image(Files(cs)); |p| >= N.HEADER && SliceAt(p, |P.DataUpTo(Files(cs), i)|, cs[i].data)
  {
    P.ImageSections(Files(cs));
    P.DataRead(Files(cs), i);
    SliceOfData(P.Image(Files(cs)), P.DataUpTo(Files(cs), |cs|), |P.DataUpTo(Files(cs), i)|, cs[i].data);
  }

  /** The bytes at a place in the data of a package. */
  predicate SliceAt(p: Bytes, at: nat, data: Bytes)
    requires |p| >= N.HEADER
  {
    var from := N.DataStart(p) + at;
    from + |data| <= |p| && p[from..from + |data|] == data
  }

  lemma {:induction false} SliceOfData(p: Bytes, room: Bytes, at: nat, data: Bytes)
    requires |p| >= N.HEADER && N.DataStart(p) <= |p| && p[N.DataStart(p)..] == room
    requires at + |data| <= |room| && room[at..at + |data|] == data
    ensures SliceAt(p, at, data)
  {
    assert p[N.DataStart(p)..|p|] == room;
    SliceOfSlice(p, N.DataStart(p), |p|, at, at + |data|);
  }

  /** The entry is that of the content, and its slice of the image is the content's file. */
  ghost predicate Found(image: Bytes, e: N.Entry, c: Content) {
    && e.isNca && (e.isCnmtNca <==> c.cnmt) && e.contentId == Some(c.id) && e.size == |c.data|
    && e.offset + e.size <= |image| && image[e.offset..e.offset + e.size] == c.data
  }

  lemma {:induction false} ListedFound(es: seq<N.Entry>, cs: seq<Content>, i: nat)
    requires P.Representable(Files(cs)) && i < |cs| && |P.Image(Files(cs))| >= N.HEADER
    requires Lists(es, cs, N.DataStart(P.Image(Files(cs))))
    ensures Found(P.Image(Files(cs)), es[i], cs[i])
  {
    DataListed(cs, i);
    ListedIs(es, cs, N.DataStart(P.Image(Files(cs))), i);
  }

  /** Builds an image and gives it to both parsers. */
  method BuildAndParse(cs: seq<Content>, ghost k: nat) returns (image: Bytes, random: N.Manifest, stream: N.Manifest)
    requires AllNamed(cs) && OneCnmt(cs, k) && P.Representable(Files(cs))
    ensures random.Ok() && stream == random && |random.entries| == |cs|
    ensures forall i :: 0 <= i < |cs| ==> Found(image, random.entries[i], cs[i])
    ensures random.ncaCount == |cs| && random.cnmtNcaCount == 1 && random.ticketCount == random.certCount == 0
  {
    image := P.BuildPfs0(Files(cs));
    BuiltIsAccepted(cs, k);
    assert Concat([image]) == image;
    random, stream := ParseTwice(image);
    CountsFit(random, cs, N.DataStart(image), k);
    forall i | 0 <= i < |cs| ensures Found(image, random.entries[i], cs[i]) {
      ListedFound(random.entries, cs, i);
    }
  }

  /** The random-access parser on one file, and the streaming one. */
  method ParseTwice(image: Bytes) returns (random: N.Manifest, stream: N.Manifest)
    requires 0 < |image| < U64_LIMIT
    ensures random.Ok() <==> N.Accepted(image)
    ensures random.Ok() ==> random == N.ManifestOf(image, |image|) && N.Counted(random)
    ensures stream.Ok() <==> N.StreamAccepted(image, |image|)
    ensures stream.Ok() ==> stream == N.StreamManifest(image, |image|)
  {
    random := N.InspectNspManifest([image]);
    assert Concat([image]) == image;
    var src := new N.Source(image);
    var consumed;
    stream, consumed := N.ParseStreamManifest(|image|, src);
  }

  // ----- Installing one -----

  /** No two contents share an id. */
  predicate Distinct(cs: seq<Content>) {
    forall i, j :: 0 <= i < j < |cs| ==> cs[i].id != cs[j].id
  }

  /** What the CNMT lists is in the package, in that size. */
  predicate Refers(meta: Meta, cs: seq<Content>) {
    forall r :: r in meta.refs ==> exists i :: 0 <= i < |cs| && cs[i].id == r.0 && |cs[i].data| == r.1
  }

  lemma {:induction false} OffsetsAscend(es: seq<N.Entry>, cs: seq<Content>, from: nat)
    requires Lists(es, cs, from)
    ensures Sorted(es)
  {
    forall i, j | 0 <= i < j < |es| ensures es[i].offset <= es[j].offset {
      ListedIs(es, cs, from, i);
      ListedIs(es, cs, from, j);
      P.DataPrefix(Files(cs), i, j);
    }
  }

  /** In stream order each content starts where the one before it ends. */
  lemma {:induction false} ListedStreams(es: seq<N.Entry>, cs: seq<Content>, k: nat, from: nat, length: nat)
    requires Lists(es, cs, from) && k <= |es| && from + |P.DataUpTo(Files(cs), |cs|)| <= length
    ensures Streamable(es, k, from, length) && Position(es, k, from) == from + |P.DataUpTo(Files(cs), k)|
  {
    if k > 0 {
      ListedStreams(es, cs, k - 1, from, length);
      ListedIs(es, cs, from, k - 1);
      P.DataPrefix(Files(cs), k, |cs|);
    }
  }

  lemma {:induction false} ListedBytes(es: seq<N.Entry>, cs: seq<Content>, k: nat, from: nat, contents: map<Id, Bytes>)
    requires Lists(es, cs, from) && k <= |es|
    ensures NewBytes(es, k, contents) <= |P.DataUpTo(Files(cs), k)|
  {
    if k > 0 {
      ListedBytes(es, cs, k - 1, from, contents);
      ListedIs(es, cs, from, k - 1);
    }
  }

  lemma {:induction false} NoneClash(es: seq<N.Entry>, cs: seq<Content>, from: nat, contents: map<Id, Bytes>)
    requires Lists(es, cs, from) && Distinct(cs)
    ensures NoneMet(es, contents)
  {
    forall i, k | 0 <= i < k < |es| ensures !Clash(es[i], es[k], contents) {
      ListedIs(es, cs, from, i);
      ListedIs(es, cs, from, k);
    }
  }

  lemma {:induction false} ListedFlows(es: seq<N.Entry>, cs: seq<Content>, from: nat, length: nat, contents: map<Id, Bytes>)
    requires Lists(es, cs, from) && Distinct(cs) && from + |P.DataUpTo(Files(cs), |cs|)| <= length
    ensures ByOffset(es) == es && Flows(es, from, length, contents)
  {
    OffsetsAscend(es, cs, from);
    SortedStays(es);
    ListedStreams(es, cs, |es|, from, length);
    NoneClash(es, cs, from, contents);
  }

  lemma {:induction false} ListedReferences(es: seq<N.Entry>, cs: seq<Content>, from: nat, meta: Meta)
    requires Lists(es, cs, from) && Distinct(cs) && Refers(meta, cs)
    ensures ReferencesOk(meta.refs, es)
  {
    forall r | r in meta.refs ensures ReferenceOk(r, es) {
      var i :| 0 <= i < |cs| && cs[i].id == r.0 && |cs[i].data| == r.1;
      ListedIs(es, cs, from, i);
      assert es[i] in es && es[i].isNca && es[i].contentId == Some(r.0);
      var e := Lookup(es, r.0).value;
      var j :| 0 <= j < |es| && es[j] == e;
      ListedIs(es, cs, from, j);
      assert i == j;
    }
  }

  /** Such a package can be installed in every store in which its title is new. */
  lemma {:induction false} BuiltInstalls(cs: seq<Content>, k: nat, meta: Meta, s: Store)
    requires AllNamed(cs) && OneCnmt(cs, k) && P.Representable(Files(cs)) && Distinct(cs)
    requires Refers(meta, cs) && meta.key !in s.db
    ensures var p := P.Image(Files(cs)); Installable(p, |p|, Some(meta), s)
  {
    var p := P.Image(Files(cs));
    BuiltIsAccepted(cs, k);
    P.ImageSections(Files(cs));
    var m := N.ManifestOf(p, |p|);
    ListedFlows(m.entries, cs, N.DataStart(p), |p|, s.contents);
    ListedBytes(m.entries, cs, |cs|, N.DataStart(p), s.contents);
    ListedReferences(m.entries, cs, N.DataStart(p), meta);
    assert IsManifest(p, |p|, m) && InstallsManifest(m, p, Some(meta), s);
  }

  /** The contents of the package are in storage beside those that were there, and nothing else is. */
  ghost predicate Stored(after: map<Id, Bytes>, before: map<Id, Bytes>, cs: seq<Content>) {
    && (forall i :: 0 <= i < |cs| ==> cs[i].id in after && (cs[i].id !in before ==> after[cs[i].id] == cs[i].data))
    && (forall id :: id in before ==> id in after && after[id] == before[id])
    && (forall id :: id in after && id !in before ==> exists i :: 0 <= i < |cs| && cs[i].id == id)
  }

  /** The title is entered beside the others, with its CNMT and what that lists. */
  ghost predicate Entered(after: map<Key, set<Id>>, before: map<Key, set<Id>>, cnmt: Id, meta: Meta) {
    && meta.key in after && after == before[meta.key := after[meta.key]]
    && forall id :: id in after[meta.key] <==> id == cnmt || exists r :: r in meta.refs && r.0 == id
  }

  /**
    Builds a package from any contents with distinct ids, one of them the CNMT, and installs it on a
    console on which nothing fails: the title is there with its contents, byte for byte.
   */
  method BuildAndInstall(cs: seq<Content>, ghost k: nat, meta: Meta, before: Store) returns (after: Store)
    requires AllNamed(cs) && OneCnmt(cs, k) && P.Representable(Files(cs)) && Distinct(cs)
    requires Refers(meta, cs) && meta.key !in before.db
    requires Complete(before.db, before.contents) && before.saved == before.db && before.journal.None?
    ensures Stored(after.contents, before.contents, cs) && after.placeholders == before.placeholders
    ensures Entered(after.db, before.db, cs[k].id, meta) && after.saved == after.db && after.journal.None?
  {
    var image := P.BuildPfs0(Files(cs));
    BuiltInstalls(cs, k, meta, before);
    BuiltIsAccepted(cs, k);
    ghost var cnmt;
    after, cnmt := InstallCalmly(image, meta, before);
    StoredIs(after.contents, before.contents, image, N.StreamManifest(image, |image|).entries, cs);
    CnmtIs(N.StreamManifest(image, |image|).entries, cnmt, cs, N.DataStart(image), k);
  }

  /** A package that can be installed, on a console on which nothing fails. */
  method InstallCalmly(image: Bytes, meta: Meta, before: Store) returns (after: Store, ghost cnmt: N.Entry)
    requires Installable(image, |image|, Some(meta), before)
    requires Complete(before.db, before.contents) && before.saved == before.db && before.journal.None?
    ensures N.StreamAccepted(image, |image|)
    ensures var es := N.StreamManifest(image, |image|).entries;
            && AllInPlace(after.contents, before.contents, image, es)
            && (forall id :: id in before.contents ==> id in after.contents && after.contents[id] == before.contents[id])
            && (forall id :: id in after.contents && id !in before.contents ==> IsContentOf(es, id))
            && cnmt in es && cnmt.isCnmtNca && cnmt.contentId.Some?
    ensures after.placeholders == before.placeholders && after.journal.None? && after.saved == after.db
    ensures Entered(after.db, before.db, cnmt.contentId.value, meta)
  {
    var c := new Console(before, NoFaults, [], Base(map[], map[]));
    var src := new N.Source(image);
    var installer := new Installer(c, src);
    ghost var m;
    var installed;
    installed, m, cnmt := installer.InstallNspStream(|image|, Some(meta));
    after := c.s;
    HeldMeans(installer, m, cnmt, meta);
  }

  /** What an installed package is, on values. */
  lemma {:induction false} HeldMeans(installer: Installer, m: N.Manifest, cnmt: N.Entry, meta: Meta)
    requires installer.HoldsPackage(m.entries) && cnmt.contentId.Some? && installer.HoldsTitle(meta, cnmt)
    ensures var after, before := installer.c.s, installer.start;
            && AllInPlace(after.contents, before.contents, installer.src.data, m.entries)
            && (forall id :: id in before.contents ==> id in after.contents && after.contents[id] == before.contents[id])
            && (forall id :: id in after.contents && id !in before.contents ==> IsContentOf(m.entries, id))
            && after.placeholders == before.placeholders && after.saved == after.db
            && Entered(after.db, before.db, cnmt.contentId.value, meta)
  {
    TitleIdsAre(meta, cnmt);
  }

  lemma {:induction false} StoredIs(after: map<Id, Bytes>, before: map<Id, Bytes>, image: Bytes, es: seq<N.Entry>, cs: seq<Content>)
    requires P.Representable(Files(cs)) && image == P.Image(Files(cs)) && |image| >= N.HEADER
    requires Lists(es, cs, N.DataStart(image)) && AllInPlace(after, before, image, es)
    requires forall id :: id in before ==> id in after && after[id] == before[id]
    requires forall id :: id in after && id !in before ==> IsContentOf(es, id)
    ensures Stored(after, before, cs)
  {
    forall i | 0 <= i < |cs| ensures cs[i].id in after && (cs[i].id !in before ==> after[cs[i].id] == cs[i].data) {
      ListedFound(es, cs, i);
      assert es[i] in es && InPlace(after, before, image, es[i]);
    }
    forall id | id in after && id !in before ensures exists i :: 0 <= i < |cs| && cs[i].id == id {
      var e :| e in es && e.isNca && e.contentId == Some(id);
      var i :| 0 <= i < |es| && es[i] == e;
      ListedIs(es, cs, N.DataStart(image), i);
      assert cs[i].id == id;
    }
  }

  lemma {:induction false} CnmtIs(es: seq<N.Entry>, cnmt: N.Entry, cs: seq<Content>, from: nat, k: nat)
    requires Lists(es, cs, from) && OneCnmt(cs, k) && cnmt in es && cnmt.isCnmtNca
    ensures cnmt.contentId == Some(cs[k].id)
  {
    var i :| 0 <= i < |es| && es[i] == cnmt;
    ListedIs(es, cs, from, i);
  }
}
