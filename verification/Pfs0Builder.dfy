/** The PFS0 writer of the forwarder builder, and its round trip through the manifest readers. */
module Pfs0Builder {
  import opened Bytes
  import opened BufHelper
  import N = NspManifest
  import PackageReader

  datatype FileEntry = FileEntry(name: Bytes, data: Bytes)

  // ----- The image as a whole -----

  function Record(dataAt: nat, size: nat, nameAt: nat): (r: Bytes)
    ensures |r| == N.RECORD
  {
    Le(dataAt, 8) + Le(size, 8) + Le(nameAt, 4) + Le(0, 4)
  }

  /** The names of the first n entries, each with its terminator. */
  function NamesUpTo(es: seq<FileEntry>, n: nat): Bytes
    requires n <= |es|
  {
    if n == 0 then [] else NamesUpTo(es, n - 1) + (es[n - 1].name + [0])
  }

  function DataUpTo(es: seq<FileEntry>, n: nat): Bytes
    requires n <= |es|
  {
    if n == 0 then [] else DataUpTo(es, n - 1) + es[n - 1].data
  }

  /** Each record points to the end of what came before it. */
  function TableUpTo(es: seq<FileEntry>, n: nat): (t: Bytes)
    requires n <= |es|
    ensures |t| == N.RECORD * n
  {
    if n == 0 then []
    else TableUpTo(es, n - 1) + Record(|DataUpTo(es, n - 1)|, |es[n - 1].data|, |NamesUpTo(es, n - 1)|)
  }

  function Aligned(n: nat): (r: nat)
    ensures n <= r < n + 32 && r % 32 == 0
  {
    (n + 0x1F) / 0x20 * 0x20
  }

  function Strings(es: seq<FileEntry>): Bytes {
    var s := NamesUpTo(es, |es|);
    s + Zeros(Aligned(|s|) - |s|)
  }

  function Header(count: nat, stringSize: nat): (h: Bytes)
    ensures |h| == N.HEADER
  {
    N.PFS0 + Le(count, 4) + Le(stringSize, 4) + Le(0, 4)
  }

  function Image(es: seq<FileEntry>): Bytes {
    Header(|es|, |Strings(es)|) + TableUpTo(es, |es|) + Strings(es) + DataUpTo(es, |es|)
  }

  // ----- The builder -----

  /** The file table and the string table, entry by entry. */
  method BuildTables(es: seq<FileEntry>) returns (fileTable: Bytes, stringTable: Bytes)
    ensures fileTable == TableUpTo(es, |es|) && stringTable == Strings(es)
  {
    fileTable, stringTable := [], [];
    var stringOffset, dataOffset := 0, 0;
    for i := 0 to |es|
      invariant fileTable == TableUpTo(es, i)
      invariant stringTable == NamesUpTo(es, i) && stringOffset == |stringTable|
      invariant dataOffset == |DataUpTo(es, i)|
    {
      fileTable := fileTable + Record(dataOffset, |es[i].data|, stringOffset);
      stringTable := stringTable + (es[i].name + [0]);
      dataOffset := dataOffset + |es[i].data|;
      stringOffset := stringOffset + |es[i].name| + 1;
    }
    stringTable := stringTable + Zeros(Aligned(|stringTable|) - |stringTable|);
  }

  /** Writes the data of all entries at the end of the buffer. */
  method WriteData(buf: Buffer, es: seq<FileEntry>)
    requires buf.offset == |buf.buf|
    modifies buf
    ensures buf.offset == |buf.buf| && buf.buf == old(buf.buf) + DataUpTo(es, |es|)
  {
    for i := 0 to |es|
      invariant buf.offset == |buf.buf| && buf.buf == old(buf.buf) + DataUpTo(es, i)
    {
      assert old(buf.buf) + DataUpTo(es, i) + es[i].data == old(buf.buf) + DataUpTo(es, i + 1);
      buf.Write(es[i].data);
    }
  }

  method WriteImage(header: Bytes, fileTable: Bytes, stringTable: Bytes, es: seq<FileEntry>) returns (image: Bytes)
    ensures image == header + fileTable + stringTable + DataUpTo(es, |es|)
  {
    var buf := new Buffer();
    buf.Write(header);
    assert buf.buf == header;
    buf.Write(fileTable);
    buf.Write(stringTable);
    WriteData(buf, es);
    image := buf.buf;
  }

  /** The names with their terminators, and then zeros up to a multiple of 32; its size stands in the header. */
  ghost predicate StringTable(image: Bytes, es: seq<FileEntry>) {
    var from := 16 + 24 * |es|;
    var names := |NamesUpTo(es, |es|)|;
    exists size ::
      && size % 32 == 0 && names <= size < names + 32
      && |image| == from + size + |DataUpTo(es, |es|)| && image[8..12] == Le(size, 4)
      && forall k :: from + names <= k < from + size ==> image[k] == 0
  }

  lemma {:induction false} StringTableIs(es: seq<FileEntry>)
    ensures StringTable(Image(es), es)
  {
    var names := NamesUpTo(es, |es|);
    var size := |Strings(es)|;
    PaddedStrings(Header(|es|, size), TableUpTo(es, |es|), names, size - |names|, DataUpTo(es, |es|));
    assert Header(|es|, size)[8..12] == Le(size, 4);
    assert Image(es)[8..12] == Header(|es|, size)[8..12];
  }

  lemma {:induction false} PaddedStrings(header: Bytes, table: Bytes, names: Bytes, padding: nat, data: Bytes)
    ensures var image, from := header + table + (names + Zeros(padding)) + data, |header| + |table|;
            forall k :: from + |names| <= k < from + |names| + padding ==> image[k] == 0
  {
  }

  /** Record i: the offset and size of its data, the offset of its name, and four zeros. */
  predicate RecordStands(image: Bytes, es: seq<FileEntry>, i: nat)
    requires i < |es|
  {
    var at := 16 + 24 * i;
    && at + 24 <= |image|
    && image[at..at + 8] == Le(|DataUpTo(es, i)|, 8) && image[at + 8..at + 16] == Le(|es[i].data|, 8)
    && image[at + 16..at + 20] == Le(|NamesUpTo(es, i)|, 4) && image[at + 20..at + 24] == [0, 0, 0, 0]
  }

  lemma {:induction false} RecordsStand(es: seq<FileEntry>)
    ensures Image(es)[..4] == [0x50, 0x46, 0x53, 0x30] && Image(es)[4..8] == Le(|es|, 4)
    ensures Image(es)[12..16] == [0, 0, 0, 0]
    ensures forall i :: 0 <= i < |es| ==> RecordStands(Image(es), es, i)
  {
    var header := Header(|es|, |Strings(es)|);
    HeaderStands(|es|, |Strings(es)|);
    StartOfImage(Image(es), header, TableUpTo(es, |es|), Strings(es), DataUpTo(es, |es|));
    forall i | 0 <= i < |es| ensures RecordStands(Image(es), es, i) {
      TablePrefix(es, i + 1, |es|);
      RecordFrom(Image(es), header, es, i);
    }
  }

  lemma {:induction false} RecordFrom(image: Bytes, header: Bytes, es: seq<FileEntry>, i: nat)
    requires i < |es| && |header| == 16 && TableUpTo(es, i + 1) <= TableUpTo(es, |es|)
    requires header + TableUpTo(es, |es|) <= image
    ensures RecordStands(image, es, i)
  {
    PrefixOfSum(header, TableUpTo(es, i + 1), TableUpTo(es, |es|), image);
    Assoc(header, TableUpTo(es, i), Record(|DataUpTo(es, i)|, |es[i].data|, |NamesUpTo(es, i)|));
    RecordInside(image, header + TableUpTo(es, i), |DataUpTo(es, i)|, |es[i].data|, |NamesUpTo(es, i)|);
  }

  lemma {:induction false} StartOfImage(image: Bytes, header: Bytes, table: Bytes, strings: Bytes, data: Bytes)
    requires image == header + table + strings + data && |header| == 16
    ensures header + table <= image
    ensures image[..4] == header[..4] && image[4..8] == header[4..8] && image[12..16] == header[12..16]
  {
  }

  lemma {:induction false} PrefixOfSum(header: Bytes, part: Bytes, table: Bytes, image: Bytes)
    requires part <= table && header + table <= image
    ensures header + part <= image
  {
  }

  lemma {:induction false} HeaderStands(count: nat, stringSize: nat)
    ensures var h := Header(count, stringSize);
            h[..4] == [0x50, 0x46, 0x53, 0x30] && h[4..8] == Le(count, 4) && h[12..16] == [0, 0, 0, 0]
  {
    FourZeros();
  }

  lemma {:induction false} FourZeros()
    ensures Le(0, 4) == [0, 0, 0, 0]
  {
    assert Le(0, 4) == [0] + Le(0, 3) && Le(0, 3) == [0] + Le(0, 2) && Le(0, 2) == [0] + Le(0, 1) && Le(0, 1) == [0] + Le(0, 0);
  }

  lemma {:induction false} RecordInside(image: Bytes, before: Bytes, dataAt: nat, size: nat, nameAt: nat)
    requires before + Record(dataAt, size, nameAt) <= image
    ensures var at := |before|;
            && image[at..at + 8] == Le(dataAt, 8) && image[at + 8..at + 16] == Le(size, 8)
            && image[at + 16..at + 20] == Le(nameAt, 4) && image[at + 20..at + 24] == [0, 0, 0, 0]
  {
    FourZeros();
    FourPieces(image, before, Le(dataAt, 8), Le(size, 8), Le(nameAt, 4), Le(0, 4));
  }

  lemma {:induction false} FourPieces(image: Bytes, before: Bytes, a: Bytes, b: Bytes, c: Bytes, d: Bytes)
    requires |a| == |b| == 8 && |c| == |d| == 4 && before + (a + b + c + d) <= image
    ensures var at := |before|;
            && image[at..at + 8] == a && image[at + 8..at + 16] == b
            && image[at + 16..at + 20] == c && image[at + 20..at + 24] == d
  {
    var r, at := a + b + c + d, |before|;
    LastSlice(image, before, r);
    SliceOfSlice(image, at, at + 24, 0, 8);
    SliceOfSlice(image, at, at + 24, 8, 16);
    SliceOfSlice(image, at, at + 24, 16, 20);
    SliceOfSlice(image, at, at + 24, 20, 24);
    assert r[0..8] == a && r[8..16] == b && r[16..20] == c && r[20..24] == d;
  }

  method BuildPfs0(es: seq<FileEntry>) returns (image: Bytes)
    ensures image == Image(es)
    ensures image[..4] == [0x50, 0x46, 0x53, 0x30] && image[4..8] == Le(|es|, 4) && image[12..16] == [0, 0, 0, 0]
    ensures StringTable(image, es) && forall i :: 0 <= i < |es| ==> RecordStands(image, es, i)
  {
    StringTableIs(es);
    RecordsStand(es);
    var fileTable, stringTable := BuildTables(es);
    image := WriteImage(Header(|es|, |stringTable|), fileTable, stringTable, es);
  }

  // ----- Round trip -----

  lemma {:induction false} NamesPrefix(es: seq<FileEntry>, n: nat, m: nat)
    requires n <= m <= |es|
    ensures NamesUpTo(es, n) <= NamesUpTo(es, m)
  {
    if n < m {
      NamesPrefix(es, n, m - 1);
    }
  }

  lemma {:induction false} DataPrefix(es: seq<FileEntry>, n: nat, m: nat)
    requires n <= m <= |es|
    ensures DataUpTo(es, n) <= DataUpTo(es, m)
  {
    if n < m {
      DataPrefix(es, n, m - 1);
    }
  }

  lemma {:induction false} TablePrefix(es: seq<FileEntry>, n: nat, m: nat)
    requires n <= m <= |es|
    ensures TableUpTo(es, n) <= TableUpTo(es, m)
  {
    if n < m {
      TablePrefix(es, n, m - 1);
    }
  }

  lemma {:induction false} RecordRoundTrip(dataAt: nat, size: nat, nameAt: nat)
    requires dataAt < U64_LIMIT && size < U64_LIMIT && nameAt < U32_LIMIT
    ensures var r := Record(dataAt, size, nameAt);
            FromLe(r[0..8]) == dataAt && FromLe(r[8..16]) == size && FromLe(r[16..20]) == nameAt
  {
    var r := Record(dataAt, size, nameAt);
    assert r[0..8] == Le(dataAt, 8) && r[8..16] == Le(size, 8) && r[16..20] == Le(nameAt, 4);
    WordSizes();
    LeRoundTrip(dataAt, 8);
    LeRoundTrip(size, 8);
    LeRoundTrip(nameAt, 4);
  }

  /** Record i of the table, field by field. */
  lemma {:induction false} RecordRead(es: seq<FileEntry>, i: nat)
    requires i < |es|
    requires |DataUpTo(es, i)| < U64_LIMIT && |es[i].data| < U64_LIMIT && |NamesUpTo(es, i)| < U32_LIMIT
    ensures N.RecordAt(TableUpTo(es, |es|), i) == N.Raw(|DataUpTo(es, i)|, |es[i].data|, |NamesUpTo(es, i)|)
  {
    TablePrefix(es, i + 1, |es|);
    RecordAfter(TableUpTo(es, |es|), TableUpTo(es, i), |DataUpTo(es, i)|, |es[i].data|, |NamesUpTo(es, i)|, i);
  }

  /** A table that goes on with a record after i others has it as its record i. */
  lemma {:induction false} RecordAfter(raw: Bytes, start: Bytes, dataAt: nat, size: nat, nameAt: nat, i: nat)
    requires |start| == N.RECORD * i && start + Record(dataAt, size, nameAt) <= raw
    requires dataAt < U64_LIMIT && size < U64_LIMIT && nameAt < U32_LIMIT
    ensures N.RecordAt(raw, i) == N.Raw(dataAt, size, nameAt)
  {
    LastSlice(raw, start, Record(dataAt, size, nameAt));
    RecordRoundTrip(dataAt, size, nameAt);
    RecordAtIs(raw, i, Record(dataAt, size, nameAt));
  }

  /** What was appended to a beginning of the whole is a slice of it. */
  lemma {:induction false} LastSlice(whole: Bytes, start: Bytes, r: Bytes)
    requires start + r <= whole
    ensures whole[|start|..|start| + |r|] == r
  {
    assert whole[..|start| + |r|] == start + r;
    assert whole[|start|..|start| + |r|] == whole[..|start| + |r|][|start|..];
  }

  lemma {:induction false} RecordAtIs(raw: Bytes, i: nat, r: Bytes)
    requires N.RECORD * i + N.RECORD <= |raw| && raw[N.RECORD * i..N.RECORD * i + N.RECORD] == r
    ensures N.RecordAt(raw, i) == N.Raw(FromLe(r[0..8]), FromLe(r[8..16]), FromLe(r[16..20]))
  {
    var at := N.RECORD * i;
    SliceOfSlice(raw, at, at + N.RECORD, 0, 8);
    SliceOfSlice(raw, at, at + N.RECORD, 8, 16);
    SliceOfSlice(raw, at, at + N.RECORD, 16, 20);
    assert raw[at..at + 8] == r[0..8] && raw[at + 8..at + 16] == r[8..16] && raw[at + 16..at + 20] == r[16..20];
  }

  /** The entries the format can hold and the readers take. */
  predicate Representable(es: seq<FileEntry>) {
    && 0 < |es| <= N.MAX_FILES
    && |Strings(es)| <= N.MAX_STRINGS
    && |Image(es)| < U64_LIMIT
    && forall i :: 0 <= i < |es| ==> 0 !in es[i].name
  }

  lemma HeaderRoundTrip(count: nat, stringSize: nat)
    requires count < U32_LIMIT && stringSize < U32_LIMIT
    ensures var h := Header(count, stringSize);
            h[..4] == N.PFS0 && FromLe(h[4..8]) == count && FromLe(h[8..12]) == stringSize
  {
    var h := Header(count, stringSize);
    assert h[..4] == N.PFS0 && h[4..8] == Le(count, 4) && h[8..12] == Le(stringSize, 4);
    WordSizes();
    LeRoundTrip(count, 4);
    LeRoundTrip(stringSize, 4);
  }

  /** A header followed by the sections it announces. */
  lemma Sections(h: Bytes, table: Bytes, strings: Bytes, data: Bytes, count: nat)
    requires |h| == N.HEADER && h[..4] == N.PFS0
    requires FromLe(h[4..8]) == count && FromLe(h[8..12]) == |strings|
    requires 0 < count <= N.MAX_FILES && |strings| <= N.MAX_STRINGS && |table| == N.RECORD * count
    ensures var p := h + table + strings + data;
            && N.HeaderOk(p) && N.FileCount(p) == count && N.StringSize(p) == |strings|
            && p[N.HEADER..N.StringStart(p)] == table
            && p[N.StringStart(p)..N.DataStart(p)] == strings
            && p[N.DataStart(p)..] == data
  {
    var p := h + table + strings + data;
    assert p[..N.HEADER] == h;
    N.HeaderFields(p, h);
  }

  /** The package consists of a good header and the tables and data of the given entries. */
  predicate SectionsAre(p: Bytes, es: seq<FileEntry>) {
    && N.HeaderOk(p) && N.FileCount(p) == |es|
    && p[N.HEADER..N.StringStart(p)] == TableUpTo(es, |es|)
    && p[N.StringStart(p)..N.DataStart(p)] == Strings(es)
    && p[N.DataStart(p)..] == DataUpTo(es, |es|)
  }

  lemma ImageSections(es: seq<FileEntry>)
    requires Representable(es)
    ensures SectionsAre(Image(es), es)
  {
    var strings := Strings(es);
    HeaderRoundTrip(|es|, |strings|);
    Sections(Header(|es|, |strings|), TableUpTo(es, |es|), strings, DataUpTo(es, |es|), |es|);
  }

  /** The name of entry i, read from its place in the string table. */
  lemma NameRead(es: seq<FileEntry>, i: nat)
    requires i < |es| && 0 !in es[i].name
    ensures |NamesUpTo(es, i)| < |Strings(es)|
    ensures 0 in Strings(es)[|NamesUpTo(es, i)|..]
    ensures N.CString(Strings(es)[|NamesUpTo(es, i)|..]) == es[i].name
  {
    NamesPrefix(es, i + 1, |es|);
    NameInside(Strings(es), NamesUpTo(es, i), es[i].name);
  }

  /** A name with its terminator, somewhere in a text. */
  lemma NameInside(s: Bytes, a: Bytes, name: Bytes)
    requires a + (name + [0]) <= s && 0 !in name
    ensures |a| < |s| && 0 in s[|a|..] && N.CString(s[|a|..]) == name
  {
    var rest, k := s[|a|..], |name|;
    assert s[..|a| + k + 1][|a|..] == name + [0];
    assert rest[..k + 1] == name + [0];
    assert rest[k] == rest[..k + 1][k] == 0;
    assert rest[..k] == rest[..k + 1][..k] == name;
    N.CStringIs(rest, k);
  }

  /** The data of entry i, at its place after the tables. */
  lemma DataRead(es: seq<FileEntry>, i: nat)
    requires i < |es|
    ensures |DataUpTo(es, i)| + |es[i].data| <= |DataUpTo(es, |es|)|
    ensures DataUpTo(es, |es|)[|DataUpTo(es, i)|..|DataUpTo(es, i)| + |es[i].data|] == es[i].data
  {
    DataPrefix(es, i + 1, |es|);
    assert DataUpTo(es, i + 1)[|DataUpTo(es, i)|..] == es[i].data;
  }

  /** An entry whose record, name and data are in place. */
  lemma EntryInPlace(p: Bytes, i: nat, dataAt: nat, nameAt: nat, name: Bytes, data: Bytes)
    requires N.HeaderOk(p) && i < N.FileCount(p)
    requires N.RecordAt(p[N.HEADER..N.StringStart(p)], i) == N.Raw(dataAt, |data|, nameAt)
    requires var strings := p[N.StringStart(p)..N.DataStart(p)];
             nameAt < |strings| && 0 in strings[nameAt..] && N.CString(strings[nameAt..]) == name
    requires var room := p[N.DataStart(p)..];
             dataAt + |data| <= |room| && room[dataAt..dataAt + |data|] == data
    ensures Reads(p, i, FileEntry(name, data))
  {
    var t, start := N.TablesOf(p), N.DataStart(p);
    assert t.records[i] == N.Raw(dataAt, |data|, nameAt) && t.dataStart == start;
    assert p[start + dataAt..start + dataAt + |data|] == data by {
      assert p[start..|p|] == p[start..];
      SliceOfSlice(p, start, |p|, dataAt, dataAt + |data|);
    }
  }

  /** Entry i of the package passes the bounds checks and is the given file. */
  predicate Reads(p: Bytes, i: nat, e: FileEntry)
    requires N.HeaderOk(p) && i < N.FileCount(p)
  {
    var t := N.TablesOf(p);
    var at := t.dataStart + t.records[i].offset;
    && t.NameOk(i) && t.DataOk(|p|, i)
    && t.NameAt(i) == e.name
    && p[at..at + t.records[i].size] == e.data
  }

  /** So the manifest entry the parsers build for it names that file and its slice. */
  lemma ReadsMeansEntry(p: Bytes, i: nat, e: FileEntry)
    requires N.HeaderOk(p) && i < N.FileCount(p) && Reads(p, i, e)
    ensures var x := N.TablesOf(p).EntryAt(i);
            x.name == e.name && x.size == |e.data| && p[x.offset..x.offset + x.size] == e.data
  {
  }

  lemma EntryRoundTrip(p: Bytes, es: seq<FileEntry>, i: nat)
    requires SectionsAre(p, es) && |p| < U64_LIMIT && i < |es| && 0 !in es[i].name
    ensures Reads(p, i, es[i])
  {
    NameRead(es, i);
    DataRead(es, i);
    assert |Strings(es)| == N.StringSize(p) <= N.MAX_STRINGS && |DataUpTo(es, |es|)| <= |p|;
    RecordRead(es, i);
    EntryInPlace(p, i, |DataUpTo(es, i)|, |NamesUpTo(es, i)|, es[i].name, es[i].data);
  }

  lemma AllRoundTrip(p: Bytes, es: seq<FileEntry>)
    requires SectionsAre(p, es) && |p| < U64_LIMIT
    requires forall i :: 0 <= i < |es| ==> 0 !in es[i].name
    ensures N.TablesOk(p) && forall i :: 0 <= i < |es| ==> Reads(p, i, es[i])
  {
    forall i | 0 <= i < |es|
      ensures Reads(p, i, es[i]) && N.TablesOf(p).NameOk(i) && N.TablesOf(p).DataOk(|p|, i)
    {
      EntryRoundTrip(p, es, i);
    }
    N.TablesOf(p).DataEach(|p|, |es|);
  }

  /**
    Everything `buildPfs0` writes is read back: all bounds checks pass, and entry i has the i-th name
    and a slice of the image equal to the i-th file.
   */
  lemma RoundTrip(es: seq<FileEntry>)
    requires Representable(es)
    ensures N.TablesOk(Image(es)) && N.FileCount(Image(es)) == |es|
    ensures forall i :: 0 <= i < |es| ==> Reads(Image(es), i, es[i])
  {
    ImageSections(es);
    AllRoundTrip(Image(es), es);
  }

  // ----- Through the readers -----

  /** A manifest entry that names a file and its slice of the package. */
  predicate Finds(p: Bytes, x: N.Entry, e: FileEntry) {
    x.name == e.name && x.size == |e.data| && x.offset + x.size <= |p| && p[x.offset..x.offset + x.size] == e.data
  }

  /** The entries of the tables name the files in order. */
  lemma EntryFinds(p: Bytes, i: nat, e: FileEntry)
    requires N.TablesOk(p) && i < N.FileCount(p) && Reads(p, i, e)
    ensures Finds(p, N.TablesOf(p).Entries(N.FileCount(p))[i], e)
  {
    N.EntriesAt(N.TablesOf(p), N.FileCount(p), i);
    ReadsMeansEntry(p, i, e);
  }

  lemma AllFound(p: Bytes, es: seq<FileEntry>)
    requires N.TablesOk(p) && 0 < |p| < U64_LIMIT && N.FileCount(p) == |es|
    requires forall i :: 0 <= i < |es| ==> Reads(p, i, es[i])
    ensures N.StreamDataUpTo(N.TablesOf(p), |p|, |es|)
    ensures forall i :: 0 <= i < |es| ==> Finds(p, N.TablesOf(p).Entries(|es|)[i], es[i])
  {
    N.SameBounds(N.TablesOf(p), |p|);
    forall i | 0 <= i < |es| ensures Finds(p, N.TablesOf(p).Entries(|es|)[i], es[i]) {
      EntryFinds(p, i, es[i]);
    }
  }

  /** Builds an image and reads it with both parsers: each finds every file, in order. */
  method BuildAndRead(es: seq<FileEntry>) returns (image: Bytes, random: N.Manifest, stream: N.Manifest)
    requires Representable(es)
    ensures random.Ok() && |random.entries| == |es|
    ensures forall i :: 0 <= i < |es| ==> Finds(image, random.entries[i], es[i])
    ensures stream.Ok() && stream == random
  {
    image := BuildPfs0(es);
    RoundTrip(es);
    AllFound(image, es);
    random := InspectImage(image);
    stream := StreamImage(image);
  }

  method InspectImage(image: Bytes) returns (m: N.Manifest)
    requires N.HeaderOk(image) && |image| < U64_LIMIT
    ensures var t := N.TablesOf(image);
            && (m.Ok() <==> t.NamesOk() && t.DataUpTo(|image|, |t.records|))
            && (m.Ok() ==> m == N.Tally(|image|, t.Entries(|t.records|)))
  {
    var file := new PackageReader.Reader([image]);
    assert Concat([image]) == image;
    var _ := file.Open();
    var _, t := N.ReadTables(file);
    m := N.InspectEntries(t, |image|);
  }

  method StreamImage(image: Bytes) returns (m: N.Manifest)
    requires N.HeaderOk(image)
    ensures var t := N.TablesOf(image);
            && (m.Ok() <==> t.NamesOk() && N.StreamDataUpTo(t, |image|, |t.records|))
            && (m.Ok() ==> m == N.Tally(|image|, t.Entries(|t.records|)))
  {
    var src := new N.Source(image);
    var _, t := N.StreamTables(src);
    var minimum;
    m, minimum := N.StreamEntries(t, |image|);
  }
}
