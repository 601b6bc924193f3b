/**
  The manifest of an NSP package (a PFS0 archive): one reference definition over the bytes of the
  package, and the two parsers of the source, each proved against it.
 */
module NspManifest {
  import opened Bytes
  import PackageReader

  const HEADER := 16
  const RECORD := 24
  const MAX_FILES := 0x10000
  const MAX_STRINGS := 32 * 1024 * 1024
  const PFS0: Bytes := [0x50, 0x46, 0x53, 0x30]
  const DOT_NCA: Bytes := [0x2E, 0x6E, 0x63, 0x61]
  const DOT_CNMT_NCA: Bytes := [0x2E, 0x63, 0x6E, 0x6D, 0x74, 0x2E, 0x6E, 0x63, 0x61]
  const DOT_TIK: Bytes := [0x2E, 0x74, 0x69, 0x6B]
  const DOT_CERT: Bytes := [0x2E, 0x63, 0x65, 0x72, 0x74]

  datatype Entry = Entry(name: Bytes, offset: nat, size: nat, isNca: bool, isCnmtNca: bool,
                         isTicket: bool, isCert: bool, contentId: Option<Bytes>)

  datatype Error = NoError | PackageTruncated | InvalidPfs0 | MissingContent | UnsupportedFormat | InvalidNca

  datatype Manifest = Manifest(error: Error, packageSize: nat, totalNcaBytes: nat, ncaCount: nat,
                               cnmtNcaCount: nat, ticketCount: nat, certCount: nat, entries: seq<Entry>) {
    predicate Ok() { error.NoError? }
  }

  const Empty := Manifest(NoError, 0, 0, 0, 0, 0, 0, [])

  // ----- Names -----

  function Lower(b: byte): byte { if 0x41 <= b <= 0x5A then b + 0x20 else b }

  predicate EndsWithCi(value: Bytes, suffix: Bytes) {
    |value| >= |suffix| &&
    forall i :: 0 <= i < |suffix| ==> Lower(value[|value| - |suffix| + i]) == Lower(suffix[i])
  }

  function Nibble(b: byte): Option<nat> {
    if 0x30 <= b <= 0x39 then Some(b - 0x30)
    else if 0x61 <= b <= 0x66 then Some(b - 0x61 + 10)
    else if 0x41 <= b <= 0x46 then Some(b - 0x41 + 10)
    else None
  }

  function HexBytes(s: Bytes): (r: Option<Bytes>)
    ensures r.Some? ==> 2 * |r.value| == |s|
  {
    if s == [] then Some([])
    else if |s| == 1 || Nibble(s[0]).None? || Nibble(s[1]).None? then None
    else match HexBytes(s[2..])
         case None => None
         case Some(rest) => Some([(16 * Nibble(s[0]).value + Nibble(s[1]).value) as byte] + rest)
  }

  /** <32 hex digits>.nca or <32 hex digits>.cnmt.nca; the first dot is at 32. */
  function ContentId(name: Bytes): Option<Bytes> {
    if |name| > 32 && name[32] == 0x2E && 0x2E !in name[..32] then HexBytes(name[..32]) else None
  }

  /** The text up to the first NUL. */
  function CString(s: Bytes): (r: Bytes)
    ensures r <= s && 0 !in r
  {
    if s == [] || s[0] == 0 then [] else [s[0]] + CString(s[1..])
  }

  function MakeEntry(name: Bytes, offset: nat, size: nat): Entry {
    var cnmt := EndsWithCi(name, DOT_CNMT_NCA);
    var nca := cnmt || EndsWithCi(name, DOT_NCA);
    Entry(name, offset, size, nca, cnmt, EndsWithCi(name, DOT_TIK), EndsWithCi(name, DOT_CERT),
          if nca then ContentId(name) else None)
  }

  // ----- Names, letter by letter -----

  /** The letter c, in either case if c is a lower-case one. */
  predicate IsLetter(b: byte, c: char) {
    b == c as int || ('a' <= c <= 'z' && b + 32 == c as int)
  }

  /** The name ends in this lower-case text, in letters of either case. */
  predicate Ends(name: Bytes, suffix: string) {
    |name| >= |suffix| && forall k :: 0 <= k < |suffix| ==> IsLetter(name[|name| - |suffix| + k], suffix[k])
  }

  /** A hexadecimal digit of this value, in either case. */
  predicate IsDigit(b: byte, value: nat)
    requires value < 16
  {
    b == "0123456789abcdef"[value] as int || b == "0123456789ABCDEF"[value] as int
  }

  /** The digits of these bytes, the high one of each first. */
  predicate IsHexOf(text: Bytes, bytes: Bytes) {
    && |text| == 2 * |bytes|
    && forall k :: 0 <= k < |bytes| ==> IsDigit(text[2 * k], bytes[k] / 16) && IsDigit(text[2 * k + 1], bytes[k] % 16)
  }

  /** What the entries of a manifest say follows from their names. */
  ghost predicate ReadRight(e: Entry) {
    && (e.isNca <==> Ends(e.name, ".nca")) && (e.isCnmtNca <==> Ends(e.name, ".cnmt.nca"))
    && (e.isTicket <==> Ends(e.name, ".tik")) && (e.isCert <==> Ends(e.name, ".cert"))
    && forall id :: e.contentId == Some(id) <==>
         e.isNca && |e.name| > 32 && e.name[32] == '.' as int && |id| == 16 && IsHexOf(e.name[..32], id)
  }

  lemma {:induction false} LowerIsLetter(b: byte, c: char)
    requires c == '.' || 'a' <= c <= 'z'
    ensures Lower(b) == Lower(c as int) <==> IsLetter(b, c)
  {
  }

  lemma {:induction false} EndsIs(name: Bytes, suffix: Bytes, text: string)
    requires |suffix| == |text|
    requires forall k :: 0 <= k < |text| ==> suffix[k] == text[k] as int && (text[k] == '.' || 'a' <= text[k] <= 'z')
    ensures EndsWithCi(name, suffix) <==> Ends(name, text)
  {
    if |name| >= |suffix| {
      forall k | 0 <= k < |text|
        ensures Lower(name[|name| - |suffix| + k]) == Lower(suffix[k]) <==> IsLetter(name[|name| - |text| + k], text[k])
      {
        LowerIsLetter(name[|name| - |suffix| + k], text[k]);
      }
    }
  }

  lemma {:induction false} NibbleIsDigit(b: byte, value: nat)
    requires value < 16
    ensures Nibble(b) == Some(value) <==> IsDigit(b, value)
  {
    assert "0123456789abcdef"[value] as int == if value < 10 then 0x30 + value else 0x57 + value;
    assert "0123456789ABCDEF"[value] as int == if value < 10 then 0x30 + value else 0x37 + value;
  }

  /** The parsed bytes are those whose digits the text shows, and there are such bytes or there are none. */
  lemma {:induction false} HexIs(text: Bytes, bytes: Bytes)
    ensures HexBytes(text) == Some(bytes) <==> IsHexOf(text, bytes)
    decreases |text|
  {
    if |text| >= 2 && bytes != [] {
      HexIs(text[2..], bytes[1..]);
      HexFirst(text, bytes);
    }
  }

  lemma {:induction false} HexFirst(text: Bytes, bytes: Bytes)
    requires |text| >= 2 && bytes != []
    requires HexBytes(text[2..]) == Some(bytes[1..]) <==> IsHexOf(text[2..], bytes[1..])
    ensures HexBytes(text) == Some(bytes) <==> IsHexOf(text, bytes)
  {
    NibbleIsDigit(text[0], bytes[0] / 16);
    NibbleIsDigit(text[1], bytes[0] % 16);
    HexTail(text, bytes);
    HexHead(text, bytes);
  }

  lemma {:induction false} HexHead(text: Bytes, bytes: Bytes)
    requires |text| >= 2 && bytes != []
    ensures HexBytes(text) == Some(bytes) <==>
              && Nibble(text[0]) == Some(bytes[0] / 16) && Nibble(text[1]) == Some(bytes[0] % 16)
              && HexBytes(text[2..]) == Some(bytes[1..])
  {
    var rest := HexBytes(text[2..]);
    if Nibble(text[0]).Some? && Nibble(text[1]).Some? && rest.Some? {
      var h, l := Nibble(text[0]).value, Nibble(text[1]).value;
      assert HexBytes(text) == Some([(16 * h + l) as byte] + rest.value);
      ByteOfNibbles(h, l, bytes[0]);
      ConsIs((16 * h + l) as byte, rest.value, bytes);
    }
  }

  lemma {:induction false} ByteOfNibbles(h: nat, l: nat, b: byte)
    requires h < 16 && l < 16
    ensures 16 * h + l == b <==> h == b / 16 && l == b % 16
  {
  }

  lemma {:induction false} ConsIs(b: byte, rest: Bytes, bytes: Bytes)
    requires bytes != []
    ensures [b] + rest == bytes <==> b == bytes[0] && rest == bytes[1..]
  {
    assert bytes == [bytes[0]] + bytes[1..];
    assert ([b] + rest)[1..] == rest;
  }

  lemma {:induction false} HexTail(text: Bytes, bytes: Bytes)
    requires |text| >= 2 && bytes != []
    ensures IsHexOf(text, bytes) <==>
              IsDigit(text[0], bytes[0] / 16) && IsDigit(text[1], bytes[0] % 16) && IsHexOf(text[2..], bytes[1..])
  {
    var rest, others := text[2..], bytes[1..];
    if IsHexOf(text, bytes) {
      forall k | 0 <= k < |others| ensures IsDigit(rest[2 * k], others[k] / 16) && IsDigit(rest[2 * k + 1], others[k] % 16) {
        assert IsDigit(text[2 * (k + 1)], bytes[k + 1] / 16);
      }
    }
    if IsDigit(text[0], bytes[0] / 16) && IsDigit(text[1], bytes[0] % 16) && IsHexOf(rest, others) {
      forall k | 0 <= k < |bytes| ensures IsDigit(text[2 * k], bytes[k] / 16) && IsDigit(text[2 * k + 1], bytes[k] % 16) {
        if k > 0 {
          assert IsDigit(rest[2 * (k - 1)], others[k - 1] / 16);
        }
      }
    }
  }

  lemma {:induction false} ContentIdIs(name: Bytes, id: Bytes)
    ensures ContentId(name) == Some(id) <==>
              |name| > 32 && name[32] == '.' as int && |id| == 16 && IsHexOf(name[..32], id)
  {
    if |name| > 32 {
      HexIs(name[..32], id);
      if IsHexOf(name[..32], id) && |id| == 16 {
        NoDot(name[..32], id);
      }
    }
  }

  lemma {:induction false} NoDot(text: Bytes, id: Bytes)
    requires IsHexOf(text, id)
    ensures 0x2E !in text
  {
    forall i | 0 <= i < |text| ensures text[i] != 0x2E {
      assert IsDigit(text[2 * (i / 2)], id[i / 2] / 16) && IsDigit(text[2 * (i / 2) + 1], id[i / 2] % 16);
    }
  }

  /** Every entry the parsers make is read right. */
  lemma {:induction false} EntryReadRight(name: Bytes, offset: nat, size: nat)
    ensures ReadRight(MakeEntry(name, offset, size))
  {
    var e := MakeEntry(name, offset, size);
    EndsIs(name, DOT_NCA, ".nca");
    EndsIs(name, DOT_CNMT_NCA, ".cnmt.nca");
    EndsIs(name, DOT_TIK, ".tik");
    EndsIs(name, DOT_CERT, ".cert");
    CnmtIsNca(name);
    forall id ensures e.contentId == Some(id) <==>
        e.isNca && |name| > 32 && name[32] == '.' as int && |id| == 16 && IsHexOf(name[..32], id)
    {
      ContentIdIs(name, id);
    }
  }

  lemma {:induction false} CnmtIsNca(name: Bytes)
    ensures Ends(name, ".cnmt.nca") ==> Ends(name, ".nca")
  {
    var n := |name|;
    if Ends(name, ".cnmt.nca") {
      forall k | 0 <= k < 4 ensures IsLetter(name[n - 4 + k], ".nca"[k]) {
        assert ".cnmt.nca"[k + 5] == ".nca"[k] && IsLetter(name[n - 9 + (k + 5)], ".cnmt.nca"[k + 5]);
      }
    }
  }

  // ----- The reference definition, over the bytes of the package -----

  function U32(p: Bytes, at: nat): nat
    requires at + 4 <= |p|
  {
    FromLe(p[at..at + 4])
  }

  function FileCount(p: Bytes): nat requires |p| >= HEADER { U32(p, 4) }

  function StringSize(p: Bytes): nat requires |p| >= HEADER { U32(p, 8) }

  function StringStart(p: Bytes): nat requires |p| >= HEADER { HEADER + RECORD * FileCount(p) }

  function DataStart(p: Bytes): nat requires |p| >= HEADER { StringStart(p) + StringSize(p) }

  predicate HeaderOk(p: Bytes) {
    && |p| >= HEADER && p[..4] == PFS0
    && 0 < FileCount(p) <= 65536 && StringSize(p) <= 33554432
    && DataStart(p) <= |p|
  }

  datatype Raw = Raw(offset: nat, size: nat, nameAt: nat)

  function RecordAt(raw: Bytes, i: nat): Raw
    requires RECORD * i + RECORD <= |raw|
  {
    Raw(FromLe(raw[RECORD * i..RECORD * i + 8]), FromLe(raw[RECORD * i + 8..RECORD * i + 16]),
        FromLe(raw[RECORD * i + 16..RECORD * i + 20]))
  }

  /** A record table, read as the array of structs it is. */
  function RecordsOf(raw: Bytes, count: nat): (rs: seq<Raw>)
    requires RECORD * count <= |raw|
    ensures |rs| == count && forall i :: 0 <= i < count ==> rs[i] == RecordAt(raw, i)
  {
    if count == 0 then [] else RecordsOf(raw, count - 1) + [RecordAt(raw, count - 1)]
  }

  /** The tables between the header and the data. */
  datatype Tables = Tables(records: seq<Raw>, strings: Bytes, dataStart: nat) {
    /** The name of entry i ends inside the string table. */
    predicate NameOk(i: nat)
      requires i < |records|
    {
      records[i].nameAt < |strings| && 0 in strings[records[i].nameAt..]
    }

    /** The data of entry i ends inside a package of the given size. */
    predicate DataOk(packageSize: nat, i: nat)
      requires i < |records|
    {
      dataStart + records[i].offset + records[i].size <= packageSize
    }

    /** The first n entries end inside it. */
    predicate DataUpTo(packageSize: nat, n: nat)
      requires n <= |records|
    {
      n == 0 || (DataUpTo(packageSize, n - 1) && DataOk(packageSize, n - 1))
    }

    lemma {:induction false} DataEach(packageSize: nat, n: nat)
      requires n <= |records|
      ensures DataUpTo(packageSize, n) <==> forall i :: 0 <= i < n ==> DataOk(packageSize, i)
    {
      if n > 0 {
        DataEach(packageSize, n - 1);
      }
    }

    function NameAt(i: nat): Bytes
      requires i < |records| && NameOk(i)
    {
      CString(strings[records[i].nameAt..])
    }

    function EntryAt(i: nat): Entry
      requires i < |records| && NameOk(i)
    {
      MakeEntry(NameAt(i), dataStart + records[i].offset, records[i].size)
    }

    predicate NamesOk() { forall i :: 0 <= i < |records| ==> NameOk(i) }

    /** The first n entries. */
    function Entries(n: nat): (es: seq<Entry>)
      requires n <= |records| && forall i :: 0 <= i < n ==> NameOk(i)
      ensures |es| == n
    {
      if n == 0 then [] else Entries(n - 1) + [EntryAt(n - 1)]
    }

    /** The fields fit their 64 and 32 bits. */
    ghost predicate Bounded() {
      dataStart < U64_LIMIT && forall i :: 0 <= i < |records| ==> records[i].offset < U64_LIMIT && records[i].size < U64_LIMIT
    }
  }

  function TablesOf(p: Bytes): Tables
    requires HeaderOk(p)
  {
    Tables(RecordsOf(p[HEADER..StringStart(p)], FileCount(p)), p[StringStart(p)..DataStart(p)], DataStart(p))
  }

  /** Every name and every slice of the package is in range. */
  predicate TablesOk(p: Bytes) {
    HeaderOk(p) && var t := TablesOf(p);
    t.NamesOk() && t.DataUpTo(|p|, |t.records|)
  }

  /** Addition of two 64-bit numbers. */
  function WrapAdd(a: nat, b: nat): nat {
    if a + b < U64_LIMIT then a + b else a + b - U64_LIMIT
  }

  function AddEntry(m: Manifest, e: Entry): Manifest {
    m.(entries := m.entries + [e],
       ncaCount := m.ncaCount + (if e.isNca then 1 else 0),
       totalNcaBytes := if e.isNca then WrapAdd(m.totalNcaBytes, e.size) else m.totalNcaBytes,
       cnmtNcaCount := m.cnmtNcaCount + (if e.isCnmtNca then 1 else 0),
       ticketCount := m.ticketCount + (if e.isTicket then 1 else 0),
       certCount := m.certCount + (if e.isCert then 1 else 0))
  }

  /** What the manifest says about a list of entries. */
  function Tally(packageSize: nat, es: seq<Entry>): (m: Manifest)
    ensures m.entries == es && m.packageSize == packageSize && m.error.NoError?
  {
    if es == [] then Empty.(packageSize := packageSize)
    else
      assert es == es[..|es| - 1] + [es[|es| - 1]];
      AddEntry(Tally(packageSize, es[..|es| - 1]), es[|es| - 1])
  }

  function ManifestOf(p: Bytes, packageSize: nat): Manifest
    requires HeaderOk(p) && TablesOf(p).NamesOk()
  {
    Tally(packageSize, TablesOf(p).Entries(FileCount(p)))
  }

  /** Every NCA is named after its content id. */
  predicate NamesOk(es: seq<Entry>) {
    forall i :: 0 <= i < |es| && es[i].isNca ==> es[i].contentId.Some?
  }

  /** The packages `inspectNspManifest` is for. */
  predicate Accepted(p: Bytes) {
    TablesOk(p) && var m := ManifestOf(p, |p|);
    m.ncaCount > 0 && m.cnmtNcaCount > 0 && m.ticketCount == m.certCount && NamesOk(m.entries)
  }

  // ----- What a manifest says, by the bytes of the package -----

  /** Entry i starts and ends where the record says. */
  predicate PlaceRight(p: Bytes, i: nat, e: Entry)
    requires |p| >= 16 && 16 + 24 * i + 24 <= |p|
  {
    var at, data := 16 + 24 * i, 16 + 24 * U32(p, 4) + U32(p, 8);
    e.offset == data + FromLe(p[at..at + 8]) && e.size == FromLe(p[at + 8..at + 16])
  }

  /** The text from here up to the first NUL, which comes before the end. */
  predicate TextAt(p: Bytes, at: nat, end: nat, text: Bytes) {
    at + |text| < end <= |p| && p[at..at + |text|] == text && 0 !in text && p[at + |text|] == 0
  }

  /** Its name is the text in the string table that the record points to. */
  predicate NameRight(p: Bytes, i: nat, e: Entry)
    requires |p| >= 16 && 16 + 24 * i + 24 <= |p|
  {
    TextAt(p, 16 + 24 * U32(p, 4) + U32(p, 16 + 24 * i + 16), 16 + 24 * U32(p, 4) + U32(p, 8), e.name)
  }

  ghost predicate EntryRight(p: Bytes, i: nat, e: Entry)
    requires |p| >= 16 && 16 + 24 * i + 24 <= |p|
  {
    PlaceRight(p, i, e) && NameRight(p, i, e) && ReadRight(e)
  }

  ghost predicate EntriesRight(p: Bytes, es: seq<Entry>) {
    && |p| >= 16 && p[..4] == [0x50, 0x46, 0x53, 0x30] && U32(p, 4) == |es| && 16 + 24 * |es| + U32(p, 8) <= |p|
    && forall i :: 0 <= i < |es| ==> EntryRight(p, i, es[i])
  }

  /** The bytes of all NCAs. */
  ghost function NcaBytes(es: seq<Entry>): nat {
    if es == [] then 0 else (if es[0].isNca then es[0].size else 0) + NcaBytes(es[1..])
  }

  datatype Kind = Nca | CnmtNca | Ticket | Cert

  predicate Is(e: Entry, kind: Kind) {
    match kind
    case Nca => e.isNca
    case CnmtNca => e.isCnmtNca
    case Ticket => e.isTicket
    case Cert => e.isCert
  }

  /** The entries of a kind, by their places in the list. */
  ghost function Which(es: seq<Entry>, kind: Kind): set<int> { set i | 0 <= i < |es| && Is(es[i], kind) }

  /** The counts are those of the entries; the total has 64 bits. */
  ghost predicate Counted(m: Manifest) {
    && m.ncaCount == |Which(m.entries, Nca)| && m.cnmtNcaCount == |Which(m.entries, CnmtNca)|
    && m.ticketCount == |Which(m.entries, Ticket)| && m.certCount == |Which(m.entries, Cert)|
    && m.totalNcaBytes == NcaBytes(m.entries) % U64_LIMIT
  }

  lemma {:induction false} WhichSnoc(es: seq<Entry>, e: Entry, kind: Kind)
    ensures |Which(es + [e], kind)| == |Which(es, kind)| + if Is(e, kind) then 1 else 0
  {
    assert Which(es + [e], kind) == Which(es, kind) + if Is(e, kind) then {|es|} else {};
  }

  lemma {:induction false} WhichAll(es: seq<Entry>, kind: Kind)
    requires forall e :: e in es ==> Is(e, kind)
    ensures |Which(es, kind)| == |es|
  {
    if es != [] {
      var n := |es| - 1;
      assert es == es[..n] + [es[n]] && es[n] in es;
      WhichAll(es[..n], kind);
      WhichSnoc(es[..n], es[n], kind);
    }
  }

  lemma {:induction false} NcaBytesSnoc(es: seq<Entry>, e: Entry)
    ensures NcaBytes(es + [e]) == NcaBytes(es) + if e.isNca then e.size else 0
  {
    if es == [] {
      assert [] + [e] == [e] && [e][1..] == [];
    } else {
      assert (es + [e])[1..] == es[1..] + [e];
      NcaBytesSnoc(es[1..], e);
    }
  }

  lemma {:induction false} WrapNext(total: nat, size: nat)
    requires size < U64_LIMIT
    ensures WrapAdd(total % U64_LIMIT, size) == (total + size) % U64_LIMIT
  {
    assert total == U64_LIMIT * (total / U64_LIMIT) + total % U64_LIMIT;
  }

  lemma {:induction false} TallyCounts(packageSize: nat, es: seq<Entry>)
    requires forall i :: 0 <= i < |es| ==> es[i].size < U64_LIMIT
    ensures Counted(Tally(packageSize, es))
  {
    if es != [] {
      var n := |es| - 1;
      var front, last := es[..n], es[n];
      TallyCounts(packageSize, front);
      assert es == front + [last];
      CountsNext(Tally(packageSize, front), last);
    }
  }

  lemma {:induction false} CountsNext(m: Manifest, e: Entry)
    requires Counted(m) && e.size < U64_LIMIT
    ensures Counted(AddEntry(m, e))
  {
    WhichSnoc(m.entries, e, Nca);
    WhichSnoc(m.entries, e, CnmtNca);
    WhichSnoc(m.entries, e, Ticket);
    WhichSnoc(m.entries, e, Cert);
    NcaBytesSnoc(m.entries, e);
    WrapNext(NcaBytes(m.entries), e.size);
  }

  lemma {:induction false} CStringEnds(s: Bytes)
    requires 0 in s
    ensures |CString(s)| < |s| && s[|CString(s)|] == 0 && s[..|CString(s)|] == CString(s)
  {
    if s[0] != 0 {
      assert s == [s[0]] + s[1..];
      CStringEnds(s[1..]);
    }
  }

  /** A name that starts at an offset of the string table, found in the package. */
  lemma {:induction false} NameInPackage(p: Bytes, from: nat, to: nat, at: nat)
    requires from <= to <= |p| && at < to - from && 0 in p[from..to][at..]
    ensures TextAt(p, from + at, to, CString(p[from..to][at..]))
  {
    var rest := p[from..to][at..];
    assert rest == p[from + at..to];
    CStringEnds(rest);
    SliceOfSlice(p, from + at, to, 0, |CString(rest)|);
  }

  lemma {:induction false} RecordInPackage(p: Bytes, i: nat)
    requires HeaderOk(p) && i < FileCount(p)
    ensures var r, at := RecordAt(p[HEADER..StringStart(p)], i), 16 + 24 * i;
            && r.offset == FromLe(p[at..at + 8]) && r.size == FromLe(p[at + 8..at + 16]) && r.nameAt == U32(p, at + 16)
  {
    var a := 24 * i;
    SliceOfSlice(p, HEADER, StringStart(p), a, a + 8);
    SliceOfSlice(p, HEADER, StringStart(p), a + 8, a + 16);
    SliceOfSlice(p, HEADER, StringStart(p), a + 16, a + 20);
  }

  lemma {:induction false} EntryIsRight(p: Bytes, i: nat)
    requires HeaderOk(p) && i < FileCount(p) && TablesOf(p).NameOk(i)
    ensures EntryRight(p, i, TablesOf(p).EntryAt(i))
  {
    PlaceIsRight(p, i);
    NameIsRight(p, i);
    EntryReadRight(TablesOf(p).NameAt(i), DataStart(p) + TablesOf(p).records[i].offset, TablesOf(p).records[i].size);
  }

  lemma {:induction false} PlaceIsRight(p: Bytes, i: nat)
    requires HeaderOk(p) && i < FileCount(p) && TablesOf(p).NameOk(i)
    ensures PlaceRight(p, i, TablesOf(p).EntryAt(i))
  {
    RecordInPackage(p, i);
  }

  lemma {:induction false} NameIsRight(p: Bytes, i: nat)
    requires HeaderOk(p) && i < FileCount(p) && TablesOf(p).NameOk(i)
    ensures NameRight(p, i, TablesOf(p).EntryAt(i))
  {
    RecordInPackage(p, i);
    var at := TablesOf(p).records[i].nameAt;
    NameInPackage(p, StringStart(p), DataStart(p), at);
    NameOfEntry(TablesOf(p), i);
  }

  lemma {:induction false} NameOfEntry(t: Tables, i: nat)
    requires i < |t.records| && t.NameOk(i)
    ensures t.EntryAt(i).name == CString(t.strings[t.records[i].nameAt..])
  {
  }

  /** The reference manifest says just that. */
  lemma {:induction false} ManifestIsRight(p: Bytes, packageSize: nat)
    requires HeaderOk(p) && TablesOf(p).NamesOk()
    ensures var m := ManifestOf(p, packageSize);
            m.packageSize == packageSize && EntriesRight(p, m.entries) && Counted(m)
  {
    var t, n := TablesOf(p), FileCount(p);
    forall i | 0 <= i < n ensures EntryRight(p, i, t.Entries(n)[i]) && t.Entries(n)[i].size < U64_LIMIT {
      EntriesAt(t, n, i);
      EntryIsRight(p, i);
      RecordBounded(p[HEADER..StringStart(p)], i);
    }
    TallyCounts(packageSize, t.Entries(n));
  }

  // ----- Shared by the two parsers -----

  method CheckedAdd(a: nat, b: nat) returns (ok: bool, sum: nat)
    requires a < U64_LIMIT && b < U64_LIMIT
    ensures ok <==> a + b < U64_LIMIT
    ensures ok ==> sum == a + b
  {
    if a > U64_LIMIT - 1 - b {
      return false, 0;
    }
    return true, a + b;
  }

  lemma TallyNext(packageSize: nat, t: Tables, n: nat)
    requires n < |t.records| && forall i :: 0 <= i <= n ==> t.NameOk(i)
    ensures Tally(packageSize, t.Entries(n + 1)) == AddEntry(Tally(packageSize, t.Entries(n)), t.EntryAt(n))
  {
    TallySnoc(packageSize, t.Entries(n), t.EntryAt(n));
  }

  lemma TallySnoc(packageSize: nat, es: seq<Entry>, e: Entry)
    ensures Tally(packageSize, es + [e]) == AddEntry(Tally(packageSize, es), e)
  {
    assert (es + [e])[..|es|] == es;
  }

  /** Is every NCA named after its content id?  The last loop of both parsers. */
  method CheckNames(es: seq<Entry>) returns (ok: bool)
    ensures ok <==> NamesOk(es)
  {
    for i := 0 to |es|
      invariant forall j :: 0 <= j < i && es[j].isNca ==> es[j].contentId.Some?
    {
      if es[i].isNca && es[i].contentId.None? {
        return false;
      }
    }
    return true;
  }

  /** `memchr` for the terminator, and the C string it ends. */
  method FindName(strings: Bytes, at: nat) returns (name: Option<Bytes>)
    requires at < |strings|
    ensures name.Some? <==> 0 in strings[at..]
    ensures name.Some? ==> name.value == CString(strings[at..])
  {
    var k := at;
    while k < |strings| && strings[k] != 0
      invariant at <= k <= |strings|
      invariant 0 !in strings[at..k]
    {
      k := k + 1;
    }
    CStringIs(strings[at..], k - at);
    if k == |strings| {
      assert strings[at..] == strings[at..k];
      return None;
    }
    assert strings[at..][k - at] == 0;
    return Some(strings[at..k]);
  }

  lemma {:induction false} CStringIs(s: Bytes, n: nat)
    requires n <= |s| && 0 !in s[..n] && (n < |s| ==> s[n] == 0)
    ensures CString(s) == s[..n]
  {
    if n > 0 {
      assert s[..n] == [s[0]] + s[1..][..n - 1];
      CStringIs(s[1..], n - 1);
    }
  }

  /** The fields of the header read from the first 16 bytes. */
  lemma HeaderFields(p: Bytes, h: Bytes)
    requires |p| >= HEADER && h == p[..HEADER]
    ensures h[..4] == p[..4] && FromLe(h[4..8]) == FileCount(p) && FromLe(h[8..12]) == StringSize(p)
    ensures FileCount(p) < U32_LIMIT && StringSize(p) < U32_LIMIT
  {
    assert h[..4] == p[..4] && h[4..8] == p[4..8] && h[8..12] == p[8..12];
    WordSizes();
    FromLeBound(p[4..8]);
    FromLeBound(p[8..12]);
  }

  lemma RecordBounded(raw: Bytes, i: nat)
    requires RECORD * i + RECORD <= |raw|
    ensures RecordAt(raw, i).offset < U64_LIMIT && RecordAt(raw, i).size < U64_LIMIT
  {
    WordSizes();
    FromLeBound(raw[RECORD * i..RECORD * i + 8]);
    FromLeBound(raw[RECORD * i + 8..RECORD * i + 16]);
  }

  lemma TablesBounded(p: Bytes)
    requires HeaderOk(p)
    ensures TablesOf(p).Bounded()
  {
    var raw := p[HEADER..StringStart(p)];
    forall i | 0 <= i < FileCount(p)
      ensures RecordAt(raw, i).offset < U64_LIMIT && RecordAt(raw, i).size < U64_LIMIT
    {
      RecordBounded(raw, i);
    }
  }

  lemma TablesRead(p: Bytes, raw: Bytes, strings: Bytes)
    requires HeaderOk(p) && raw == p[HEADER..StringStart(p)] && strings == p[StringStart(p)..DataStart(p)]
    ensures |raw| == RECORD * FileCount(p)
    ensures Tables(RecordsOf(raw, FileCount(p)), strings, DataStart(p)) == TablesOf(p)
    ensures TablesOf(p).Bounded()
  {
    TablesBounded(p);
  }

  // ----- The random-access parser -----

  /** The header, through the split-file reader. */
  method ReadHeader(file: PackageReader.Reader) returns (error: Error, count: nat, stringSize: nat)
    requires file.Valid() && file.position == 0 && HEADER <= |Concat(file.parts)|
    modifies file`position, file`currentPart, file`streamPos
    ensures file.Valid() && file.position == HEADER
    ensures error.NoError? <==> HeaderOk(Concat(file.parts))
    ensures error.NoError? ==> count == FileCount(Concat(file.parts)) && stringSize == StringSize(Concat(file.parts))
  {
    ghost var p := Concat(file.parts);
    var ok, header := file.Read(HEADER);
    HeaderFields(p, header);
    if header[..4] != PFS0 {
      return InvalidPfs0, 0, 0;
    }
    count, stringSize := FromLe(header[4..8]), FromLe(header[8..12]);
    if count == 0 || count > MAX_FILES || stringSize > MAX_STRINGS {
      return InvalidPfs0, 0, 0;
    }
    error := if HEADER + RECORD * count + stringSize > file.totalSize then PackageTruncated else NoError;
  }

  /** Header and tables. */
  method ReadTables(file: PackageReader.Reader) returns (error: Error, t: Tables)
    requires file.Valid() && file.position == 0 && HEADER <= |Concat(file.parts)|
    modifies file`position, file`currentPart, file`streamPos
    ensures error.NoError? <==> HeaderOk(Concat(file.parts))
    ensures error.NoError? ==> t == TablesOf(Concat(file.parts)) && t.Bounded()
  {
    var count, stringSize;
    error, count, stringSize := ReadHeader(file);
    t := Tables([], [], 0);
    if !error.NoError? {
      return;
    }
    var ok, raw := file.Read(RECORD * count);
    var strings;
    ok, strings := file.Read(stringSize);
    TablesRead(Concat(file.parts), raw, strings);
    t := Tables(RecordsOf(raw, count), strings, HEADER + RECORD * count + stringSize);
  }

  /** `inspectNspManifest` on a package in any number of parts. */
  method InspectNspManifest(parts: seq<Bytes>) returns (m: Manifest)
    requires |Concat(parts)| < U64_LIMIT
    ensures m.Ok() <==> Accepted(Concat(parts))
    ensures m.Ok() ==> m == ManifestOf(Concat(parts), |Concat(parts)|)
    ensures m.Ok() ==> m.packageSize == |Concat(parts)| && EntriesRight(Concat(parts), m.entries) && Counted(m)
  {
    var file := new PackageReader.Reader(parts);
    var ok := file.Open();
    if !ok || file.totalSize < HEADER {
      return Empty.(error := PackageTruncated);
    }
    var error, t := ReadTables(file);
    if !error.NoError? {
      return Empty.(error := error, packageSize := file.totalSize);
    }
    m := InspectEntries(t, file.totalSize);
    if m.Ok() {
      ManifestIsRight(Concat(parts), |Concat(parts)|);
      m := InspectChecks(m);
    }
  }

  /** One entry: offset and size are added first, then compared with the room for data. */
  method InspectEntry(t: Tables, packageSize: nat, i: nat) returns (error: Error, e: Entry)
    requires t.Bounded() && t.dataStart <= packageSize < U64_LIMIT && i < |t.records|
    ensures error.NoError? <==> t.NameOk(i) && t.DataOk(packageSize, i)
    ensures error.NoError? ==> e == t.EntryAt(i)
  {
    var r := t.records[i];
    e := MakeEntry([], 0, 0);
    if r.nameAt >= |t.strings| {
      return InvalidPfs0, e;
    }
    var name := FindName(t.strings, r.nameAt);
    if name.None? {
      return InvalidPfs0, e;
    }
    var ok, end := CheckedAdd(r.offset, r.size);
    if !ok || end > packageSize - t.dataStart {
      return PackageTruncated, e;
    }
    return NoError, MakeEntry(name.value, t.dataStart + r.offset, r.size);
  }

  lemma InspectRefused(t: Tables, packageSize: nat, i: nat)
    requires i < |t.records| && !(t.NameOk(i) && t.DataOk(packageSize, i))
    ensures !(t.NamesOk() && t.DataUpTo(packageSize, |t.records|))
  {
    t.DataEach(packageSize, |t.records|);
  }

  method InspectEntries(t: Tables, packageSize: nat) returns (m: Manifest)
    requires t.Bounded() && t.dataStart <= packageSize < U64_LIMIT
    ensures m.Ok() <==> t.NamesOk() && t.DataUpTo(packageSize, |t.records|)
    ensures m.Ok() ==> m == Tally(packageSize, t.Entries(|t.records|))
  {
    m := Empty.(packageSize := packageSize);
    for i := 0 to |t.records|
      invariant forall j :: 0 <= j < i ==> t.NameOk(j)
      invariant t.DataUpTo(packageSize, i)
      invariant m == Tally(packageSize, t.Entries(i))
    {
      var error, e := InspectEntry(t, packageSize, i);
      if !error.NoError? {
        InspectRefused(t, packageSize, i);
        return m.(error := error);
      }
      TallyNext(packageSize, t, i);
      m := AddEntry(m, e);
    }
  }

  method InspectChecks(t: Manifest) returns (m: Manifest)
    requires t.Ok()
    ensures m.Ok() <==> t.ncaCount > 0 && t.cnmtNcaCount > 0 && t.ticketCount == t.certCount && NamesOk(t.entries)
    ensures m.Ok() ==> m == t
  {
    if t.ncaCount == 0 || t.cnmtNcaCount == 0 || t.ticketCount != t.certCount {
      return t.(error := MissingContent);
    }
    var ok := CheckNames(t.entries);
    return if ok then t else t.(error := InvalidNca);
  }

  // ----- The streaming parser -----

  /** A byte source that can only be read forward. */
  class Source {
    const data: Bytes
    var pos: nat

    ghost predicate Valid() reads this { pos <= |data| }

    constructor (data: Bytes)
      ensures Valid() && this.data == data && pos == 0
    {
      this.data, pos := data, 0;
    }

    method ReadExact(n: nat) returns (ok: bool, out: Bytes)
      requires Valid()
      modifies this`pos
      ensures Valid()
      ensures ok <==> old(pos) + n <= |data|
      ensures ok ==> pos == old(pos) + n && out == data[old(pos)..pos]
    {
      if n > |data| - pos {
        return false, [];
      }
      out := data[pos..pos + n];
      pos := pos + n;
      ok := true;
    }
  }

  /** The bounds check of the stream: no wrap-around, and inside the object when its size is known. */
  predicate StreamDataOk(t: Tables, packageSize: nat, i: nat)
    requires i < |t.records|
  {
    var end := t.dataStart + t.records[i].offset + t.records[i].size;
    end < U64_LIMIT && (packageSize != 0 ==> end <= packageSize)
  }

  /** The first n entries pass it. */
  predicate StreamDataUpTo(t: Tables, packageSize: nat, n: nat)
    requires n <= |t.records|
  {
    n == 0 || (StreamDataUpTo(t, packageSize, n - 1) && StreamDataOk(t, packageSize, n - 1))
  }

  lemma {:induction false} StreamDataEach(t: Tables, packageSize: nat, n: nat)
    requires n <= |t.records|
    ensures StreamDataUpTo(t, packageSize, n) <==> forall i :: 0 <= i < n ==> StreamDataOk(t, packageSize, i)
  {
    if n > 0 {
      StreamDataEach(t, packageSize, n - 1);
    }
  }

  /** The size of the package as far as the first n entries show it. */
  function MinimumSize(t: Tables, n: nat): nat
    requires n <= |t.records|
  {
    if n == 0 then t.dataStart
    else
      var end, before := t.dataStart + t.records[n - 1].offset + t.records[n - 1].size, MinimumSize(t, n - 1);
      if end > before then end else before
  }

  function StreamManifest(p: Bytes, packageSize: nat): Manifest
    requires HeaderOk(p) && TablesOf(p).NamesOk()
  {
    ManifestOf(p, if packageSize == 0 then MinimumSize(TablesOf(p), FileCount(p)) else packageSize)
  }

  predicate StreamAccepted(p: Bytes, packageSize: nat) {
    HeaderOk(p) && var t := TablesOf(p);
    && t.NamesOk() && StreamDataUpTo(t, packageSize, |t.records|)
    && var m := StreamManifest(p, packageSize);
       m.ncaCount > 0 && m.cnmtNcaCount == 1 && m.ticketCount == m.certCount && NamesOk(m.entries)
  }

  method StreamTables(src: Source) returns (error: Error, t: Tables)
    requires src.Valid() && src.pos == 0
    modifies src`pos
    ensures src.Valid()
    ensures error.NoError? <==> HeaderOk(src.data)
    ensures error.NoError? ==> t == TablesOf(src.data) && t.Bounded() && src.pos == t.dataStart
  {
    ghost var p := src.data;
    t := Tables([], [], 0);
    var ok, header := src.ReadExact(HEADER);
    if !ok {
      return PackageTruncated, t;
    }
    HeaderFields(p, header);
    if header[..4] != PFS0 {
      return InvalidPfs0, t;
    }
    var count, stringSize := FromLe(header[4..8]), FromLe(header[8..12]);
    if count == 0 || count > MAX_FILES || stringSize > MAX_STRINGS {
      return InvalidPfs0, t;
    }
    var raw, strings;
    ok, raw := src.ReadExact(RECORD * count);
    if !ok {
      return PackageTruncated, t;
    }
    ok, strings := src.ReadExact(stringSize);
    if !ok {
      return PackageTruncated, t;
    }
    TablesRead(p, raw, strings);
    return NoError, Tables(RecordsOf(raw, count), strings, src.pos);
  }

  /** One entry: absolute offset and end are formed first, each checked for overflow. */
  method StreamEntry(t: Tables, packageSize: nat, i: nat) returns (error: Error, e: Entry, end: nat)
    requires t.Bounded() && i < |t.records|
    ensures error.NoError? <==> t.NameOk(i) && StreamDataOk(t, packageSize, i)
    ensures error.NoError? ==> e == t.EntryAt(i) && end == t.dataStart + t.records[i].offset + t.records[i].size
  {
    var r := t.records[i];
    e, end := MakeEntry([], 0, 0), 0;
    if r.nameAt >= |t.strings| {
      return InvalidPfs0, e, end;
    }
    var name := FindName(t.strings, r.nameAt);
    if name.None? {
      return InvalidPfs0, e, end;
    }
    var ok, offset := CheckedAdd(t.dataStart, r.offset);
    if !ok {
      return InvalidPfs0, e, end;
    }
    ok, end := CheckedAdd(offset, r.size);
    if !ok {
      return InvalidPfs0, e, end;
    }
    if packageSize != 0 && end > packageSize {
      return PackageTruncated, e, end;
    }
    return NoError, MakeEntry(name.value, offset, r.size), end;
  }

  lemma StreamRefused(t: Tables, packageSize: nat, i: nat)
    requires i < |t.records| && !(t.NameOk(i) && StreamDataOk(t, packageSize, i))
    ensures !(t.NamesOk() && StreamDataUpTo(t, packageSize, |t.records|))
  {
    StreamDataEach(t, packageSize, |t.records|);
  }

  /** The first n entries are in the manifest, and the size they need is known. */
  ghost predicate Streamed(t: Tables, packageSize: nat, n: nat, m: Manifest, minimum: nat) {
    && n <= |t.records| && (forall j :: 0 <= j < n ==> t.NameOk(j)) && StreamDataUpTo(t, packageSize, n)
    && m == Tally(packageSize, t.Entries(n)) && minimum == MinimumSize(t, n)
  }

  /** One more. */
  method StreamStep(t: Tables, packageSize: nat, i: nat, m: Manifest, minimum: nat)
    returns (error: Error, m': Manifest, minimum': nat)
    requires t.Bounded() && i < |t.records| && Streamed(t, packageSize, i, m, minimum)
    ensures error.NoError? <==> t.NameOk(i) && StreamDataOk(t, packageSize, i)
    ensures error.NoError? ==> Streamed(t, packageSize, i + 1, m', minimum')
  {
    var e, end;
    error, e, end := StreamEntry(t, packageSize, i);
    m', minimum' := m, minimum;
    if error.NoError? {
      StreamedNext(t, packageSize, i, m, minimum);
      minimum' := if end > minimum then end else minimum;
      m' := AddEntry(m, e);
    }
  }

  lemma StreamedNext(t: Tables, packageSize: nat, i: nat, m: Manifest, minimum: nat)
    requires i < |t.records| && Streamed(t, packageSize, i, m, minimum) && t.NameOk(i) && StreamDataOk(t, packageSize, i)
    ensures var end := t.dataStart + t.records[i].offset + t.records[i].size;
            Streamed(t, packageSize, i + 1, AddEntry(m, t.EntryAt(i)), if end > minimum then end else minimum)
  {
    TallyNext(packageSize, t, i);
    MinimumNext(t, i);
  }

  lemma MinimumNext(t: Tables, i: nat)
    requires i < |t.records|
    ensures var end := t.dataStart + t.records[i].offset + t.records[i].size;
            MinimumSize(t, i + 1) == if end > MinimumSize(t, i) then end else MinimumSize(t, i)
  {
  }

  method StreamEntries(t: Tables, packageSize: nat) returns (m: Manifest, minimum: nat)
    requires t.Bounded()
    ensures m.Ok() <==> t.NamesOk() && StreamDataUpTo(t, packageSize, |t.records|)
    ensures m.Ok() ==> m == Tally(packageSize, t.Entries(|t.records|)) && minimum == MinimumSize(t, |t.records|)
  {
    m, minimum := Empty.(packageSize := packageSize), t.dataStart;
    for i := 0 to |t.records|
      invariant Streamed(t, packageSize, i, m, minimum)
    {
      var error, next, size := StreamStep(t, packageSize, i, m, minimum);
      if !error.NoError? {
        StreamRefused(t, packageSize, i);
        return m.(error := error), minimum;
      }
      m, minimum := next, size;
    }
  }

  lemma {:induction false} TallyResize(a: nat, b: nat, es: seq<Entry>)
    ensures Tally(b, es) == Tally(a, es).(packageSize := b)
  {
    if es != [] {
      TallyResize(a, b, es[..|es| - 1]);
    }
  }

  method StreamChecks(t: Manifest) returns (m: Manifest)
    requires t.Ok()
    ensures m.Ok() <==> t.ncaCount > 0 && t.cnmtNcaCount == 1 && t.ticketCount == t.certCount && NamesOk(t.entries)
    ensures m.Ok() ==> m == t
  {
    if t.ncaCount == 0 {
      return t.(error := MissingContent);
    }
    if t.cnmtNcaCount != 1 {
      return t.(error := UnsupportedFormat);
    }
    if t.ticketCount != t.certCount {
      return t.(error := MissingContent);
    }
    var ok := CheckNames(t.entries);
    return if ok then t else t.(error := InvalidNca);
  }

  /** `parseStreamManifest`; a package size of 0 means unknown. */
  method ParseStreamManifest(packageSize: nat, src: Source) returns (m: Manifest, consumed: nat)
    requires src.Valid() && src.pos == 0
    modifies src`pos
    ensures src.Valid()
    ensures m.Ok() <==> StreamAccepted(src.data, packageSize)
    ensures m.Ok() ==> m == StreamManifest(src.data, packageSize)
    ensures m.Ok() ==> consumed == src.pos == DataStart(src.data)
    ensures m.Ok() ==> EntriesRight(src.data, m.entries) && Counted(m) && (packageSize != 0 ==> m.packageSize == packageSize)
  {
    consumed := 0;
    var error, t := StreamTables(src);
    if !error.NoError? {
      return Empty.(error := error, packageSize := packageSize), consumed;
    }
    consumed := t.dataStart;
    var minimum;
    m, minimum := StreamEntries(t, packageSize);
    if m.Ok() {
      if packageSize == 0 {
        TallyResize(packageSize, minimum, m.entries);
        m := m.(packageSize := minimum);
      }
      ManifestIsRight(src.data, m.packageSize);
      m := StreamChecks(m);
    }
  }

  // ----- Agreement -----

  lemma {:induction false} EntriesAt(t: Tables, n: nat, i: nat)
    requires i < n <= |t.records| && forall k :: 0 <= k < n ==> t.NameOk(k)
    ensures t.Entries(n)[i] == t.EntryAt(i)
  {
    if i < n - 1 {
      EntriesAt(t, n - 1, i);
    }
  }

  /** Inside a package of known size the two bounds checks are the same. */
  lemma SameBounds(t: Tables, packageSize: nat)
    requires 0 < packageSize < U64_LIMIT
    ensures StreamDataUpTo(t, packageSize, |t.records|) <==> t.DataUpTo(packageSize, |t.records|)
  {
    StreamDataEach(t, packageSize, |t.records|);
    t.DataEach(packageSize, |t.records|);
    assert forall i :: 0 <= i < |t.records| ==> (StreamDataOk(t, packageSize, i) <==> t.DataOk(packageSize, i));
  }

  /**
    On a stream of exactly packageSize bytes the two parsers accept the same packages, except that
    the streaming one wants exactly one CNMT, and they report the same manifest.
   */
  lemma ParsersAgree(p: Bytes)
    requires 0 < |p| < U64_LIMIT
    ensures StreamAccepted(p, |p|) <==> Accepted(p) && ManifestOf(p, |p|).cnmtNcaCount == 1
    ensures StreamAccepted(p, |p|) ==> StreamManifest(p, |p|) == ManifestOf(p, |p|)
  {
    if HeaderOk(p) {
      SameBounds(TablesOf(p), |p|);
    }
  }

  /** The same, by calling both. */
  method ParseBothWays(parts: seq<Bytes>) returns (random: Manifest, stream: Manifest)
    requires 0 < |Concat(parts)| < U64_LIMIT
    ensures stream.Ok() <==> random.Ok() && random.cnmtNcaCount == 1
    ensures stream.Ok() ==> stream == random
  {
    random := InspectNspManifest(parts);
    var src := new Source(Concat(parts));
    var consumed;
    stream, consumed := ParseStreamManifest(|src.data|, src);
    ParsersAgree(src.data);
  }
}
