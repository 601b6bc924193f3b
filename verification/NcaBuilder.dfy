/**
  Hash trees and section layout of the NCA files the forwarder builder makes.  SHA-256 is any
  function with 32-byte results; the RomFS image and the encrypted header are any bytes.
 */
module NcaBuilder {
  import opened Bytes
  import opened BufHelper
  import P = Pfs0Builder

  /** Any hash function with 32-byte results, given by its values (32 zeros where it has none). */
  type Sha = imap<Bytes, Bytes>

  function Hash(sha: Sha, x: Bytes): (h: Bytes)
    ensures |h| == 32 && (x in sha && |sha[x]| == 32 ==> h == sha[x])
  {
    if x in sha && |sha[x]| == 32 then sha[x] else Zeros(32)
  }

  const IVFC_BLOCK := 0x4000
  const EXEFS_BLOCK := 0x10000
  const MEDIA := 0x200
  const NCA_HEADER := 0xC00

  /** Block j of a file cut into blocks; the last one may be short. */
  function BlockAt(src: Bytes, block: nat, j: nat): Bytes
    requires j * block < |src|
  {
    src[j * block..if j * block + block < |src| then j * block + block else |src|]
  }

  /** The hash of block j stands at byte 32 * j. */
  ghost predicate HashAt(sha: Sha, src: Bytes, block: nat, table: Bytes, j: nat) {
    && j * block < |src| && 32 * j + 32 <= |table|
    && table[32 * j..32 * j + 32] == Hash(sha, BlockAt(src, block, j))
  }

  ghost predicate HashesOf(sha: Sha, src: Bytes, block: nat, table: Bytes) {
    forall j: nat {:trigger HashAt(sha, src, block, table, j)} ::
      j * block < |src| ==> HashAt(sha, src, block, table, j)
  }

  /** The first n hashes are in place, and nothing else. */
  ghost predicate FirstHashes(sha: Sha, src: Bytes, block: nat, table: Bytes, n: nat) {
    |table| == 32 * n && forall j: nat :: j < n ==> HashAt(sha, src, block, table, j)
  }

  lemma MulMono(i: nat, j: nat, block: nat)
    requires i <= j
    ensures i * block <= j * block
  {
    assert j * block == i * block + (j - i) * block;
  }

  lemma NextHash(sha: Sha, src: Bytes, block: nat, table: Bytes, n: nat)
    requires FirstHashes(sha, src, block, table, n) && n * block < |src|
    ensures FirstHashes(sha, src, block, table + Hash(sha, BlockAt(src, block, n)), n + 1)
  {
    var hash := Hash(sha, BlockAt(src, block, n));
    var table' := table + hash;
    assert table'[32 * n..32 * n + 32] == hash;
    forall j: nat | j < n ensures HashAt(sha, src, block, table', j) {
      assert HashAt(sha, src, block, table, j);
      assert table'[32 * j..32 * j + 32] == table[32 * j..32 * j + 32];
    }
  }

  lemma AllHashes(sha: Sha, src: Bytes, block: nat, table: Bytes, n: nat, padding: Bytes)
    requires FirstHashes(sha, src, block, table, n) && |src| <= n * block
    ensures HashesOf(sha, src, block, table + padding)
  {
    forall j: nat | j * block < |src| ensures HashAt(sha, src, block, table + padding, j) {
      if j >= n {
        MulMono(n, j, block);
      }
      assert HashAt(sha, src, block, table, j);
      assert (table + padding)[32 * j..32 * j + 32] == table[32 * j..32 * j + 32];
    }
  }

  /** The hashing loop of `buildPfs0HashTable` and `ivfcCreateLevel`. */
  method HashBlocks(sha: Sha, src: Bytes, block: nat) returns (table: Bytes, ghost n: nat)
    requires block > 0
    ensures FirstHashes(sha, src, block, table, n) && |src| <= n * block
    ensures HashesOf(sha, src, block, table)
  {
    var buf := new Buffer();
    var pos := 0;
    n := 0;
    while pos < |src|
      invariant pos <= |src| && (pos == n * block || (pos == |src| && |src| <= n * block))
      invariant buf.offset == |buf.buf| && FirstHashes(sha, src, block, buf.buf, n)
      decreases |src| - pos
    {
      var readSize := if block < |src| - pos then block else |src| - pos;
      assert src[pos..pos + readSize] == BlockAt(src, block, n);
      NextHash(sha, src, block, buf.buf, n);
      buf.Write(Hash(sha, src[pos..pos + readSize]));
      pos := pos + readSize;
      assert (n + 1) * block == n * block + block;
      n := n + 1;
    }
    table := buf.buf;
    AllHashes(sha, src, block, table, n, []);
    assert table + [] == table;
  }

  /** `writePadding`: a whole block when the offset is already aligned. */
  method WritePadding(buf: Buffer, off: nat, block: nat) returns (size: nat)
    requires (block == MEDIA || block == IVFC_BLOCK) && buf.offset == |buf.buf|
    modifies buf
    ensures 0 < size <= block && (off + size) % block == 0
    ensures buf.offset == |buf.buf| && buf.buf == old(buf.buf) + Zeros(size)
  {
    size := block - off % block;
    buf.Write(Zeros(size));
    if block == MEDIA {
      assert (off + (MEDIA - off % MEDIA)) % MEDIA == 0;
    } else {
      assert (off + (IVFC_BLOCK - off % IVFC_BLOCK)) % IVFC_BLOCK == 0;
    }
  }

  /** `writeNcaPadding`. */
  method WriteNcaPadding(buf: Buffer) returns (size: nat)
    requires buf.offset == |buf.buf|
    modifies buf
    ensures buf.offset == |buf.buf| && buf.buf == old(buf.buf) + Zeros(size) && |buf.buf| % MEDIA == 0
  {
    size := WritePadding(buf, buf.offset, MEDIA);
  }

  // ----- The RomFS section -----

  method IvfcCreateLevel(sha: Sha, src: Bytes) returns (level: Bytes)
    ensures HashesOf(sha, src, IVFC_BLOCK, level) && |level| % IVFC_BLOCK == 0
  {
    var table, n := HashBlocks(sha, src, IVFC_BLOCK);
    ghost var size;
    level, size := Padded(table);
    AllHashes(sha, src, IVFC_BLOCK, table, n, Zeros(size));
  }

  method Padded(table: Bytes) returns (level: Bytes, ghost size: nat)
    ensures level == table + Zeros(size) && |level| % IVFC_BLOCK == 0
  {
    var buf := new Buffer();
    buf.Write(table);
    assert buf.buf == table;
    size := WritePadding(buf, buf.offset, IVFC_BLOCK);
    level := buf.buf;
  }

  /** Level k holds the hashes of the level below it, and is a whole number of blocks. */
  ghost predicate HashesNext(sha: Sha, levels: seq<Bytes>, k: nat)
    requires k + 1 < |levels|
  {
    HashesOf(sha, levels[k + 1], IVFC_BLOCK, levels[k]) && |levels[k]| % IVFC_BLOCK == 0
  }

  ghost predicate HashTree(sha: Sha, levels: seq<Bytes>) {
    forall k: nat :: k + 1 < |levels| ==> HashesNext(sha, levels, k)
  }

  lemma TreeGrows(sha: Sha, level: Bytes, levels: seq<Bytes>)
    requires levels != [] && HashTree(sha, levels)
    requires HashesOf(sha, levels[0], IVFC_BLOCK, level) && |level| % IVFC_BLOCK == 0
    ensures HashTree(sha, [level] + levels)
  {
    forall k: nat | k + 1 < |[level] + levels| ensures HashesNext(sha, [level] + levels, k) {
      if k > 0 {
        assert HashesNext(sha, levels, k - 1);
      }
    }
  }

  lemma TreeAligned(sha: Sha, levels: seq<Bytes>)
    requires HashTree(sha, levels)
    ensures forall k :: 0 <= k < |levels| - 1 ==> |levels[k]| % IVFC_BLOCK == 0
  {
    forall k | 0 <= k < |levels| - 1 ensures |levels[k]| % IVFC_BLOCK == 0 {
      assert HashesNext(sha, levels, k);
    }
  }

  /** The image with zeros up to the next block boundary, a whole block of them when it ends on one. */
  function PaddedImage(image: Bytes): (padded: Bytes)
    ensures |padded| % IVFC_BLOCK == 0 && |image| < |padded| <= |image| + IVFC_BLOCK && image <= padded
  {
    image + Zeros(IVFC_BLOCK - |image| % IVFC_BLOCK)
  }

  /** The end of `romfsBuild`: the size is taken before the padding is written. */
  method RomfsBuild(image: Bytes) returns (padded: Bytes, size: nat)
    ensures padded == PaddedImage(image) && size == |image|
  {
    var buf := new Buffer();
    buf.Write(image);
    assert buf.buf == image;
    size := buf.offset;
    var padding := WritePadding(buf, buf.offset, IVFC_BLOCK);
    padded := buf.buf;
  }

  /** In a file of whole blocks every block is whole. */
  lemma WholeBlock(src: Bytes, j: nat)
    requires |src| % IVFC_BLOCK == 0 && j * IVFC_BLOCK < |src|
    ensures j * IVFC_BLOCK + IVFC_BLOCK <= |src| && |BlockAt(src, IVFC_BLOCK, j)| == IVFC_BLOCK
  {
    assert |src| == IVFC_BLOCK * (|src| / IVFC_BLOCK);
  }

  /** Five levels of hashes over the padded image, the top one first. */
  method IvfcLevels(sha: Sha, bottom: Bytes) returns (levels: seq<Bytes>)
    ensures |levels| == 6 && levels[5] == bottom && HashTree(sha, levels)
  {
    levels := [bottom];
    while |levels| < 6
      invariant 1 <= |levels| <= 6 && levels[|levels| - 1] == bottom && HashTree(sha, levels)
      decreases 6 - |levels|
    {
      var level := IvfcCreateLevel(sha, levels[0]);
      TreeGrows(sha, level, levels);
      levels := [level] + levels;
    }
  }

  /** Where each level starts: after all the ones before it, so on a block boundary. */
  method LevelOffsets(levels: seq<Bytes>) returns (offsets: seq<nat>)
    requires |levels| == 6 && forall k :: 0 <= k < 5 ==> |levels[k]| % IVFC_BLOCK == 0
    ensures |offsets| == 6
    ensures forall k :: 0 <= k < 6 ==> offsets[k] == Start(levels, k) && offsets[k] % IVFC_BLOCK == 0
  {
    offsets := [0];
    for k := 1 to 6
      invariant |offsets| == k
      invariant forall i :: 0 <= i < k ==> offsets[i] == Start(levels, i) && offsets[i] % IVFC_BLOCK == 0
    {
      PartIsSlice(levels, k - 1);
      offsets := offsets + [offsets[k - 1] + |levels[k - 1]|];
    }
  }

  // ----- Header and sections -----

  datatype Section = Section(start: nat, end: nat)  // in media units of 0x200 bytes, 32 bits each

  datatype FsHeader =
    | NoFs
    | Pfs0Fs(pfs0Hash: Bytes, hashSize: nat, pfs0Offset: nat, pfs0Size: nat)
    | RomFs(romfsHash: Bytes, offsets: seq<nat>, sizes: seq<nat>)

  class NcaHeader {
    var sections: seq<Section>
    var fs: seq<FsHeader>
    var size: nat

    ghost predicate Valid() reads this { |sections| == |fs| == 4 }

    constructor ()
      ensures Valid()
    {
      sections := [Section(0, 0), Section(0, 0), Section(0, 0), Section(0, 0)];
      fs := [NoFs, NoFs, NoFs, NoFs];
      size := 0;
    }

    /** `writeNcaSection`, with the truncation to 32-bit media offsets. */
    method WriteSection(index: nat, start: nat, end: nat)
      requires Valid() && index < 4
      modifies this`sections
      ensures Valid()
      ensures sections == old(sections)[index := Section(start / MEDIA % U32_LIMIT, end / MEDIA % U32_LIMIT)]
    {
      sections := sections[index := Section(start / MEDIA % U32_LIMIT, end / MEDIA % U32_LIMIT)];
    }
  }

  /** A buffer at whose end a section may start. */
  ghost predicate AtSection(h: NcaHeader, buf: Buffer, index: nat)
    reads h, buf
  {
    h.Valid() && index < 4 && buf.offset == |buf.buf| && |buf.buf| % MEDIA == 0
  }

  /** Where the header says that section starts. */
  function SectionStart(sections: seq<Section>, index: nat): nat
    requires index < |sections|
  {
    if index == 0 then NCA_HEADER else sections[index - 1].end * MEDIA
  }

  /** After section `index`, the table says it runs from base to the end of the file. */
  ghost predicate Recorded(before: seq<Section>, after: seq<Section>, index: nat, base: nat, nca: Bytes)
    requires index < |before|
  {
    SectionStart(before, index) == base && Fits(nca) ==>
      after == before[index := Section(base / MEDIA, |nca| / MEDIA)]
  }

  /** Files whose media offsets fit 32 bits. */
  predicate Fits(nca: Bytes) { |nca| < U32_LIMIT * MEDIA }

  /** The hash table and the PFS0 image of a section that starts at base. */
  ghost predicate Pfs0At(sha: Sha, nca: Bytes, base: nat, fs: FsHeader, image: Bytes, block: nat) {
    && fs.Pfs0Fs? && fs.hashSize <= fs.pfs0Offset && fs.pfs0Offset % 0x200 == 0
    && fs.pfs0Size == |image| && base + fs.pfs0Offset + |image| <= |nca|
    && nca[base + fs.pfs0Offset..base + fs.pfs0Offset + |image|] == image
    && HashesOf(sha, image, block, nca[base..base + fs.hashSize])
    && fs.pfs0Hash == Hash(sha, nca[base..base + fs.hashSize])
  }

  /** Level k of a RomFS section that starts at base. */
  function Level(nca: Bytes, base: nat, fs: FsHeader, k: nat): Bytes
    requires fs.RomFs? && k < |fs.offsets| == |fs.sizes| && base + fs.offsets[k] + fs.sizes[k] <= |nca|
  {
    nca[base + fs.offsets[k]..base + fs.offsets[k] + fs.sizes[k]]
  }

  /**
    The hash tree of a section that starts at base, found through the offsets and sizes in its header.
    The header gives the size of the image without its padding, but the hashes above it are those of the
    padded image.
   */
  ghost predicate RomfsAt(sha: Sha, nca: Bytes, base: nat, fs: FsHeader, image: Bytes) {
    && fs.RomFs? && |fs.offsets| == |fs.sizes| == 6
    && (forall k :: 0 <= k < 6 ==> base + fs.offsets[k] + fs.sizes[k] <= |nca| && fs.offsets[k] % 0x4000 == 0)
    && (forall k :: 0 <= k < 5 ==> fs.sizes[k] % 0x4000 == 0)
    && fs.romfsHash == Hash(sha, Level(nca, base, fs, 0))
    && (forall k: nat :: k < 4 ==>
          HashesOf(sha, Level(nca, base, fs, k + 1), 0x4000, Level(nca, base, fs, k)))
    && Level(nca, base, fs, 5) == image
    && PaddedAt(nca, base + fs.offsets[5], image)
    && HashesOf(sha, PaddedImage(image), 0x4000, Level(nca, base, fs, 4))
  }

  /** The padded image stands in the file. */
  predicate PaddedAt(nca: Bytes, at: nat, image: Bytes) {
    at + |PaddedImage(image)| <= |nca| && nca[at..at + |PaddedImage(image)|] == PaddedImage(image)
  }

  /** The section table entry both section writers make. */
  method CloseSection(h: NcaHeader, index: nat, buf: Buffer, ghost base: nat)
    requires AtSection(h, buf, index) && base <= |buf.buf| && base % MEDIA == 0
    modifies h`sections
    ensures h.Valid() && Recorded(old(h.sections), h.sections, index, base, buf.buf)
  {
    var start := SectionStart(h.sections, index);
    h.WriteSection(index, start, buf.offset);
  }

  method WritePfs0Bytes(buf: Buffer, table: Bytes, image: Bytes) returns (padding: nat, tail: nat)
    requires buf.offset == |buf.buf|
    modifies buf
    ensures buf.buf == old(buf.buf) + table + Zeros(padding) + image + Zeros(tail)
    ensures (|table| + padding) % MEDIA == 0 && |buf.buf| % MEDIA == 0 && buf.offset == |buf.buf|
  {
    buf.Write(table);
    padding := WritePadding(buf, |table|, MEDIA);
    buf.Write(image);
    tail := WriteNcaPadding(buf);
  }

  /** `writeNcaPfs0` for an image already built: hash table, padding, image, padding. */
  method WriteNcaPfs0(sha: Sha, h: NcaHeader, index: nat, image: Bytes, block: nat, buf: Buffer)
    returns (table: Bytes, padding: nat, tail: nat)
    requires AtSection(h, buf, index) && block > 0
    modifies h`sections, h`fs, buf
    ensures h.Valid() && HashesOf(sha, image, block, table)
    ensures buf.buf == old(buf.buf) + table + Zeros(padding) + image + Zeros(tail)
    ensures Recorded(old(h.sections), h.sections, index, |old(buf.buf)|, buf.buf)
    ensures (|table| + padding) % MEDIA == 0 && |buf.buf| % MEDIA == 0 && buf.offset == |buf.buf|
    ensures h.fs == old(h.fs)[index := Pfs0Fs(Hash(sha, table), |table|, |table| + padding, |image|)]
  {
    ghost var n;
    table, n := HashBlocks(sha, image, block);
    padding, tail := WritePfs0Bytes(buf, table, image);
    CloseSection(h, index, buf, |old(buf.buf)|);
    h.fs := h.fs[index := Pfs0Fs(Hash(sha, table), |table|, |table| + padding, |image|)];
  }

  lemma Pfs0InPlace(sha: Sha, before: Bytes, table: Bytes, padding: Bytes, image: Bytes, rest: Bytes, block: nat)
    requires HashesOf(sha, image, block, table) && (|table| + |padding|) % MEDIA == 0
    ensures Pfs0At(sha, before + table + padding + image + rest, |before|,
                   Pfs0Fs(Hash(sha, table), |table|, |table| + |padding|, |image|), image, block)
  {
    FivePieces(before, table, padding, image, rest);
  }

  lemma FivePieces(a: Bytes, b: Bytes, c: Bytes, d: Bytes, e: Bytes)
    ensures var p := a + b + c + d + e;
            && p[|a|..|a| + |b|] == b
            && p[|a| + (|b| + |c|)..|a| + (|b| + |c|) + |d|] == d
  {
  }

  method WriteLevels(buf: Buffer, levels: seq<Bytes>) returns (ghost tail: nat)
    requires buf.offset == |buf.buf|
    modifies buf
    ensures buf.buf == old(buf.buf) + Concat(levels) + Zeros(tail)
    ensures buf.offset == |buf.buf| && |buf.buf| % MEDIA == 0
  {
    for k := 0 to |levels|
      invariant buf.offset == |buf.buf| && buf.buf == old(buf.buf) + Concat(levels[..k])
    {
      assert levels[..k + 1] == levels[..k] + [levels[k]];
      ConcatSnoc(levels[..k], levels[k]);
      buf.Write(levels[k]);
    }
    assert levels[..|levels|] == levels;
    tail := WriteNcaPadding(buf);
  }

  method WriteNcaRomfs(sha: Sha, h: NcaHeader, index: nat, image: Bytes, buf: Buffer)
    returns (levels: seq<Bytes>, fs: FsHeader, ghost tail: nat)
    requires AtSection(h, buf, index)
    modifies h`sections, h`fs, buf
    ensures h.Valid() && |levels| == 6 && levels[5] == PaddedImage(image) && HashTree(sha, levels)
    ensures buf.buf == old(buf.buf) + Concat(levels) + Zeros(tail)
    ensures Recorded(old(h.sections), h.sections, index, |old(buf.buf)|, buf.buf)
    ensures |buf.buf| % MEDIA == 0 && buf.offset == |buf.buf|
    ensures h.fs == old(h.fs)[index := fs] && DescribesLevels(sha, fs, levels, |image|)
  {
    var bottom, size := RomfsBuild(image);
    levels := IvfcLevels(sha, bottom);
    fs := DescribeLevels(sha, levels, size);
    tail := WriteLevels(buf, levels);
    CloseSection(h, index, buf, |old(buf.buf)|);
    h.fs := h.fs[index := fs];
  }

  method DescribeLevels(sha: Sha, levels: seq<Bytes>, imageSize: nat) returns (fs: FsHeader)
    requires |levels| == 6 && HashTree(sha, levels)
    ensures DescribesLevels(sha, fs, levels, imageSize)
  {
    TreeAligned(sha, levels);
    var offsets := LevelOffsets(levels);
    var sizes := [|levels[0]|, |levels[1]|, |levels[2]|, |levels[3]|, |levels[4]|, imageSize];
    fs := RomFs(Hash(sha, levels[0]), offsets, sizes);
  }

  /** The header fields of a RomFS section: master hash, and place and size of every level. */
  ghost predicate DescribesLevels(sha: Sha, fs: FsHeader, levels: seq<Bytes>, imageSize: nat) {
    && |levels| == 6
    && fs.RomFs? && |fs.offsets| == |fs.sizes| == 6 && fs.romfsHash == Hash(sha, levels[0])
    && (forall k: nat :: k < 6 ==> fs.offsets[k] == Start(levels, k) && fs.offsets[k] % IVFC_BLOCK == 0)
    && (forall k: nat :: k < 5 ==> fs.sizes[k] == |levels[k]|)
    && fs.sizes[5] == imageSize
  }

  lemma LevelsInPlace(sha: Sha, before: Bytes, levels: seq<Bytes>, tail: Bytes, fs: FsHeader, image: Bytes)
    requires |levels| == 6 && levels[5] == PaddedImage(image) && HashTree(sha, levels)
    requires DescribesLevels(sha, fs, levels, |image|)
    ensures RomfsAt(sha, before + Concat(levels) + tail, |before|, fs, image)
  {
    var nca, base := before + Concat(levels) + tail, |before|;
    forall k: nat | k < 5
      ensures base + fs.offsets[k] + fs.sizes[k] <= |nca| && Level(nca, base, fs, k) == levels[k]
    {
      LevelInPlace(before, levels, tail, k);
    }
    ImageInPlace(before, levels, tail, image);
    TreeAligned(sha, levels);
    forall k: nat | k < 4
      ensures HashesOf(sha, Level(nca, base, fs, k + 1), IVFC_BLOCK, Level(nca, base, fs, k))
    {
      assert HashesNext(sha, levels, k);
    }
    assert HashesNext(sha, levels, 4);
  }

  /** The bottom level: the padded image, and in it the image. */
  lemma ImageInPlace(before: Bytes, levels: seq<Bytes>, tail: Bytes, image: Bytes)
    requires |levels| == 6 && levels[5] == PaddedImage(image)
    ensures var nca := before + Concat(levels) + tail; var at := |before| + Start(levels, 5);
            PaddedAt(nca, at, image) && nca[at..at + |image|] == image
  {
    var nca, at := before + Concat(levels) + tail, |before| + Start(levels, 5);
    LevelInPlace(before, levels, tail, 5);
    SliceOfSlice(nca, at, at + |levels[5]|, 0, |image|);
    assert PaddedImage(image)[0..|image|] == image;
  }

  /** Each hash of the level above the image is that of a whole block of the file. */
  lemma ImageBlockHashed(sha: Sha, nca: Bytes, base: nat, fs: FsHeader, image: Bytes, j: nat)
    requires RomfsAt(sha, nca, base, fs, image) && j * IVFC_BLOCK < |PaddedImage(image)|
    ensures var at := base + fs.offsets[5] + j * IVFC_BLOCK;
            && at + IVFC_BLOCK <= |nca| && 32 * j + 32 <= fs.sizes[4]
            && Level(nca, base, fs, 4)[32 * j..32 * j + 32] == Hash(sha, nca[at..at + IVFC_BLOCK])
  {
    var padded, at := PaddedImage(image), base + fs.offsets[5];
    WholeBlock(padded, j);
    SliceOfSlice(nca, at, at + |padded|, j * IVFC_BLOCK, j * IVFC_BLOCK + IVFC_BLOCK);
    assert HashAt(sha, padded, IVFC_BLOCK, Level(nca, base, fs, 4), j);
  }

  lemma LevelInPlace(before: Bytes, levels: seq<Bytes>, tail: Bytes, k: nat)
    requires k < |levels|
    ensures var nca := before + Concat(levels) + tail; var at := |before| + Start(levels, k);
            at + |levels[k]| <= |nca| && nca[at..at + |levels[k]|] == levels[k]
  {
    var nca, base := before + Concat(levels) + tail, |before|;
    PartIsSlice(levels, k);
    assert nca[base..base + |Concat(levels)|] == Concat(levels);
    SliceOfSlice(nca, base, base + |Concat(levels)|, Start(levels, k), Start(levels, k + 1));
  }

  // ----- Whole files -----

  /** What a program NCA is made of. */
  datatype Parts = Parts(header: Bytes, table: Bytes, padding: Bytes, pfs0: Bytes, tail: Bytes,
                         levels: seq<Bytes>, end: Bytes) {
    function ExeFs(): Bytes { header + table + padding + pfs0 + tail }

    function File(): Bytes { ExeFs() + Concat(levels) + end }
  }

  method AssembleProgramNca(sha: Sha, pfs0: Bytes, romfs: Bytes, encrypted: Bytes)
    returns (nca: Bytes, h: NcaHeader, ghost p: Parts)
    requires |encrypted| == NCA_HEADER
    ensures h.Valid() && |nca| == h.size && nca == p.File() && p.header == encrypted && p.pfs0 == pfs0
    ensures HashesOf(sha, pfs0, EXEFS_BLOCK, p.table) && (|p.table| + |p.padding|) % MEDIA == 0
    ensures h.fs[0] == Pfs0Fs(Hash(sha, p.table), |p.table|, |p.table| + |p.padding|, |pfs0|)
    ensures |p.levels| == 6 && p.levels[5] == PaddedImage(romfs) && HashTree(sha, p.levels)
    ensures DescribesLevels(sha, h.fs[1], p.levels, |romfs|)
    ensures Fits(nca) ==> h.sections[0] == Section(NCA_HEADER / MEDIA, |p.ExeFs()| / MEDIA)
    ensures Fits(nca) ==> h.sections[1] == Section(|p.ExeFs()| / MEDIA, |nca| / MEDIA)
    ensures |p.ExeFs()| % MEDIA == 0 && |nca| % MEDIA == 0
  {
    var buf := new Buffer();
    h := new NcaHeader();
    buf.Write(Zeros(NCA_HEADER));
    assert buf.buf == Zeros(NCA_HEADER);
    var table, padding, tail := WriteNcaPfs0(sha, h, 0, pfs0, EXEFS_BLOCK, buf);
    ghost var exefsEnd := |buf.buf|;
    var levels, fs, end := WriteNcaRomfs(sha, h, 1, romfs, buf);
    h.size := buf.offset;
    ghost var file := buf.buf;
    buf.Seek(0);
    buf.Write(encrypted);
    nca := buf.buf;
    assert nca == encrypted + file[NCA_HEADER..];
    p := Parts(encrypted, table, Zeros(padding), pfs0, Zeros(tail), levels, Zeros(end));
    HeaderReplaced(encrypted, table, Zeros(padding), pfs0, Zeros(tail), Concat(levels), Zeros(end));
    assert |p.ExeFs()| == exefsEnd;
  }

  /** Both sections are found where the header says. */
  lemma ProgramLayout(sha: Sha, p: Parts, fs0: FsHeader, fs1: FsHeader, romfs: Bytes)
    requires HashesOf(sha, p.pfs0, EXEFS_BLOCK, p.table) && (|p.table| + |p.padding|) % MEDIA == 0
    requires fs0 == Pfs0Fs(Hash(sha, p.table), |p.table|, |p.table| + |p.padding|, |p.pfs0|)
    requires |p.levels| == 6 && p.levels[5] == PaddedImage(romfs) && HashTree(sha, p.levels)
    requires DescribesLevels(sha, fs1, p.levels, |romfs|)
    ensures Pfs0At(sha, p.File(), |p.header|, fs0, p.pfs0, EXEFS_BLOCK)
    ensures RomfsAt(sha, p.File(), |p.ExeFs()|, fs1, romfs)
  {
    var rest := p.tail + Concat(p.levels) + p.end;
    assert p.File() == p.header + p.table + p.padding + p.pfs0 + rest;
    Pfs0InPlace(sha, p.header, p.table, p.padding, p.pfs0, rest, EXEFS_BLOCK);
    LevelsInPlace(sha, p.ExeFs(), p.levels, p.end, fs1, romfs);
  }

  /** `createProgramNca`: ExeFS as section 0, RomFS as section 1, then the header over its place. */
  method CreateProgramNca(sha: Sha, exefs: seq<P.FileEntry>, romfs: Bytes, encrypted: Bytes)
    returns (nca: Bytes, h: NcaHeader, pfs0: Bytes, ghost base: nat)
    requires |encrypted| == 0xC00
    ensures pfs0 == P.Image(exefs) && h.Valid() && |nca| == h.size && |nca| % 0x200 == 0
    // the sections tile the file from the end of the header
    ensures |nca| < 0x200_0000_0000 ==> h.sections[0].start * 0x200 == 0xC00
    ensures |nca| < 0x200_0000_0000 ==> h.sections[0].end * 0x200 == h.sections[1].start * 0x200 == base
    ensures |nca| < 0x200_0000_0000 ==> h.sections[1].end * 0x200 == |nca|
    // and hold the two file systems under their hash trees
    ensures Pfs0At(sha, nca, 0xC00, h.fs[0], pfs0, 0x10000)
    ensures RomfsAt(sha, nca, base, h.fs[1], romfs)
  {
    pfs0 := P.BuildPfs0(exefs);
    ghost var p;
    nca, h, p := AssembleProgramNca(sha, pfs0, romfs, encrypted);
    base := |p.ExeFs()|;
    ProgramLayout(sha, p, h.fs[0], h.fs[1], romfs);
  }

  /** Writing the header over its place leaves both sections where they are. */
  lemma HeaderReplaced(header: Bytes, a: Bytes, b: Bytes, c: Bytes, d: Bytes, e: Bytes, f: Bytes)
    requires |header| == NCA_HEADER
    ensures var file := Zeros(NCA_HEADER) + a + b + c + d + e + f;
            && header + file[NCA_HEADER..] == header + a + b + c + (d + e + f)
            && header + file[NCA_HEADER..] == (header + a + b + c + d) + e + f
  {
    var file := Zeros(NCA_HEADER) + a + b + c + d + e + f;
    assert file == Zeros(NCA_HEADER) + (a + b + c + d + e + f);
    assert file[NCA_HEADER..] == a + b + c + d + e + f;
  }
}
