/**
  The reader that shows an NSP split into FAT32-sized parts as one byte sequence.  Opening, seeking
  and reading a part do not fail here: the claim is about the arithmetic over the parts.
 */
module PackageReader {
  import opened Bytes

  class Reader {
    const parts: seq<Bytes>  // the backing files
    var partStarts: seq<nat>
    var partSizes: seq<nat>
    var totalSize: nat
    var position: nat
    var currentPart: Option<nat>  // the part whose stream is open ...
    var streamPos: nat            // ... and its read position

    ghost predicate Valid()
      reads this
    {
      && |partStarts| == |partSizes| == |parts| > 0
      && (forall i :: 0 <= i < |parts| ==> partStarts[i] == Start(parts, i) && partSizes[i] == |parts[i]|)
      && totalSize == |Concat(parts)|
      && position <= totalSize
      && currentPart.Some? && currentPart.value < |parts|
    }

    constructor (parts: seq<Bytes>)
      ensures this.parts == parts
    {
      this.parts := parts;
      partStarts, partSizes, totalSize, position, currentPart, streamPos := [], [], 0, 0, None, 0;
    }

    method Open() returns (ok: bool)
      modifies this
      ensures ok <==> parts != []
      ensures ok ==> Valid() && position == 0
    {
      partStarts, partSizes, totalSize, position, currentPart := [], [], 0, 0, None;
      if parts == [] {
        return false;
      }
      for i := 0 to |parts|
        invariant |partStarts| == |partSizes| == i
        invariant forall k :: 0 <= k < i ==> partStarts[k] == Start(parts, k) && partSizes[k] == |parts[k]|
        invariant totalSize == Start(parts, i) && position == 0 && currentPart.None?
      {
        PartIsSlice(parts, i);
        partStarts := partStarts + [totalSize];
        partSizes := partSizes + [|parts[i]|];
        totalSize := totalSize + |parts[i]|;
      }
      assert parts[..|parts|] == parts;
      ok := OpenPart(0, 0);
    }

    method OpenPart(index: nat, localOffset: nat) returns (ok: bool)
      modifies this`currentPart, this`streamPos
      ensures ok <==> index < |parts|
      ensures ok ==> currentPart == Some(index) && streamPos == localOffset
      ensures !ok ==> currentPart == old(currentPart)
    {
      if index >= |parts| {
        return false;
      }
      if currentPart != Some(index) {
        currentPart := Some(index);
      }
      streamPos := localOffset;
      ok := true;
    }

    /** `std::upper_bound` over the part starts, by bisection. */
    method UpperBound(offset: nat) returns (k: nat)
      requires Valid()
      ensures k <= |parts|
      ensures forall i :: 0 <= i < k ==> partStarts[i] <= offset
      ensures forall i :: k <= i < |parts| ==> partStarts[i] > offset
    {
      var hi := |parts|;
      k := 0;
      while k < hi
        invariant 0 <= k <= hi <= |parts|
        invariant forall i :: 0 <= i < k ==> partStarts[i] <= offset
        invariant forall i :: hi <= i < |parts| ==> partStarts[i] > offset
      {
        var mid := (k + hi) / 2;
        if partStarts[mid] > offset {
          forall i | mid <= i < |parts| ensures partStarts[i] > offset { StartsAscend(parts, mid, i); }
          hi := mid;
        } else {
          forall i | 0 <= i <= mid ensures partStarts[i] <= offset { StartsAscend(parts, i, mid); }
          k := mid + 1;
        }
      }
    }

    /** The part that holds the byte at a logical offset; the end belongs to the last part. */
    method LocatePart(offset: nat) returns (idx: Option<nat>, local: nat)
      requires Valid()
      ensures idx.Some? <==> offset <= totalSize
      ensures idx.Some? ==> idx.value < |parts| && local <= |parts[idx.value]|
      ensures idx.Some? ==> Start(parts, idx.value) + local == offset
      ensures idx.Some? && offset < totalSize ==> local < |parts[idx.value]|
    {
      if offset > totalSize {
        return None, 0;
      }
      if offset == totalSize {
        PartIsSlice(parts, |parts| - 1);
        assert parts[..|parts|] == parts;
        return Some(|parts| - 1), partSizes[|parts| - 1];
      }
      var k := UpperBound(offset);
      assert partStarts[0] == 0;
      var i := if k == 0 then 0 else k - 1;
      PartIsSlice(parts, i);
      assert parts[..|parts|] == parts;
      assert k < |parts| ==> partStarts[k] == Start(parts, k);
      return Some(i), offset - partStarts[i];
    }

    method Seek(offset: nat) returns (ok: bool)
      requires Valid()
      modifies this`position, this`currentPart, this`streamPos
      ensures Valid()
      ensures ok <==> offset <= |Concat(parts)|
      ensures position == if ok then offset else old(position)
    {
      var idx, local := LocatePart(offset);
      if idx.None? {
        return false;
      }
      ok := OpenPart(idx.value, local);
      if ok {
        position := offset;
      }
    }

    /** What one part can give of the next n bytes. */
    method ReadChunk(n: nat) returns (chunk: Bytes)
      requires Valid() && 0 < n && position + n <= totalSize
      modifies this`position, this`currentPart, this`streamPos
      ensures Valid() && 0 < |chunk| <= n && position == old(position) + |chunk|
      ensures chunk == Concat(parts)[old(position)..position]
    {
      var idx, local := LocatePart(position);
      var _ := OpenPart(idx.value, local);
      var available := partSizes[idx.value] - local;
      var take := if n < available then n else available;
      SliceOfPart(parts, idx.value, local, take);
      chunk := parts[idx.value][streamPos..streamPos + take];
      position := position + take;
    }

    method Read(n: nat) returns (ok: bool, out: Bytes)
      requires Valid()
      modifies this`position, this`currentPart, this`streamPos
      ensures Valid()
      ensures ok <==> n == 0 || old(position) + n <= |Concat(parts)|
      ensures ok ==> out == (if n == 0 then [] else Concat(parts)[old(position)..old(position) + n])
      ensures position == if ok then old(position) + n else old(position)
    {
      out := [];
      if n == 0 {
        return true, [];
      }
      if position > totalSize || n > totalSize - position {
        return false, [];
      }
      ghost var whole, from := Concat(parts), position;
      while |out| < n
        invariant Valid() && |out| <= n && position == from + |out|
        invariant out == whole[from..position]
        decreases n - |out|
      {
        var chunk := ReadChunk(n - |out|);
        assert whole[from..position] == whole[from..position - |chunk|] + chunk;
        out := out + chunk;
      }
      ok := true;
    }
  }
}
