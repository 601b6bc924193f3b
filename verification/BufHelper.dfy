/** The growing byte buffer with a seek offset that the forwarder builder writes through. */
module BufHelper {
  import opened Bytes

  function Zeros(n: nat): Bytes { seq(n, _ => 0) }

  class Buffer {
    var buf: Bytes
    var offset: nat

    constructor ()
      ensures buf == [] && offset == 0
    {
      buf, offset := [], 0;
    }

    method Write(data: Bytes)
      modifies this
      ensures offset == old(offset) + |data|
      ensures old(offset) == |old(buf)| ==> buf == old(buf) + data
      ensures old(offset) + |data| <= |old(buf)| ==>
                buf == old(buf)[..old(offset)] + data + old(buf)[old(offset) + |data|..]
      ensures old(offset) <= |old(buf)| < old(offset) + |data| ==> buf == old(buf)[..old(offset)] + data
      ensures old(offset) > |old(buf)| ==> buf == old(buf) + Zeros(old(offset) - |old(buf)|) + data
    {
      var wide := buf;
      if offset + |data| > |buf| {
        wide := buf + Zeros(offset + |data| - |buf|);
      }
      buf := wide[..offset] + data + wide[offset + |data|..];
      offset := offset + |data|;
    }

    method Seek(where: nat)
      modifies this`offset
      ensures offset == where
    {
      offset := where;
    }
  }
}
