/** Byte sequences, shared by every module. */
module Bytes {
  type byte = b: int | 0 <= b < 256

  type Bytes = seq<byte>

  datatype Option<+T> = None | Some(value: T)

  lemma Assoc<T>(a: seq<T>, b: seq<T>, c: seq<T>)
    ensures (a + b) + c == a + (b + c)
  {
  }

  /** All pieces in order. */
  function Concat(xs: seq<Bytes>): Bytes {
    if xs == [] then [] else Concat(xs[..|xs| - 1]) + xs[|xs| - 1]
  }

  lemma ConcatSnoc(xs: seq<Bytes>, x: Bytes)
    ensures Concat(xs + [x]) == Concat(xs) + x
  {
    assert (xs + [x])[..|xs|] == xs;
  }

  lemma {:induction false} ConcatPrefix(xs: seq<Bytes>, n: nat)
    requires n <= |xs|
    ensures Concat(xs[..n]) <= Concat(xs)
  {
    if n < |xs| {
      ConcatPrefix(xs[..|xs| - 1], n);
      assert xs[..|xs| - 1][..n] == xs[..n];
    } else {
      assert xs[..n] == xs;
    }
  }

  /** Where piece i starts in the whole. */
  function Start(parts: seq<Bytes>, i: nat): nat
    requires i <= |parts|
  {
    |Concat(parts[..i])|
  }

  /** A piece is a slice of the whole. */
  lemma {:induction false} PartIsSlice(parts: seq<Bytes>, i: nat)
    requires i < |parts|
    ensures Start(parts, i) + |parts[i]| == Start(parts, i + 1) <= |Concat(parts)|
    ensures Concat(parts)[Start(parts, i)..Start(parts, i + 1)] == parts[i]
  {
    assert parts[..i + 1] == parts[..i] + [parts[i]];
    ConcatSnoc(parts[..i], parts[i]);
    ConcatPrefix(parts, i + 1);
    var whole, upTo := Concat(parts), Concat(parts[..i + 1]);
    assert whole[..|upTo|] == upTo;
    assert whole[Start(parts, i)..Start(parts, i + 1)] == upTo[Start(parts, i)..];
  }

  lemma SliceOfPart(parts: seq<Bytes>, i: nat, local: nat, n: nat)
    requires i < |parts| && local + n <= |parts[i]|
    ensures Start(parts, i) + local + n <= |Concat(parts)|
    ensures parts[i][local..local + n] == Concat(parts)[Start(parts, i) + local..Start(parts, i) + local + n]
  {
    PartIsSlice(parts, i);
    SliceOfSlice(Concat(parts), Start(parts, i), Start(parts, i + 1), local, local + n);
  }

  lemma {:induction false} StartsAscend(parts: seq<Bytes>, i: nat, j: nat)
    requires i <= j <= |parts|
    ensures Start(parts, i) <= Start(parts, j)
  {
    assert parts[..j][..i] == parts[..i];
    ConcatPrefix(parts[..j], i);
  }

  lemma SliceOfSlice(p: Bytes, a: nat, b: nat, x: nat, y: nat)
    requires a <= b <= |p| && x <= y <= b - a
    ensures p[a..b][x..y] == p[a + x..a + y]
  {
    var s, t := p[a..b][x..y], p[a + x..a + y];
    assert |s| == |t| && forall k :: 0 <= k < |s| ==> s[k] == t[k];
  }

  lemma SliceJoin(p: Bytes, a: nat, b: nat, c: nat)
    requires a <= b <= c <= |p|
    ensures p[a..b] + p[b..c] == p[a..c]
  {
  }

  /** n little-endian bytes, lowest first; the value is truncated to them. */
  function Le(value: nat, n: nat): (b: Bytes)
    ensures |b| == n
  {
    if n == 0 then [] else [value % 256] + Le(value / 256, n - 1)
  }

  function FromLe(b: Bytes): nat {
    if b == [] then 0 else b[0] + 256 * FromLe(b[1..])
  }

  function Pow256(n: nat): nat { if n == 0 then 1 else 256 * Pow256(n - 1) }

  lemma {:induction false} LeRoundTrip(value: nat, n: nat)
    requires value < Pow256(n)
    ensures FromLe(Le(value, n)) == value
  {
    if n > 0 {
      LeRoundTrip(value / 256, n - 1);
      assert Le(value, n)[1..] == Le(value / 256, n - 1);
    }
  }

  lemma {:induction false} FromLeBound(b: Bytes)
    ensures FromLe(b) < Pow256(|b|)
  {
    if b != [] {
      FromLeBound(b[1..]);
    }
  }

  const U32_LIMIT := 0x1_0000_0000
  const U64_LIMIT := 0x1_0000_0000_0000_0000

  lemma WordSizes()
    ensures Pow256(2) == 0x1_0000 && Pow256(4) == U32_LIMIT && Pow256(8) == U64_LIMIT
  {
    assert Pow256(4) == 256 * (256 * (256 * (256 * Pow256(0))));
    assert Pow256(8) == 256 * (256 * (256 * (256 * Pow256(4))));
  }
}
