/** MTP strings and object property lists: the encoders, the decoders, and their round trips. */
module MtpCodec {
  import opened Bytes

  // ----- Strings -----

  /** A scalar value of the basic multilingual plane other than NUL. */
  predicate Bmp(cp: nat) { 0 < cp < 0x1_0000 && !(0xD800 <= cp <= 0xDFFF) }

  /** UTF-8 as in section 3 of RFC 3629. */
  function Utf8Char(cp: nat): (b: Bytes)
    requires cp < 0x1_0000
    ensures 1 <= |b| <= 3
  {
    if cp < 0x80 then [cp]
    else if cp < 0x800 then [0xC0 + cp / 64, 0x80 + cp % 64]
    else [0xE0 + cp / 4096, 0x80 + cp / 64 % 64, 0x80 + cp % 64]
  }

  function Utf8(cps: seq<nat>): Bytes
    requires forall cp :: cp in cps ==> Bmp(cp)
  {
    if cps == [] then [] else assert Bmp(cps[0]); Utf8Char(cps[0]) + Utf8(cps[1..])
  }

  /** The payload of a continuation byte. */
  function Low6(b: byte): int { (b as int) % 64 }

  /** One step of the decoding loop: the UTF-16 unit and the number of bytes used. */
  function NextChar(value: Bytes): (r: (nat, nat))
    requires value != []
    ensures r.0 < 0x1_0000 && 1 <= r.1 <= |value|
  {
    var c: int := value[0];
    var (cp: int, used: int) :=
      if c < 0x80 then (c, 1)
      else if c / 32 == 6 && |value| > 1 then (c % 32 * 64 + Low6(value[1]), 2)
      else if c / 16 == 14 && |value| > 2 then (c % 16 * 4096 + Low6(value[1]) * 64 + Low6(value[2]), 3)
      else (0x3F, 1);
    (if cp < 0x1_0000 && !(0xD800 <= cp <= 0xDFFF) then cp else 0x3F, used)
  }

  /** At most n UTF-16 units of a text. */
  function Chars(value: Bytes, n: nat): (cs: seq<nat>)
    ensures |cs| <= n && forall c :: c in cs ==> c < 0x1_0000
  {
    if value == [] || n == 0 then []
    else var (c, used) := NextChar(value); [c] + Chars(value[used..], n - 1)
  }

  function Units(cs: seq<nat>): (b: Bytes)
    ensures |b| == 2 * |cs|
  {
    if cs == [] then [] else Le(cs[0], 2) + Units(cs[1..])
  }

  const MAX_CHARS := 253

  /** The count with its NUL, the units, the NUL. */
  function StringBytes(value: Bytes): Bytes {
    if value == [] then [0]
    else var cs := Chars(value, MAX_CHARS); [(|cs| + 1) as byte] + Units(cs) + [0, 0]
  }

  /** The text of a run of units, up to the first NUL. */
  function TextOf(units: Bytes, n: nat): Bytes
    requires 2 * n <= |units|
  {
    if n == 0 || FromLe(units[..2]) == 0 then []
    else
      assert FromLe(units[..2]) < 0x1_0000 by { WordSizes(); FromLeBound(units[..2]); }
      Utf8Char(FromLe(units[..2])) + TextOf(units[2..], n - 1)
  }

  /** What `utf16Name` returns; None when the string is cut off. */
  function NameOf(p: Bytes): Option<Bytes> {
    if p == [] then None
    else if p[0] == 0 then Some([])
    else
      var count: int := p[0];
      if 1 + 2 * count > |p| then None else Some(TextOf(p[1..], count - 1))
  }

  /** The decoding loop of `addString`. */
  method CollectChars(value: Bytes, max: nat) returns (chars: seq<nat>)
    ensures chars == Chars(value, max)
  {
    chars := [];
    var i, room := 0, max;
    var left := value;  // value from i on
    while i < |value| && room > 0
      invariant i + |left| == |value| && left == value[i..] && |chars| + room == max
      invariant chars + Chars(left, room) == Chars(value, max)
      decreases room
    {
      var (c, used) := NextChar(left);
      Assoc(chars, [c], Chars(left[used..], room - 1));
      chars, left := chars + [c], left[used..];
      i, room := i + used, room - 1;
    }
  }

  method AddUnits(out: Bytes, chars: seq<nat>) returns (r: Bytes)
    ensures r == out + Units(chars)
  {
    r := out;
    for k := 0 to |chars|
      invariant r + Units(chars[k..]) == out + Units(chars)
    {
      assert chars[k..][1..] == chars[k + 1..];
      r := r + Le(chars[k], 2);
    }
    assert chars[|chars|..] == [];
  }

  method AddString(out: Bytes, value: Bytes) returns (r: Bytes)
    ensures r == out + StringBytes(value)
  {
    if value == [] {
      return out + [0];
    }
    var chars := CollectChars(value, MAX_CHARS);
    r := AddUnits(out + [|chars| + 1], chars);
    r := r + [0, 0];
    Regroup(out, [|chars| + 1], Units(chars), [0, 0]);
  }

  lemma Regroup(a: Bytes, b: Bytes, c: Bytes, d: Bytes)
    ensures ((a + b) + c) + d == a + (b + c + d)
  {
  }

  lemma TextStep(p: Bytes, at: nat, n: nat)
    requires at + 2 * n <= |p| && n > 0
    ensures var ch := FromLe(p[at..at + 2]);
            && ch < 0x1_0000
            && TextOf(p[at..], n) == if ch == 0 then [] else Utf8Char(ch) + TextOf(p[at + 2..], n - 1)
  {
    WordSizes();
    FromLeBound(p[at..at + 2]);
    assert p[at..][..2] == p[at..at + 2] && p[at..][2..] == p[at + 2..];
  }

  /** What has been decoded, followed by the units still to come, is the text. */
  ghost predicate Decoded(units: Bytes, at: nat, left: nat, out: Bytes, text: Bytes) {
    at + 2 * left <= |units| && out + TextOf(units[at..], left) == text
  }

  lemma DecodedNext(units: Bytes, at: nat, left: nat, out: Bytes, text: Bytes)
    requires left > 0 && Decoded(units, at, left, out, text)
    ensures FromLe(units[at..at + 2]) < 0x1_0000
    ensures FromLe(units[at..at + 2]) == 0 ==> out == text
    ensures FromLe(units[at..at + 2]) != 0 ==>
              Decoded(units, at + 2, left - 1, out + Utf8Char(FromLe(units[at..at + 2])), text)
  {
    TextStep(units, at, left);
    var ch := FromLe(units[at..at + 2]);
    if ch == 0 {
      assert out + [] == out;
    } else {
      Assoc(out, Utf8Char(ch), TextOf(units[at + 2..], left - 1));
    }
  }

  /** The loop of `utf16Name`. */
  method DecodeUnits(units: Bytes, n: nat) returns (out: Bytes)
    requires 2 * n <= |units|
    ensures out == TextOf(units, n)
  {
    ghost var text := TextOf(units, n);
    out := [];
    assert units[0..] == units;
    var at := 0;
    for i := 0 to n
      invariant at == 2 * i && Decoded(units, at, n - i, out, text)
    {
      DecodedNext(units, at, n - i, out, text);
      var ch := FromLe(units[at..at + 2]);
      if ch == 0 {
        return;
      }
      out := out + Utf8Char(ch);
      at := at + 2;
    }
    assert out + [] == out;
  }

  method Utf16Name(p: Bytes) returns (name: Option<Bytes>)
    ensures name == NameOf(p)
  {
    if p == [] {
      return None;
    }
    var count: int := p[0];
    if count == 0 {
      return Some([]);
    }
    if 1 + 2 * count > |p| {
      return None;
    }
    var out := DecodeUnits(p[1..], count - 1);
    return Some(out);
  }

  lemma TwoBytes(cp: nat)
    requires 0x80 <= cp < 0x800
    ensures (0xC0 + cp / 64) / 32 == 6 && (0xC0 + cp / 64) % 32 == cp / 64
    ensures (0x80 + cp % 64) % 64 == cp % 64 && cp / 64 * 64 + cp % 64 == cp
  {
  }

  lemma ThreeBytes(cp: nat)
    requires 0x800 <= cp < 0x1_0000
    ensures var h := cp / 4096; (0xE0 + h) / 32 == 7 && (0xE0 + h) / 16 == 14 && (0xE0 + h) % 16 == h
    ensures (0x80 + cp / 64 % 64) % 64 == cp / 64 % 64 && (0x80 + cp % 64) % 64 == cp % 64
    ensures cp / 4096 * 4096 + cp / 64 % 64 * 64 + cp % 64 == cp
  {
    assert cp / 4096 == cp / 64 / 64;
  }

  /** Decoding one encoded character gives it back. */
  lemma NextCharOfUtf8(cp: nat, rest: Bytes)
    requires Bmp(cp)
    ensures NextChar(Utf8Char(cp) + rest) == (cp, |Utf8Char(cp)|)
  {
    var v := Utf8Char(cp) + rest;
    if cp < 0x80 {
      assert v[0] == cp;
    } else if cp < 0x800 {
      TwoBytes(cp);
      var h, l := 0xC0 + cp / 64, 0x80 + cp % 64;
      assert v[0] == h && v[1] == l && Low6(v[1]) == cp % 64;
    } else {
      ThreeBytes(cp);
      var h, m, l := 0xE0 + cp / 4096, 0x80 + cp / 64 % 64, 0x80 + cp % 64;
      assert v[0] == h && v[1] == m && v[2] == l;
      assert Low6(v[1]) == cp / 64 % 64 && Low6(v[2]) == cp % 64;
    }
  }

  lemma {:induction false} CharsCons(cp: nat, rest: Bytes, n: nat)
    requires Bmp(cp) && n > 0
    ensures Chars(Utf8Char(cp) + rest, n) == [cp] + Chars(rest, n - 1)
  {
    NextCharOfUtf8(cp, rest);
    assert (Utf8Char(cp) + rest)[|Utf8Char(cp)|..] == rest;
  }

  lemma {:induction false} CharsOfUtf8(cps: seq<nat>, n: nat)
    requires (forall cp :: cp in cps ==> Bmp(cp)) && |cps| <= n
    ensures Chars(Utf8(cps), n) == cps
  {
    if cps != [] {
      assert cps[0] in cps && Utf8(cps) == Utf8Char(cps[0]) + Utf8(cps[1..]);
      CharsOfUtf8(cps[1..], n - 1);
      CharsCons(cps[0], Utf8(cps[1..]), n);
    }
  }

  lemma {:induction false} TextCons(cp: nat, rest: Bytes, n: nat)
    requires Bmp(cp) && n > 0 && 2 * n <= 2 + |rest|
    ensures TextOf(Le(cp, 2) + rest, n) == Utf8Char(cp) + TextOf(rest, n - 1)
  {
    var units := Le(cp, 2) + rest;
    assert units[..2] == Le(cp, 2) && units[2..] == rest;
    WordSizes();
    LeRoundTrip(cp, 2);
  }

  lemma {:induction false} TextOfUnits(cps: seq<nat>, rest: Bytes)
    requires forall cp :: cp in cps ==> Bmp(cp)
    ensures TextOf(Units(cps) + rest, |cps|) == Utf8(cps)
  {
    if cps != [] {
      var cp, others := cps[0], cps[1..];
      assert cp in cps && Units(cps) + rest == Le(cp, 2) + (Units(others) + rest);
      TextOfUnits(others, rest);
      TextCons(cp, Units(others) + rest, |cps|);
    }
  }

  lemma AfterCount(count: byte, units: Bytes, nul: Bytes, rest: Bytes)
    ensures ([count] + units + nul + rest)[1..] == units + (nul + rest)
  {
    Assoc([count], units, nul);
    Assoc([count], units + nul, rest);
    Assoc(units, nul, rest);
  }

  /** A counted string is its text. */
  lemma NameOfCounted(count: byte, units: Bytes, nul: Bytes, rest: Bytes)
    requires count > 0 && |units| == 2 * ((count as int) - 1) && |nul| == 2
    ensures NameOf([count] + units + nul + rest) == Some(TextOf(units + (nul + rest), (count as int) - 1))
  {
    AfterCount(count, units, nul, rest);
  }

  /** Every well-formed, NUL-free BMP string of at most 253 characters survives the wire. */
  lemma StringRoundTrip(cps: seq<nat>, rest: Bytes)
    requires (forall cp :: cp in cps ==> Bmp(cp)) && |cps| <= MAX_CHARS
    ensures NameOf(StringBytes(Utf8(cps)) + rest) == Some(Utf8(cps))
    ensures var b := StringBytes(Utf8(cps)); var count: int := b[0]; |b| == 1 + 2 * count
  {
    if cps != [] {
      CharsOfUtf8(cps, MAX_CHARS);
      NameOfCounted((|cps| + 1) as byte, Units(cps), [0, 0], rest);
      TextOfUnits(cps, [0, 0] + rest);
    }
  }

  // ----- Property lists -----

  const TYPE_UINT16 := 0x0004
  const TYPE_UINT32 := 0x0006
  const TYPE_UINT64 := 0x0008
  const TYPE_UINT128 := 0x000A
  const TYPE_STRING := 0xFFFF

  const PROP_STORAGE_ID := 0xDC01
  const PROP_OBJECT_FORMAT := 0xDC02
  const PROP_OBJECT_SIZE := 0xDC04
  const PROP_OBJECT_FILE_NAME := 0xDC07
  const PROP_PARENT := 0xDC0B
  const PROP_PERSISTENT_ID := 0xDC41

  const STORAGE_ID := 0x0001_0001
  const ROOT_PARENT := 0
  const FORMAT_UNDEFINED := 0x3000

  function ScalarSize(ty: nat): nat {
    if ty == 1 || ty == 2 then 1
    else if ty == 3 || ty == 4 then 2
    else if ty == 5 || ty == 6 then 4
    else if ty == 7 || ty == 8 then 8
    else if ty == 9 || ty == 10 then 16
    else 0
  }

  /** `mtpValueSize`: the size of the value at the front of data, if it is all there. */
  function ValueSize(ty: nat, data: Bytes): (size: Option<nat>)
    requires ty < 0x1_0000
    ensures size.Some? ==> size.value <= |data|
  {
    if ScalarSize(ty) > 0 then
      if |data| < ScalarSize(ty) then None else Some(ScalarSize(ty))
    else if ty == TYPE_STRING then
      if data == [] then None
      else var count: int := data[0]; if 1 + 2 * count > |data| then None else Some(1 + 2 * count)
    else if ty / 0x4000 % 2 == 1 && |data| >= 4 then
      var elem := ScalarSize(ty - 0x4000);
      var count := FromLe(data[..4]);
      if elem == 0 || count > (|data| - 4) / elem then None
      else
        assert count * elem <= |data| - 4 by { DivBound(count, elem, |data| - 4); }
        Some(4 + count * elem)
    else None
  }

  lemma DivBound(count: nat, elem: nat, room: nat)
    requires elem > 0 && count <= room / elem
    ensures count * elem <= room
  {
    assert room == room / elem * elem + room % elem;
    assert count * elem <= room / elem * elem by {
      assert room / elem * elem == count * elem + (room / elem - count) * elem;
    }
  }

  /** What the parser keeps of a list. */
  datatype Props = Props(name: Bytes, size: Option<nat>)

  function Keep(acc: Props, prop: nat, ty: nat, value: Bytes): Props {
    if prop == PROP_OBJECT_FILE_NAME && ty == TYPE_STRING then
      match NameOf(value)
      case Some(name) => if name == [] then acc else acc.(name := name)
      case None => acc
    else if prop == PROP_OBJECT_SIZE && ty == TYPE_UINT64 && |value| == 8 then
      acc.(size := Some(FromLe(value)))
    else acc
  }

  /** The first n items of a list: what is kept, and the bytes after them. */
  function ParseItems(data: Bytes, n: nat, acc: Props): Option<(Props, Bytes)> {
    if n == 0 then Some((acc, data))
    else if |data| < 8 then None
    else
      assert FromLe(data[6..8]) < 0x1_0000 by { WordSizes(); FromLeBound(data[6..8]); }
      var prop, ty := FromLe(data[4..6]), FromLe(data[6..8]);
      match ValueSize(ty, data[8..])
      case None => None
      case Some(size) =>
        if size == 0 then None
        else ParseItems(data[8 + size..], n - 1, Keep(acc, prop, ty, data[8..8 + size]))
  }

  /** A whole list: every byte must be used and a name must be given. */
  function ParseList(data: Bytes): Option<Props> {
    if |data| < 4 || FromLe(data[..4]) > 256 then None
    else
      match ParseItems(data[4..], FromLe(data[..4]), Props([], None))
      case None => None
      case Some((props, rest)) => if rest != [] || props.name == [] then None else Some(props)
  }

  datatype PropItem = PropItem(prop: nat, ty: nat, value: Bytes)

  /** The item at an offset, if it is whole. */
  function ItemAt(data: Bytes, offset: nat): (item: Option<PropItem>)
    requires offset <= |data|
    ensures item.Some? ==> offset + 8 + |item.value.value| <= |data|
  {
    if offset + 8 > |data| then None
    else
      assert FromLe(data[offset + 6..offset + 8]) < 0x1_0000 by { WordSizes(); FromLeBound(data[offset + 6..offset + 8]); }
      var prop, ty := FromLe(data[offset + 4..offset + 6]), FromLe(data[offset + 6..offset + 8]);
      match ValueSize(ty, data[offset + 8..])
      case None => None
      case Some(size) => if size == 0 then None else Some(PropItem(prop, ty, data[offset + 8..offset + 8 + size]))
  }

  /** Parsing from an offset takes the item there first. */
  lemma ItemsFrom(data: Bytes, offset: nat, n: nat, acc: Props)
    requires offset <= |data| && n > 0
    ensures ParseItems(data[offset..], n, acc) ==
              match ItemAt(data, offset)
              case None => None
              case Some(item) =>
                ParseItems(data[offset + 8 + |item.value|..], n - 1, Keep(acc, item.prop, item.ty, item.value))
  {
    if offset + 8 <= |data| {
      SameItem(data, offset);
      ParseItemsHead(data[offset..], n, acc);
      var item := ItemAt(data, offset);
      if item.Some? {
        assert data[offset..][8 + |item.value.value|..] == data[offset + 8 + |item.value.value|..];
      }
    }
  }

  lemma ParseItemsHead(data: Bytes, n: nat, acc: Props)
    requires n > 0
    ensures ParseItems(data, n, acc) ==
              match ItemAt(data, 0)
              case None => None
              case Some(item) => ParseItems(data[8 + |item.value|..], n - 1, Keep(acc, item.prop, item.ty, item.value))
  {
  }

  lemma SameItem(data: Bytes, offset: nat)
    requires offset + 8 <= |data|
    ensures ItemAt(data[offset..], 0) == ItemAt(data, offset)
  {
    var item := data[offset..];
    assert item[4..6] == data[offset + 4..offset + 6] && item[6..8] == data[offset + 6..offset + 8];
    assert item[8..] == data[offset + 8..];
    WordSizes();
    FromLeBound(item[6..8]);
    var size := ValueSize(FromLe(item[6..8]), item[8..]);
    if size.Some? {
      assert item[8..8 + size.value] == data[offset + 8..offset + 8 + size.value];
    }
  }

  /** One turn of the loop; n items are still to come. */
  method ParseItem(data: Bytes, offset: nat, ghost n: nat, acc: Props) returns (ok: bool, props: Props, next: nat)
    requires offset <= |data| && n > 0
    ensures ok ==> offset <= next <= |data|
    ensures ParseItems(data[offset..], n, acc) == if ok then ParseItems(data[next..], n - 1, props) else None
  {
    ItemsFrom(data, offset, n, acc);
    var item := ItemAt(data, offset);
    if item.None? {
      return false, acc, offset;
    }
    next := offset + 8 + |item.value.value|;
    props := Keep(acc, item.value.prop, item.value.ty, item.value.value);
    ok := true;
  }

  /** The parsing loop of `handleSendObjectPropList`. */
  method ParsePropList(data: Bytes) returns (r: Option<Props>)
    ensures r == ParseList(data)
  {
    if |data| < 4 {
      return None;
    }
    var count := FromLe(data[..4]);
    if count > 256 {
      return None;
    }
    var offset, props := 4, Props([], None);
    for i := 0 to count
      invariant 4 <= offset <= |data|
      invariant ParseItems(data[offset..], count - i, props) == ParseItems(data[4..], count, Props([], None))
    {
      var ok;
      ok, props, offset := ParseItem(data, offset, count - i, props);
      if !ok {
        return None;
      }
    }
    assert offset == |data| <==> data[offset..] == [];
    return if offset != |data| || props.name == [] then None else Some(props);
  }

  function Item(handle: nat, prop: nat, ty: nat, value: Bytes): Bytes {
    Le(handle, 4) + Le(prop, 2) + Le(ty, 2) + value
  }

  const ALL_PROPS := [PROP_STORAGE_ID, PROP_OBJECT_FORMAT, PROP_OBJECT_SIZE,
                      PROP_OBJECT_FILE_NAME, PROP_PARENT, PROP_PERSISTENT_ID]

  /** The type and value `makeObjectPropList` writes for a property. */
  function PropValue(prop: nat, o: Object): (nat, Bytes)
    requires prop in ALL_PROPS
  {
    if prop == PROP_STORAGE_ID then (TYPE_UINT32, Le(STORAGE_ID, 4))
    else if prop == PROP_OBJECT_FORMAT then (TYPE_UINT16, Le(FORMAT_UNDEFINED, 2))
    else if prop == PROP_OBJECT_SIZE then (TYPE_UINT64, Le(o.size, 8))
    else if prop == PROP_OBJECT_FILE_NAME then (TYPE_STRING, StringBytes(o.name))
    else if prop == PROP_PARENT then (TYPE_UINT32, Le(ROOT_PARENT, 4))
    else (TYPE_UINT128, Le(o.handle, 8) + Le(0, 8))
  }

  function Items(props: seq<nat>, o: Object): Bytes
    requires Known(props)
  {
    if props == [] then []
    else
      assert props[0] in props;
      var (ty, value) := PropValue(props[0], o);
      Item(o.handle, props[0], ty, value) + Items(props[1..], o)
  }

  /** One item at the front of the data is taken whole. */
  lemma ItemParses(handle: nat, prop: nat, ty: nat, value: Bytes, rest: Bytes, n: nat, acc: Props)
    requires n > 0 && prop < 0x1_0000 && ty < 0x1_0000 && value != []
    requires ValueSize(ty, value + rest) == Some(|value|)
    ensures ParseItems(Item(handle, prop, ty, value) + rest, n, acc)
         == ParseItems(rest, n - 1, Keep(acc, prop, ty, value))
  {
    var data := Item(handle, prop, ty, value) + rest;
    assert data[4..6] == Le(prop, 2) && data[6..8] == Le(ty, 2);
    WordSizes();
    LeRoundTrip(prop, 2);
    LeRoundTrip(ty, 2);
    assert data[8..] == value + rest && data[8..8 + |value|] == value && data[8 + |value|..] == rest;
  }

  /** The object the server shows. */
  datatype Object = Object(handle: nat, name: Bytes, size: nat) {
    predicate InRange() { handle < U32_LIMIT && size < U64_LIMIT }
  }

  // ----- A list byte by byte -----

  /** The bytes of one item: handle, property, type, value. */
  function Wire(o: Object, prop: nat): Bytes
    requires prop in {0xDC01, 0xDC02, 0xDC04, 0xDC07, 0xDC0B, 0xDC41}
  {
    Le(o.handle, 4) +
    (if prop == 0xDC01 then [0x01, 0xDC, 0x06, 0x00] + [0x01, 0x00, 0x01, 0x00]  // storage 0x00010001
     else if prop == 0xDC02 then [0x02, 0xDC, 0x04, 0x00] + [0x00, 0x30]         // format 0x3000
     else if prop == 0xDC04 then [0x04, 0xDC, 0x08, 0x00] + Le(o.size, 8)
     else if prop == 0xDC07 then [0x07, 0xDC, 0xFF, 0xFF] + StringBytes(o.name)
     else if prop == 0xDC0B then [0x0B, 0xDC, 0x06, 0x00] + [0x00, 0x00, 0x00, 0x00]  // parent: the root
     else [0x41, 0xDC, 0x0A, 0x00] + (Le(o.handle, 8) + [0, 0, 0, 0, 0, 0, 0, 0]))
  }

  lemma {:induction false} TwoLow(value: nat)
    ensures Le(value, 2) == [value % 256, value / 256 % 256]
  {
    assert Le(value, 2) == [value % 256] + Le(value / 256, 1) && Le(value / 256, 1) == [value / 256 % 256] + Le(value / 256 / 256, 0);
  }

  lemma {:induction false} FourLow(value: nat)
    ensures Le(value, 4) == [value % 256, value / 256 % 256] + Le(value / 256 / 256, 2)
  {
    assert Le(value, 4) == [value % 256] + Le(value / 256, 3) && Le(value / 256, 3) == [value / 256 % 256] + Le(value / 256 / 256, 2);
  }

  lemma {:induction false} EightZeros()
    ensures Le(0, 8) == [0, 0, 0, 0, 0, 0, 0, 0]
  {
    assert Le(0, 8) == [0] + Le(0, 7) && Le(0, 7) == [0] + Le(0, 6) && Le(0, 6) == [0] + Le(0, 5) && Le(0, 5) == [0] + Le(0, 4);
    FourLow(0);
    TwoLow(0);
  }

  /** The constants among the values. */
  lemma {:induction false} ConstantBytes()
    ensures Le(STORAGE_ID, 4) == [0x01, 0x00, 0x01, 0x00] && Le(ROOT_PARENT, 4) == [0x00, 0x00, 0x00, 0x00]
    ensures Le(FORMAT_UNDEFINED, 2) == [0x00, 0x30] && Le(0, 8) == [0, 0, 0, 0, 0, 0, 0, 0]
  {
    FourLow(STORAGE_ID);
    TwoLow(1);
    FourLow(ROOT_PARENT);
    TwoLow(0);
    TwoLow(FORMAT_UNDEFINED);
    EightZeros();
  }

  /** What is written for a property are these bytes. */
  lemma {:induction false} ItemIsWire(o: Object, prop: nat)
    requires prop in ALL_PROPS
    ensures Item(o.handle, prop, PropValue(prop, o).0, PropValue(prop, o).1) == Wire(o, prop)
  {
    var (ty, value) := PropValue(prop, o);
    TwoLow(prop);
    TwoLow(ty);
    ConstantBytes();
    HeadAndValue(Le(o.handle, 4), Le(prop, 2), Le(ty, 2), [prop % 256, prop / 256 % 256, ty % 256, ty / 256 % 256], value);
  }

  lemma {:induction false} HeadAndValue(a: Bytes, b: Bytes, c: Bytes, head: Bytes, value: Bytes)
    requires b + c == head
    ensures a + b + c + value == a + (head + value)
  {
    assert a + b + c == a + (b + c);
  }

  lemma {:induction false} LastItemsAreWires(o: Object)
    ensures Known([0xDC07, 0xDC0B, 0xDC41])
    ensures Items([0xDC07, 0xDC0B, 0xDC41], o) == Wire(o, 0xDC07) + (Wire(o, 0xDC0B) + Wire(o, 0xDC41))
  {
    ItemsCons(0xDC41, [], o);
    ItemsCons(0xDC0B, [0xDC41], o);
    ItemsCons(0xDC07, [0xDC0B, 0xDC41], o);
    assert [0xDC41] + [] == [0xDC41] && [0xDC0B] + [0xDC41] == [0xDC0B, 0xDC41];
    assert [0xDC07] + [0xDC0B, 0xDC41] == [0xDC07, 0xDC0B, 0xDC41];
    assert Wire(o, 0xDC41) + [] == Wire(o, 0xDC41);
  }

  lemma {:induction false} ItemsAreWires(o: Object)
    ensures Items(ALL_PROPS, o) ==
              Wire(o, 0xDC01) + (Wire(o, 0xDC02) + (Wire(o, 0xDC04) + (Wire(o, 0xDC07) + (Wire(o, 0xDC0B) + Wire(o, 0xDC41)))))
  {
    var last := [0xDC07, 0xDC0B, 0xDC41];
    LastItemsAreWires(o);
    ItemsCons(0xDC04, last, o);
    ItemsCons(0xDC02, [0xDC04] + last, o);
    ItemsCons(0xDC01, [0xDC02] + ([0xDC04] + last), o);
    assert ALL_PROPS == [0xDC01] + ([0xDC02] + ([0xDC04] + last));
  }

  lemma {:induction false} ItemsCons(prop: nat, props: seq<nat>, o: Object)
    requires prop in ALL_PROPS && Known(props)
    ensures Known([prop] + props) && Items([prop] + props, o) == Wire(o, prop) + Items(props, o)
  {
    assert ([prop] + props)[1..] == props;
    ItemIsWire(o, prop);
  }

  /** The full list: a count of six, and the six items in this order. */
  lemma {:induction false} FullListIs(o: Object)
    ensures ListBytes(ALL_PROPS, o) ==
              [6, 0, 0, 0] +
              (Wire(o, 0xDC01) + (Wire(o, 0xDC02) + (Wire(o, 0xDC04) + (Wire(o, 0xDC07) + (Wire(o, 0xDC0B) + Wire(o, 0xDC41))))))
  {
    ItemsAreWires(o);
    FourLow(6);
    TwoLow(0);
  }

  lemma {:induction false} SingleIs(o: Object, prop: nat)
    requires prop in ALL_PROPS
    ensures ListBytes([prop], o) == [1, 0, 0, 0] + Wire(o, prop)
  {
    ItemsCons(prop, [], o);
    assert [prop] + [] == [prop] && Wire(o, prop) + [] == Wire(o, prop);
    FourLow(1);
    TwoLow(0);
  }

  /** The numbers in an item: its handle in 32 bits, property, type, and a value in n bytes. */
  predicate Reads(item: Bytes, handle: nat, prop: nat, ty: nat, n: nat, value: nat) {
    && |item| == 8 + n && FromLe(item[0..4]) == handle && FromLe(item[4..6]) == prop && FromLe(item[6..8]) == ty
    && FromLe(item[8..8 + n]) == value
  }

  /** Read as numbers they say what they should. */
  lemma {:induction false} WireReads(o: Object)
    requires o.InRange()
    ensures Reads(Wire(o, 0xDC01), o.handle, 0xDC01, 0x0006, 4, 0x0001_0001)
    ensures Reads(Wire(o, 0xDC02), o.handle, 0xDC02, 0x0004, 2, 0x3000)
    ensures Reads(Wire(o, 0xDC04), o.handle, 0xDC04, 0x0008, 8, o.size)
    ensures Reads(Wire(o, 0xDC0B), o.handle, 0xDC0B, 0x0006, 4, 0)
    ensures Reads(Wire(o, 0xDC41), o.handle, 0xDC41, 0x000A, 16, o.handle)
  {
    WordSizes();
    OneReads(o, 0xDC01, 0x0006, 4, 0x0001_0001);
    OneReads(o, 0xDC02, 0x0004, 2, 0x3000);
    OneReads(o, 0xDC04, 0x0008, 8, o.size);
    OneReads(o, 0xDC0B, 0x0006, 4, 0);
    LongHandle(o.handle);
    OneReads(o, 0xDC41, 0x000A, 16, o.handle);
  }

  lemma {:induction false} OneReads(o: Object, prop: nat, ty: nat, n: nat, value: nat)
    requires prop in ALL_PROPS && PropValue(prop, o) == (ty, Le(value, n))
    requires o.handle < U32_LIMIT && ty < 0x1_0000 && value < Pow256(n)
    ensures Reads(Wire(o, prop), o.handle, prop, ty, n, value)
  {
    ItemIsWire(o, prop);
    ItemReads(o.handle, prop, ty, n, value);
  }

  /** A number of 16 bytes is its low half when the high half is zero. */
  lemma {:induction false} LongHandle(handle: nat)
    requires handle < U32_LIMIT
    ensures Le(handle, 16) == Le(handle, 8) + Le(0, 8) && handle < Pow256(16)
  {
    WordSizes();
    LeSplit(handle, 8, 8);
    PowGrows(8, 16);
  }

  lemma {:induction false} LeSplit(value: nat, n: nat, m: nat)
    requires value < Pow256(n)
    ensures Le(value, n + m) == Le(value, n) + Le(0, m)
  {
    if n > 0 {
      LeSplit(value / 256, n - 1, m);
    }
  }

  lemma {:induction false} PowGrows(n: nat, m: nat)
    requires n <= m
    ensures Pow256(n) <= Pow256(m)
  {
    if n < m {
      PowGrows(n, m - 1);
    }
  }

  lemma {:induction false} ItemReads(handle: nat, prop: nat, ty: nat, n: nat, value: nat)
    requires handle < U32_LIMIT && prop < 0x1_0000 && ty < 0x1_0000 && value < Pow256(n)
    ensures Reads(Item(handle, prop, ty, Le(value, n)), handle, prop, ty, n, value)
  {
    WordSizes();
    LeRoundTrip(handle, 4);
    LeRoundTrip(prop, 2);
    LeRoundTrip(ty, 2);
    LeRoundTrip(value, n);
    FourParts(Le(handle, 4), Le(prop, 2), Le(ty, 2), Le(value, n));
  }

  lemma {:induction false} FourParts(a: Bytes, b: Bytes, c: Bytes, d: Bytes)
    requires |a| == 4 && |b| == 2 && |c| == 2
    ensures var item := a + b + c + d;
            item[0..4] == a && item[4..6] == b && item[6..8] == c && item[8..8 + |d|] == d && |item| == 8 + |d|
  {
  }

  /** `makeObjectPropList` for the current object, if there is one. */
  method MakeObjectPropList(current: Option<Object>, handle: nat, requested: nat) returns (valid: bool, d: Bytes)
    ensures current.None? ==> valid && d == Le(0, 4)
    ensures current.Some? ==>
              (valid <==> && (handle == current.value.handle || handle == 0xFFFF_FFFF)
                          && (requested == 0 || requested == 0xFFFF || requested in ALL_PROPS))
    ensures current.Some? && valid && (requested == 0 || requested == 0xFFFF) ==>
              d == ListBytes(ALL_PROPS, current.value)
    ensures current.Some? && valid && requested in ALL_PROPS ==> d == ListBytes([requested], current.value)
    ensures !valid ==> d == []
    // byte by byte
    ensures current.Some? && valid && (requested == 0 || requested == 0xFFFF) ==>
              var o := current.value;
              d == [6, 0, 0, 0] +
                   (Wire(o, 0xDC01) + (Wire(o, 0xDC02) + (Wire(o, 0xDC04) + (Wire(o, 0xDC07) + (Wire(o, 0xDC0B) + Wire(o, 0xDC41))))))
    ensures current.Some? && valid && requested != 0 && requested != 0xFFFF ==>
              && requested in {0xDC01, 0xDC02, 0xDC04, 0xDC07, 0xDC0B, 0xDC41}
              && d == [1, 0, 0, 0] + Wire(current.value, requested)
  {
    if current.None? {
      return true, Le(0, 4);
    }
    var o := current.value;
    if handle != o.handle && handle != 0xFFFF_FFFF {
      return false, [];
    }
    var selected := ALL_PROPS;
    if requested != 0xFFFF && requested != 0 {
      if requested !in ALL_PROPS {
        return false, [];
      }
      selected := [requested];
    }
    d := AddItems(Le(|selected|, 4), selected, o);
    valid := true;
    if selected == ALL_PROPS {
      FullListIs(o);
    } else {
      SingleIs(o, requested);
    }
  }

  predicate Known(props: seq<nat>) { forall p :: p in props ==> p in ALL_PROPS }

  function ListBytes(props: seq<nat>, o: Object): Bytes
    requires Known(props)
  {
    Le(|props|, 4) + Items(props, o)
  }

  method AddItems(out: Bytes, props: seq<nat>, o: Object) returns (d: Bytes)
    requires Known(props)
    ensures d == out + Items(props, o)
  {
    d := out;
    for k := 0 to |props|
      invariant d + Items(props[k..], o) == out + Items(props, o)
    {
      assert props[k..][1..] == props[k + 1..];
      var (ty, value) := PropValue(props[k], o);
      d := d + Item(o.handle, props[k], ty, value);
    }
    assert props[|props|..] == [];
  }

  /** What one property, and what a list of them, tells the parser. */
  function Note(acc: Props, prop: nat, o: Object): Props {
    if prop == PROP_OBJECT_FILE_NAME then acc.(name := o.name)
    else if prop == PROP_OBJECT_SIZE then acc.(size := Some(o.size))
    else acc
  }

  function Told(acc: Props, props: seq<nat>, o: Object): Props
    decreases props
  {
    if props == [] then acc else Told(Note(acc, props[0], o), props[1..], o)
  }

  /** Names and sizes the protocol can carry. */
  ghost predicate Representable(o: Object, cps: seq<nat>) {
    && cps != [] && |cps| <= MAX_CHARS && (forall cp :: cp in cps ==> Bmp(cp))
    && o.name == Utf8(cps) && o.size < U64_LIMIT
  }

  /** One property is taken whole, and tells what it should. */
  lemma PropParses(o: Object, cps: seq<nat>, prop: nat, rest: Bytes, n: nat, acc: Props)
    requires Representable(o, cps) && prop in ALL_PROPS && n > 0
    ensures var (ty, value) := PropValue(prop, o);
            ParseItems(Item(o.handle, prop, ty, value) + rest, n, acc)
            == ParseItems(rest, n - 1, Note(acc, prop, o))
  {
    var (ty, value) := PropValue(prop, o);
    if prop == PROP_OBJECT_FILE_NAME {
      StringRoundTrip(cps, rest);
      StringRoundTrip(cps, []);
      assert value + [] == value;
      assert (value + rest)[0] == value[0];
      assert |Utf8(cps)| > 0;
    } else if prop == PROP_OBJECT_SIZE {
      WordSizes();
      LeRoundTrip(o.size, 8);
    }
    ItemParses(o.handle, prop, ty, value, rest, n, acc);
  }

  lemma {:induction false} ItemsParse(o: Object, cps: seq<nat>, props: seq<nat>, acc: Props)
    requires Representable(o, cps) && Known(props)
    ensures ParseItems(Items(props, o), |props|, acc) == Some((Told(acc, props, o), []))
  {
    if props != [] {
      assert props[0] in props;
      PropParses(o, cps, props[0], Items(props[1..], o), |props|, acc);
      ItemsParse(o, cps, props[1..], Note(acc, props[0], o));
    }
  }

  /** The full list of an object is consumed to the last byte and gives back its name and size. */
  lemma PropListRoundTrip(o: Object, cps: seq<nat>)
    requires Representable(o, cps)
    ensures ParseList(ListBytes(ALL_PROPS, o)) == Some(Props(o.name, Some(o.size)))
  {
    var data := ListBytes(ALL_PROPS, o);
    assert data[..4] == Le(6, 4) && data[4..] == Items(ALL_PROPS, o);
    WordSizes();
    LeRoundTrip(6, 4);
    ItemsParse(o, cps, ALL_PROPS, Props([], None));
    assert Told(Props([], None), ALL_PROPS, o) == Props(o.name, Some(o.size)) by {
      AllPropsTold(o);
    }
  }

  lemma AllPropsTold(o: Object)
    ensures Told(Props([], None), ALL_PROPS, o) == Props(o.name, Some(o.size))
  {
    assert ALL_PROPS[1..] == [PROP_OBJECT_FORMAT, PROP_OBJECT_SIZE, PROP_OBJECT_FILE_NAME, PROP_PARENT, PROP_PERSISTENT_ID];
    assert ALL_PROPS[1..][1..] == [PROP_OBJECT_SIZE, PROP_OBJECT_FILE_NAME, PROP_PARENT, PROP_PERSISTENT_ID];
    assert ALL_PROPS[1..][1..][1..] == [PROP_OBJECT_FILE_NAME, PROP_PARENT, PROP_PERSISTENT_ID];
    assert ALL_PROPS[1..][1..][1..][1..] == [PROP_PARENT, PROP_PERSISTENT_ID];
    assert [PROP_PARENT, PROP_PERSISTENT_ID][1..] == [PROP_PERSISTENT_ID] && [PROP_PERSISTENT_ID][1..] == [];
    var nothing := Props([], None);
    calc {
      Told(nothing, ALL_PROPS, o);
      Told(nothing, ALL_PROPS[1..], o);
      Told(nothing, ALL_PROPS[1..][1..], o);
      Told(nothing.(size := Some(o.size)), ALL_PROPS[1..][1..][1..], o);
      Told(Props(o.name, Some(o.size)), ALL_PROPS[1..][1..][1..][1..], o);
      Told(Props(o.name, Some(o.size)), [PROP_PERSISTENT_ID], o);
      Props(o.name, Some(o.size));
    }
  }
}
