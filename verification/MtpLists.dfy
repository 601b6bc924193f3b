/**
  What the server makes of the bytes a host sends it: the size of every type of value, exactly which
  property lists are accepted, and which name and size they give; and what becomes of malformed UTF-8.
 */
module MtpLists {
  import opened Bytes
  import opened MtpCodec

  // ----- Values -----

  /** A scalar of n bytes is there if n bytes are. */
  predicate ScalarRead(ty: nat, data: Bytes, n: nat)
    requires ty < 0x1_0000
  {
    ValueSize(ty, data) == if |data| >= n then Some(n) else None
  }

  /** An array is its count and that many elements of n bytes. */
  predicate ArrayRead(ty: nat, data: Bytes, n: nat)
    requires ty < 0x1_0000
  {
    ValueSize(ty, data) ==
      if |data| >= 4 && 4 + FromLe(data[..4]) * n <= |data| then Some(4 + FromLe(data[..4]) * n) else None
  }

  /** Type by type, and no type besides these. */
  lemma {:induction false} SizeOfValue(ty: nat, data: Bytes)
    requires ty < 0x1_0000
    ensures ty in {0x0001, 0x0002} ==> ScalarRead(ty, data, 1)
    ensures ty in {0x0003, 0x0004} ==> ScalarRead(ty, data, 2)
    ensures ty in {0x0005, 0x0006} ==> ScalarRead(ty, data, 4)
    ensures ty in {0x0007, 0x0008} ==> ScalarRead(ty, data, 8)
    ensures ty in {0x0009, 0x000A} ==> ScalarRead(ty, data, 16)
    ensures ty in {0x4001, 0x4002} ==> ArrayRead(ty, data, 1)
    ensures ty in {0x4003, 0x4004} ==> ArrayRead(ty, data, 2)
    ensures ty in {0x4005, 0x4006} ==> ArrayRead(ty, data, 4)
    ensures ty in {0x4007, 0x4008} ==> ArrayRead(ty, data, 8)
    ensures ty in {0x4009, 0x400A} ==> ArrayRead(ty, data, 16)
    ensures ty == 0xFFFF ==>
              ValueSize(ty, data) ==
                if data != [] && 1 + 2 * (data[0] as int) <= |data| then Some(1 + 2 * (data[0] as int)) else None
    ensures !(0x0001 <= ty <= 0x000A) && !(0x4001 <= ty <= 0x400A) && ty != 0xFFFF ==> ValueSize(ty, data).None?
  {
    if 0x4001 <= ty <= 0x400A && |data| >= 4 {
      RoomFor(FromLe(data[..4]), ScalarSize(ty - 0x4000), |data| - 4);
    }
  }

  lemma {:induction false} RoomFor(count: nat, n: nat, room: nat)
    requires n in {1, 2, 4, 8, 16}
    ensures count <= room / n <==> count * n <= room
  {
  }

  /** What follows a whole value does not change its size. */
  lemma {:induction false} WholeValue(ty: nat, value: Bytes, rest: Bytes)
    requires ty < 0x1_0000 && ValueSize(ty, value) == Some(|value|)
    ensures ValueSize(ty, value + rest) == Some(|value|)
  {
    SizeOfValue(ty, value);
    SizeOfValue(ty, value + rest);
    if |value| >= 4 {
      assert (value + rest)[..4] == value[..4];
    }
  }

  // ----- Lists -----

  /** An item as a host sends it; the handle is not looked at. */
  datatype Sent = Sent(handle: Bytes, prop: nat, ty: nat, value: Bytes) {
    /** All of it is there and its type is known. */
    predicate Whole() {
      |handle| == 4 && prop < 0x1_0000 && ty < 0x1_0000 && value != [] && ValueSize(ty, value) == Some(|value|)
    }

    function Wire(): Bytes { handle + Le(prop, 2) + Le(ty, 2) + value }

    /** A file name that can be read and is not empty. */
    predicate Names() { prop == 0xDC07 && ty == 0xFFFF && NameOf(value).Some? && NameOf(value) != Some([]) }

    /** A size of 64 bits. */
    predicate Sizes() { prop == 0xDC04 && ty == 0x0008 && |value| == 8 }
  }

  predicate AllWhole(items: seq<Sent>) { forall i :: 0 <= i < |items| ==> items[i].Whole() }

  function WireOf(items: seq<Sent>): Bytes {
    if items == [] then [] else items[0].Wire() + WireOf(items[1..])
  }

  /** The name and the size that are left in the end. */
  function Left(acc: Props, items: seq<Sent>): Props
    decreases |items|
  {
    if items == [] then acc else Left(Keep(acc, items[0].prop, items[0].ty, items[0].value), items[1..])
  }

  /** The item at the front of the bytes. */
  lemma {:induction false} WireParses(item: Sent, rest: Bytes, n: nat, acc: Props)
    requires item.Whole() && n > 0
    ensures ParseItems(item.Wire() + rest, n, acc) == ParseItems(rest, n - 1, Keep(acc, item.prop, item.ty, item.value))
  {
    var data := item.Wire() + rest;
    assert data[4..6] == Le(item.prop, 2) && data[6..8] == Le(item.ty, 2);
    WordSizes();
    LeRoundTrip(item.prop, 2);
    LeRoundTrip(item.ty, 2);
    assert data[8..] == item.value + rest;
    WholeValue(item.ty, item.value, rest);
    assert data[8..8 + |item.value|] == item.value && data[8 + |item.value|..] == rest;
  }

  /** These items are parsed whole, with nothing left. */
  predicate Parses(items: seq<Sent>, acc: Props) {
    ParseItems(WireOf(items), |items|, acc) == Some((Left(acc, items), []))
  }

  lemma {:induction false} WiresParse(items: seq<Sent>, acc: Props)
    requires AllWhole(items)
    ensures Parses(items, acc)
    decreases |items|
  {
    if items != [] {
      var item, others := items[0], items[1..];
      assert items == [item] + others;
      WiresParse(others, Keep(acc, item.prop, item.ty, item.value));
      ParsesNext(item, others, acc);
    }
  }

  lemma {:induction false} ParsesNext(item: Sent, others: seq<Sent>, acc: Props)
    requires item.Whole() && Parses(others, Keep(acc, item.prop, item.ty, item.value))
    ensures Parses([item] + others, acc)
  {
    Cons(item, others, acc);
    WireParses(item, WireOf(others), |others| + 1, acc);
  }

  lemma {:induction false} Cons(item: Sent, others: seq<Sent>, acc: Props)
    ensures WireOf([item] + others) == item.Wire() + WireOf(others)
    ensures Left(acc, [item] + others) == Left(Keep(acc, item.prop, item.ty, item.value), others)
    ensures item.Whole() && AllWhole(others) ==> AllWhole([item] + others)
  {
    assert ([item] + others)[1..] == others;
  }

  /** Bytes that are parsed to their end are such items. */
  lemma {:induction false} ParsedIsWire(data: Bytes, n: nat, acc: Props) returns (items: seq<Sent>)
    requires ParseItems(data, n, acc).Some? && ParseItems(data, n, acc).value.1 == []
    ensures AllWhole(items) && |items| == n && data == WireOf(items)
    ensures ParseItems(data, n, acc).value.0 == Left(acc, items)
    decreases n
  {
    if n == 0 {
      items := [];
    } else {
      var item, rest := FirstParsed(data, n, acc);
      var others := ParsedIsWire(rest, n - 1, Keep(acc, item.prop, item.ty, item.value));
      Cons(item, others, acc);
      items := [item] + others;
    }
  }

  lemma {:induction false} FirstParsed(data: Bytes, n: nat, acc: Props) returns (item: Sent, rest: Bytes)
    requires n > 0 && ParseItems(data, n, acc).Some?
    ensures item.Whole() && data == item.Wire() + rest
    ensures ParseItems(data, n, acc) == ParseItems(rest, n - 1, Keep(acc, item.prop, item.ty, item.value))
  {
    item := FirstSent(data);
    rest := data[8 + |item.value|..];
    assert data == item.Wire() + rest;
    WireParses(item, rest, n, acc);
  }

  /** The item at the front of bytes that can be parsed. */
  lemma {:induction false} FirstSent(data: Bytes) returns (item: Sent)
    requires |data| >= 8
    requires FromLe(data[6..8]) < 0x1_0000 ==>
               ValueSize(FromLe(data[6..8]), data[8..]).Some? && ValueSize(FromLe(data[6..8]), data[8..]) != Some(0)
    ensures item.Whole() && 8 + |item.value| <= |data| && data[..8 + |item.value|] == item.Wire()
  {
    WordSizes();
    FromLeBound(data[4..6]);
    FromLeBound(data[6..8]);
    var prop, ty := FromLe(data[4..6]), FromLe(data[6..8]);
    var size := ValueSize(ty, data[8..]).value;
    item := Sent(data[..4], prop, ty, data[8..8 + size]);
    LeOfFromLe(data[4..6]);
    LeOfFromLe(data[6..8]);
    assert data[..8 + size] == data[..4] + data[4..6] + data[6..8] + data[8..8 + size];
    CutValue(ty, data[8..], size);
    assert data[8..][..size] == data[8..8 + size];
  }

  /** A value cut where it ends is whole. */
  lemma {:induction false} CutValue(ty: nat, data: Bytes, size: nat)
    requires ty < 0x1_0000 && ValueSize(ty, data) == Some(size)
    ensures ValueSize(ty, data[..size]) == Some(size)
  {
    SizeOfValue(ty, data);
    SizeOfValue(ty, data[..size]);
    if size >= 4 {
      assert data[..size][..4] == data[..4];
    }
  }

  lemma {:induction false} LeOfFromLe(b: Bytes)
    ensures Le(FromLe(b), |b|) == b
  {
    if b != [] {
      LeOfFromLe(b[1..]);
      LowByte(b[0], FromLe(b[1..]));
      assert b == [b[0]] + b[1..];
    }
  }

  lemma {:induction false} LowByte(low: byte, high: nat)
    ensures (low + 256 * high) % 256 == low && (low + 256 * high) / 256 == high
  {
  }

  // ----- Which name and which size -----

  /** The name is what the last item that gives one says, or what was there before. */
  ghost predicate LastNameIs(before: Bytes, items: seq<Sent>, name: Bytes) {
    if exists i :: 0 <= i < |items| && items[i].Names()
    then exists i :: LastNames(items, i) && NameOf(items[i].value) == Some(name)
    else name == before
  }

  ghost predicate LastSizeIs(before: Option<nat>, items: seq<Sent>, size: Option<nat>) {
    if exists i :: 0 <= i < |items| && items[i].Sizes()
    then exists i :: LastSizes(items, i) && size == Some(FromLe(items[i].value))
    else size == before
  }

  predicate LastNames(items: seq<Sent>, i: int) {
    0 <= i < |items| && items[i].Names() && forall j :: i < j < |items| ==> !items[j].Names()
  }

  predicate LastSizes(items: seq<Sent>, i: int) {
    0 <= i < |items| && items[i].Sizes() && forall j :: i < j < |items| ==> !items[j].Sizes()
  }

  /** Items are kept one after the other. */
  lemma {:induction false} LeftSnoc(acc: Props, items: seq<Sent>, last: Sent)
    ensures Left(acc, items + [last]) == Keep(Left(acc, items), last.prop, last.ty, last.value)
    decreases |items|
  {
    if items == [] {
      assert [] + [last] == [last] && [last][1..] == [];
    } else {
      assert (items + [last])[0] == items[0] && (items + [last])[1..] == items[1..] + [last];
      LeftSnoc(Keep(acc, items[0].prop, items[0].ty, items[0].value), items[1..], last);
    }
  }

  lemma {:induction false} LeftIsLast(acc: Props, items: seq<Sent>)
    requires AllWhole(items)
    ensures LastNameIs(acc.name, items, Left(acc, items).name) && LastSizeIs(acc.size, items, Left(acc, items).size)
    decreases |items|
  {
    if items != [] {
      var n := |items| - 1;
      var front, last := items[..n], items[n];
      LeftIsLast(acc, front);
      assert items == front + [last];
      LeftSnoc(acc, front, last);
      NameNext(acc.name, front, last, Left(acc, front));
      SizeNext(acc.size, front, last, Left(acc, front));
    }
  }

  lemma {:induction false} NameNext(before: Bytes, front: seq<Sent>, last: Sent, p: Props)
    requires LastNameIs(before, front, p.name) && last.Whole()
    ensures LastNameIs(before, front + [last], Keep(p, last.prop, last.ty, last.value).name)
  {
    var items, n := front + [last], |front|;
    assert items[n] == last && forall i :: 0 <= i < n ==> items[i] == front[i];
    if last.Names() {
      assert LastNames(items, n);
    } else if i :| LastNames(front, i) && NameOf(front[i].value) == Some(p.name) {
      assert LastNames(items, i);
    }
  }

  lemma {:induction false} SizeNext(before: Option<nat>, front: seq<Sent>, last: Sent, p: Props)
    requires LastSizeIs(before, front, p.size) && last.Whole()
    ensures LastSizeIs(before, front + [last], Keep(p, last.prop, last.ty, last.value).size)
  {
    var items, n := front + [last], |front|;
    assert items[n] == last && forall i :: 0 <= i < n ==> items[i] == front[i];
    if last.Sizes() {
      assert LastSizes(items, n);
    } else if i :| LastSizes(front, i) && p.size == Some(FromLe(front[i].value)) {
      assert LastSizes(items, i);
    }
  }

  /** The bytes are a count of at most 256 and exactly that many whole items, one of which names the file. */
  ghost predicate IsList(data: Bytes, items: seq<Sent>) {
    && |data| >= 4 && FromLe(data[..4]) == |items| <= 256 && AllWhole(items) && data[4..] == WireOf(items)
    && exists i :: 0 <= i < |items| && items[i].Names()
  }

  /**
    Exactly which lists the server accepts: those, and no others.  So it refuses a list with bytes left
    over, one that is cut off, one of more than 256 items, one with a value of an unknown type, and one
    without a name.
   */
  lemma {:induction false} AcceptedIff(data: Bytes)
    ensures ParseList(data).Some? <==> exists items :: IsList(data, items)
  {
    if ParseList(data).Some? {
      var items := ParsedIsWire(data[4..], FromLe(data[..4]), Props([], None));
      LeftIsLast(Props([], None), items);
      assert IsList(data, items);
    }
    if items :| IsList(data, items) {
      WiresParse(items, Props([], None));
      LeftIsLast(Props([], None), items);
    }
  }

  /** The name is that of the last item that names the file, the size that of the last one that gives it. */
  lemma {:induction false} AcceptedSays(data: Bytes, items: seq<Sent>)
    requires IsList(data, items)
    ensures ParseList(data).Some?
    ensures exists i :: LastNames(items, i) && NameOf(items[i].value) == Some(ParseList(data).value.name)
    ensures if exists i :: 0 <= i < |items| && items[i].Sizes()
            then exists i :: LastSizes(items, i) && ParseList(data).value.size == Some(FromLe(items[i].value))
            else ParseList(data).value.size.None?
  {
    WiresParse(items, Props([], None));
    LeftIsLast(Props([], None), items);
  }

  // ----- Malformed UTF-8 -----

  /** One step of the encoder, by the bytes it sees; anything it cannot decode is one question mark. */
  lemma {:induction false} DecodedChar(value: Bytes)
    requires value != []
    ensures var c: int := value[0];
            var tail := |value| - 1;
            && (c < 0x80 ==> NextChar(value) == (c, 1))
            && (0x80 <= c < 0xC0 || c >= 0xF0 ==> NextChar(value) == (0x3F, 1))
            && (0xC0 <= c < 0xE0 && tail < 1 ==> NextChar(value) == (0x3F, 1))
            && (0xE0 <= c < 0xF0 && tail < 2 ==> NextChar(value) == (0x3F, 1))
    ensures var c: int := value[0];
            0xC0 <= c < 0xE0 && |value| > 1 ==> NextChar(value) == ((c - 0xC0) * 64 + (value[1] as int) % 64, 2)
    ensures var c: int := value[0];
            0xE0 <= c < 0xF0 && |value| > 2 ==>
              var unit := (c - 0xE0) * 4096 + (value[1] as int) % 64 * 64 + (value[2] as int) % 64;
              NextChar(value) == (if 0xD800 <= unit <= 0xDFFF then 0x3F else unit, 3)
  {
  }

  /** The units of an encoded text stand behind the count, 253 at most, and a NUL ends them. */
  lemma {:induction false} UnitsInPlace(value: Bytes, k: nat)
    requires value != [] && k < |Chars(value, 253)|
    ensures var b := StringBytes(value); var n := |Chars(value, 253)|;
            && (b[0] as int) == n + 1 && |b| == 3 + 2 * n && b[1 + 2 * n] == 0 == b[2 + 2 * n]
            && FromLe(b[1 + 2 * k..3 + 2 * k]) == Chars(value, 253)[k]
  {
    var cs := Chars(value, 253);
    UnitAt(cs, k);
    Framed((|cs| + 1) as byte, Units(cs), k);
  }

  /** Two bytes of the middle part. */
  lemma {:induction false} Framed(count: byte, units: Bytes, k: nat)
    requires 2 * k + 2 <= |units|
    ensures var b := [count] + units + [0, 0];
            && b[0] == count && b[1 + |units|] == 0 == b[2 + |units|]
            && b[1 + 2 * k..3 + 2 * k] == units[2 * k..2 * k + 2]
  {
  }

  lemma {:induction false} UnitAt(cs: seq<nat>, k: nat)
    requires k < |cs| && forall c :: c in cs ==> c < 0x1_0000
    ensures FromLe(Units(cs)[2 * k..2 * k + 2]) == cs[k]
  {
    WordSizes();
    if k == 0 {
      assert cs[0] in cs;
      LeRoundTrip(cs[0], 2);
      assert Units(cs)[..2] == Le(cs[0], 2);
    } else {
      assert forall c :: c in cs[1..] ==> c in cs;
      UnitAt(cs[1..], k - 1);
      assert Units(cs)[2 * k..2 * k + 2] == Units(cs[1..])[2 * (k - 1)..2 * (k - 1) + 2];
    }
  }
}
