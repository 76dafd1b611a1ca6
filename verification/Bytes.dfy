/** Bytes, their order, and the fixed-width little-endian codes.

    Every `Put` function is written with what follows it: `PutX(x, rest)` is the bytes of `x`
    and then `rest`. So a reader that gives back `x` and `rest`, whatever they are, shows that
    no other value and tail have the same bytes. */
module Bytes {
  import opened Sorting

  type byte = x: int | 0 <= x < 256

  /** UTF-8 bytes of a Rust string; `str` compares and prints by them. */
  type Text = seq<byte>

  /** An interned path: the string ids of its components, outermost first. */
  type Path = seq<nat>

  const TWO_TO_32: nat := 0x1_0000_0000
  const TWO_TO_64: nat := 0x1_0000_0000_0000_0000

  type u16 = x: int | 0 <= x < 0x1_0000
  type u32 = x: int | 0 <= x < TWO_TO_32
  type u64 = x: int | 0 <= x < TWO_TO_64
  type i32 = x: int | -0x8000_0000 <= x < 0x8000_0000

  // ---------------------------------------------------------------- order

  predicate ByteLeq(a: byte, b: byte) {
    a <= b
  }

  /** `Ord` of `[u8]`, `Vec<u8>` and `str`. */
  predicate BytesLeq(a: seq<byte>, b: seq<byte>) {
    LexLeq(ByteLeq, a, b)
  }

  lemma BytesLinear()
    ensures LinearOrder(BytesLeq)
  {
    LexIsLinear(ByteLeq);
    var lex := (a: seq<byte>, b: seq<byte>) => LexLeq(ByteLeq, a, b);
    assert forall a, b :: BytesLeq(a, b) == lex(a, b);
  }

  // ---------------------------------------------------------------- fixed-width scalars

  function Pow256(width: nat): (p: nat)
    ensures p > 0
  {
    if width == 0 then 1 else 256 * Pow256(width - 1)
  }

  /** The `width` low bytes of `n`, least significant first, then `rest`. */
  function PutLittleEndian(width: nat, n: nat, rest: seq<byte>): (r: seq<byte>)
    ensures |r| == width + |rest|
  {
    if width == 0 then rest else [n % 256] + PutLittleEndian(width - 1, n / 256, rest)
  }

  function PutU8(n: byte, rest: seq<byte>): (r: seq<byte>)
    ensures |r| == 1 + |rest|
  {
    [n] + rest
  }

  function PutU16(n: u16, rest: seq<byte>): (r: seq<byte>)
    ensures |r| == 2 + |rest|
  {
    PutLittleEndian(2, n, rest)
  }

  function PutU32(n: u32, rest: seq<byte>): (r: seq<byte>)
    ensures |r| == 4 + |rest|
  {
    PutLittleEndian(4, n, rest)
  }

  function PutU64(n: u64, rest: seq<byte>): (r: seq<byte>)
    ensures |r| == 8 + |rest|
  {
    PutLittleEndian(8, n, rest)
  }

  /** Two's complement. */
  function PutI32(n: i32, rest: seq<byte>): (r: seq<byte>)
    ensures |r| == 4 + |rest|
  {
    PutU32(n % TWO_TO_32, rest)
  }

  function PutBool(b: bool, rest: seq<byte>): (r: seq<byte>)
    ensures |r| == 1 + |rest|
  {
    PutU8(if b then 1 else 0, rest)
  }

  // ---------------------------------------------------------------- length-prefixed bytes

  /** A length, eight bytes wide. `as u64` keeps the low 64 bits of a length. */
  function PutLength(n: nat, rest: seq<byte>): (r: seq<byte>)
    ensures |r| == 8 + |rest|
  {
    PutU64(n % TWO_TO_64, rest)
  }

  function PutBytes(b: seq<byte>, rest: seq<byte>): (r: seq<byte>)
    ensures |r| == 8 + |b| + |rest|
  {
    PutLength(|b|, b + rest)
  }

  /** From 2^64 bytes on the length wraps around, and the code is also that of a shorter text in
      front of a longer tail. */
  lemma LongBytesCollide(a: seq<byte>, s: seq<byte>)
    requires |a| >= TWO_TO_64
    ensures
      var n := |a| % TWO_TO_64;
      a[..n] != a && PutBytes(a[..n], a[n..] + s) == PutBytes(a, s)
  {
    var n := |a| % TWO_TO_64;
    assert a[..n] + (a[n..] + s) == a + s;
    assert |a[..n]| < |a|;
  }

  /** Length-prefixed items one after the other. */
  function PutItems(items: seq<seq<byte>>, rest: seq<byte>): (r: seq<byte>)
    ensures |r| >= |rest| + 8 * |items|
  {
    if items == [] then rest else PutBytes(items[0], PutItems(items[1..], rest))
  }

  /** An encoded sequence: its count, then each item behind its own length. */
  function PutSequence(items: seq<seq<byte>>, rest: seq<byte>): (r: seq<byte>)
    ensures |r| >= 8 + |rest|
  {
    PutLength(|items|, PutItems(items, rest))
  }

  // ---------------------------------------------------------------- sorted items

  /** One item with the key `sorted_encoded_items` sorts it by. */
  datatype KeyedItem = KeyedItem(key: seq<byte>, item: seq<byte>)

  predicate KeyedItemLeq(a: KeyedItem, b: KeyedItem) {
    if a.key == b.key then BytesLeq(a.item, b.item) else BytesLeq(a.key, b.key)
  }

  lemma KeyedItemLinear()
    ensures LinearOrder(KeyedItemLeq)
  {
    BytesLinear();
  }

  function ItemOf(keyed: KeyedItem): seq<byte> {
    keyed.item
  }

  /** The items in the order `sorted_encoded_items` returns them. */
  function SortedItems(keyed: seq<KeyedItem>): (r: seq<seq<byte>>)
    ensures |r| == |keyed|
  {
    Map(ItemOf, SortBy(KeyedItemLeq, keyed))
  }

  lemma SortedItemsCanonical(a: seq<KeyedItem>, b: seq<KeyedItem>)
    requires multiset(a) == multiset(b)
    ensures SortedItems(a) == SortedItems(b)
  {
    KeyedItemLinear();
    SortIsCanonical(KeyedItemLeq, a, b);
  }
}
