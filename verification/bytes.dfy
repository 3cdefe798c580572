/** Bytes, little-endian words and little-endian integers: the host representation that the
    writer, the reader, the serializer and the relocation code all share. */
module Bytes {
  type byte = bv8

  const TWO_64: nat := 0x1_0000_0000_0000_0000
  const TWO_32: nat := 0x1_0000_0000
  const TWO_16: nat := 0x1_0000

  type u64 = n: nat | n < TWO_64
  type u32 = n: nat | n < TWO_32
  type u16 = n: nat | n < TWO_16
  type u8 = n: nat | n < 256

  // ---------- little-endian bit-vector words ----------

  function Load16(bs: seq<byte>): bv16
    requires |bs| == 2
  {
    (bs[0] as bv16) | ((bs[1] as bv16) << 8)
  }

  function Store16(w: bv16): (bs: seq<byte>)
    ensures |bs| == 2
  {
    [(w & 0xff) as bv8, (w >> 8) as bv8]
  }

  function Load32(bs: seq<byte>): bv32
    requires |bs| == 4
  {
    (bs[0] as bv32) | ((bs[1] as bv32) << 8) | ((bs[2] as bv32) << 16) | ((bs[3] as bv32) << 24)
  }

  function Byte0(w: bv32): byte { (w & 0xff) as bv8 }
  function Byte1(w: bv32): byte { ((w >> 8) & 0xff) as bv8 }
  function Byte2(w: bv32): byte { ((w >> 16) & 0xff) as bv8 }
  function Byte3(w: bv32): byte { (w >> 24) as bv8 }

  function Store32(w: bv32): (bs: seq<byte>)
    ensures |bs| == 4
  {
    [Byte0(w), Byte1(w), Byte2(w), Byte3(w)]
  }

  function Load64(bs: seq<byte>): bv64
    requires |bs| == 8
  {
    (Load32(bs[..4]) as bv64) | ((Load32(bs[4..]) as bv64) << 32)
  }

  function Store64(w: bv64): (bs: seq<byte>)
    ensures |bs| == 8
  {
    Store32((w & 0xffff_ffff) as bv32) + Store32((w >> 32) as bv32)
  }

  lemma LoadStore16(w: bv16)
    ensures Load16(Store16(w)) == w
  {}

  lemma LoadStore32(w: bv32)
    ensures Load32(Store32(w)) == w
  {}

  lemma LoadStore64(w: bv64)
    ensures Load64(Store64(w)) == w
  {
    var lo, hi := (w & 0xffff_ffff) as bv32, (w >> 32) as bv32;
    assert Store64(w)[..4] == Store32(lo) && Store64(w)[4..] == Store32(hi);
    LoadStore32(lo);
    LoadStore32(hi);
  }

  /** Least significant byte first. */
  lemma LittleEndianWords(two: seq<byte>, four: seq<byte>, eight: seq<byte>)
    requires |two| == 2 && |four| == 4 && |eight| == 8
    ensures Load16(two) & 0xff == two[0] as bv16 && Load16(two) >> 8 == two[1] as bv16
    ensures Load32(four) & 0xff == four[0] as bv32 && (Load32(four) >> 8) & 0xff == four[1] as bv32
    ensures (Load32(four) >> 16) & 0xff == four[2] as bv32 && Load32(four) >> 24 == four[3] as bv32
    ensures Load64(eight) & 0xffff_ffff == Load32(eight[..4]) as bv64 && Load64(eight) >> 32 == Load32(eight[4..]) as bv64
  {
    Halves64(Load32(eight[..4]), Load32(eight[4..]));
    Quarters32(four[0], four[1], four[2], four[3]);
    Halves16(two[0], two[1]);
  }

  lemma Halves64(low: bv32, high: bv32)
    ensures ((low as bv64) | ((high as bv64) << 32)) & 0xffff_ffff == low as bv64
    ensures ((low as bv64) | ((high as bv64) << 32)) >> 32 == high as bv64
  {}

  lemma Quarters32(a: byte, b: byte, c: byte, d: byte)
    ensures var w := (a as bv32) | ((b as bv32) << 8) | ((c as bv32) << 16) | ((d as bv32) << 24);
      w & 0xff == a as bv32 && (w >> 8) & 0xff == b as bv32 && (w >> 16) & 0xff == c as bv32 && w >> 24 == d as bv32
  {}

  lemma Halves16(a: byte, b: byte)
    ensures var w := (a as bv16) | ((b as bv16) << 8); w & 0xff == a as bv16 && w >> 8 == b as bv16
  {}

  // ---------- little-endian integers of k bytes ----------

  function Pow256(k: nat): (p: nat)
    ensures p >= 1
  {
    if k == 0 then 1 else 256 * Pow256(k - 1)
  }

  function Bits(b7: bool, b6: bool, b5: bool, b4: bool, b3: bool, b2: bool, b1: bool, b0: bool): byte {
    (if b7 then 0x80 else 0) | (if b6 then 0x40 else 0) | (if b5 then 0x20 else 0) | (if b4 then 0x10 else 0)
    | (if b3 then 0x08 else 0) | (if b2 then 0x04 else 0) | (if b1 then 0x02 else 0) | (if b0 then 0x01 else 0)
  }

  /** The byte with this value, bit by bit. */
  function ByteOf(n: nat): byte
    requires n < 256
  {
    var n1 := Half(n);
    var n2 := Half(n1);
    var n3 := Half(n2);
    var n4 := Half(n3);
    var n5 := Half(n4);
    var n6 := Half(n5);
    Bits(Odd(Half(n6)), Odd(n6), Odd(n5), Odd(n4), Odd(n3), Odd(n2), Odd(n1), Odd(n))
  }

  function Half(n: nat): nat { n / 2 }
  predicate Odd(n: nat) { n % 2 == 1 }

  lemma HalfAndOdd(n: nat)
    ensures n == 2 * Half(n) + if Odd(n) then 1 else 0
  {}

  function ValueOf(b: byte): (n: nat)
    ensures n < 256
  {
    (if b & 0x80 != 0 then 128 else 0) + (if b & 0x40 != 0 then 64 else 0)
    + (if b & 0x20 != 0 then 32 else 0) + (if b & 0x10 != 0 then 16 else 0)
    + (if b & 0x08 != 0 then 8 else 0) + (if b & 0x04 != 0 then 4 else 0)
    + (if b & 0x02 != 0 then 2 else 0) + (if b & 0x01 != 0 then 1 else 0)
  }

  function EncodeInt(n: nat, k: nat): (bs: seq<byte>)
    ensures |bs| == k
  {
    if k == 0 then [] else [ByteOf(n % 256)] + EncodeInt(n / 256, k - 1)
  }

  function DecodeInt(bs: seq<byte>): (n: nat)
    ensures n < Pow256(|bs|)
  {
    if bs == [] then 0 else ValueOf(bs[0]) + 256 * DecodeInt(bs[1..])
  }

  lemma ByteRoundTrip(n: nat)
    requires n < 256
    ensures ValueOf(ByteOf(n)) == n
  {
    hide Bits, ValueOf, Half, Odd;
    var n1 := Half(n);
    var n2 := Half(n1);
    var n3 := Half(n2);
    var n4 := Half(n3);
    var n5 := Half(n4);
    var n6 := Half(n5);
    var n7 := Half(n6);
    HalfAndOdd(n);
    HalfAndOdd(n1);
    HalfAndOdd(n2);
    HalfAndOdd(n3);
    HalfAndOdd(n4);
    HalfAndOdd(n5);
    HalfAndOdd(n6);
    HalfAndOdd(n7);
    ValueOfBits(Odd(n7), Odd(n6), Odd(n5), Odd(n4), Odd(n3), Odd(n2), Odd(n1), Odd(n));
  }

  lemma ValueOfBits(b7: bool, b6: bool, b5: bool, b4: bool, b3: bool, b2: bool, b1: bool, b0: bool)
    ensures ValueOf(Bits(b7, b6, b5, b4, b3, b2, b1, b0)) ==
      (if b7 then 128 else 0) + (if b6 then 64 else 0) + (if b5 then 32 else 0) + (if b4 then 16 else 0)
      + (if b3 then 8 else 0) + (if b2 then 4 else 0) + (if b1 then 2 else 0) + (if b0 then 1 else 0)
  {
    var b := Bits(b7, b6, b5, b4, b3, b2, b1, b0);
    assert (b & 0x80 != 0) == b7;
    assert (b & 0x40 != 0) == b6;
    assert (b & 0x20 != 0) == b5;
    assert (b & 0x10 != 0) == b4;
    assert (b & 0x08 != 0) == b3;
    assert (b & 0x04 != 0) == b2;
    assert (b & 0x02 != 0) == b1;
    assert (b & 0x01 != 0) == b0;
  }

  lemma {:induction false} DecodeEncode(n: nat, k: nat)
    requires n < Pow256(k)
    ensures DecodeInt(EncodeInt(n, k)) == n
  {
    hide ByteOf, ValueOf;
    if k != 0 {
      ByteRoundTrip(n % 256);
      assert EncodeInt(n, k)[1..] == EncodeInt(n / 256, k - 1);
      DecodeEncode(n / 256, k - 1);
    }
  }

  lemma {:induction false} EncodeDecode(bs: seq<byte>)
    ensures EncodeInt(DecodeInt(bs), |bs|) == bs
    decreases |bs|
  {
    hide ByteOf, ValueOf;
    if bs != [] {
      EncodeDecode(bs[1..]);
      ByteOfValue(bs[0]);
      assert DecodeInt(bs) % 256 == ValueOf(bs[0]) && DecodeInt(bs) / 256 == DecodeInt(bs[1..]);
    }
  }

  function Bit(b: bool): nat { if b then 1 else 0 }

  lemma SplitBit(n: nat, rest: nat, b: bool)
    requires n == 2 * rest + Bit(b)
    ensures Half(n) == rest && Odd(n) == b
  {}

  lemma BitsOf(b: byte)
    ensures Bits(b & 0x80 != 0, b & 0x40 != 0, b & 0x20 != 0, b & 0x10 != 0,
                 b & 0x08 != 0, b & 0x04 != 0, b & 0x02 != 0, b & 0x01 != 0) == b
  {}

  lemma ByteOfValue(b: byte)
    ensures ByteOf(ValueOf(b)) == b
  {
    BitsOf(b);
    var b7, b6, b5, b4 := b & 0x80 != 0, b & 0x40 != 0, b & 0x20 != 0, b & 0x10 != 0;
    var b3, b2, b1, b0 := b & 0x08 != 0, b & 0x04 != 0, b & 0x02 != 0, b & 0x01 != 0;
    ByteOfBits(b7, b6, b5, b4, b3, b2, b1, b0);
    hide ByteOf, Bits;
    assert ValueOf(b) == 128 * Bit(b7) + 64 * Bit(b6) + 32 * Bit(b5) + 16 * Bit(b4)
      + 8 * Bit(b3) + 4 * Bit(b2) + 2 * Bit(b1) + Bit(b0);
  }

  lemma ByteOfBits(b7: bool, b6: bool, b5: bool, b4: bool, b3: bool, b2: bool, b1: bool, b0: bool)
    ensures var n := 128 * Bit(b7) + 64 * Bit(b6) + 32 * Bit(b5) + 16 * Bit(b4)
                + 8 * Bit(b3) + 4 * Bit(b2) + 2 * Bit(b1) + Bit(b0);
      n < 256 && ByteOf(n) == Bits(b7, b6, b5, b4, b3, b2, b1, b0)
  {
    hide Bits, Half, Odd;
    var n7 := Bit(b7);
    var n6 := 2 * n7 + Bit(b6);
    var n5 := 2 * n6 + Bit(b5);
    var n4 := 2 * n5 + Bit(b4);
    var n3 := 2 * n4 + Bit(b3);
    var n2 := 2 * n3 + Bit(b2);
    var n1 := 2 * n2 + Bit(b1);
    var n := 2 * n1 + Bit(b0);
    SplitBit(n, n1, b0);
    SplitBit(n1, n2, b1);
    SplitBit(n2, n3, b2);
    SplitBit(n3, n4, b3);
    SplitBit(n4, n5, b4);
    SplitBit(n5, n6, b5);
    SplitBit(n6, n7, b6);
    SplitBit(n7, 0, b7);
  }

  /** The word with this value: the one whose bytes are those of the integer. */
  function AsWord(n: u64): bv64 { Load64(EncodeInt(n, 8)) }

  lemma WordOfInt(bs: seq<byte>)
    requires |bs| == 8
    ensures DecodeInt(bs) < TWO_64 && AsWord(DecodeInt(bs)) == Load64(bs)
  {
    hide Load64, EncodeInt, DecodeInt, Pow256;
    Pow256Values();
    EncodeDecode(bs);
  }

  /** The value of a byte counts up with it. */
  lemma ValueCounts(b: byte)
    ensures ValueOf(0) == 0 && (b < 0xff ==> ValueOf(b + 1) == ValueOf(b) + 1)
  {}

  /** Little-endian: every byte weighs 256 times as much as the one before it. */
  lemma {:induction false} DecodeSplit(a: seq<byte>, b: seq<byte>)
    ensures DecodeInt(a + b) == DecodeInt(a) + Pow256(|a|) * DecodeInt(b)
    decreases |a|
  {
    hide ValueOf;
    if a == [] {
      assert a + b == b;
    } else {
      assert (a + b)[1..] == a[1..] + b;
      DecodeSplit(a[1..], b);
      Scaled(DecodeInt(a[1..]), Pow256(|a| - 1), DecodeInt(b));
    }
  }

  lemma Scaled(x: nat, p: nat, y: nat)
    ensures 256 * (x + p * y) == 256 * x + 256 * p * y
  {}

  lemma Pow256Values()
    ensures Pow256(1) == 256 && Pow256(2) == TWO_16 && Pow256(4) == TWO_32 && Pow256(8) == TWO_64
  {
    assert Pow256(3) == 0x100_0000;
    assert Pow256(5) == 256 * Pow256(4) && Pow256(6) == 256 * Pow256(5) && Pow256(7) == 256 * Pow256(6);
  }

  // ---------- overwriting part of a byte sequence ----------

  function Splice(s: seq<byte>, at: nat, bs: seq<byte>): (r: seq<byte>)
    requires at + |bs| <= |s|
    ensures |r| == |s|
  {
    s[..at] + bs + s[at + |bs|..]
  }
}
