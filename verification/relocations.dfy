/** The relocation functions of the loader: what each relocation type does to the 2, 4 or 8 bytes
    it is applied to. A result of None is a case the C++ leaves undefined (a shift by 64 or more,
    an index past the three multicast offsets). */
module Relocations {
  import opened Bytes
  import opened Options

  /** The two fields of a symbol that relocation functions read. */
  datatype SymVal = SymVal(value: bv64, size: bv64)

  const R_VPU_64: nat := 0
  const R_VPU_64_OR: nat := 1
  const R_VPU_DISP40_RTM: nat := 2
  const R_VPU_64_LSHIFT: nat := 3
  const R_VPU_32: nat := 4
  const R_VPU_32_RTM: nat := 5
  const R_VPU_32_SUM: nat := 6
  const R_VPU_32_MULTICAST_BASE: nat := 7
  const R_VPU_32_MULTICAST_BASE_SUB: nat := 8
  const R_VPU_DISP28_MULTICAST_OFFSET: nat := 9
  const R_VPU_DISP4_MULTICAST_OFFSET_CMP: nat := 10
  const R_VPU_LO_21: nat := 11
  const R_VPU_LO_21_SUM: nat := 12
  const R_VPU_LO_21_MULTICAST_BASE: nat := 13
  const R_VPU_16_LSB_21_RSHIFT_5: nat := 14
  const R_VPU_LO_21_RSHIFT_4: nat := 15
  const R_VPU_CMX_LOCAL_RSHIFT_5: nat := 16
  const R_VPU_32_BIT_OR_B21_B26_UNSET: nat := 17
  const R_VPU_64_BIT_OR_B21_B26_UNSET: nat := 18
  const R_VPU_16_LSB_21_RSHIFT_5_LSHIFT_16: nat := 19
  const R_VPU_16_LSB_21_RSHIFT_5_LSHIFT_CUSTOM: nat := 20
  const R_VPU_32_BIT_OR_B21_B26_UNSET_HIGH_16: nat := 21
  const R_VPU_32_BIT_OR_B21_B26_UNSET_LOW_16: nat := 22
  const R_VPU_HIGH_27_BIT_OR: nat := 23
  const R_VPU_16_SUM: nat := 1011
  const R_VPU_64_MULT: nat := 1012
  const R_VPU_64_MULT_SUB: nat := 1013

  const B21_B26_UNSET_MASK: bv32 := 0xF81F_FFFF
  const SLICE_LENGTH_IN_16: bv32 := 0x2_0000
  const MULTICAST_MASKS: seq<bv32> := [
    0x0000, 0x0001, 0x0002, 0x0003, 0x0012, 0x0011, 0x0010, 0x0030,
    0x0211, 0x0210, 0x0310, 0x0320, 0x3210, 0x3210, 0x3210, 0x3210]

  /** How many bytes a relocation type rewrites; 0 for a type that is not in the relocation map. */
  function Width(t: nat): nat {
    if t == R_VPU_64 || t == R_VPU_64_OR || t == R_VPU_DISP40_RTM || t == R_VPU_64_LSHIFT || t == R_VPU_64_MULT
       || t == R_VPU_64_MULT_SUB || t == R_VPU_64_BIT_OR_B21_B26_UNSET || t == R_VPU_HIGH_27_BIT_OR then 8
    else if t == R_VPU_16_SUM || t == R_VPU_32_BIT_OR_B21_B26_UNSET_HIGH_16
            || t == R_VPU_32_BIT_OR_B21_B26_UNSET_LOW_16 then 2
    else if t <= R_VPU_16_LSB_21_RSHIFT_5_LSHIFT_CUSTOM then 4
    else 0
  }

  datatype Multicast = Multicast(base: bv32, offset1: bv32, offset2: bv32, offset3: bv32)

  lemma BroadcastMaskInRange(addr: bv32)
    ensures ((addr & 0x00C0_0000) >> 20) as nat < 16
  {
    assert ((addr & 0x00C0_0000) >> 20) < 16;
  }

  /** The address with its broadcast bits replaced, and the three offsets scaled by the multicast mask. */
  function ToDpuMulticast(addr: bv32, offset1: bv32, offset2: bv32, offset3: bv32): Multicast {
    var barePtr := addr & 0xFF3F_FFFF;
    BroadcastMaskInRange(addr);
    var mask := MULTICAST_MASKS[((addr & 0x00C0_0000) >> 20) as nat];
    Multicast(barePtr | ((mask & 0xf) << 20), offset1 * ((mask >> 4) & 0xf), offset2 * ((mask >> 8) & 0xf),
              offset3 * ((mask >> 12) & 0xf))
  }

  function ToDpuMulticastBase(addr: bv32): bv32 {
    ToDpuMulticast(addr, 0, 0, 0).base
  }

  function SelectOffset(m: Multicast, index: bv32): Option<bv32> {
    if index == 0 then Some(m.offset1)
    else if index == 1 then Some(m.offset2)
    else if index == 2 then Some(m.offset3)
    else None
  }

  /** Symbol value plus addend, as the loader computes it in 64 bits and casts it to 32. */
  function Sum64(s: SymVal, addend: bv64): bv64 { Plus(s.value, addend) }
  function Sum32(s: SymVal, addend: bv64): bv32 { Low32(Sum64(s, addend)) }

  /** What the two types for run-time mapped buffers store: the symbol value plus so many addends as the old word says
      below the symbol's size, a power of two. */
  function RunTimeMapped(s: SymVal, addend: bv64, was: bv64): bv64 {
    Plus(s.value, Product(addend, Below(was, s.size)))
  }

  function Below(w: bv64, size: bv64): bv64 { w & (size - 1) }


  function Plus(x: bv64, y: bv64): bv64 { x + y }
  function Product(x: bv64, y: bv64): bv64 { x * y }
  function Minus(x: bv64, y: bv64): bv64 { x - y }
  function ShiftLeft(w: bv64, n: bv64): Option<bv64> { if n < 64 then Some(w << n) else None }
  function Wide(w: bv32): bv64 { w as bv64 }
  function SetBits64(w: bv64, field: bv64): bv64 { w | field }
  function SetBits32(w: bv32, field: bv32): bv32 { w | field }
  function SetBits16(w: bv16, field: bv16): bv16 { w | field }

  /** The fields of the types that set bits, where x is symbol value plus addend. */
  function Low40(x: bv64): bv64 { x & 0xff_ffff_ffff }
  function Low32(x: bv64): bv32 { (x & 0xffff_ffff) as bv32 }
  function Low21(x: bv32): bv32 { x & 0x001F_FFFF }
  function Low16(x: bv32): bv16 { (x & 0xffff) as bv16 }
  function High16(x: bv32): bv16 { (x >> 16) as bv16 }
  function TileUnset(x: bv32): bv32 { x & B21_B26_UNSET_MASK }
  function TileUnset64(x: bv64): bv64 { x & (B21_B26_UNSET_MASK as bv64) }
  function High27(x: bv32): bv64 { ((((x & 0xFF1F_FFFF) >> 4) & 0x07FF_FFFF) as bv64) << 37 }

  function Patch64(t: nat, w: bv64, s: SymVal, addend: bv64): Option<bv64>
    requires Width(t) == 8
  {
    if t == R_VPU_64 then Some(Sum64(s, addend))
    else if t == R_VPU_64_OR then Some(SetBits64(w, Sum64(s, addend)))
    else if t == R_VPU_DISP40_RTM then Some(SetBits64(w, Low40(RunTimeMapped(s, addend, Low40(w)))))
    else if t == R_VPU_64_LSHIFT then ShiftLeft(w, s.value)
    else if t == R_VPU_64_MULT then Some(Product(w, s.value))
    else if t == R_VPU_64_MULT_SUB then Some(Product(w, Minus(addend, s.value)))
    else if t == R_VPU_64_BIT_OR_B21_B26_UNSET then Some(SetBits64(w, TileUnset64(Sum64(s, addend))))
    else Some(SetBits64(w, High27(Sum32(s, addend))))
  }

  /** The bits a 4-byte type clears before it inserts its own; all of them for a type that stores a whole word. */
  function Mask32(t: nat): bv32 {
    if t == R_VPU_LO_21 || t == R_VPU_LO_21_RSHIFT_4 then 0x001F_FFFF
    else if t == R_VPU_16_LSB_21_RSHIFT_5 then 0x0000_FFFF
    else if t == R_VPU_16_LSB_21_RSHIFT_5_LSHIFT_16 then 0xFFFF_0000
    else if t == R_VPU_16_LSB_21_RSHIFT_5_LSHIFT_CUSTOM then 0xFFFE_4000
    else 0xFFFF_FFFF
  }

  /** The bits the partial types insert, where x is symbol value plus addend. */
  function Inserted32(t: nat, x: bv32): bv32 {
    if t == R_VPU_LO_21 then Low21(x)
    else if t == R_VPU_16_LSB_21_RSHIFT_5 then Low21(x) >> 5
    else if t == R_VPU_LO_21_RSHIFT_4 then Low21(x) >> 4
    else if t == R_VPU_16_LSB_21_RSHIFT_5_LSHIFT_16 then (Low21(x) >> 5) << 16
    else
      var src := Low21(x) >> 5;
      ((src & 0xFFFF_FFFE) << 16) | ((src & 1) << 14)
  }

  function Insert(w: bv32, inserted: bv32, mask: bv32): bv32 { (w & !mask) | inserted }

  /** The types that store a whole 4-byte word without reading the old one. */
  function Stored32(t: nat, x: bv32): bv32 {
    if t == R_VPU_32 then x
    else if t == R_VPU_32_MULTICAST_BASE then ToDpuMulticastBase(x)
    else if t == R_VPU_LO_21_MULTICAST_BASE then ToDpuMulticastBase(Low21(x))
    else TileUnset(x) >> 5
  }

  function Add32(w: bv32, x: bv32): bv32 { w + x }
  function Add16(w: bv16, x: bv16): bv16 { w + x }
  function Minus32(x: bv32, w: bv32): bv32 { x - w }

  function SliceOffset(x: bv32, index: bv32): Option<bv32> {
    SelectOffset(ToDpuMulticast(x, SLICE_LENGTH_IN_16, SLICE_LENGTH_IN_16, SLICE_LENGTH_IN_16), index)
  }

  function Displacement28(w: bv32, x: bv32): Option<bv32> {
    match SliceOffset(x, w >> 4)
    case None => None
    case Some(offset) => Some((w & 0xf) | (offset << 4))
  }

  function Displacement4(w: bv32, x: bv32): Option<bv32> {
    match SliceOffset(x, w & 0xf)
    case None => None
    case Some(offset) => Some((w & 0xffff_fff0) | (if offset != 0 then 1 else 0))
  }

  /** The 4-byte types that compute with the old word. */
  function Updated32(t: nat, w: bv32, s: SymVal, addend: bv64): Option<bv32> {
    var x := Sum32(s, addend);
    if t == R_VPU_32_RTM then Some(Low32(RunTimeMapped(s, addend, Wide(w))))
    else if t == R_VPU_32_SUM then Some(Add32(w, x))
    else if t == R_VPU_32_MULTICAST_BASE_SUB then Some(Minus32(ToDpuMulticastBase(x), w))
    else if t == R_VPU_DISP28_MULTICAST_OFFSET then Displacement28(w, x)
    else if t == R_VPU_DISP4_MULTICAST_OFFSET_CMP then Displacement4(w, x)
    else if t == R_VPU_LO_21_SUM then Some(Add32(w, Low21(x)))
    else Some(SetBits32(w, TileUnset(x)))
  }

  predicate Partial32(t: nat) {
    t == R_VPU_LO_21 || t == R_VPU_16_LSB_21_RSHIFT_5 || t == R_VPU_LO_21_RSHIFT_4
    || t == R_VPU_16_LSB_21_RSHIFT_5_LSHIFT_16 || t == R_VPU_16_LSB_21_RSHIFT_5_LSHIFT_CUSTOM
  }

  predicate Whole32(t: nat) {
    t == R_VPU_32 || t == R_VPU_32_MULTICAST_BASE || t == R_VPU_LO_21_MULTICAST_BASE
    || t == R_VPU_CMX_LOCAL_RSHIFT_5
  }

  function Patch32(t: nat, w: bv32, s: SymVal, addend: bv64): Option<bv32> {
    if Partial32(t) then Some(Insert(w, Inserted32(t, Sum32(s, addend)), Mask32(t)))
    else if Whole32(t) then Some(Stored32(t, Sum32(s, addend)))
    else Updated32(t, w, s, addend)
  }

  function Patch16(t: nat, w: bv16, s: SymVal, addend: bv64): Option<bv16>
    requires Width(t) == 2
  {
    var x := Sum32(s, addend);
    if t == R_VPU_16_SUM then Some(Add16(w, Low16(x)))
    else if t == R_VPU_32_BIT_OR_B21_B26_UNSET_HIGH_16 then Some(SetBits16(w, High16(TileUnset(x))))
    else Some(SetBits16(w, Low16(x)))
  }

  /** What a relocation function leaves in the bytes it is pointed at. */
  function PatchBytes(t: nat, bs: seq<byte>, s: SymVal, addend: bv64): (r: Option<seq<byte>>)
    requires |bs| == Width(t) > 0
    ensures r.Some? ==> |r.value| == |bs|
  {
    if Width(t) == 8 then
      (match Patch64(t, Load64(bs), s, addend) case None => None case Some(w) => Some(Store64(w)))
    else if Width(t) == 4 then
      (match Patch32(t, Load32(bs), s, addend) case None => None case Some(w) => Some(Store32(w)))
    else
      (match Patch16(t, Load16(bs), s, addend) case None => None case Some(w) => Some(Store16(w)))
  }

  // ---------- which types forget what an earlier patch wrote ----------

  /** The types whose result does not depend on the bits they replace. */
  predicate Overwriting(t: nat) {
    t == R_VPU_64 || Partial32(t) || Whole32(t)
  }

  /** The bits an overwriting type replaces, byte by byte. */
  function MaskBytes(t: nat): (m: seq<byte>)
    requires Overwriting(t)
    ensures |m| == Width(t)
  {
    if Partial32(t) then Store32(Mask32(t)) else seq(Width(t), _ => 0xff)
  }

  /** Two words agree inside m, and the first keeps the word w outside m. */
  predicate ReplacesWord(r: bv32, r': bv32, w: bv32, m: bv32) {
    r & m == r' & m && r & !m == w & !m
  }

  /** The same for bytes. */
  predicate Replaces(r: byte, r': byte, b: byte, m: byte) {
    r & m == r' & m && r & !m == b & !m
  }

  predicate Inside(p: bv32, m: bv32) { p & !m == 0 }

  lemma InsertReplaces(w: bv32, w': bv32, p: bv32, m: bv32)
    requires Inside(p, m)
    ensures ReplacesWord(Insert(w, p, m), Insert(w', p, m), w, m)
  {
    InsertedParts(w, p, m);
    InsertedParts(w', p, m);
  }

  lemma InsertedParts(w: bv32, p: bv32, m: bv32)
    requires Inside(p, m)
    ensures Insert(w, p, m) & m == p && Insert(w, p, m) & !m == w & !m
  {}

  lemma InsertedInside(t: nat, x: bv32)
    requires Partial32(t)
    ensures Inside(Inserted32(t, x), Mask32(t))
  {
    hide Inside, Inserted32, Mask32;
    if t == R_VPU_LO_21 { InsertedInsideLo21(x); }
    else if t == R_VPU_16_LSB_21_RSHIFT_5 { InsertedInside16Lsb(x); }
    else if t == R_VPU_LO_21_RSHIFT_4 { InsertedInsideLo21Rshift4(x); }
    else if t == R_VPU_16_LSB_21_RSHIFT_5_LSHIFT_16 { InsertedInsideLshift16(x); }
    else { InsertedInsideCustom(x); }
  }

  lemma InsertedInsideLo21(x: bv32)
    ensures Inside(Inserted32(11, x), Mask32(11))
  {}

  lemma InsertedInside16Lsb(x: bv32)
    ensures Inside(Inserted32(14, x), Mask32(14))
  {}

  lemma InsertedInsideLo21Rshift4(x: bv32)
    ensures Inside(Inserted32(15, x), Mask32(15))
  {}

  lemma InsertedInsideLshift16(x: bv32)
    ensures Inside(Inserted32(19, x), Mask32(19))
  {}

  lemma InsertedInsideCustom(x: bv32)
    ensures Inside(Inserted32(20, x), Mask32(20))
  {}

  lemma ReplacesByte0(r: bv32, r': bv32, w: bv32, m: bv32)
    requires ReplacesWord(r, r', w, m)
    ensures Replaces(Byte0(r), Byte0(r'), Byte0(w), Byte0(m))
  {}

  lemma ReplacesByte1(r: bv32, r': bv32, w: bv32, m: bv32)
    requires ReplacesWord(r, r', w, m)
    ensures Replaces(Byte1(r), Byte1(r'), Byte1(w), Byte1(m))
  {}

  lemma ReplacesByte2(r: bv32, r': bv32, w: bv32, m: bv32)
    requires ReplacesWord(r, r', w, m)
    ensures Replaces(Byte2(r), Byte2(r'), Byte2(w), Byte2(m))
  {}

  lemma ReplacesByte3(r: bv32, r': bv32, w: bv32, m: bv32)
    requires ReplacesWord(r, r', w, m)
    ensures Replaces(Byte3(r), Byte3(r'), Byte3(w), Byte3(m))
  {}

  lemma FourBytes(r: seq<byte>, r': seq<byte>, b: seq<byte>, m: seq<byte>)
    requires |r| == |r'| == |b| == |m| == 4
    requires Replaces(r[0], r'[0], b[0], m[0]) && Replaces(r[1], r'[1], b[1], m[1])
    requires Replaces(r[2], r'[2], b[2], m[2]) && Replaces(r[3], r'[3], b[3], m[3])
    ensures forall k :: 0 <= k < 4 ==> Replaces(r[k], r'[k], b[k], m[k])
  {
    hide Replaces;
  }

  lemma StoreReplaces(r: bv32, r': bv32, w: bv32, m: bv32)
    requires ReplacesWord(r, r', w, m)
    ensures forall k :: 0 <= k < 4 ==> Replaces(Store32(r)[k], Store32(r')[k], Store32(w)[k], Store32(m)[k])
  {
    hide ReplacesWord, Replaces, Byte0, Byte1, Byte2, Byte3;
    ReplacesByte0(r, r', w, m);
    ReplacesByte1(r, r', w, m);
    ReplacesByte2(r, r', w, m);
    ReplacesByte3(r, r', w, m);
    FourBytes(Store32(r), Store32(r'), Store32(w), Store32(m));
  }

  lemma StoreLoad32(bs: seq<byte>)
    requires |bs| == 4
    ensures Store32(Load32(bs)) == bs
  {}

  lemma WholeByte(r: byte, b: byte)
    ensures Replaces(r, r, b, 0xff)
  {}

  lemma WholeIgnoresOld(t: nat, bs: seq<byte>, bs': seq<byte>, s: SymVal, addend: bv64)
    requires (t == R_VPU_64 || Whole32(t)) && |bs| == |bs'| == Width(t)
    ensures PatchBytes(t, bs, s, addend).Some? && PatchBytes(t, bs', s, addend) == PatchBytes(t, bs, s, addend)
  {
    hide PatchBytes, Width, Whole32;
    if t == R_VPU_64 {
      Whole64IgnoresOld(bs, bs', s, addend);
    } else {
      Whole32IgnoresOld(t, bs, bs', s, addend);
    }
  }

  lemma Whole64IgnoresOld(bs: seq<byte>, bs': seq<byte>, s: SymVal, addend: bv64)
    requires |bs| == |bs'| == Width(R_VPU_64)
    ensures var r := PatchBytes(R_VPU_64, bs, s, addend); r.Some? && PatchBytes(R_VPU_64, bs', s, addend) == r
  {
    hide Patch32, Load64, Store64, Patch16;
  }

  lemma Whole32IgnoresOld(t: nat, bs: seq<byte>, bs': seq<byte>, s: SymVal, addend: bv64)
    requires Whole32(t) && |bs| == |bs'| == Width(t)
    ensures var r := PatchBytes(t, bs, s, addend); r.Some? && PatchBytes(t, bs', s, addend) == r
  {
    hide Patch64, Patch16, Load32, Store32, Load64, Store64, Load16, Store16, Stored32, Updated32, Sum32, Insert, Inserted32,
      Mask32;
  }

  lemma PartialReplaces(t: nat, bs: seq<byte>, bs': seq<byte>, s: SymVal, addend: bv64)
    requires Partial32(t) && |bs| == |bs'| == 4
    ensures PatchBytes(t, bs, s, addend).Some? && PatchBytes(t, bs', s, addend).Some?
    ensures forall k :: 0 <= k < 4 ==>
      Replaces(PatchBytes(t, bs, s, addend).value[k], PatchBytes(t, bs', s, addend).value[k], bs[k], MaskBytes(t)[k])
  {
    hide Replaces, ReplacesWord, Inside, Insert, Inserted32, Mask32, Load32, Store32, Sum32, Patch64, Patch16;
    var w, w', x, m := Load32(bs), Load32(bs'), Sum32(s, addend), Mask32(t);
    InsertedInside(t, x);
    InsertReplaces(w, w', Inserted32(t, x), m);
    StoreLoad32(bs);
    StoreReplaces(Insert(w, Inserted32(t, x), m), Insert(w', Inserted32(t, x), m), w, m);
  }

  /** An overwriting type always succeeds; inside its mask the result ignores the old bytes, and
      outside its mask the old bytes stay. */
  lemma OverwriteShape(t: nat, bs: seq<byte>, bs': seq<byte>, s: SymVal, addend: bv64)
    requires Overwriting(t) && |bs| == |bs'| == Width(t)
    ensures PatchBytes(t, bs, s, addend).Some? && PatchBytes(t, bs', s, addend).Some?
    ensures forall k :: 0 <= k < |bs| ==>
      Replaces(PatchBytes(t, bs, s, addend).value[k], PatchBytes(t, bs', s, addend).value[k], bs[k], MaskBytes(t)[k])
  {
    hide Replaces, PatchBytes, Mask32, Store32;
    if Partial32(t) {
      PartialReplaces(t, bs, bs', s, addend);
    } else {
      WholeIgnoresOld(t, bs, bs', s, addend);
      var r := PatchBytes(t, bs, s, addend).value;
      forall k | 0 <= k < |bs|
        ensures Replaces(r[k], r[k], bs[k], MaskBytes(t)[k])
      {
        WholeByte(r[k], bs[k]);
      }
    }
  }

  /** Patching with one symbol and then with another is the same as patching with the second alone. */
  ghost predicate AbsorbsAt(t: nat, bs: seq<byte>, s1: SymVal, s2: SymVal, addend: bv64)
    requires |bs| == Width(t) > 0
  {
    var mid := PatchBytes(t, bs, s1, addend);
    mid.Some? && PatchBytes(t, mid.value, s2, addend) == PatchBytes(t, bs, s2, addend)
  }

  ghost predicate Absorbs(t: nat)
    requires Width(t) > 0
  {
    forall bs: seq<byte>, s1: SymVal, s2: SymVal, addend: bv64 | |bs| == Width(t) :: AbsorbsAt(t, bs, s1, s2, addend)
  }

  lemma OverwritingAbsorbs(t: nat)
    requires Overwriting(t)
    ensures Absorbs(t)
  {
    assert Width(t) > 0;
    hide Replaces, PatchBytes, MaskBytes, Partial32, Whole32;
    forall bs: seq<byte>, s1: SymVal, s2: SymVal, addend: bv64 | |bs| == Width(t)
      ensures AbsorbsAt(t, bs, s1, s2, addend)
    {
      OverwriteShape(t, bs, bs, s1, addend);
      var mid := PatchBytes(t, bs, s1, addend).value;
      OverwriteShape(t, mid, bs, s2, addend);
      OverwriteShape(t, bs, mid, s2, addend);
      var x, y := PatchBytes(t, mid, s2, addend).value, PatchBytes(t, bs, s2, addend).value;
      forall k | 0 <= k < |bs|
        ensures x[k] == y[k]
      {
        SplitByMask(x[k], y[k], mid[k], bs[k], MaskBytes(t)[k]);
      }
      assert x == y;
    }
  }

  lemma SplitByMask(x: byte, y: byte, mid: byte, b: byte, m: byte)
    requires Replaces(x, y, mid, m) && Replaces(y, x, b, m) && Replaces(mid, mid, b, m)
    ensures x == y
  {}

  /** A word, two symbols and an addend on which a type does not absorb. */
  lemma NotAbsorbing64(t: nat, w: bv64, s1: SymVal, s2: SymVal, addend: bv64, p: bv64, q: bv64, r: bv64)
    requires Width(t) == 8
    requires Patch64(t, w, s1, addend) == Some(p) && Patch64(t, p, s2, addend) == Some(q)
    requires Patch64(t, w, s2, addend) == Some(r) && q != r
    ensures !Absorbs(t)
  {
    hide Patch64, Load64, Store64;
    LoadStore64(w);
    LoadStore64(p);
    LoadStore64(q);
    LoadStore64(r);
    assert PatchBytes(t, Store64(w), s1, addend) == Some(Store64(p));
    assert PatchBytes(t, Store64(p), s2, addend) != PatchBytes(t, Store64(w), s2, addend);
    assert !AbsorbsAt(t, Store64(w), s1, s2, addend);
  }

  lemma NotAbsorbing32(t: nat, w: bv32, s1: SymVal, s2: SymVal, addend: bv64, p: bv32, r: bv32)
    requires Width(t) == 4
    requires Patch32(t, w, s1, addend) == Some(p)
    requires Patch32(t, w, s2, addend) == Some(r) && Patch32(t, p, s2, addend) != Some(r)
    ensures !Absorbs(t)
  {
    hide Patch32, Load32, Store32;
    LoadStore32(w);
    LoadStore32(p);
    LoadStore32(r);
    var q := Patch32(t, p, s2, addend);
    if q.Some? { LoadStore32(q.value); }
    assert PatchBytes(t, Store32(w), s1, addend) == Some(Store32(p));
    assert PatchBytes(t, Store32(p), s2, addend) != PatchBytes(t, Store32(w), s2, addend);
    assert !AbsorbsAt(t, Store32(w), s1, s2, addend);
  }

  lemma NotAbsorbing16(t: nat, w: bv16, s1: SymVal, s2: SymVal, addend: bv64, p: bv16, q: bv16, r: bv16)
    requires Width(t) == 2
    requires Patch16(t, w, s1, addend) == Some(p) && Patch16(t, p, s2, addend) == Some(q)
    requires Patch16(t, w, s2, addend) == Some(r) && q != r
    ensures !Absorbs(t)
  {
    hide Patch16, Load16, Store16;
    LoadStore16(w);
    LoadStore16(p);
    LoadStore16(q);
    LoadStore16(r);
    assert PatchBytes(t, Store16(w), s1, addend) == Some(Store16(p));
    assert PatchBytes(t, Store16(p), s2, addend) != PatchBytes(t, Store16(w), s2, addend);
    assert !AbsorbsAt(t, Store16(w), s1, s2, addend);
  }

  lemma OtherTypesDoNotAbsorb(t: nat)
    requires Width(t) > 0 && !Overwriting(t)
    ensures !Absorbs(t)
  {
    hide Absorbs;
    if Width(t) == 8 { OtherTypesDoNotAbsorb64(t); }
    else if Width(t) == 4 { OtherTypesDoNotAbsorb32(t); }
    else { OtherTypesDoNotAbsorb16(t); }
  }

  lemma OtherTypesDoNotAbsorb64(t: nat)
    requires Width(t) == 8 && t != R_VPU_64
    ensures !Absorbs(t)
  {
    hide Absorbs;
    var zero, one := SymVal(0, 0), SymVal(1, 0);
    if t == R_VPU_64_LSHIFT { NotAbsorbing64(3, 1, one, zero, 0, 2, 2, 1); }
    else if t == R_VPU_64_MULT { NotAbsorbing64(1012, 1, zero, one, 0, 0, 0, 1); }
    else if t == R_VPU_64_MULT_SUB { NotAbsorbing64(1013, 1, one, zero, 1, 0, 0, 1); }
    else if t == R_VPU_HIGH_27_BIT_OR {
      NotAbsorbing64(23, 0, SymVal(16, 0), zero, 0, 0x20_0000_0000, 0x20_0000_0000, 0);
    }
    else if t == R_VPU_64_OR { NotAbsorbing64(1, 0, one, zero, 0, 1, 1, 0); }
    else if t == R_VPU_DISP40_RTM { NotAbsorbing64(2, 0, one, zero, 0, 1, 1, 0); }
    else { NotAbsorbing64(18, 0, one, zero, 0, 1, 1, 0); }
  }

  lemma OtherTypesDoNotAbsorb32(t: nat)
    requires Width(t) == 4 && !Overwriting(t)
    ensures !Absorbs(t)
  {
    hide Absorbs;
    var zero, one := SymVal(0, 0), SymVal(1, 0);
    if t == R_VPU_32_RTM { NotAbsorbing32(5, 0, SymVal(1, 2), SymVal(0, 2), 1, 1, 0); }
    else if t == R_VPU_32_SUM { NotAbsorbing32(6, 0, one, zero, 0, 1, 0); }
    else if t == R_VPU_32_MULTICAST_BASE_SUB { NotAbsorbing32(8, 0, one, zero, 0, 1, 0); }
    else if t == R_VPU_DISP28_MULTICAST_OFFSET {
      NotAbsorbing32(9, 0, SymVal(0x0080_0000, 0), zero, 0, 0x20_0000, 0);
    }
    else if t == R_VPU_DISP4_MULTICAST_OFFSET_CMP { NotAbsorbing32(10, 2, zero, SymVal(0x0040_0000, 0), 0, 0, 0); }
    else if t == R_VPU_LO_21_SUM { NotAbsorbing32(12, 0, one, zero, 0, 1, 0); }
    else { NotAbsorbing32(17, 0, one, zero, 0, 1, 0); }
  }

  lemma OtherTypesDoNotAbsorb16(t: nat)
    requires Width(t) == 2
    ensures !Absorbs(t)
  {
    hide Absorbs;
    var zero, one := SymVal(0, 0), SymVal(1, 0);
    if t == R_VPU_16_SUM { NotAbsorbing16(1011, 0, one, zero, 0, 1, 1, 0); }
    else if t == R_VPU_32_BIT_OR_B21_B26_UNSET_HIGH_16 {
      NotAbsorbing16(21, 0, SymVal(0x1_0000, 0), zero, 0, 1, 1, 0);
    }
    else { NotAbsorbing16(22, 0, one, zero, 0, 1, 1, 0); }
  }

  /** Exactly the overwriting types absorb an earlier patch. */
  lemma AbsorbsExactly(t: nat)
    requires Width(t) > 0
    ensures Absorbs(t) <==> Overwriting(t)
  {
    if Overwriting(t) { OverwritingAbsorbs(t); } else { OtherTypesDoNotAbsorb(t); }
  }
}
