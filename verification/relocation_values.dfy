/** Which value every relocation type leaves behind. The two plain types are fixed by arithmetic on the stored word; the
    others are fixed by the words of the plain types, by their own old word, or by their inverse. */
module RelocationValues {
  import opened Bytes
  import opened Options
  import opened Relocations

  /** The relocation map holds the types 0 to 23 and 1011 to 1013. */
  lemma TypesInMap(t: nat)
    ensures Width(t) > 0 <==> t <= 23 || 1011 <= t <= 1013
  {}

  // ---------- the word a type leaves, read back from the bytes ----------

  function Word64(t: nat, bs: seq<byte>, s: SymVal, addend: bv64): (r: Option<bv64>)
    requires |bs| == Width(t) == 8
  {
    match PatchBytes(t, bs, s, addend)
    case None => None
    case Some(bytes) => Some(Load64(bytes))
  }

  function Word32(t: nat, bs: seq<byte>, s: SymVal, addend: bv64): (r: Option<bv32>)
    requires |bs| == Width(t) == 4
  {
    match PatchBytes(t, bs, s, addend)
    case None => None
    case Some(bytes) => Some(Load32(bytes))
  }

  function Word16(t: nat, bs: seq<byte>, s: SymVal, addend: bv64): (r: Option<bv16>)
    requires |bs| == Width(t) == 2
  {
    match PatchBytes(t, bs, s, addend)
    case None => None
    case Some(bytes) => Some(Load16(bytes))
  }

  lemma Reads64(t: nat, bs: seq<byte>, s: SymVal, addend: bv64)
    requires |bs| == Width(t) == 8
    ensures Word64(t, bs, s, addend) == Patch64(t, Load64(bs), s, addend)
  {
    hide Patch64, Load64, Store64;
    var r := Patch64(t, Load64(bs), s, addend);
    if r.Some? { LoadStore64(r.value); }
  }

  lemma Reads32(t: nat, bs: seq<byte>, s: SymVal, addend: bv64)
    requires |bs| == Width(t) == 4
    ensures Word32(t, bs, s, addend) == Patch32(t, Load32(bs), s, addend)
  {
    hide Patch32, Load32, Store32;
    var r := Patch32(t, Load32(bs), s, addend);
    if r.Some? { LoadStore32(r.value); }
  }

  lemma Reads16(t: nat, bs: seq<byte>, s: SymVal, addend: bv64)
    requires |bs| == Width(t) == 2
    ensures Word16(t, bs, s, addend) == Patch16(t, Load16(bs), s, addend)
  {
    hide Patch16, Load16, Store16;
    var r := Patch16(t, Load16(bs), s, addend);
    if r.Some? { LoadStore16(r.value); }
  }

  /** The words that the two plain types store: the references for the other types. */
  function Plain64(s: SymVal, addend: bv64): bv64 {
    var r := Word64(R_VPU_64, seq(8, _ => 0), s, addend);
    if r.Some? then r.value else 0
  }

  function Plain32(s: SymVal, addend: bv64): bv32 {
    var r := Word32(R_VPU_32, seq(4, _ => 0), s, addend);
    if r.Some? then r.value else 0
  }

  lemma PlainAreSums(s: SymVal, addend: bv64)
    ensures Plain64(s, addend) == Sum64(s, addend) && Plain32(s, addend) == Sum32(s, addend)
  {
    hide Word64, Word32, Load64, Load32, Sum64, Sum32, Product, Minus, ShiftLeft, SetBits64, Low40, TileUnset64, High27,
      RunTimeMapped, Updated32, Inserted32, Insert, Mask32, TileUnset, Low21, ToDpuMulticastBase;
    Reads64(R_VPU_64, seq(8, _ => 0), s, addend);
    Reads32(R_VPU_32, seq(4, _ => 0), s, addend);
  }

  // ---------- the 8-byte types, unfolded ----------

  lemma Cases64(bs: seq<byte>, s: SymVal, addend: bv64)
    requires |bs| == 8
    ensures Word64(R_VPU_64, bs, s, addend) == Some(Plain64(s, addend))
    ensures Word64(R_VPU_64_OR, bs, s, addend) == Some(SetBits64(Load64(bs), Plain64(s, addend)))
    ensures Word64(R_VPU_DISP40_RTM, bs, s, addend) ==
      Some(SetBits64(Load64(bs), Low40(RunTimeMapped(s, addend, Low40(Load64(bs))))))
    ensures Word64(R_VPU_64_MULT, bs, s, addend) == Some(Product(Load64(bs), s.value))
    ensures Word64(R_VPU_64_MULT_SUB, bs, s, addend) == Some(Product(Load64(bs), Minus(addend, s.value)))
    ensures Word64(R_VPU_64_BIT_OR_B21_B26_UNSET, bs, s, addend) ==
      Some(SetBits64(Load64(bs), TileUnset64(Plain64(s, addend))))
    ensures Word64(R_VPU_HIGH_27_BIT_OR, bs, s, addend) == Some(SetBits64(Load64(bs), High27(Plain32(s, addend))))
  {
    PlainAreSums(s, addend);
    hide Word64, Load64, Plain64, Plain32, Sum64, Sum32, Product, Minus, ShiftLeft, SetBits64, Low40, TileUnset64, High27,
      RunTimeMapped;
    Reads64(R_VPU_64, bs, s, addend);
    Reads64(R_VPU_64_OR, bs, s, addend);
    Reads64(R_VPU_DISP40_RTM, bs, s, addend);
    Reads64(R_VPU_64_MULT, bs, s, addend);
    Reads64(R_VPU_64_MULT_SUB, bs, s, addend);
    Reads64(R_VPU_64_BIT_OR_B21_B26_UNSET, bs, s, addend);
    Reads64(R_VPU_HIGH_27_BIT_OR, bs, s, addend);
  }

  lemma CaseShift(bs: seq<byte>, s: SymVal, addend: bv64)
    requires |bs| == 8
    ensures Word64(R_VPU_64_LSHIFT, bs, s, addend) == ShiftLeft(Load64(bs), s.value)
  {
    hide Word64, Load64, Sum64, Sum32, Product, Minus, ShiftLeft, SetBits64, Low40, TileUnset64, High27, RunTimeMapped;
    Reads64(R_VPU_64_LSHIFT, bs, s, addend);
  }

  // ---------- the 4-byte types, unfolded ----------

  lemma CasesPartial(t: nat, bs: seq<byte>, s: SymVal, addend: bv64)
    requires Partial32(t) && |bs| == 4
    ensures Word32(t, bs, s, addend) == Some(Insert(Load32(bs), Inserted32(t, Plain32(s, addend)), Mask32(t)))
  {
    PlainAreSums(s, addend);
    hide Word32, Plain64, Plain32, Load32, Sum64, Sum32, Insert, Inserted32, Mask32, Updated32, Stored32;
    Reads32(t, bs, s, addend);
  }

  lemma CasesWhole(t: nat, bs: seq<byte>, s: SymVal, addend: bv64)
    requires Whole32(t) && |bs| == 4
    ensures Word32(t, bs, s, addend) == Some(Stored32(t, Plain32(s, addend)))
  {
    PlainAreSums(s, addend);
    hide Word32, Plain64, Plain32, Load32, Sum64, Sum32, Stored32, Insert, Inserted32, Mask32, Updated32;
    Reads32(t, bs, s, addend);
  }

  lemma CasesUpdated(t: nat, bs: seq<byte>, s: SymVal, addend: bv64)
    requires Width(t) == 4 && !Partial32(t) && !Whole32(t) && |bs| == 4
    ensures Word32(t, bs, s, addend) == Updated32(t, Load32(bs), s, addend)
  {
    hide Word32, Load32, Updated32, Sum32, Insert, Inserted32, Mask32, Stored32;
    Reads32(t, bs, s, addend);
  }

  lemma UpdatedAdds(w: bv32, s: SymVal, addend: bv64)
    ensures Updated32(R_VPU_32_SUM, w, s, addend) == Some(Add32(w, Plain32(s, addend)))
    ensures Updated32(R_VPU_LO_21_SUM, w, s, addend) == Some(Add32(w, Low21(Plain32(s, addend))))
    ensures Updated32(R_VPU_32_BIT_OR_B21_B26_UNSET, w, s, addend) == Some(SetBits32(w, TileUnset(Plain32(s, addend))))
    ensures Updated32(R_VPU_32_RTM, w, s, addend) == Some(Low32(RunTimeMapped(s, addend, Wide(w))))
  {
    PlainAreSums(s, addend);
    hide Plain64, Plain32, Sum64, Sum32, Low32, Wide, RunTimeMapped, Add32, Minus32, ToDpuMulticastBase, Displacement28,
      Displacement4, Low21, SetBits32, TileUnset;
  }

  lemma UpdatedMulticast(w: bv32, s: SymVal, addend: bv64)
    ensures Updated32(R_VPU_32_MULTICAST_BASE_SUB, w, s, addend) ==
      Some(Minus32(ToDpuMulticastBase(Plain32(s, addend)), w))
    ensures Updated32(R_VPU_DISP28_MULTICAST_OFFSET, w, s, addend) == Displacement28(w, Plain32(s, addend))
    ensures Updated32(R_VPU_DISP4_MULTICAST_OFFSET_CMP, w, s, addend) == Displacement4(w, Plain32(s, addend))
  {
    PlainAreSums(s, addend);
    hide Plain64, Plain32, Sum64, Sum32, Low32, Wide, RunTimeMapped, Add32, Minus32, ToDpuMulticastBase, Displacement28,
      Displacement4, Low21, SetBits32, TileUnset;
  }

  // ---------- the 2-byte types, unfolded ----------

  lemma Cases16(bs: seq<byte>, s: SymVal, addend: bv64)
    requires |bs| == 2
    ensures var x, w := Plain32(s, addend), Load16(bs);
      Word16(R_VPU_16_SUM, bs, s, addend) == Some(Add16(w, Low16(x)))
      && Word16(R_VPU_32_BIT_OR_B21_B26_UNSET_HIGH_16, bs, s, addend) == Some(SetBits16(w, High16(TileUnset(x))))
      && Word16(R_VPU_32_BIT_OR_B21_B26_UNSET_LOW_16, bs, s, addend) == Some(SetBits16(w, Low16(x)))
  {
    PlainAreSums(s, addend);
    hide Word16, Plain64, Plain32, Load16, Sum64, Sum32, Add16, Low16, High16, SetBits16, TileUnset;
    Reads16(R_VPU_16_SUM, bs, s, addend);
    Reads16(R_VPU_32_BIT_OR_B21_B26_UNSET_HIGH_16, bs, s, addend);
    Reads16(R_VPU_32_BIT_OR_B21_B26_UNSET_LOW_16, bs, s, addend);
  }

  // ---------- the plain types ----------

  predicate Differ64(x: bv64, addend: bv64, value: bv64) { x - addend == value }

  /** The same modulo 2^32. */
  predicate Differ32(x: bv32, addend: bv64, value: bv64) {
    ((x as bv64) - addend) & 0xffff_ffff == value & 0xffff_ffff
  }

  lemma PlusMinus64(v: bv64, a: bv64)
    ensures Differ64(v + a, a, v)
  {}

  lemma SumDiffers64(v: bv64, a: bv64)
    ensures Differ64(Plus(v, a), a, v)
  {
    hide Differ64;
    PlusMinus64(v, a);
  }

  lemma PlusMinusLow(v: bv64, a: bv64)
    ensures Differ32(((v + a) & 0xffff_ffff) as bv32, a, v)
  {}

  lemma SumDiffers32(v: bv64, a: bv64)
    ensures Differ32(Low32(Plus(v, a)), a, v)
  {
    hide Differ32;
    PlusMinusLow(v, a);
  }

  /** R_VPU_64 and R_VPU_32: whatever was there, the stored word minus the addend is the symbol value. */
  lemma StoresValue(bs: seq<byte>, s: SymVal, addend: bv64)
    requires |bs| == 8
    ensures Word64(R_VPU_64, bs, s, addend) == Some(Plain64(s, addend)) && Differ64(Plain64(s, addend), addend, s.value)
    ensures Word32(R_VPU_32, bs[..4], s, addend) == Some(Plain32(s, addend)) && Differ32(Plain32(s, addend), addend, s.value)
  {
    hide Word64, Word32, Plain64, Plain32, Plus, Low32, Differ64, Differ32;
    Cases64(bs, s, addend);
    CasesWhole(R_VPU_32, bs[..4], s, addend);
    PlainAreSums(s, addend);
    SumDiffers64(s.value, addend);
    SumDiffers32(s.value, addend);
  }

  // ---------- the types that replace a field ----------

  /** The laws of the fields: r is the new word, w the old one and x the plain one. */
  predicate Lo21Law(r: bv32, w: bv32, x: bv32) {
    r & 0x1F_FFFF == x & 0x1F_FFFF && r & 0xFFE0_0000 == w & 0xFFE0_0000
  }

  predicate Lo21Rshift4Law(r: bv32, w: bv32, x: bv32) {
    (r & 0x1F_FFFF) << 4 == x & 0x1F_FFF0 && r & 0xFFE0_0000 == w & 0xFFE0_0000
  }

  predicate LowHalfLaw(r: bv32, w: bv32, x: bv32) {
    (r & 0xFFFF) << 5 == x & 0x1F_FFE0 && r & 0xFFFF_0000 == w & 0xFFFF_0000
  }

  predicate HighHalfLaw(r: bv32, w: bv32, x: bv32) {
    (r >> 16) << 5 == x & 0x1F_FFE0 && r & 0xFFFF == w & 0xFFFF
  }

  predicate CustomLaw(r: bv32, w: bv32, x: bv32) {
    (((r >> 17) << 1) | ((r >> 14) & 1)) << 5 == x & 0x1F_FFE0 && r & 0x1_BFFF == w & 0x1_BFFF
  }

  predicate CmxLocalLaw(r: bv32, x: bv32) {
    r << 5 == x & 0xF81F_FFE0 && r >> 27 == 0
  }

  lemma Lo21Field(w: bv32, x: bv32)
    ensures Lo21Law(Insert(w, Inserted32(11, x), Mask32(11)), w, x)
  {}

  lemma Lo21Rshift4Field(w: bv32, x: bv32)
    ensures Lo21Rshift4Law(Insert(w, Inserted32(15, x), Mask32(15)), w, x)
  {}

  lemma LowHalfField(w: bv32, x: bv32)
    ensures LowHalfLaw(Insert(w, Inserted32(14, x), Mask32(14)), w, x)
  {}

  lemma HighHalfField(w: bv32, x: bv32)
    ensures HighHalfLaw(Insert(w, Inserted32(19, x), Mask32(19)), w, x)
  {}

  lemma CustomField(w: bv32, x: bv32)
    ensures CustomLaw(Insert(w, Inserted32(20, x), Mask32(20)), w, x)
  {}

  lemma CmxLocalWord(x: bv32)
    ensures CmxLocalLaw(Stored32(16, x), x)
  {}

  /** The types that replace a field never fail. R_VPU_LO_21: the low 21 bits are those of the plain word.
      R_VPU_LO_21_RSHIFT_4: the same, shifted right by 4. All other bits stay. */
  lemma Lo21Fields(bs: seq<byte>, s: SymVal, addend: bv64)
    requires |bs| == 4
    ensures var r := Word32(R_VPU_LO_21, bs, s, addend); r.Some? && Lo21Law(r.value, Load32(bs), Plain32(s, addend))
    ensures var r := Word32(R_VPU_LO_21_RSHIFT_4, bs, s, addend);
      r.Some? && Lo21Rshift4Law(r.value, Load32(bs), Plain32(s, addend))
  {
    hide Word32, Plain32, Load32, Insert, Inserted32, Mask32, Lo21Law, Lo21Rshift4Law;
    CasesPartial(R_VPU_LO_21, bs, s, addend);
    CasesPartial(R_VPU_LO_21_RSHIFT_4, bs, s, addend);
    Lo21Field(Load32(bs), Plain32(s, addend));
    Lo21Rshift4Field(Load32(bs), Plain32(s, addend));
  }

  /** The 16_LSB_21_RSHIFT_5 types: bits 5 to 20 of the plain word go to the low half, to the high half, or to bits 17 to
      31 and 14. All other bits stay. */
  lemma HalfFields(bs: seq<byte>, s: SymVal, addend: bv64)
    requires |bs| == 4
    ensures var r := Word32(R_VPU_16_LSB_21_RSHIFT_5, bs, s, addend);
      r.Some? && LowHalfLaw(r.value, Load32(bs), Plain32(s, addend))
    ensures var r := Word32(R_VPU_16_LSB_21_RSHIFT_5_LSHIFT_16, bs, s, addend);
      r.Some? && HighHalfLaw(r.value, Load32(bs), Plain32(s, addend))
    ensures var r := Word32(R_VPU_16_LSB_21_RSHIFT_5_LSHIFT_CUSTOM, bs, s, addend);
      r.Some? && CustomLaw(r.value, Load32(bs), Plain32(s, addend))
  {
    hide Word32, Plain32, Load32, Insert, Inserted32, Mask32, LowHalfLaw, HighHalfLaw, CustomLaw;
    CasesPartial(R_VPU_16_LSB_21_RSHIFT_5, bs, s, addend);
    CasesPartial(R_VPU_16_LSB_21_RSHIFT_5_LSHIFT_16, bs, s, addend);
    CasesPartial(R_VPU_16_LSB_21_RSHIFT_5_LSHIFT_CUSTOM, bs, s, addend);
    LowHalfField(Load32(bs), Plain32(s, addend));
    HighHalfField(Load32(bs), Plain32(s, addend));
    CustomField(Load32(bs), Plain32(s, addend));
  }

  /** R_VPU_CMX_LOCAL_RSHIFT_5: the whole word is the plain word without bits 21 to 26, shifted right by 5. */
  lemma CmxLocal(bs: seq<byte>, s: SymVal, addend: bv64)
    requires |bs| == 4
    ensures var r := Word32(R_VPU_CMX_LOCAL_RSHIFT_5, bs, s, addend); r.Some? && CmxLocalLaw(r.value, Plain32(s, addend))
  {
    hide Word32, Plain32, Stored32, CmxLocalLaw;
    CasesWhole(R_VPU_CMX_LOCAL_RSHIFT_5, bs, s, addend);
    CmxLocalWord(Plain32(s, addend));
  }

  // ---------- the types that add ----------

  predicate Added32(r: bv32, w: bv32, x: bv32) { r - w == x }

  /** A 2-byte word grew by the low half of x. */
  predicate Added16(r: bv16, w: bv16, x: bv32) { (r - w) as bv32 == x & 0xffff }

  lemma PlusMinus32(w: bv32, x: bv32)
    ensures Added32(w + x, w, x)
  {}

  lemma AddAdds32(w: bv32, x: bv32)
    ensures Added32(Add32(w, x), w, x)
  {
    hide Added32;
    PlusMinus32(w, x);
  }

  lemma PlusMinus16(w: bv16, x: bv32)
    ensures Added16(w + ((x & 0xffff) as bv16), w, x)
  {}

  lemma AddAdds16(w: bv16, x: bv32)
    ensures Added16(Add16(w, Low16(x)), w, x)
  {
    hide Added16;
    PlusMinus16(w, x);
  }

  /** R_VPU_32_SUM and R_VPU_16_SUM add the plain word to the old one, R_VPU_LO_21_SUM what R_VPU_LO_21 would store in a
      word of zeroes. */
  lemma Sums(bs: seq<byte>, s: SymVal, addend: bv64)
    requires |bs| == 4
    ensures var r := Word32(R_VPU_32_SUM, bs, s, addend); r.Some? && Added32(r.value, Load32(bs), Plain32(s, addend))
    ensures var r := Word32(R_VPU_LO_21_SUM, bs, s, addend);
      r.Some? && Added32(r.value, Load32(bs), Low21(Plain32(s, addend)))
    ensures var r := Word16(R_VPU_16_SUM, bs[..2], s, addend);
      r.Some? && Added16(r.value, Load16(bs[..2]), Plain32(s, addend))
  {
    hide Word32, Word16, Plain32, Load32, Load16, Add32, Add16, Low21, Low16, Added32, Added16, Updated32;
    CasesUpdated(R_VPU_32_SUM, bs, s, addend);
    CasesUpdated(R_VPU_LO_21_SUM, bs, s, addend);
    UpdatedAdds(Load32(bs), s, addend);
    Cases16(bs[..2], s, addend);
    AddAdds32(Load32(bs), Plain32(s, addend));
    AddAdds32(Load32(bs), Low21(Plain32(s, addend)));
    AddAdds16(Load16(bs[..2]), Plain32(s, addend));
  }

  // ---------- the types that set bits ----------

  /** All old bits stay, and the new ones are exactly those of the field. */
  predicate Sets64(r: bv64, w: bv64, field: bv64) {
    Keeps64(r, w) && Adds64(r, w, field)
  }

  predicate Keeps64(r: bv64, w: bv64) { r & w == w }
  predicate Adds64(r: bv64, w: bv64, field: bv64) { r & !w == field & !w }

  predicate Sets32(r: bv32, w: bv32, field: bv32) {
    Keeps32(r, w) && Adds32(r, w, field)
  }

  predicate Keeps32(r: bv32, w: bv32) { r & w == w }
  predicate Adds32(r: bv32, w: bv32, field: bv32) { r & !w == field & !w }

  lemma OrKeeps64(w: bv64, field: bv64)
    ensures Keeps64(w | field, w)
  {}

  lemma OrAdds64(w: bv64, field: bv64)
    ensures Adds64(w | field, w, field)
  {}

  lemma OrSets64(w: bv64, field: bv64)
    ensures Sets64(SetBits64(w, field), w, field)
  {
    hide Keeps64, Adds64;
    OrKeeps64(w, field);
    OrAdds64(w, field);
  }

  lemma OrKeeps32(w: bv32, field: bv32)
    ensures Keeps32(w | field, w)
  {}

  lemma OrAdds32(w: bv32, field: bv32)
    ensures Adds32(w | field, w, field)
  {}

  lemma OrSets32(w: bv32, field: bv32)
    ensures Sets32(SetBits32(w, field), w, field)
  {
    hide Keeps32, Adds32;
    OrKeeps32(w, field);
    OrAdds32(w, field);
  }

  /** R_VPU_64_OR sets the bits of the plain word, R_VPU_32_BIT_OR_B21_B26_UNSET those of its bits that are not among
      21 to 26. */
  lemma Ors(bs: seq<byte>, s: SymVal, addend: bv64)
    requires |bs| == 8
    ensures var r := Word64(R_VPU_64_OR, bs, s, addend); r.Some? && Sets64(r.value, Load64(bs), Plain64(s, addend))
    ensures var r := Word32(R_VPU_32_BIT_OR_B21_B26_UNSET, bs[..4], s, addend);
      r.Some? && Sets32(r.value, Load32(bs[..4]), TileUnset(Plain32(s, addend)))
  {
    hide Word64, Word32, Plain64, Plain32, Load64, Load32, SetBits64, SetBits32, Sets64, Sets32, TileUnset, Updated32;
    Cases64(bs, s, addend);
    CasesUpdated(R_VPU_32_BIT_OR_B21_B26_UNSET, bs[..4], s, addend);
    UpdatedAdds(Load32(bs[..4]), s, addend);
    OrSets64(Load64(bs), Plain64(s, addend));
    OrSets32(Load32(bs[..4]), TileUnset(Plain32(s, addend)));
  }

  // the OR type on two halves of a word and on the low word of two

  function Joined16(low: bv16, high: bv16): bv32 { (low as bv32) | ((high as bv32) << 16) }
  function Joined32(low: bv32, high: bv32): bv64 { (low as bv64) | ((high as bv64) << 32) }

  lemma LoadHalves(bs: seq<byte>)
    requires |bs| == 4
    ensures Load32(bs) == Joined16(Load16(bs[..2]), Load16(bs[2..]))
  {}

  lemma BytesOfHalves(low: bv16, high: bv16)
    ensures Byte0(Joined16(low, high)) == (low & 0xff) as bv8 && Byte1(Joined16(low, high)) == (low >> 8) as bv8
    ensures Byte2(Joined16(low, high)) == (high & 0xff) as bv8 && Byte3(Joined16(low, high)) == (high >> 8) as bv8
  {}

  lemma StoreHalves(low: bv16, high: bv16)
    ensures Store32(Joined16(low, high)) == Store16(low) + Store16(high)
  {
    hide Byte0, Byte1, Byte2, Byte3, Joined16;
    BytesOfHalves(low, high);
  }

  lemma SetHalves(low: bv16, high: bv16, a: bv16, b: bv16)
    ensures SetBits32(Joined16(low, high), Joined16(a, b)) == Joined16(SetBits16(low, a), SetBits16(high, b))
  {}

  lemma UnsetHalves(x: bv32)
    ensures TileUnset(x) == Joined16(Low16(x), High16(TileUnset(x)))
  {}

  lemma OrOfHalves(low: bv16, high: bv16, x: bv32)
    ensures SetBits32(Joined16(low, high), TileUnset(x)) ==
      Joined16(SetBits16(low, Low16(x)), SetBits16(high, High16(TileUnset(x))))
  {
    hide SetBits32, SetBits16, TileUnset, Low16, High16, Joined16;
    SetHalves(low, high, Low16(x), High16(TileUnset(x)));
    UnsetHalves(x);
  }

  /** The two 2-byte types, applied to the two halves of a word, give what the 4-byte type gives on the whole word. */
  lemma OrOnHalves(bs: seq<byte>, s: SymVal, addend: bv64)
    requires |bs| == 4
    ensures var low := PatchBytes(R_VPU_32_BIT_OR_B21_B26_UNSET_LOW_16, bs[..2], s, addend);
      var high := PatchBytes(R_VPU_32_BIT_OR_B21_B26_UNSET_HIGH_16, bs[2..], s, addend);
      low.Some? && high.Some? && PatchBytes(R_VPU_32_BIT_OR_B21_B26_UNSET, bs, s, addend) == Some(low.value + high.value)
  {
    hide Load32, Store32, Load16, Store16, Sum32, SetBits32, SetBits16, TileUnset, Low16, High16, Joined16, Insert, Inserted32,
      Mask32, Stored32, Add16, Add32, Minus32, RunTimeMapped, Displacement28, Displacement4, ToDpuMulticastBase, Low21, Low32,
      Wide, Patch64, Load64, Store64;
    var x, low, high := Sum32(s, addend), Load16(bs[..2]), Load16(bs[2..]);
    LoadHalves(bs);
    OrOfHalves(low, high, x);
    StoreHalves(SetBits16(low, Low16(x)), SetBits16(high, High16(TileUnset(x))));
  }

  lemma StoreWords(low: bv32, high: bv32)
    ensures Store64(Joined32(low, high)) == Store32(low) + Store32(high)
  {
    hide Store32;
    assert (Joined32(low, high) & 0xffff_ffff) as bv32 == low;
    assert (Joined32(low, high) >> 32) as bv32 == high;
  }

  lemma OrOfWords(low: bv32, high: bv32, sum: bv64)
    ensures SetBits64(Joined32(low, high), TileUnset64(sum)) == Joined32(SetBits32(low, TileUnset(Low32(sum))), high)
  {}

  lemma LoadWords(bs: seq<byte>)
    requires |bs| == 8
    ensures Load64(bs) == Joined32(Load32(bs[..4]), Load32(bs[4..]))
  {
    hide Load32;
  }

  /** R_VPU_64_BIT_OR_B21_B26_UNSET is the 4-byte type on the low word; the high word stays. */
  lemma OrOnLowWord(bs: seq<byte>, s: SymVal, addend: bv64)
    requires |bs| == 8
    ensures var low := PatchBytes(R_VPU_32_BIT_OR_B21_B26_UNSET, bs[..4], s, addend);
      low.Some? && PatchBytes(R_VPU_64_BIT_OR_B21_B26_UNSET, bs, s, addend) == Some(low.value + bs[4..])
  {
    hide Load32, Store32, Load64, Store64, Sum64, SetBits32, SetBits64, TileUnset, TileUnset64, Joined32, Insert, Inserted32,
      Mask32, Stored32, Add32, Minus32, RunTimeMapped, Displacement28, Displacement4, ToDpuMulticastBase, Low21, Low32, Wide,
      Product, Minus, ShiftLeft, Low40, High27, Patch16;
    var low, high, sum := Load32(bs[..4]), Load32(bs[4..]), Sum64(s, addend);
    LoadWords(bs);
    OrOfWords(low, high, sum);
    StoreWords(SetBits32(low, TileUnset(Low32(sum))), high);
    StoreLoad32(bs[4..]);
  }

  predicate High27Law(r: bv64, w: bv64, x: bv32) {
    r & w == w && r & 0x1F_FFFF_FFFF == w & 0x1F_FFFF_FFFF
    && ((r & !w) >> 37) << 4 == ((x & 0x7F1F_FFF0) as bv64) & !((w >> 37) << 4)
  }

  lemma High27Field(w: bv64, x: bv32)
    ensures High27Law(SetBits64(w, High27(x)), w, x)
  {}

  /** R_VPU_HIGH_27_BIT_OR sets bits 37 to 63 by bits 4 to 30 of the plain word, without bits 21 to 23. */
  lemma OrHigh27(bs: seq<byte>, s: SymVal, addend: bv64)
    requires |bs| == 8
    ensures var r := Word64(R_VPU_HIGH_27_BIT_OR, bs, s, addend);
      r.Some? && High27Law(r.value, Load64(bs), Plain32(s, addend))
  {
    hide Word64, Plain64, Plain32, Load64, SetBits64, High27, High27Law;
    Cases64(bs, s, addend);
    High27Field(Load64(bs), Plain32(s, addend));
  }

  // ---------- the types that multiply and shift ----------

  /** What R_VPU_64_MULT makes of a word and a symbol value. */
  function Times(w: bv64, v: bv64): bv64 {
    var r := Word64(R_VPU_64_MULT, Store64(w), SymVal(v, 0), 0);
    if r.Some? then r.value else 0
  }

  lemma TimesIsProduct(w: bv64, v: bv64)
    ensures Times(w, v) == Product(w, v)
  {
    hide Word64, Load64, Store64, Product;
    Cases64(Store64(w), SymVal(v, 0), 0);
    LoadStore64(w);
  }

  predicate IsSum(r: bv64, p: bv64, q: bv64) { r == p + q }

  lemma ProductOfSum(w: bv64, v: bv64, u: bv64)
    ensures IsSum(w * (v + u), w * v, w * u)
  {}

  lemma ProductAddsUp(w: bv64, v: bv64, u: bv64)
    ensures IsSum(Product(w, v + u), Product(w, v), Product(w, u))
  {
    hide IsSum;
    ProductOfSum(w, v, u);
  }

  lemma ProductUnits(w: bv64)
    ensures Product(w, 0) == 0 && Product(w, 1) == w
  {}

  /** R_VPU_64_MULT is multiplication: by 0 it clears, by 1 it keeps, and it adds up over sums. */
  lemma TimesLaws(w: bv64, v: bv64, u: bv64)
    ensures Times(w, 0) == 0 && Times(w, 1) == w && IsSum(Times(w, v + u), Times(w, v), Times(w, u))
  {
    hide Times, Product, IsSum;
    TimesIsProduct(w, 0);
    TimesIsProduct(w, 1);
    TimesIsProduct(w, v);
    TimesIsProduct(w, u);
    TimesIsProduct(w, v + u);
    ProductUnits(w);
    ProductAddsUp(w, v, u);
  }

  lemma SumOfDifference(x: bv64, y: bv64)
    ensures IsSum(x, x - y, y)
  {}

  lemma MinusLaw(x: bv64, y: bv64)
    ensures IsSum(x, Minus(x, y), y)
  {
    hide IsSum;
    SumOfDifference(x, y);
  }

  /** R_VPU_64_MULT looks at nothing but the word and the value; R_VPU_64_MULT_SUB multiplies by what is missing from the
      value to the addend. */
  lemma Multiplies(bs: seq<byte>, s: SymVal, addend: bv64)
    requires |bs| == 8
    ensures Word64(R_VPU_64_MULT, bs, s, addend) == Some(Times(Load64(bs), s.value))
    ensures var missing := Minus(addend, s.value);
      IsSum(addend, missing, s.value) && Word64(R_VPU_64_MULT_SUB, bs, s, addend) == Some(Times(Load64(bs), missing))
  {
    hide Word64, Load64, Times, Product, Minus, IsSum;
    Cases64(bs, s, addend);
    TimesIsProduct(Load64(bs), s.value);
    TimesIsProduct(Load64(bs), Minus(addend, s.value));
    MinusLaw(addend, s.value);
  }

  lemma ShiftIsProduct(w: bv64, n: bv64)
    requires n < 64
    ensures ShiftLeft(w, n) == Some(w * (1 << n)) && ShiftLeft(1, n) == Some(1 << n)
  {}

  lemma ShiftMultiplies(w: bv64, n: bv64)
    requires n < 64
    ensures ShiftLeft(1, n).Some? && ShiftLeft(w, n) == Some(Product(w, ShiftLeft(1, n).value))
  {
    hide ShiftLeft;
    ShiftIsProduct(w, n);
  }

  lemma ShiftByOneMore(n: bv64)
    requires n < 63
    ensures ShiftLeft(1, 0) == Some(1) && ShiftLeft(1, n).Some?
    ensures ShiftLeft(1, n + 1) == Some(ShiftLeft(1, n).value + ShiftLeft(1, n).value)
  {}

  /** How far R_VPU_64_LSHIFT moves the lowest bit. */
  function Power(n: bv64): bv64 {
    var r := Word64(R_VPU_64_LSHIFT, Store64(1), SymVal(n, 0), 0);
    if r.Some? then r.value else 0
  }

  lemma PowerIsShift(n: bv64)
    requires ShiftLeft(1, n).Some?
    ensures Power(n) == ShiftLeft(1, n).value
  {
    hide Word64, Load64, Store64, ShiftLeft;
    CaseShift(Store64(1), SymVal(n, 0), 0);
    LoadStore64(1);
  }

  /** A power of two: 1, and twice as much for every further bit. */
  lemma PowerLaws(n: bv64)
    requires n < 63
    ensures Power(0) == 1 && IsSum(Power(n + 1), Power(n), Power(n))
  {
    hide Power, ShiftLeft;
    ShiftByOneMore(n);
    PowerIsShift(0);
    PowerIsShift(n);
    PowerIsShift(n + 1);
  }

  /** R_VPU_64_LSHIFT multiplies by that power, and has no result from 64 on. */
  lemma Shifts(bs: seq<byte>, s: SymVal, addend: bv64)
    requires |bs| == 8
    ensures s.value < 64 ==> Word64(R_VPU_64_LSHIFT, bs, s, addend) == Some(Times(Load64(bs), Power(s.value)))
    ensures s.value >= 64 ==> Word64(R_VPU_64_LSHIFT, bs, s, addend) == None
  {
    CaseShift(bs, s, addend);
    hide Word64, Load64, Times, Product, Power;
    if s.value < 64 {
      ShiftMultiplies(Load64(bs), s.value);
      PowerIsShift(s.value);
      TimesIsProduct(Load64(bs), Power(s.value));
    }
  }

  // ---------- the types for run-time mapped buffers ----------

  lemma Mapped(s: SymVal, addend: bv64, w: bv64)
    ensures RunTimeMapped(s, addend, w) == Plain64(s, Times(addend, Below(w, s.size)))
    ensures Low32(RunTimeMapped(s, addend, w)) == Plain32(s, Times(addend, Below(w, s.size)))
  {
    PlainAreSums(s, Times(addend, Below(w, s.size)));
    TimesIsProduct(addend, Below(w, s.size));
    hide Plain64, Plain32, Times, Product, Below, Low32, Plus;
  }

  /** R_VPU_32_RTM stores the plain word for the addend times the old bits below the symbol's size; R_VPU_DISP40_RTM sets
      the low 40 bits of it. */
  lemma RunTimeMappedTypes(bs: seq<byte>, s: SymVal, addend: bv64)
    requires |bs| == 8
    ensures Word32(R_VPU_32_RTM, bs[..4], s, addend) ==
      Some(Plain32(s, Times(addend, Below(Wide(Load32(bs[..4])), s.size))))
    ensures var r, w := Word64(R_VPU_DISP40_RTM, bs, s, addend), Load64(bs);
      r.Some? && Sets64(r.value, w, Low40(Plain64(s, Times(addend, Below(Low40(w), s.size)))))
  {
    hide Word64, Word32, Plain64, Plain32, Load64, Load32, Times, Below, Wide, Low32, Low40, SetBits64, Sets64, RunTimeMapped,
      Updated32;
    Cases64(bs, s, addend);
    CasesUpdated(R_VPU_32_RTM, bs[..4], s, addend);
    UpdatedAdds(Load32(bs[..4]), s, addend);
    Mapped(s, addend, Wide(Load32(bs[..4])));
    Mapped(s, addend, Low40(Load64(bs)));
    OrSets64(Load64(bs), Low40(Plain64(s, Times(addend, Below(Low40(Load64(bs)), s.size)))));
  }

  /** With no old bit below the symbol's size, both types take the symbol value itself. */
  lemma NothingBelow(bs: seq<byte>, s: SymVal, addend: bv64)
    requires |bs| == 8
    ensures Below(Wide(Load32(bs[..4])), s.size) == 0 ==> Word32(R_VPU_32_RTM, bs[..4], s, addend) == Some(Plain32(s, 0))
    ensures Below(Low40(Load64(bs)), s.size) == 0 ==>
      var r := Word64(R_VPU_DISP40_RTM, bs, s, addend); r.Some? && Sets64(r.value, Load64(bs), Low40(Plain64(s, 0)))
  {
    hide Word64, Word32, Plain64, Plain32, Load64, Load32, Times, Sets64, Below, Low40, Wide;
    RunTimeMappedTypes(bs, s, addend);
    TimesLaws(addend, 0, 0);
  }

  /** The part of w under the mask: kept there, 0 elsewhere. */
  predicate PartOf(part: bv64, w: bv64, mask: bv64) { part & mask == w & mask && part & !mask == 0 }

  lemma Masked(w: bv64, mask: bv64)
    ensures PartOf(w & mask, w, mask)
  {}

  lemma BelowIsPart(w: bv64, size: bv64)
    ensures PartOf(Below(w, size), w, Minus(size, 1))
  {
    BelowIsMasked(w, size);
    hide PartOf, Below, Minus;
    Masked(w, Minus(size, 1));
  }

  lemma BelowIsMasked(w: bv64, size: bv64)
    ensures Below(w, size) == w & Minus(size, 1)
  {}

  predicate PartOf32(part: bv32, w: bv32, mask: bv32) { part & mask == w & mask && part & !mask == 0 }

  /** What the names of parts of words mean. */
  lemma PartsOfWords(w: bv64, size: bv64, x: bv32)
    ensures PartOf(Below(w, size), w, Minus(size, 1)) && PartOf(Low40(w), w, 0xff_ffff_ffff)
    ensures Low32(Wide(x)) == x && Wide(x) >> 32 == 0
    ensures PartOf32(Low21(x), x, 0x1F_FFFF) && PartOf32(TileUnset(x), x, 0xF81F_FFFF)
  {
    BelowIsPart(w, size);
    hide Below, Minus;
  }

  // ---------- the multicast types ----------

  /** Which of the four broadcast patterns an address names. */
  function Pattern(x: bv32): bv32 { (x >> 22) & 3 }

  /** Only bits 20 to 23 of the address change: 22 and 23 are cleared, and pattern 1 sets bit 21, pattern 2 bit 20. */
  predicate MulticastLaw(r: bv32, x: bv32) {
    r & 0xFF0F_FFFF == x & 0xFF0F_FFFF && r & 0x00C0_0000 == 0
    && r & 0x0010_0000 == (if Pattern(x) == 2 then 0x0010_0000 else x & 0x0010_0000)
    && r & 0x0020_0000 == (if Pattern(x) == 1 then 0x0020_0000 else x & 0x0020_0000)
  }

  /** A pattern reaches as many further slices as its number; the offset to slice i + 1 is i + 1 times the slice length. */
  predicate OffsetLaw(r: Option<bv32>, x: bv32, index: bv32) {
    (r.None? <==> index > 2)
    && (r.Some? ==> r.value == if index < Pattern(x) then (index + 1) * 0x2_0000 else 0)
  }

  lemma MulticastBase(x: bv32)
    ensures MulticastLaw(ToDpuMulticastBase(x), x)
  {}

  lemma MulticastOffsets(x: bv32, index: bv32)
    ensures OffsetLaw(SliceOffset(x, index), x, index)
  {}

  lemma MulticastOfLow21(x: bv32)
    ensures ToDpuMulticastBase(Low21(x)) == Low21(x)
  {}

  lemma MinusBack(x: bv32, w: bv32)
    ensures Added32(x, w, x - w)
  {}

  lemma MinusIsDifference(x: bv32, w: bv32)
    ensures Added32(x, w, Minus32(x, w))
  {
    hide Added32;
    MinusBack(x, w);
  }

  /** R_VPU_32_MULTICAST_BASE stores the address its plain word is multicast from, R_VPU_32_MULTICAST_BASE_SUB what is
      missing to it from the old word, and R_VPU_LO_21_MULTICAST_BASE the low 21 bits, which name no pattern. */
  lemma MulticastBases(bs: seq<byte>, s: SymVal, addend: bv64)
    requires |bs| == 4
    ensures var base := Word32(R_VPU_32_MULTICAST_BASE, bs, s, addend);
      var missing := Word32(R_VPU_32_MULTICAST_BASE_SUB, bs, s, addend);
      base.Some? && MulticastLaw(base.value, Plain32(s, addend)) &&
      missing.Some? && Added32(base.value, Load32(bs), missing.value)
    ensures Word32(R_VPU_LO_21_MULTICAST_BASE, bs, s, addend) == Some(Low21(Plain32(s, addend)))
  {
    hide Word32, Plain32, Load32, ToDpuMulticastBase, MulticastLaw, Added32, Updated32, Low21, Minus32, TileUnset;
    var x := Plain32(s, addend);
    CasesWhole(R_VPU_32_MULTICAST_BASE, bs, s, addend);
    CasesWhole(R_VPU_LO_21_MULTICAST_BASE, bs, s, addend);
    CasesUpdated(R_VPU_32_MULTICAST_BASE_SUB, bs, s, addend);
    UpdatedMulticast(Load32(bs), s, addend);
    MulticastBase(x);
    MulticastOfLow21(x);
    MinusIsDifference(ToDpuMulticastBase(x), Load32(bs));
  }

  /** The offset goes above the low four bits, which stay. */
  predicate Displacement28Law(r: Option<bv32>, w: bv32, x: bv32) {
    if w >> 4 > 2 then r.None?
    else
      r.Some? && r.value & 0xf == w & 0xf &&
      r.value >> 4 == if w >> 4 < Pattern(x) then ((w >> 4) + 1) * 0x2_0000 else 0
  }

  /** The low four bits, the index, become a flag: is there such a slice? The others stay. */
  predicate Displacement4Law(r: Option<bv32>, w: bv32, x: bv32) {
    if w & 0xf > 2 then r.None?
    else r.Some? && r.value >> 4 == w >> 4 && r.value & 0xf == if w & 0xf < Pattern(x) then 1 else 0
  }

  lemma Displacement28Is(w: bv32, x: bv32)
    ensures Displacement28Law(Displacement28(w, x), w, x)
  {
    MulticastOffsets(x, w >> 4);
    hide SliceOffset, Pattern;
  }

  lemma FlagInLowBits(w: bv32, flag: bv32)
    requires flag < 2
    ensures ((w & 0xffff_fff0) | flag) >> 4 == w >> 4 && ((w & 0xffff_fff0) | flag) & 0xf == flag
  {}

  lemma Displacement4Is(w: bv32, x: bv32)
    ensures Displacement4Law(Displacement4(w, x), w, x)
  {
    MulticastOffsets(x, w & 0xf);
    FlagInLowBits(w, 0);
    FlagInLowBits(w, 1);
    if w & 0xf <= 2 { OffsetsDiffer(w & 0xf); }
    hide SliceOffset, Pattern;
  }

  lemma OffsetsDiffer(index: bv32)
    requires index <= 2
    ensures (index + 1) * 0x2_0000 != 0
  {}

  /** The multicast offset types: the old word holds the index of a further slice; behind the third there is none. */
  lemma MulticastDisplacements(bs: seq<byte>, s: SymVal, addend: bv64)
    requires |bs| == 4
    ensures Displacement28Law(Word32(R_VPU_DISP28_MULTICAST_OFFSET, bs, s, addend), Load32(bs), Plain32(s, addend))
    ensures Displacement4Law(Word32(R_VPU_DISP4_MULTICAST_OFFSET_CMP, bs, s, addend), Load32(bs), Plain32(s, addend))
  {
    hide Word32, Plain32, Load32, Updated32, Displacement28, Displacement4, Displacement28Law, Displacement4Law;
    CasesUpdated(R_VPU_DISP28_MULTICAST_OFFSET, bs, s, addend);
    CasesUpdated(R_VPU_DISP4_MULTICAST_OFFSET_CMP, bs, s, addend);
    UpdatedMulticast(Load32(bs), s, addend);
    Displacement28Is(Load32(bs), Plain32(s, addend));
    Displacement4Is(Load32(bs), Plain32(s, addend));
  }
}
