/** The byte layout of the ELF structures: little-endian fields one behind the other, without padding. */
module ElfCodec {
  import opened Bytes
  import opened ElfFile

  // ---------- records of fixed-width fields ----------

  function Width(widths: seq<nat>): nat {
    if widths == [] then 0 else widths[0] + Width(widths[1..])
  }

  predicate Fits(values: seq<nat>, widths: seq<nat>) {
    |values| == |widths| && forall k :: 0 <= k < |values| ==> values[k] < Pow256(widths[k])
  }

  function EncodeFields(values: seq<nat>, widths: seq<nat>): (bs: seq<byte>)
    requires |values| == |widths|
    ensures |bs| == Width(widths)
  {
    if values == [] then [] else EncodeInt(values[0], widths[0]) + EncodeFields(values[1..], widths[1..])
  }

  function DecodeFields(bs: seq<byte>, widths: seq<nat>): (values: seq<nat>)
    requires |bs| == Width(widths) && forall k :: 0 <= k < |widths| ==> widths[k] > 0
    ensures Fits(values, widths)
    decreases |bs|
  {
    if widths == [] then []
    else [DecodeInt(bs[..widths[0]])] + DecodeFields(bs[widths[0]..], widths[1..])
  }

  lemma {:induction false} FieldsRoundTrip(values: seq<nat>, widths: seq<nat>)
    requires Fits(values, widths) && forall k :: 0 <= k < |widths| ==> widths[k] > 0
    ensures DecodeFields(EncodeFields(values, widths), widths) == values
  {
    hide DecodeInt, EncodeInt, Pow256;
    if values != [] {
      var w, bs := widths[0], EncodeFields(values, widths);
      assert bs[..w] == EncodeInt(values[0], w) && bs[w..] == EncodeFields(values[1..], widths[1..]);
      DecodeEncode(values[0], w);
      FieldsRoundTrip(values[1..], widths[1..]);
    }
  }

  // ---------- the structures ----------

  const SECTION_HEADER_WIDTHS: seq<nat> := [4, 4, 8, 8, 8, 8, 4, 4, 8, 8]
  const ELF_HEADER_WIDTHS: seq<nat> := [4, 1, 1, 1, 1, 1, 7, 2, 2, 4, 8, 8, 8, 4, 2, 2, 2, 2, 2, 2]
  const SYMBOL_WIDTHS: seq<nat> := [4, 1, 1, 2, 8, 8]
  const RELA_WIDTHS: seq<nat> := [8, 4, 4, 8]

  const HEADER_SIZE: nat := 64
  const ENTRY_SIZE: nat := 24

  lemma WidthOfPair(a: seq<nat>, b: seq<nat>)
    ensures Width(a + b) == Width(a) + Width(b)
  {
    if a == [] {
      assert a + b == b;
    } else {
      assert (a + b)[1..] == a[1..] + b;
      WidthOfPair(a[1..], b);
    }
  }

  lemma WidthOfTwo(x: nat, y: nat)
    ensures Width([x, y]) == x + y
  {
    assert [x, y][1..] == [y] && [y][1..] == [];
    assert Width([y]) == y;
  }

  lemma WidthOfFour(w: nat, x: nat, y: nat, z: nat)
    ensures Width([w, x, y, z]) == w + x + y + z
  {
    WidthOfPair([w, x], [y, z]);
    WidthOfTwo(w, x);
    WidthOfTwo(y, z);
    assert [w, x, y, z] == [w, x] + [y, z];
  }

  lemma StructureSizes()
    ensures Width(SECTION_HEADER_WIDTHS) == HEADER_SIZE && Width(ELF_HEADER_WIDTHS) == HEADER_SIZE
    ensures Width(SYMBOL_WIDTHS) == ENTRY_SIZE && Width(RELA_WIDTHS) == ENTRY_SIZE
  {
    hide Width;
    WidthOfFour(4, 4, 8, 8);
    WidthOfFour(8, 8, 4, 4);
    WidthOfTwo(8, 8);
    WidthOfPair([4, 4, 8, 8], [8, 8, 4, 4]);
    WidthOfPair([4, 4, 8, 8] + [8, 8, 4, 4], [8, 8]);
    assert SECTION_HEADER_WIDTHS == [4, 4, 8, 8] + [8, 8, 4, 4] + [8, 8];
    WidthOfFour(4, 1, 1, 1);
    WidthOfFour(1, 1, 7, 2);
    WidthOfFour(2, 4, 8, 8);
    WidthOfFour(8, 4, 2, 2);
    WidthOfFour(2, 2, 2, 2);
    var a, b, c, d, e := [4, 1, 1, 1], [1, 1, 7, 2], [2, 4, 8, 8], [8, 4, 2, 2], [2, 2, 2, 2];
    WidthOfPair(a, b);
    WidthOfPair(a + b, c);
    WidthOfPair(a + b + c, d);
    WidthOfPair(a + b + c + d, e);
    assert ELF_HEADER_WIDTHS == a + b + c + d + e;
    WidthOfFour(4, 1, 1, 2);
    WidthOfPair([4, 1, 1, 2], [8, 8]);
    assert SYMBOL_WIDTHS == [4, 1, 1, 2] + [8, 8];
    WidthOfFour(8, 4, 4, 8);
  }

  function HeaderFields(h: SectionHeader): seq<nat> {
    [h.name, h.stype, h.flags, h.addr, h.offset, h.size, h.link, h.info, h.addralign, h.entsize]
  }

  function EncodeSectionHeader(h: SectionHeader): (bs: seq<byte>)
    ensures |bs| == HEADER_SIZE
  {
    StructureSizes();
    EncodeFields(HeaderFields(h), SECTION_HEADER_WIDTHS)
  }

  function DecodeSectionHeader(bs: seq<byte>): SectionHeader
    requires |bs| == HEADER_SIZE
  {
    hide Width, DecodeFields, Pow256;
    StructureSizes();
    Pow256Values();
    var v := DecodeFields(bs, SECTION_HEADER_WIDTHS);
    assert forall k :: 0 <= k < 10 ==> v[k] < Pow256(SECTION_HEADER_WIDTHS[k]);
    SectionHeader(v[0], v[1], v[2], v[3], v[4], v[5], v[6], v[7], v[8], v[9])
  }

  lemma SectionHeaderRoundTrip(h: SectionHeader)
    ensures DecodeSectionHeader(EncodeSectionHeader(h)) == h
  {
    hide Width, DecodeFields, EncodeFields, Pow256;
    StructureSizes();
    Pow256Values();
    FieldsRoundTrip(HeaderFields(h), SECTION_HEADER_WIDTHS);
  }

  /** The fields of an ELF header that the writer sets or the reader checks; the rest is zero. */
  datatype ElfHeader = ElfHeader(magic: u32, class_: u8, data: u8, etype: u16, shoff: u64, ehsize: u16, shentsize: u16,
                                 shnum: u16, shstrndx: u16)

  const ELF_MAGIC: u32 := 0x464C_457F  // 0x7f 'E' 'L' 'F', least significant byte first

  function ElfFields(h: ElfHeader): seq<nat> {
    [h.magic, h.class_, h.data, 0, 0, 0, 0, h.etype, 0, 0, 0, 0, h.shoff, 0, h.ehsize, 0, 0, h.shentsize, h.shnum, h.shstrndx]
  }

  function EncodeElfHeader(h: ElfHeader): (bs: seq<byte>)
    ensures |bs| == HEADER_SIZE
  {
    StructureSizes();
    EncodeFields(ElfFields(h), ELF_HEADER_WIDTHS)
  }

  function DecodeElfHeader(bs: seq<byte>): ElfHeader
    requires |bs| == HEADER_SIZE
  {
    hide Width, DecodeFields, Pow256;
    StructureSizes();
    Pow256Values();
    var v := DecodeFields(bs, ELF_HEADER_WIDTHS);
    assert forall k :: 0 <= k < 20 ==> v[k] < Pow256(ELF_HEADER_WIDTHS[k]);
    ElfHeader(v[0], v[1], v[2], v[7], v[12], v[14], v[17], v[18], v[19])
  }

  lemma ElfHeaderRoundTrip(h: ElfHeader)
    ensures DecodeElfHeader(EncodeElfHeader(h)) == h
  {
    hide Width, DecodeFields, EncodeFields, Pow256;
    StructureSizes();
    Pow256Values();
    assert Pow256(7) >= 1;
    FieldsRoundTrip(ElfFields(h), ELF_HEADER_WIDTHS);
  }

  /** An Elf64_Sym. */
  datatype SymbolEntry = SymbolEntry(name: u32, info: u8, other: u8, shndx: u16, value: u64, size: u64)

  function SymbolFields(s: SymbolEntry): seq<nat> { [s.name, s.info, s.other, s.shndx, s.value, s.size] }

  function EncodeSymbol(s: SymbolEntry): (bs: seq<byte>)
    ensures |bs| == ENTRY_SIZE
  {
    StructureSizes();
    EncodeFields(SymbolFields(s), SYMBOL_WIDTHS)
  }

  function DecodeSymbol(bs: seq<byte>): SymbolEntry
    requires |bs| == ENTRY_SIZE
  {
    hide Width, DecodeFields, Pow256;
    StructureSizes();
    Pow256Values();
    var v := DecodeFields(bs, SYMBOL_WIDTHS);
    assert forall k :: 0 <= k < 6 ==> v[k] < Pow256(SYMBOL_WIDTHS[k]);
    SymbolEntry(v[0], v[1], v[2], v[3], v[4], v[5])
  }

  lemma SymbolRoundTrip(s: SymbolEntry)
    ensures DecodeSymbol(EncodeSymbol(s)) == s
  {
    hide Width, DecodeFields, EncodeFields, Pow256;
    StructureSizes();
    Pow256Values();
    FieldsRoundTrip(SymbolFields(s), SYMBOL_WIDTHS);
  }

  /** An Elf64_Rela. */
  datatype RelaEntry = RelaEntry(offset: u64, info: u64, addend: u64)

  /** Symbol index and type share r_info. */
  function RInfo(sym: u32, rtype: u32): u64 { sym * TWO_32 + rtype }
  function RSym(info: u64): u32 { info / TWO_32 }
  function RType(info: u64): u32 { info % TWO_32 }

  lemma RInfoRoundTrip(sym: u32, rtype: u32)
    ensures RSym(RInfo(sym, rtype)) == sym && RType(RInfo(sym, rtype)) == rtype
  {}

  function RelaFields(r: RelaEntry): seq<nat> { [r.offset, RType(r.info), RSym(r.info), r.addend] }

  function EncodeRela(r: RelaEntry): (bs: seq<byte>)
    ensures |bs| == ENTRY_SIZE
  {
    StructureSizes();
    EncodeFields(RelaFields(r), RELA_WIDTHS)
  }

  function DecodeRela(bs: seq<byte>): RelaEntry
    requires |bs| == ENTRY_SIZE
  {
    hide Width, DecodeFields, Pow256;
    StructureSizes();
    Pow256Values();
    var v := DecodeFields(bs, RELA_WIDTHS);
    assert forall k :: 0 <= k < 4 ==> v[k] < Pow256(RELA_WIDTHS[k]);
    RelaEntry(v[0], RInfo(v[2], v[1]), v[3])
  }

  lemma RelaRoundTrip(r: RelaEntry)
    ensures DecodeRela(EncodeRela(r)) == r
  {
    hide Width, DecodeFields, EncodeFields, Pow256;
    StructureSizes();
    Pow256Values();
    FieldsRoundTrip(RelaFields(r), RELA_WIDTHS);
  }
}
