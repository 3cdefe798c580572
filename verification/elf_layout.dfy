/** Where the fields of the ELF structures stand, as little-endian integers at fixed byte offsets. */
module ElfLayout {
  import opened Bytes
  import opened ElfCodec

  /** The little-endian integer of some width at some offset. */
  function Field(bs: seq<byte>, at: nat, width: nat): nat
    requires at + width <= |bs|
  {
    DecodeInt(bs[at..at + width])
  }

  /** Where field k starts. */
  function Offset(widths: seq<nat>, k: nat): nat
    requires k <= |widths|
  {
    if k == 0 then 0 else Offset(widths, k - 1) + widths[k - 1]
  }

  lemma {:induction false} OffsetInTail(widths: seq<nat>, k: nat)
    requires 0 < k <= |widths|
    ensures Offset(widths, k) == widths[0] + Offset(widths[1..], k - 1)
  {
    if k > 1 {
      OffsetInTail(widths, k - 1);
    }
  }

  lemma {:induction false} OffsetInside(widths: seq<nat>, k: nat)
    requires k < |widths|
    ensures Offset(widths, k) + widths[k] <= Width(widths)
    decreases |widths|
  {
    if k > 0 {
      OffsetInTail(widths, k);
      OffsetInside(widths[1..], k - 1);
    }
  }

  predicate AllPositive(widths: seq<nat>) {
    forall k :: 0 <= k < |widths| ==> widths[k] > 0
  }

  lemma FirstAndRest(bs: seq<byte>, widths: seq<nat>, k: nat)
    requires |bs| == Width(widths) && AllPositive(widths) && k < |widths|
    ensures AllPositive(widths[1..]) && |bs| == widths[0] + Width(widths[1..])
    ensures k == 0 ==> DecodeFields(bs, widths)[k] == Field(bs, 0, widths[0])
    ensures k > 0 ==> DecodeFields(bs, widths)[k] == DecodeFields(bs[widths[0]..], widths[1..])[k - 1]
  {
    hide DecodeInt;
  }

  lemma FieldInRest(bs: seq<byte>, skipped: nat, at: nat, width: nat)
    requires skipped <= |bs| && at + width <= |bs| - skipped
    ensures Field(bs[skipped..], at, width) == Field(bs, skipped + at, width)
  {
    assert bs[skipped..][at..at + width] == bs[skipped + at..skipped + at + width];
  }

  /** Field k is the integer between the end of the fields before it and its own end. */
  lemma {:induction false} FieldAt(bs: seq<byte>, widths: seq<nat>, k: nat)
    requires |bs| == Width(widths) && AllPositive(widths) && k < |widths|
    ensures Offset(widths, k) + widths[k] <= |bs|
    ensures DecodeFields(bs, widths)[k] == Field(bs, Offset(widths, k), widths[k])
    decreases |widths|
  {
    hide Width, DecodeFields, Offset, Field, AllPositive, Pow256;
    OffsetInside(widths, k);
    FirstAndRest(bs, widths, k);
    if k == 0 {
      NothingBefore(widths);
    } else {
      OffsetInTail(widths, k);
      FieldAt(bs[widths[0]..], widths[1..], k - 1);
      FieldInRest(bs, widths[0], Offset(widths[1..], k - 1), widths[k]);
    }
  }

  lemma NothingBefore(widths: seq<nat>)
    ensures Offset(widths, 0) == 0
  {}

  lemma SymbolOffsets()
    ensures Offset(SYMBOL_WIDTHS, 1) == 4 && Offset(SYMBOL_WIDTHS, 2) == 5 && Offset(SYMBOL_WIDTHS, 3) == 6
    ensures Offset(SYMBOL_WIDTHS, 4) == 8 && Offset(SYMBOL_WIDTHS, 5) == 16
  {}

  /** An Elf64_Sym: name, info, other, section index, value and size. */
  lemma SymbolLayout(bs: seq<byte>)
    requires |bs| == ENTRY_SIZE
    ensures var s := DecodeSymbol(bs);
      s.name == Field(bs, 0, 4) && s.info == Field(bs, 4, 1) && s.other == Field(bs, 5, 1) && s.shndx == Field(bs, 6, 2)
      && s.value == Field(bs, 8, 8) && s.size == Field(bs, 16, 8)
  {
    SymbolOffsets();
    hide Width, DecodeFields, DecodeInt;
    StructureSizes();
    FieldAt(bs, SYMBOL_WIDTHS, 0);
    FieldAt(bs, SYMBOL_WIDTHS, 1);
    FieldAt(bs, SYMBOL_WIDTHS, 2);
    FieldAt(bs, SYMBOL_WIDTHS, 3);
    FieldAt(bs, SYMBOL_WIDTHS, 4);
    FieldAt(bs, SYMBOL_WIDTHS, 5);
  }

  lemma RelaOffsets()
    ensures Offset(RELA_WIDTHS, 1) == 8 && Offset(RELA_WIDTHS, 2) == 12 && Offset(RELA_WIDTHS, 3) == 16
  {}

  lemma RelaFieldsAt(bs: seq<byte>, v: seq<nat>)
    requires |bs| == Width(RELA_WIDTHS) && AllPositive(RELA_WIDTHS) && v == DecodeFields(bs, RELA_WIDTHS)
    ensures |bs| == ENTRY_SIZE && |v| == 4
    ensures v[0] == Field(bs, 0, 8) && v[1] == Field(bs, 8, 4) && v[2] == Field(bs, 12, 4) && v[3] == Field(bs, 16, 8)
  {
    RelaOffsets();
    hide Width, DecodeFields, DecodeInt;
    StructureSizes();
    FieldAt(bs, RELA_WIDTHS, 0);
    FieldAt(bs, RELA_WIDTHS, 1);
    FieldAt(bs, RELA_WIDTHS, 2);
    FieldAt(bs, RELA_WIDTHS, 3);
  }

  lemma DecodedRela(bs: seq<byte>)
    requires |bs| == ENTRY_SIZE
    ensures Field(bs, 8, 4) < TWO_32 && Field(bs, 12, 4) < TWO_32
    ensures var r := DecodeRela(bs);
      r.offset == Field(bs, 0, 8) && r.info == RInfo(Field(bs, 12, 4), Field(bs, 8, 4)) && r.addend == Field(bs, 16, 8)
  {
    hide Width, DecodeFields, Field, RInfo;
    StructureSizes();
    Halves(bs);
    RelaFieldsAt(bs, DecodeFields(bs, RELA_WIDTHS));
  }

  /** An Elf64_Rela: offset, r_info with the type in its low half and the symbol index in its high half, and addend. */
  lemma RelaLayout(bs: seq<byte>)
    requires |bs| == ENTRY_SIZE
    ensures var r := DecodeRela(bs);
      r.offset == Field(bs, 0, 8) && RType(r.info) == Field(bs, 8, 4) && RSym(r.info) == Field(bs, 12, 4)
      && r.info == Field(bs, 8, 8) && r.addend == Field(bs, 16, 8)
  {
    DecodedRela(bs);
    Halves(bs);
    InfoIs(Field(bs, 12, 4), Field(bs, 8, 4));
    hide DecodeRela, Field, RInfo, RSym, RType;
    RInfoRoundTrip(Field(bs, 12, 4), Field(bs, 8, 4));
  }

  lemma InfoIs(sym: u32, rtype: u32)
    ensures RInfo(sym, rtype) == rtype + TWO_32 * sym
  {}

  lemma Halves(bs: seq<byte>)
    requires |bs| == ENTRY_SIZE
    ensures Field(bs, 8, 8) == Field(bs, 8, 4) + TWO_32 * Field(bs, 12, 4)
    ensures Field(bs, 8, 4) < TWO_32 && Field(bs, 12, 4) < TWO_32
  {
    hide DecodeInt, Pow256;
    Pow256Values();
    DecodeSplit(bs[8..12], bs[12..16]);
    assert bs[8..12] + bs[12..16] == bs[8..16];
    assert DecodeInt(bs[8..12]) < Pow256(4) && DecodeInt(bs[12..16]) < Pow256(4);
  }

  lemma SectionHeaderOffsets()
    ensures Offset(SECTION_HEADER_WIDTHS, 1) == 4 && Offset(SECTION_HEADER_WIDTHS, 2) == 8
    ensures Offset(SECTION_HEADER_WIDTHS, 3) == 16 && Offset(SECTION_HEADER_WIDTHS, 4) == 24
    ensures Offset(SECTION_HEADER_WIDTHS, 5) == 32 && Offset(SECTION_HEADER_WIDTHS, 6) == 40
    ensures Offset(SECTION_HEADER_WIDTHS, 7) == 44 && Offset(SECTION_HEADER_WIDTHS, 8) == 48
    ensures Offset(SECTION_HEADER_WIDTHS, 9) == 56
  {}

  /** An Elf64_Shdr. */
  lemma SectionHeaderLayout(bs: seq<byte>)
    requires |bs| == HEADER_SIZE
    ensures var h := DecodeSectionHeader(bs);
      h.name == Field(bs, 0, 4) && h.stype == Field(bs, 4, 4) && h.flags == Field(bs, 8, 8) && h.addr == Field(bs, 16, 8)
      && h.offset == Field(bs, 24, 8) && h.size == Field(bs, 32, 8) && h.link == Field(bs, 40, 4)
      && h.info == Field(bs, 44, 4) && h.addralign == Field(bs, 48, 8) && h.entsize == Field(bs, 56, 8)
  {
    SectionHeaderOffsets();
    hide Width, DecodeFields, DecodeInt;
    StructureSizes();
    FieldAt(bs, SECTION_HEADER_WIDTHS, 0);
    FieldAt(bs, SECTION_HEADER_WIDTHS, 1);
    FieldAt(bs, SECTION_HEADER_WIDTHS, 2);
    FieldAt(bs, SECTION_HEADER_WIDTHS, 3);
    FieldAt(bs, SECTION_HEADER_WIDTHS, 4);
    FieldAt(bs, SECTION_HEADER_WIDTHS, 5);
    FieldAt(bs, SECTION_HEADER_WIDTHS, 6);
    FieldAt(bs, SECTION_HEADER_WIDTHS, 7);
    FieldAt(bs, SECTION_HEADER_WIDTHS, 8);
    FieldAt(bs, SECTION_HEADER_WIDTHS, 9);
  }

  lemma ElfHeaderOffsets()
    ensures Offset(ELF_HEADER_WIDTHS, 1) == 4 && Offset(ELF_HEADER_WIDTHS, 2) == 5 && Offset(ELF_HEADER_WIDTHS, 3) == 6
    ensures Offset(ELF_HEADER_WIDTHS, 4) == 7 && Offset(ELF_HEADER_WIDTHS, 5) == 8 && Offset(ELF_HEADER_WIDTHS, 6) == 9
    ensures Offset(ELF_HEADER_WIDTHS, 7) == 16 && Offset(ELF_HEADER_WIDTHS, 8) == 18 && Offset(ELF_HEADER_WIDTHS, 9) == 20
    ensures Offset(ELF_HEADER_WIDTHS, 10) == 24 && Offset(ELF_HEADER_WIDTHS, 11) == 32
    ensures Offset(ELF_HEADER_WIDTHS, 12) == 40 && Offset(ELF_HEADER_WIDTHS, 13) == 48
    ensures Offset(ELF_HEADER_WIDTHS, 14) == 52 && Offset(ELF_HEADER_WIDTHS, 15) == 54
    ensures Offset(ELF_HEADER_WIDTHS, 16) == 56 && Offset(ELF_HEADER_WIDTHS, 17) == 58
    ensures Offset(ELF_HEADER_WIDTHS, 18) == 60 && Offset(ELF_HEADER_WIDTHS, 19) == 62
  {}

  /** An Elf64_Ehdr, as far as the reader looks at it. */
  lemma ElfHeaderLayout(bs: seq<byte>)
    requires |bs| == HEADER_SIZE
    ensures var h := DecodeElfHeader(bs);
      h.magic == Field(bs, 0, 4) && h.class_ == Field(bs, 4, 1) && h.data == Field(bs, 5, 1) && h.etype == Field(bs, 16, 2)
      && h.shoff == Field(bs, 40, 8) && h.ehsize == Field(bs, 52, 2) && h.shentsize == Field(bs, 58, 2)
      && h.shnum == Field(bs, 60, 2) && h.shstrndx == Field(bs, 62, 2)
  {
    ElfHeaderOffsets();
    hide Width, DecodeFields, DecodeInt;
    StructureSizes();
    FieldAt(bs, ELF_HEADER_WIDTHS, 0);
    FieldAt(bs, ELF_HEADER_WIDTHS, 1);
    FieldAt(bs, ELF_HEADER_WIDTHS, 2);
    FieldAt(bs, ELF_HEADER_WIDTHS, 7);
    FieldAt(bs, ELF_HEADER_WIDTHS, 12);
    FieldAt(bs, ELF_HEADER_WIDTHS, 14);
    FieldAt(bs, ELF_HEADER_WIDTHS, 17);
    FieldAt(bs, ELF_HEADER_WIDTHS, 18);
    FieldAt(bs, ELF_HEADER_WIDTHS, 19);
  }
}
