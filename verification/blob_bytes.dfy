/** The first bytes of an emitted blob, by the offsets of the ELF specification. */
module BlobBytes {
  import opened Bytes
  import opened ElfFile
  import opened ElfCodec
  import opened ElfLayout
  import opened WriterModel
  import opened BlobLayout

  // ---------- encoded fields ----------

  lemma FirstFieldAndRest(values: seq<nat>, widths: seq<nat>)
    requires |values| == |widths| > 0
    ensures EncodeFields(values, widths) == EncodeInt(values[0], widths[0]) + EncodeFields(values[1..], widths[1..])
  {}

  /** The integer's bytes stand at this offset. */
  predicate Stands(bs: seq<byte>, at: nat, n: nat, width: nat) {
    at + width <= |bs| && bs[at..at + width] == EncodeInt(n, width)
  }

  lemma StandsBehind(first: seq<byte>, rest: seq<byte>, at: nat, n: nat, width: nat)
    requires Stands(rest, at, n, width)
    ensures Stands(first + rest, |first| + at, n, width)
  {
    hide EncodeInt;
    assert (first + rest)[|first| + at..|first| + at + width] == rest[at..at + width];
  }

  /** Field k stands between the end of the fields before it and its own end. */
  lemma {:induction false} EncodedAt(values: seq<nat>, widths: seq<nat>, k: nat)
    requires |values| == |widths| && k < |widths|
    ensures Stands(EncodeFields(values, widths), Offset(widths, k), values[k], widths[k])
    decreases |widths|
  {
    FirstFieldAndRest(values, widths);
    if k == 0 {
      hide EncodeFields, EncodeInt;
      assert Offset(widths, 0) == 0;
    } else {
      hide Width, EncodeFields, Offset, EncodeInt, Stands;
      OffsetInTail(widths, k);
      EncodedAt(values[1..], widths[1..], k - 1);
      StandsBehind(EncodeInt(values[0], widths[0]), EncodeFields(values[1..], widths[1..]), Offset(widths[1..], k - 1),
                   values[k], widths[k]);
    }
  }

  lemma ZeroByte()
    ensures ByteOf(0) == 0
  {
    ByteOfValue(0);
    ValueCounts(0);
    hide ByteOf, ValueOf;
  }

  lemma {:induction false} ZeroBytes(n: nat)
    ensures EncodeInt(0, n) == seq(n, _ => 0)
  {
    ZeroByte();
    hide ByteOf;
    if n > 0 {
      ZeroBytes(n - 1);
    }
  }

  // ---------- the ELF header ----------

  /** These bytes are all 0. */
  predicate ZeroBetween(bs: seq<byte>, from: nat, to: nat) {
    to <= |bs| && forall k :: from <= k < to ==> bs[k] == 0
  }

  lemma ZeroField(bs: seq<byte>, at: nat, width: nat)
    requires Stands(bs, at, 0, width)
    ensures ZeroBetween(bs, at, at + width)
  {
    hide EncodeInt;
    ZeroBytes(width);
    forall k | at <= k < at + width
      ensures bs[k] == 0
    {
      assert bs[k] == bs[at..at + width][k - at];
    }
  }

  lemma ByteField(bs: seq<byte>, at: nat, n: nat)
    requires Stands(bs, at, n, 1) && n < 256
    ensures bs[at] == ByteOf(n)
  {
    hide ByteOf;
    assert bs[at] == bs[at..at + 1][0];
  }

  lemma IntField(bs: seq<byte>, at: nat, n: nat, width: nat)
    requires Stands(bs, at, n, width) && n < Pow256(width)
    ensures at + width <= |bs| && Field(bs, at, width) == n
  {
    hide EncodeInt, DecodeInt, Pow256;
    DecodeEncode(n, width);
  }

  lemma HeaderField(h: ElfHeader, k: nat, at: nat, n: nat, width: nat)
    requires k < 20 && Offset(ELF_HEADER_WIDTHS, k) == at && ElfFields(h)[k] == n && ELF_HEADER_WIDTHS[k] == width
    ensures Stands(EncodeElfHeader(h), at, n, width)
  {
    hide Stands, Offset, EncodeFields;
    EncodedAt(ElfFields(h), ELF_HEADER_WIDTHS, k);
  }

  lemma FirstOffset()
    ensures Offset(ELF_HEADER_WIDTHS, 0) == 0
  {}

  lemma IdentificationStands(bs: seq<byte>, sections: nat)
    requires sections < 0xffff && bs == EncodeElfHeader(HeaderFor(sections))
    ensures Stands(bs, 0, 0x464C_457F, 4) && Stands(bs, 4, 2, 1) && Stands(bs, 5, 1, 1) && Stands(bs, 6, 0, 1)
    ensures Stands(bs, 7, 0, 1) && Stands(bs, 8, 0, 1) && Stands(bs, 9, 0, 7)
  {
    FirstOffset();
    ElfHeaderOffsets();
    hide Stands, Offset, EncodeElfHeader;
    var h := HeaderFor(sections);
    HeaderField(h, 0, 0, 0x464C_457F, 4);
    HeaderField(h, 1, 4, 2, 1);
    HeaderField(h, 2, 5, 1, 1);
    HeaderField(h, 3, 6, 0, 1);
    HeaderField(h, 4, 7, 0, 1);
    HeaderField(h, 5, 8, 0, 1);
    HeaderField(h, 6, 9, 0, 7);
  }

  lemma MiddleStands(bs: seq<byte>, sections: nat)
    requires sections < 0xffff && bs == EncodeElfHeader(HeaderFor(sections))
    ensures Stands(bs, 16, 1, 2) && Stands(bs, 18, 0, 2) && Stands(bs, 20, 0, 4) && Stands(bs, 24, 0, 8)
    ensures Stands(bs, 32, 0, 8) && Stands(bs, 40, 64, 8) && Stands(bs, 48, 0, 4)
  {
    ElfHeaderOffsets();
    hide Stands, Offset, EncodeElfHeader;
    var h := HeaderFor(sections);
    HeaderField(h, 7, 16, 1, 2);
    HeaderField(h, 8, 18, 0, 2);
    HeaderField(h, 9, 20, 0, 4);
    HeaderField(h, 10, 24, 0, 8);
    HeaderField(h, 11, 32, 0, 8);
    HeaderField(h, 12, 40, 64, 8);
    HeaderField(h, 13, 48, 0, 4);
  }

  lemma CountsStand(bs: seq<byte>, sections: nat)
    requires sections < 0xffff && bs == EncodeElfHeader(HeaderFor(sections))
    ensures Stands(bs, 52, 64, 2) && Stands(bs, 54, 0, 2) && Stands(bs, 56, 0, 2) && Stands(bs, 58, 64, 2)
    ensures Stands(bs, 60, sections, 2) && Stands(bs, 62, 1, 2)
  {
    ElfHeaderOffsets();
    hide Stands, Offset, EncodeElfHeader;
    var h := HeaderFor(sections);
    HeaderField(h, 14, 52, 64, 2);
    HeaderField(h, 15, 54, 0, 2);
    HeaderField(h, 16, 56, 0, 2);
    HeaderField(h, 17, 58, 64, 2);
    HeaderField(h, 18, 60, sections, 2);
    HeaderField(h, 19, 62, 1, 2);
  }

  lemma MagicValue()
    ensures DecodeInt([0x7f, 0x45, 0x4c, 0x46]) == 0x464C_457F
  {
    var four: seq<byte> := [0x7f, 0x45, 0x4c, 0x46];
    DecodeSplit([0x7f], [0x45, 0x4c, 0x46]);
    DecodeSplit([0x45], [0x4c, 0x46]);
    DecodeSplit([0x4c], [0x46]);
    assert four == [0x7f] + ([0x45] + ([0x4c] + [0x46]));
    OneByte(0x7f);
    OneByte(0x45);
    OneByte(0x4c);
    OneByte(0x46);
    hide DecodeInt;
    assert [0x45, 0x4c, 0x46] == [0x45 as byte] + [0x4c, 0x46] && [0x4c, 0x46] == [0x4c as byte] + [0x46];
  }

  lemma OneByte(b: byte)
    ensures DecodeInt([b]) == ValueOf(b) && Pow256(1) == 256
  {
    assert DecodeInt([b][1..]) == 0;
  }

  lemma Magic(bs: seq<byte>)
    requires Stands(bs, 0, 0x464C_457F, 4)
    ensures bs[0] == 0x7f && bs[1] == 0x45 && bs[2] == 0x4c && bs[3] == 0x46
  {
    var four: seq<byte> := [0x7f, 0x45, 0x4c, 0x46];
    EncodeDecode(four);
    MagicValue();
    hide EncodeInt, DecodeInt;
    assert bs[0..4] == four;
    assert bs[0] == bs[0..4][0] && bs[1] == bs[0..4][1] && bs[2] == bs[0..4][2] && bs[3] == bs[0..4][3];
  }

  lemma SmallBytes()
    ensures ByteOf(1) == 1 && ByteOf(2) == 2
  {
    ValueCounts(0);
    ValueCounts(1);
    ByteOfValue(1);
    ByteOfValue(2);
    hide ByteOf, ValueOf;
  }

  /** The ELF header of a blob, byte by byte: 0x7f 'E' 'L' 'F', 64-bit, least significant byte first; a relocatable file whose
      section headers follow at offset 64, 64 bytes each, as many as there are sections, named by section 1. All other bytes
      are 0. */
  predicate IsElfHeader(bs: seq<byte>, sections: nat) {
    |bs| >= 64 &&
    bs[0] == 0x7f && bs[1] == 0x45 && bs[2] == 0x4c && bs[3] == 0x46 && bs[4] == 2 && bs[5] == 1 &&
    ZeroBetween(bs, 6, 16) && Field(bs, 16, 2) == 1 && ZeroBetween(bs, 18, 40) && Field(bs, 40, 8) == 64 &&
    ZeroBetween(bs, 48, 52) && Field(bs, 52, 2) == 64 && ZeroBetween(bs, 54, 58) && Field(bs, 58, 2) == 64 &&
    Field(bs, 60, 2) == sections && Field(bs, 62, 2) == 1
  }

  lemma ZerosJoin(bs: seq<byte>, from: nat, middle: nat, to: nat)
    requires ZeroBetween(bs, from, middle) && ZeroBetween(bs, middle, to)
    ensures ZeroBetween(bs, from, to)
  {}

  lemma ZerosOfHeader(bs: seq<byte>, sections: nat)
    requires sections < 0xffff && bs == EncodeElfHeader(HeaderFor(sections))
    ensures ZeroBetween(bs, 6, 16) && ZeroBetween(bs, 18, 40) && ZeroBetween(bs, 48, 52) && ZeroBetween(bs, 54, 58)
  {
    hide Stands, ZeroBetween, EncodeElfHeader, HeaderFor;
    IdentificationStands(bs, sections);
    MiddleStands(bs, sections);
    CountsStand(bs, sections);
    ZeroField(bs, 6, 1);
    ZeroField(bs, 7, 1);
    ZeroField(bs, 8, 1);
    ZeroField(bs, 9, 7);
    ZerosJoin(bs, 6, 7, 8);
    ZerosJoin(bs, 6, 8, 9);
    ZerosJoin(bs, 6, 9, 16);
    ZeroField(bs, 18, 2);
    ZeroField(bs, 20, 4);
    ZeroField(bs, 24, 8);
    ZeroField(bs, 32, 8);
    ZerosJoin(bs, 18, 20, 24);
    ZerosJoin(bs, 18, 24, 32);
    ZerosJoin(bs, 18, 32, 40);
    ZeroField(bs, 48, 4);
    ZeroField(bs, 54, 2);
    ZeroField(bs, 56, 2);
    ZerosJoin(bs, 54, 56, 58);
  }

  lemma ElfHeaderBytes(sections: nat)
    requires sections < 0xffff
    ensures IsElfHeader(EncodeElfHeader(HeaderFor(sections)), sections)
  {
    hide Stands, ZeroBetween, EncodeElfHeader, HeaderFor, Field, ByteOf, Pow256;
    var bs := EncodeElfHeader(HeaderFor(sections));
    Pow256Values();
    IdentificationStands(bs, sections);
    MiddleStands(bs, sections);
    CountsStand(bs, sections);
    ZerosOfHeader(bs, sections);
    SmallBytes();
    Magic(bs);
    ByteField(bs, 4, 2);
    ByteField(bs, 5, 1);
    IntField(bs, 16, 1, 2);
    IntField(bs, 40, 64, 8);
    IntField(bs, 52, 64, 2);
    IntField(bs, 58, 64, 2);
    IntField(bs, 60, sections, 2);
    IntField(bs, 62, 1, 2);
  }

  // ---------- the section headers ----------

  /** An Elf64_Shdr with these fields stands at this offset. */
  predicate IsSectionHeader(bs: seq<byte>, at: nat, h: SectionHeader) {
    at + 64 <= |bs| &&
    Field(bs, at, 4) == h.name && Field(bs, at + 4, 4) == h.stype && Field(bs, at + 8, 8) == h.flags &&
    Field(bs, at + 16, 8) == h.addr && Field(bs, at + 24, 8) == h.offset && Field(bs, at + 32, 8) == h.size &&
    Field(bs, at + 40, 4) == h.link && Field(bs, at + 44, 4) == h.info && Field(bs, at + 48, 8) == h.addralign &&
    Field(bs, at + 56, 8) == h.entsize
  }

  lemma SectionHeaderBytes(h: SectionHeader)
    ensures IsSectionHeader(EncodeSectionHeader(h), 0, h)
  {
    hide EncodeSectionHeader, DecodeSectionHeader, Field;
    SectionHeaderRoundTrip(h);
    SectionHeaderLayout(EncodeSectionHeader(h));
  }

  lemma FieldShifted(bs: seq<byte>, part: seq<byte>, from: nat, at: nat, width: nat)
    requires from + |part| <= |bs| && bs[from..from + |part|] == part && at + width <= |part|
    ensures Field(bs, from + at, width) == Field(part, at, width)
  {
    var slice := bs[from + at..from + at + width];
    assert forall k :: 0 <= k < width ==> slice[k] == bs[from..from + |part|][at + k];
    assert slice == part[at..at + width];
  }

  lemma HeaderShifted(bs: seq<byte>, part: seq<byte>, from: nat, h: SectionHeader)
    requires from + 64 <= |bs| && |part| == 64 && bs[from..from + 64] == part && IsSectionHeader(part, 0, h)
    ensures IsSectionHeader(bs, from, h)
  {
    hide Field;
    FieldShifted(bs, part, from, 0, 4);
    FieldShifted(bs, part, from, 4, 4);
    FieldShifted(bs, part, from, 8, 8);
    FieldShifted(bs, part, from, 16, 8);
    FieldShifted(bs, part, from, 24, 8);
    FieldShifted(bs, part, from, 32, 8);
    FieldShifted(bs, part, from, 40, 4);
    FieldShifted(bs, part, from, 44, 4);
    FieldShifted(bs, part, from, 48, 8);
    FieldShifted(bs, part, from, 56, 8);
  }

  lemma {:induction false} HeaderInTable(hs: seq<SectionHeader>, i: nat)
    requires i < |hs|
    ensures EncodeHeaders(hs)[i * 64..i * 64 + 64] == EncodeSectionHeader(hs[i])
    decreases |hs|
  {
    hide EncodeSectionHeader;
    var front := hs[..|hs| - 1];
    assert EncodeHeaders(hs) == EncodeHeaders(front) + EncodeSectionHeader(hs[|hs| - 1]);
    if i < |front| {
      HeaderInTable(front, i);
      assert EncodeHeaders(hs)[i * 64..i * 64 + 64] == EncodeHeaders(front)[i * 64..i * 64 + 64];
    }
  }

  // ---------- the blob ----------

  lemma TwoSpliced(b: seq<byte>, first: seq<byte>, second: seq<byte>)
    requires |first| + |second| <= |b|
    ensures var r := Splice(Splice(b, 0, first), |first|, second);
      r[..|first|] == first && r[|first|..|first| + |second|] == second
  {}

  lemma FieldInFront(bs: seq<byte>, header: seq<byte>, sections: nat)
    requires |header| == 64 <= |bs| && bs[..64] == header && IsElfHeader(header, sections)
    ensures IsElfHeader(bs, sections)
  {
    hide Field;
    FieldShifted(bs, header, 0, 16, 2);
    FieldShifted(bs, header, 0, 40, 8);
    FieldShifted(bs, header, 0, 52, 2);
    FieldShifted(bs, header, 0, 58, 2);
    FieldShifted(bs, header, 0, 60, 2);
    FieldShifted(bs, header, 0, 62, 2);
    assert forall k :: 0 <= k < 64 ==> bs[k] == header[k];
  }

  /** Emitting leaves an ELF header at offset 0 and the header of section i at 64 + 64 * i, whatever was in the blob. */
  lemma HeadersOfBlob(ps: seq<View>, blob: seq<byte>)
    requires Ready(ps, |blob|)
    ensures IsElfHeader(Generated(ps, blob), |ps|)
    ensures forall i :: 0 <= i < |ps| ==> IsSectionHeader(Generated(ps, blob), 64 + 64 * i, ps[i].header)
  {
    hide EncodeElfHeader, EncodeHeaders, HeaderFor, HeadersOf, IsElfHeader, IsSectionHeader, TablesWritten, Splice, Places;
    var b, header, table := TablesWritten(ps, blob, |ps|), EncodeElfHeader(HeaderFor(|ps|)), EncodeHeaders(HeadersOf(ps));
    var r := Generated(ps, blob);
    TableFits(ps, |blob|);
    TwoSpliced(b, header, table);
    ElfHeaderBytes(|ps|);
    FieldInFront(r, header, |ps|);
    forall i | 0 <= i < |ps|
      ensures IsSectionHeader(r, 64 + 64 * i, ps[i].header)
    {
      HeaderOfSection(ps, r, i);
    }
  }

  lemma TableFits(ps: seq<View>, total: nat)
    requires Ready(ps, total)
    ensures HEADER_SIZE + |ps| * HEADER_SIZE <= total
  {}

  lemma SliceOfSlice(r: seq<byte>, from: nat, size: nat, at: nat)
    requires from + size <= |r| && at + 64 <= size
    ensures r[from + at..from + at + 64] == r[from..from + size][at..at + 64]
  {
    var slice, whole := r[from + at..from + at + 64], r[from..from + size];
    assert forall k :: 0 <= k < 64 ==> slice[k] == whole[at + k];
  }

  lemma HeaderOfSection(ps: seq<View>, r: seq<byte>, i: nat)
    requires i < |ps| && 64 + |ps| * 64 <= |r| && r[64..64 + |ps| * 64] == EncodeHeaders(HeadersOf(ps))
    ensures IsSectionHeader(r, 64 + 64 * i, ps[i].header)
  {
    hide EncodeSectionHeader, IsSectionHeader, EncodeHeaders;
    var h := EncodeSectionHeader(ps[i].header);
    HeaderInTable(HeadersOf(ps), i);
    SectionHeaderBytes(ps[i].header);
    SliceOfSlice(r, 64, |ps| * 64, i * 64);
    HeaderShifted(r, h, 64 + 64 * i, ps[i].header);
  }
}
