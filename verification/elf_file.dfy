/** The parts of an ELF file that the writer, the reader and the loader agree on. */
module ElfFile {
  import opened Bytes

  const SHT_NULL: u32 := 0
  const SHT_PROGBITS: u32 := 1
  const SHT_SYMTAB: u32 := 2
  const SHT_STRTAB: u32 := 3
  const SHT_RELA: u32 := 4
  const SHT_HASH: u32 := 5
  const SHT_DYNAMIC: u32 := 6
  const SHT_NOTE: u32 := 7
  const SHT_NOBITS: u32 := 8
  const SHT_REL: u32 := 9
  const SHT_SHLIB: u32 := 10
  const SHT_DYNSYM: u32 := 11
  const SHT_LOUSER: u32 := 0x8000_0000
  const VPU_SHT_CMX_METADATA: u32 := 0x8aaa_aaac
  const VPU_SHT_CMX_WORKSPACE: u32 := 0x8aaa_aaad

  const SHF_WRITE: u64 := 0x1
  const SHF_ALLOC: u64 := 0x2
  const SHF_INFO_LINK: u64 := 0x40
  const VPU_SHF_JIT: u64 := 0x10_0000
  const VPU_SHF_USERINPUT: u64 := 0x20_0000
  const VPU_SHF_USEROUTPUT: u64 := 0x40_0000
  const VPU_SHF_PROFOUTPUT: u64 := 0x80_0000

  const VPU_RT_SYMTAB: u32 := 0xff20

  datatype SectionHeader = SectionHeader(
    name: u32, stype: u32, flags: u64, addr: u64, offset: u64, size: u64, link: u32, info: u32,
    addralign: u64, entsize: u64)
  {
    /** Is the flag with this single bit set? */
    predicate Has(bit: u64)
      requires bit > 0
    {
      flags / bit % 2 == 1
    }

    predicate IsNetworkIO() {
      Has(VPU_SHF_USERINPUT) || Has(VPU_SHF_USEROUTPUT) || Has(VPU_SHF_PROFOUTPUT)
    }

    /** Sections of these types take no bytes of the file. */
    predicate HasMemoryFootprint() {
      stype != SHT_NOBITS && stype != VPU_SHT_CMX_METADATA && stype != VPU_SHT_CMX_WORKSPACE
    }
  }

  /** The least multiple of the alignment at or above the size; an alignment of 0 asks for nothing. */
  function AlignUp(size: nat, alignment: nat): (r: nat)
    ensures size <= r
    ensures alignment > 0 ==> r % alignment == 0 && r < size + alignment
  {
    if size > 0 && alignment > 0 then
      AlignUpBounds(size, alignment);
      (size + alignment - 1) / alignment * alignment
    else size
  }

  /** The same in 64-bit arithmetic, where the sum may wrap around. */
  function AlignUp64(size: u64, alignment: u64): u64 {
    if size > 0 && alignment > 0 then (size + alignment - 1) % TWO_64 / alignment * alignment % TWO_64 else size
  }

  /** Up to the largest sum that fits, wrap-around plays no part: the result is the least multiple. */
  lemma AlignUpFits(size: u64, alignment: u64)
    requires size + alignment <= TWO_64
    ensures AlignUp64(size, alignment) == AlignUp(size, alignment)
    ensures alignment > 0 ==> forall r: nat :: size <= r && r % alignment == 0 ==> AlignUp(size, alignment) <= r
  {
    if size > 0 && alignment > 0 {
      AlignUpBounds(size, alignment);
      NoWrap(size, alignment);
    }
    hide AlignUp, AlignUp64;
    if alignment > 0 {
      forall r: nat | size <= r && r % alignment == 0
        ensures AlignUp(size, alignment) <= r
      {
        NoMultipleBetween(AlignUp(size, alignment), r, alignment);
      }
    }
  }

  lemma NoWrap(size: u64, alignment: u64)
    requires 0 < size && 0 < alignment && size + alignment <= TWO_64
    ensures AlignUp64(size, alignment) == (size + alignment - 1) / alignment * alignment
  {
    AlignUpBounds(size, alignment);
    var sum := size + alignment - 1;
    assert sum % TWO_64 == sum;
    var r := sum / alignment * alignment;
    assert r <= sum < TWO_64;
  }

  lemma NoMultipleBetween(a: nat, b: nat, alignment: nat)
    requires alignment > 0 && a % alignment == 0 && b % alignment == 0 && a < b + alignment
    ensures a <= b
  {
    var p, q := a / alignment, b / alignment;
    assert a == p * alignment && b == q * alignment;
    if a > b {
      if p <= q {
        MulMonotone(p, q, alignment);
        assert false;
      } else {
        MulMonotone(q + 1, p, alignment);
        Distribute(q, alignment);
        assert false;
      }
    }
  }

  lemma AlignUpBounds(size: nat, alignment: nat)
    requires alignment > 0
    ensures var r := (size + alignment - 1) / alignment * alignment;
      size <= r < size + alignment && r % alignment == 0
  {
    var q := (size + alignment - 1) / alignment;
    assert size + alignment - 1 == q * alignment + (size + alignment - 1) % alignment;
    MultipleHasNoRest(q, alignment);
  }

  lemma MultipleHasNoRest(q: nat, alignment: nat)
    requires alignment > 0
    ensures q * alignment % alignment == 0
  {
    var product := q * alignment;
    var d, rest := product / alignment, product % alignment;
    assert product == d * alignment + rest;
    if q > d {
      MulMonotone(d + 1, q, alignment);
      Distribute(d, alignment);
      assert false;
    }
    MulMonotone(q, d, alignment);
  }

  lemma Distribute(d: nat, a: nat)
    ensures (d + 1) * a == d * a + a
  {}

  lemma MulMonotone(x: nat, y: nat, a: nat)
    requires x <= y
    ensures x * a <= y * a
  {}
}
