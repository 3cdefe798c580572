/** What load decides about a section, by the numbers in its header. */
module LoadByHeader {
  import opened Bytes
  import opened Errors
  import opened ElfFile
  import opened LoaderModel

  // ---------- flags ----------

  /** A flag is set exactly if its binary digit is 1. */
  lemma FlagIsDigit(h: SectionHeader, bit: u64, high: nat, digit: nat, low: nat)
    requires bit > 0 && digit < 2 && low < bit && h.flags == (2 * high + digit) * bit + low
    ensures h.Has(bit) <==> digit == 1
  {
    QuotientOf(2 * high + digit, bit, low);
    Parity(high, digit);
  }

  lemma QuotientOf(q: nat, d: nat, r: nat)
    requires d > 0 && r < d
    ensures (q * d + r) / d == q
  {
    var n := q * d + r;
    var p := n / d;
    assert n == p * d + n % d;
    if p < q {
      MulMonotone(p + 1, q, d);
      Distribute(p, d);
      assert false;
    } else if q < p {
      MulMonotone(q + 1, p, d);
      Distribute(q, d);
      assert false;
    }
  }

  lemma Parity(high: nat, digit: nat)
    requires digit < 2
    ensures (2 * high + digit) % 2 == digit
  {}

  /** The binary digit of a power of two in the flags. */
  predicate Flag(h: SectionHeader, bit: nat)
    requires bit > 0
  {
    h.flags / bit % 2 == 1
  }

  // ---------- buffers ----------

  /** The relocation sections of the lists stand in file order. */
  lemma {:induction false} RelocSectionsAscending(elf: Elf, jit: bool, n: nat)
    requires n <= |elf.headers|
    ensures Ascending(RelocSections(elf, jit, n))
  {
    hide Elf.IsRela, SectionHeader.Has, Ascending;
    if n == 0 {
      NoneAscending();
    } else {
      RelocSectionsAscending(elf, jit, n - 1);
      LastAscending(RelocSections(elf, jit, n - 1), n - 1);
    }
  }

  lemma NoneAscending()
    ensures Ascending([])
  {}

  lemma LastAscending(s: seq<nat>, last: nat)
    requires Ascending(s) && forall x: nat :: x in s ==> x < last
    ensures Ascending(s + []) && Ascending(s + [last])
  {
    assert s + [] == s;
    forall k | 0 <= k < |s|
      ensures s[k] < last
    {
      assert s[k] in s;
    }
  }

  /** Without explicit allocations every PROGBITS section gets a buffer, and every NOBITS section that is not for user buffers;
      with them only those flagged SHF_ALLOC. */
  predicate GetsBuffer(h: SectionHeader, explicit: bool) {
    (explicit ==> Flag(h, 0x2)) &&
    (h.stype == 1 || (h.stype == 8 && !Flag(h, 0x20_0000) && !Flag(h, 0x40_0000) && !Flag(h, 0x80_0000)))
  }

  /** A loaded file: which sections have buffers, which of these carry data, which relocation sections were registered, in file
      order, and which buffers clones share: read-only ones that no relocation section patches. */
  lemma BuffersByHeader(elf: Elf, st: LoaderState)
    requires Classified(elf, st)
    ensures forall i :: i in st.infer <==> 0 <= i < |elf.headers| && GetsBuffer(elf.headers[i], st.explicit)
    ensures forall i :: i in st.infer && i < |elf.headers| ==> (st.infer[i].hasData <==> elf.headers[i].stype == 1)
    ensures forall i :: i in st.infer && i < |elf.headers| ==>
      (st.infer[i].isShared <==> elf.headers[i].stype == 1 && !Flag(elf.headers[i], 0x1) && !IsTarget(elf, i))
    ensures forall j: nat :: j in st.relocIndexes <==>
      j < |elf.headers| && elf.headers[j].stype == 4 && !Flag(elf.headers[j], 0x10_0000)
    ensures forall j: nat :: j in st.jitIndexes <==>
      j < |elf.headers| && elf.headers[j].stype == 4 && Flag(elf.headers[j], 0x10_0000)
    ensures Ascending(st.relocIndexes) && Ascending(st.jitIndexes)
  {
    hide IsTarget;
    RelocSectionsAscending(elf, false, |elf.headers|);
    RelocSectionsAscending(elf, true, |elf.headers|);
  }

  // ---------- refusals ----------

  /** How a section is received when load passes over it: types without support are refused, scratch has to be writable, symbol
      tables and JIT relocations are read at once, and everything else passes. */
  lemma ReceivedByHeader(elf: Elf, explicit: bool, i: nat)
    requires i < |elf.headers|
    ensures var h, r := elf.headers[i], RegisterOutcome(elf, explicit, i);
      (h.stype == 5 || h.stype == 6 || h.stype == 9 || h.stype == 10 || h.stype == 11 ==> r == Err(SectionError)) &&
      (12 <= h.stype < 0x8000_0000 ==> r == Err(ImplausibleState)) &&
      (h.stype == 8 ==> r == if GetsBuffer(h, explicit) && !Flag(h, 0x1) then Err(SectionError) else Ok) &&
      (h.stype == 2 || (h.stype == 4 && Flag(h, 0x10_0000)) ==> r == elf.ReadStatus(i)) &&
      (h.stype == 0 || h.stype == 1 || h.stype == 3 || h.stype == 7 || h.stype >= 0x8000_0000 ==> r == Ok) &&
      (h.stype == 4 && !Flag(h, 0x10_0000) ==> r == Ok)
  {
    hide Elf.ReadStatus;
  }

  /** A relocation section has to name, flagged SHF_INFO_LINK, a section with a buffer; otherwise load ends here. */
  lemma TargetByHeader(elf: Elf, keys: set<nat>, j: nat)
    requires j < |elf.headers|
    ensures var h, r := elf.headers[j], TargetOutcome(elf, keys, j);
      (r.Ok? <==> Flag(h, 0x40) && 1 <= h.info <= |elf.headers| && h.info in keys) &&
      (r == Err(RelocError) <==> !Flag(h, 0x40) || h.info == 0 || h.info > |elf.headers|) &&
      (r.Ok? || r == Err(RelocError) || r == Err(OutOfRange))
  {}

  // ---------- relocation sections ----------

  /** The symbol table that a section links to can be used: a SYMTAB section inside the file with a size for its entries, or the
      runtime table. */
  predicate LinksToTable(elf: Elf, link: u32, orRuntime: bool) {
    if link == 0xff20 then orRuntime
    else link < |elf.headers| && elf.headers[link].entsize != 0 && elf.headers[link].stype == 2 && elf.InBlob(link)
  }

  /** A load-time relocation section is worked on exactly if its entries, its symbols and its target are all there. */
  lemma StaticSectionPasses(elf: Elf, keys: set<nat>, j: nat)
    requires j < |elf.headers|
    ensures var h := elf.headers[j];
      CheckStatic(elf, keys, j).Ok? <==>
        elf.InBlob(j) && h.entsize != 0 && elf.TableInside(j) && LinksToTable(elf, h.link, true) &&
        Flag(h, 0x40) && 0 < h.info < |elf.headers| && h.info in keys
  {
    hide Elf.InBlob, Elf.TableInside;
  }

  /** Given sections inside the file, which of the things that may be missing gives which exception. */
  lemma StaticSectionThrows(elf: Elf, keys: set<nat>, j: nat)
    requires j < |elf.headers| && elf.InBlob(j) && elf.TableInside(j)
    requires elf.headers[j].link < |elf.headers| ==> elf.InBlob(elf.headers[j].link)
    ensures var h, n, r := elf.headers[j], |elf.headers|, CheckStatic(elf, keys, j);
      var outside, runtime := h.link >= n && h.link != 0xff20, h.link == 0xff20;
      var unsized := h.entsize == 0 || (!outside && !runtime && elf.headers[h.link].entsize == 0);
      (r == Err(SectionError) <==> unsized) &&
      var misfit := !outside && !runtime && elf.headers[h.link].stype != 2;
      (r == Err(RangeError) <==> !unsized && (outside || (!misfit && Flag(h, 0x40) && h.info == n > 0))) &&
      (r == Err(RelocError) <==> !unsized && !outside && (misfit || !Flag(h, 0x40) || h.info == 0 || h.info > n)) &&
      (r.Ok? || r == Err(SectionError) || r == Err(RangeError) || r == Err(RelocError) || r == Err(OutOfRange))
  {
    hide Elf.InBlob, Elf.TableInside;
  }

  /** A JIT section is worked on exactly if, in addition, it is flagged for user buffers and its symbols are in the file. */
  lemma JitSectionPasses(elf: Elf, keys: set<nat>, j: nat)
    requires j < |elf.headers|
    ensures var h := elf.headers[j];
      CheckJit(elf, keys, j).Ok? <==>
        elf.InBlob(j) && h.entsize != 0 && elf.TableInside(j) && LinksToTable(elf, h.link, false) &&
        (Flag(h, 0x20_0000) || Flag(h, 0x40_0000) || Flag(h, 0x80_0000)) && Flag(h, 0x40) && h.info in keys
  {
    hide Elf.InBlob, Elf.TableInside;
  }

  lemma JitSectionThrows(elf: Elf, keys: set<nat>, j: nat)
    requires j < |elf.headers| && elf.InBlob(j) && elf.TableInside(j)
    requires elf.headers[j].link < |elf.headers| ==> elf.InBlob(elf.headers[j].link)
    ensures var h, n, r := elf.headers[j], |elf.headers|, CheckJit(elf, keys, j);
      var user := Flag(h, 0x20_0000) || Flag(h, 0x40_0000) || Flag(h, 0x80_0000);
      (r == Err(RangeError) <==> h.entsize != 0 && h.link >= n) &&
      var symbols := h.link < n && h.link != 0xff20 && elf.headers[h.link].stype == 2;
      var linked := h.entsize != 0 && symbols && elf.headers[h.link].entsize != 0;
      (r == Err(SectionError) <==> h.entsize == 0 || (symbols && elf.headers[h.link].entsize == 0)) &&
      (r == Err(OutOfRange) <==> linked && user && Flag(h, 0x40) && h.info !in keys) &&
      (r == Err(RelocError) <==> h.entsize != 0 && h.link < n && (!symbols || (linked && !(user && Flag(h, 0x40))))) &&
      (r.Ok? <==> linked && user && Flag(h, 0x40) && h.info in keys)
  {
    hide Elf.InBlob, Elf.TableInside;
  }
}
