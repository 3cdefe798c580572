/** Which value a symbol has for a relocation: how it depends on the table, on the device addresses of the sections and on
    the runtime symbols. */
module Resolution {
  import opened Bytes
  import opened Errors
  import opened Relocations
  import opened RelocationValues
  import opened Patching
  import opened ElfFile
  import opened LoaderModel

  /** The index names an entry of this symbol table of the file. */
  predicate InTable(elf: Elf, link: u32, r: Rela) {
    link < |elf.headers| && link != VPU_RT_SYMTAB && r.sym < elf.EntriesNum(link) && elf.HasEntry(link, r.sym)
  }

  predicate HasAddress(c: Context, i: nat) {
    i in c.addresses && c.addresses[i] != 0
  }

  /** The symbol the relocation names, as the file's table has it. */
  function Named(elf: Elf, link: u32, r: Rela): Symbol
    requires InTable(elf, link, r)
  {
    elf.SymbolAt(link, r.sym)
  }

  lemma DisplacedBy(v: SymVal, base: bv64)
    ensures Differ64(Displaced(v, base).value, base, v.value) && Displaced(v, base).size == v.size
  {
    hide Differ64, Plus;
    SumDiffers64(v.value, base);
  }

  // ---------- sections with an address ----------

  /** In a section with a device address, a symbol's value minus that address is the value in the table; the size stays. */
  lemma InPlacedSection(elf: Elf, c: Context, link: u32, r: Rela)
    requires InTable(elf, link, r) && HasAddress(c, Named(elf, link, r).shndx)
    ensures var named, t := Named(elf, link, r), ResolveStatic(elf, c, link, r);
      t.Resolved? && Differ64(t.symbol.value, c.addresses[named.shndx], named.val.value) && t.symbol.size == named.val.size
  {
    hide Differ64, Displaced, Elf.EntriesNum, Elf.HasEntry, Elf.SymbolAt, FirstIndex;
    var named := Named(elf, link, r);
    DisplacedBy(named.val, c.addresses[named.shndx]);
  }

  /** The contexts differ in the address of section i alone. */
  ghost predicate MovedSection(c: Context, c': Context, i: nat) {
    c'.runtime == c.runtime && c'.symbolTypes == c.symbolTypes && c'.addresses.Keys == c.addresses.Keys &&
    forall k :: k in c.addresses && k != i ==> c'.addresses[k] == c.addresses[k]
  }

  /** The second value is as far from the first as the second address from the first. */
  predicate MovedAlike(v: bv64, v': bv64, address: bv64, address': bv64) {
    v' - v == address' - address
  }

  lemma SumsMove(v: bv64, a: bv64, a': bv64)
    ensures MovedAlike(v + a, v + a', a, a')
  {}

  lemma PlusMoves(v: bv64, a: bv64, a': bv64)
    ensures MovedAlike(Plus(v, a), Plus(v, a'), a, a')
  {
    hide MovedAlike;
    SumsMove(v, a, a');
  }

  /** Symbols move with their section: if it has an address in both contexts, the values differ as the addresses do,
      whatever else the contexts contain. */
  lemma SymbolsMoveAlong(elf: Elf, c: Context, c': Context, link: u32, r: Rela)
    requires InTable(elf, link, r)
    requires HasAddress(c, Named(elf, link, r).shndx) && HasAddress(c', Named(elf, link, r).shndx)
    ensures var i, t, t' := Named(elf, link, r).shndx, ResolveStatic(elf, c, link, r), ResolveStatic(elf, c', link, r);
      t.Resolved? && t'.Resolved? && t'.symbol.size == t.symbol.size &&
      MovedAlike(t.symbol.value, t'.symbol.value, c.addresses[i], c'.addresses[i])
  {
    hide MovedAlike, Plus, Elf.EntriesNum, Elf.HasEntry, Elf.SymbolAt, FirstIndex;
    var named := Named(elf, link, r);
    PlusMoves(named.val.value, c.addresses[named.shndx], c'.addresses[named.shndx]);
  }

  /** Symbols of other sections do not: they resolve alike, in the file's tables and among the runtime symbols. */
  lemma OtherSymbolsStay(elf: Elf, c: Context, c': Context, i: nat, link: u32, r: Rela)
    requires MovedSection(c, c', i) && (link < |elf.headers| || link == VPU_RT_SYMTAB)
    requires link != VPU_RT_SYMTAB && InTable(elf, link, r) ==> Named(elf, link, r).shndx != i
    requires link == VPU_RT_SYMTAB && r.sym < |c.runtime| ==> c.runtime[r.sym].shndx != i
    ensures ResolveStatic(elf, c', link, r) == ResolveStatic(elf, c, link, r)
  {
    hide Elf.EntriesNum, Elf.HasEntry, Elf.SymbolAt, FirstIndex, Displaced;
  }

  // ---------- runtime symbols ----------

  /** A relocation against the runtime table takes the runtime symbol, displaced if that names a section with an address. */
  lemma AgainstRuntimeTable(elf: Elf, c: Context, r: Rela)
    requires r.sym < |c.runtime|
    ensures var named, t := c.runtime[r.sym], ResolveStatic(elf, c, VPU_RT_SYMTAB, r);
      t.Resolved? && t.symbol.size == named.val.size &&
      (if HasAddress(c, named.shndx) then Differ64(t.symbol.value, c.addresses[named.shndx], named.val.value)
       else t.symbol.value == named.val.value)
  {
    var named := c.runtime[r.sym];
    DisplacedByNothing(named.val);
    DisplacedBy(named.val, AddressOf(c, named.shndx));
    hide Differ64, Displaced, Elf.EntriesNum, Elf.HasEntry, Elf.SymbolAt, FirstIndex;
  }

  lemma DisplacedByNothing(v: SymVal)
    ensures Displaced(v, 0) == v
  {
    PlusNothing(v.value);
    hide Plus;
  }

  lemma PlusNothing(v: bv64)
    ensures Plus(v, 0) == v
  {}

  /** Position k of the list of section types is the first that names this type. */
  predicate FirstOfType(c: Context, stype: u32, k: nat) {
    k < |c.symbolTypes| && c.symbolTypes[k] == stype && forall n :: 0 <= n < k ==> c.symbolTypes[n] != stype
  }

  predicate WithoutAddress(elf: Elf, c: Context, link: u32, r: Rela) {
    InTable(elf, link, r) && !HasAddress(c, Named(elf, link, r).shndx)
  }

  lemma BehindTable(elf: Elf, c: Context, link: u32, r: Rela, k: nat)
    requires WithoutAddress(elf, c, link, r) && Named(elf, link, r).shndx < |elf.headers|
    requires k == FirstIndex(c.symbolTypes, elf.headers[Named(elf, link, r).shndx].stype)
    ensures ResolveStatic(elf, c, link, r) == if k < |c.runtime| then Resolved(c.runtime[k].val) else Unresolved(Undefined)
  {
    hide Elf.EntriesNum, Elf.HasEntry, Elf.SymbolAt, FirstIndex, Displaced;
  }

  /** Without an address, the type of the section decides: if it is listed, its first position names the runtime symbol that
      takes over, value and size; a position behind the runtime symbols is a read past them. */
  lemma ByListedType(elf: Elf, c: Context, link: u32, r: Rela, k: nat)
    requires WithoutAddress(elf, c, link, r) && Named(elf, link, r).shndx < |elf.headers|
    requires FirstOfType(c, elf.headers[Named(elf, link, r).shndx].stype, k)
    ensures k < |c.runtime| ==> ResolveStatic(elf, c, link, r) == Resolved(c.runtime[k].val)
    ensures k >= |c.runtime| ==> ResolveStatic(elf, c, link, r) == Unresolved(Undefined)
  {
    var first := FirstIndex(c.symbolTypes, elf.headers[Named(elf, link, r).shndx].stype);
    assert !(first < k);
    hide Elf.EntriesNum, Elf.HasEntry, Elf.SymbolAt, FirstIndex, ResolveStatic;
    BehindTable(elf, c, link, r, k);
  }

  /** If it is not listed, the code still takes a runtime symbol: the one behind the end of the list of types, which need not
      exist. */
  lemma ByUnlistedType(elf: Elf, c: Context, link: u32, r: Rela)
    requires WithoutAddress(elf, c, link, r) && Named(elf, link, r).shndx < |elf.headers|
    requires elf.headers[Named(elf, link, r).shndx].stype !in c.symbolTypes
    ensures |c.symbolTypes| < |c.runtime| ==>
      ResolveStatic(elf, c, link, r) == Resolved(c.runtime[|c.symbolTypes|].val)
    ensures |c.symbolTypes| >= |c.runtime| ==> ResolveStatic(elf, c, link, r) == Unresolved(Undefined)
  {
    hide Elf.EntriesNum, Elf.HasEntry, Elf.SymbolAt, ResolveStatic;
    BehindTable(elf, c, link, r, |c.symbolTypes|);
  }

  /** A symbol of no section of the file has no value at all. */
  lemma OfNoSection(elf: Elf, c: Context, link: u32, r: Rela)
    requires WithoutAddress(elf, c, link, r) && Named(elf, link, r).shndx >= |elf.headers|
    ensures ResolveStatic(elf, c, link, r) == Unresolved(RangeError)
  {
    hide Elf.EntriesNum, Elf.HasEntry, Elf.SymbolAt, FirstIndex;
  }

  /** An index behind the table is refused; the one right behind it is read, outside the table. */
  lemma BehindLastSymbol(elf: Elf, c: Context, link: u32, r: Rela)
    requires link < |elf.headers| || link == VPU_RT_SYMTAB
    ensures var n := if link == VPU_RT_SYMTAB then |c.runtime| else elf.EntriesNum(link);
      (r.sym > n ==> ResolveStatic(elf, c, link, r) == Unresolved(RelocError)) &&
      (r.sym == n ==> ResolveStatic(elf, c, link, r) == Unresolved(Undefined))
  {
    hide Elf.EntriesNum, Elf.HasEntry, Elf.SymbolAt, FirstIndex;
  }

  // ---------- user buffers ----------

  /** The three kinds of user buffers, by the section flag that asks for them; inputs before outputs before profiling. */
  lemma BuffersOfKind(h: SectionHeader, io: UserIO)
    ensures h.flags / 0x20_0000 % 2 == 1 ==> UsersOf(h, io) == io.inputs
    ensures h.flags / 0x20_0000 % 2 == 0 && h.flags / 0x40_0000 % 2 == 1 ==> UsersOf(h, io) == io.outputs
    ensures h.flags / 0x20_0000 % 2 == 0 && h.flags / 0x40_0000 % 2 == 0 ==> UsersOf(h, io) == io.profiling
  {}

  /** A JIT relocation against symbol n takes the address of the n-th buffer, counted from 1 behind the null symbol, and the
      size in the table. Symbol 0 stands for no buffer, and an index behind either list is refused. */
  lemma BufferOfSymbol(elf: Elf, link: u32, users: seq<bv64>, r: Rela)
    requires link < |elf.headers|
    ensures link != VPU_RT_SYMTAB && InTable(elf, link, r) && 0 < r.sym <= |users| ==>
      ResolveJit(elf, link, users, r) == Resolved(SymVal(users[r.sym - 1], Named(elf, link, r).val.size))
    ensures r.sym > elf.EntriesNum(link) || r.sym > |users| ==> ResolveJit(elf, link, users, r) == Unresolved(RelocError)
    ensures r.sym == 0 || r.sym == elf.EntriesNum(link) <= |users| ==>
      ResolveJit(elf, link, users, r) == Unresolved(Undefined)
  {
    hide Elf.EntriesNum, Elf.HasEntry, Elf.SymbolAt;
  }

  /** Replacing one user buffer moves the symbols for it, and no other symbol. */
  lemma OnlyItsOwnSymbol(elf: Elf, link: u32, users: seq<bv64>, n: nat, address: bv64, r: Rela)
    requires link < |elf.headers| && n < |users| && r.sym != n + 1
    ensures ResolveJit(elf, link, users[n := address], r) == ResolveJit(elf, link, users, r)
  {
    hide Elf.EntriesNum, Elf.HasEntry, Elf.SymbolAt;
  }
}
