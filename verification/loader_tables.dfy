/** The tables of a file as the loader reads them: how many entries they hold, what stands in an entry, and that the tables
    a writer emitted are read as written, entry by entry. */
module LoaderTables {
  import opened Bytes
  import opened Relocations
  import opened Patching
  import opened ElfFile
  import opened ElfCodec
  import opened ElfLayout
  import opened LoaderModel
  import SymbolTables

  // ---------- entries ----------

  /** The fields that relocation code uses, by their offsets in Elf64_Rela and Elf64_Sym. */
  lemma RelaFields(bs: seq<byte>)
    requires |bs| == ENTRY_SIZE
    ensures RelaFrom(bs) == Rela(Field(bs, 0, 8), Field(bs, 12, 4), Field(bs, 8, 4), Load64(bs[16..24]))
  {
    hide DecodeInt, DecodeRela, RSym, RType, AsWord, Load64;
    RelaLayout(bs);
    WordOfInt(bs[16..24]);
  }

  lemma SymbolFields(bs: seq<byte>)
    requires |bs| == ENTRY_SIZE
    ensures SymbolFrom(bs) ==
      Symbol(Field(bs, 4, 1) % 16, Field(bs, 6, 2), SymVal(Load64(bs[8..16]), Load64(bs[16..24])))
  {
    hide DecodeInt, DecodeSymbol, AsWord, Load64;
    SymbolLayout(bs);
    WordOfInt(bs[8..16]);
    WordOfInt(bs[16..24]);
  }

  // ---------- how many there are ----------

  /** The number of whole entries of sh_entsize bytes; none if that is 0. */
  lemma EntriesCounted(elf: Elf, i: nat)
    requires i < |elf.headers|
    ensures elf.headers[i].entsize == 0 ==> elf.EntriesNum(i) == 0
    ensures var h, n := elf.headers[i], elf.EntriesNum(i);
      h.entsize > 0 ==> n * h.entsize <= h.size < (n + 1) * h.entsize
  {
    var h := elf.headers[i];
    if h.entsize > 0 { WholeParts(h.size, h.entsize); }
  }

  lemma WholeParts(size: nat, part: nat)
    requires part > 0
    ensures size / part * part <= size < (size / part + 1) * part
  {
    assert size == size / part * part + size % part;
    Distribute(size / part, part);
  }

  lemma OnlyOneCount(n: nat, m: nat, part: nat)
    requires part > 0 && n * part <= m * part < (n + 1) * part
    ensures n == m
  {
    if n < m {
      MulMonotone(n + 1, m, part);
      assert false;
    } else if m < n {
      MulMonotone(m + 1, n, part);
      Distribute(m, part);
      assert false;
    }
  }

  /** A table of n structures has n entries. */
  lemma FullTable(elf: Elf, i: nat, n: nat)
    requires i < |elf.headers| && elf.headers[i].entsize == ENTRY_SIZE && elf.headers[i].size == n * ENTRY_SIZE
    ensures elf.EntriesNum(i) == n && elf.TableInside(i)
  {
    EntriesCounted(elf, i);
    OnlyOneCount(elf.EntriesNum(i), n, ENTRY_SIZE);
  }

  // ---------- relocation tables ----------

  /** The symbol index of an emitted relocation: that of its symbol, or a special one. */
  function SymOf(r: SymbolTables.NewRelocation): nat {
    if r.symbol.Some? then r.symbol.value else r.special
  }

  function RelaOf(r: SymbolTables.NewRelocation): Rela {
    Rela(r.offset, SymOf(r), r.rtype, AsWord(r.addend))
  }

  /** Section j holds exactly the relocation table that a writer emits for these relocations. */
  ghost predicate IsTableOf(elf: Elf, j: nat, rs: seq<SymbolTables.NewRelocation>) {
    j < |elf.headers| && elf.InBlob(j) && elf.headers[j].entsize == ENTRY_SIZE &&
    elf.Pristine(j) == SymbolTables.RelocationTable(rs, |rs|) && forall k :: 0 <= k < |rs| ==> SymOf(rs[k]) < TWO_32
  }

  /** The loader sees each of them, in order, with its own offset, symbol index, type and addend, and no other. */
  lemma RelocationTableRead(elf: Elf, j: nat, rs: seq<SymbolTables.NewRelocation>)
    requires IsTableOf(elf, j, rs)
    ensures elf.TableInside(j) && |elf.Relocs(j)| == |rs|
    ensures forall k :: 0 <= k < |rs| ==> elf.Relocs(j)[k] == RelaOf(rs[k])
  {
    hide SymbolTables.RelocationTable, Elf.EntriesNum, DecodeRela, RSym, RType, Elf.TableInside;
    FullTable(elf, j, |rs|);
    forall k | 0 <= k < |rs|
      ensures elf.Relocs(j)[k] == RelaOf(rs[k])
    {
      SymbolTables.RelocationDecodes(rs, k);
    }
  }

  /** Once a section has passed its checks, its task holds one job for each relocation of its table. */
  lemma EveryEntryIsAJob(elf: Elf, c: Context, j: nat, rs: seq<SymbolTables.NewRelocation>)
    requires IsTableOf(elf, j, rs) && CheckStatic(elf, c.addresses.Keys, j).Ok?
    ensures var h, task := elf.headers[j], StaticTask(elf, c, j);
      task.Patches? && task.target == h.info && |task.jobs| == |rs| &&
      forall k :: 0 <= k < |rs| ==> task.jobs[k] == Job(RelaOf(rs[k]), ResolveStatic(elf, c, h.link, RelaOf(rs[k])))
  {
    hide Elf.Relocs, Elf.EntriesNum, ResolveStatic, SymbolTables.RelocationTable;
    RelocationTableRead(elf, j, rs);
  }

  /** The same for a JIT section. */
  lemma EveryJitEntryIsAJob(elf: Elf, keys: set<nat>, io: UserIO, j: nat, rs: seq<SymbolTables.NewRelocation>)
    requires IsTableOf(elf, j, rs) && CheckJit(elf, keys, j).Ok?
    ensures var h, task := elf.headers[j], JitTask(elf, keys, io, j);
      task.Patches? && task.target == h.info && |task.jobs| == |rs| &&
      forall k :: 0 <= k < |rs| ==>
        task.jobs[k] == Job(RelaOf(rs[k]), ResolveJit(elf, h.link, UsersOf(h, io), RelaOf(rs[k])))
  {
    hide Elf.Relocs, Elf.EntriesNum, ResolveJit, UsersOf, SymbolTables.RelocationTable;
    RelocationTableRead(elf, j, rs);
  }

  // ---------- symbol tables ----------

  /** Section i holds exactly the symbol table that a writer emits for these symbols. */
  ghost predicate IsSymbolTableOf(elf: Elf, i: nat, symbols: seq<SymbolTables.NewSymbol>, names: seq<byte>) {
    i < |elf.headers| && elf.InBlob(i) && elf.headers[i].entsize == ENTRY_SIZE &&
    elf.Pristine(i) == SymbolTables.SymbolTable(symbols, names, |symbols|)
  }

  function RelatedOf(s: SymbolTables.NewSymbol): nat {
    if s.related.Some? then s.related.value % TWO_16 else 0
  }

  function SymbolOf(s: SymbolTables.NewSymbol): Symbol {
    Symbol(s.info % 16, RelatedOf(s), SymVal(AsWord(s.value), AsWord(s.size)))
  }

  predicate ReadsSymbol(elf: Elf, i: nat, k: nat, symbol: Symbol)
    requires i < |elf.headers|
  {
    elf.HasEntry(i, k) && elf.SymbolAt(i, k) == symbol
  }

  /** The loader sees each of them, in order, with its own type, section, value and size. */
  lemma SymbolTableRead(elf: Elf, i: nat, symbols: seq<SymbolTables.NewSymbol>, names: seq<byte>)
    requires IsSymbolTableOf(elf, i, symbols, names)
    ensures elf.EntriesNum(i) == |symbols|
    ensures forall k :: 0 <= k < |symbols| ==> ReadsSymbol(elf, i, k, SymbolOf(symbols[k]))
  {
    hide SymbolTables.SymbolTable, Elf.EntriesNum, DecodeSymbol, EncodeSymbol, Elf.TableInside, ReadsSymbol, SymbolOf;
    FullTable(elf, i, |symbols|);
    forall k | 0 <= k < |symbols|
      ensures ReadsSymbol(elf, i, k, SymbolOf(symbols[k]))
    {
      SymbolEntryRead(elf, i, symbols, names, k);
    }
  }

  lemma SymbolEntryRead(elf: Elf, i: nat, symbols: seq<SymbolTables.NewSymbol>, names: seq<byte>, k: nat)
    requires IsSymbolTableOf(elf, i, symbols, names) && k < |symbols|
    ensures ReadsSymbol(elf, i, k, SymbolOf(symbols[k]))
  {
    hide SymbolTables.SymbolTable, DecodeSymbol, EncodeSymbol, SymbolFrom, SymbolOf;
    SymbolTables.EntryInTable(symbols, names, k, |symbols|);
    SymbolOfEntry(symbols, names, k);
  }

  lemma SymbolOfEntry(symbols: seq<SymbolTables.NewSymbol>, names: seq<byte>, k: nat)
    requires k < |symbols|
    ensures SymbolFrom(EncodeSymbol(SymbolTables.EntryOf(symbols, names, k))) == SymbolOf(symbols[k])
  {
    hide DecodeSymbol, EncodeSymbol, AsWord;
    SymbolRoundTrip(SymbolTables.EntryOf(symbols, names, k));
  }

  /** Wherever in its table a symbol of type VPU_STT_ENTRY stands, the first and the last place included, the search in that
      table finds the first one. */
  lemma EntrySymbolIsFound(elf: Elf, i: nat, symbols: seq<SymbolTables.NewSymbol>, names: seq<byte>, k: nat)
    requires IsSymbolTableOf(elf, i, symbols, names) && elf.headers[i].stype == SHT_SYMTAB
    requires k < |symbols| && symbols[k].info % 16 == VPU_STT_ENTRY
    requires forall l :: 0 <= l < k ==> symbols[l].info % 16 != VPU_STT_ENTRY
    ensures EntryIn(elf, i, 0) == Found(k)
  {
    hide Elf.EntriesNum, SymbolTables.SymbolTable, Elf.HasEntry, Elf.SymbolAt, EntryIn;
    SymbolTableRead(elf, i, symbols, names);
    forall l | 0 <= l <= k
      ensures elf.HasEntry(i, l) && (elf.SymbolAt(i, l).stype == VPU_STT_ENTRY <==> l == k)
    {
      assert ReadsSymbol(elf, i, l, SymbolOf(symbols[l]));
    }
    SearchedFrom(elf, i, 0, k);
  }

  lemma {:induction false} SearchedFrom(elf: Elf, i: nat, from: nat, k: nat)
    requires i < |elf.headers| && elf.headers[i].stype == SHT_SYMTAB && from <= k < elf.EntriesNum(i)
    requires forall l :: from <= l <= k ==> elf.HasEntry(i, l) && (elf.SymbolAt(i, l).stype == VPU_STT_ENTRY <==> l == k)
    ensures EntryIn(elf, i, from) == Found(k)
    decreases k - from
  {
    hide Elf.EntriesNum, Elf.HasEntry, Elf.SymbolAt;
    if from < k {
      SearchedFrom(elf, i, from + 1, k);
    }
  }
}
