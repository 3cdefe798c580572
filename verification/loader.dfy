/** The loader itself. Every operation that can throw returns a status; a status other than Ok is the exception. */
module Loader {
  import opened Bytes
  import opened Errors
  import opened Relocations
  import opened Patching
  import opened Tasks
  import opened ElfFile
  import opened LoaderModel
  import opened LoaderFacts
  import opened DeviceMemory
  import opened LoadingFacts

  predicate EntryBuffer(elf: Elf, infer: BufferMap, s: nat, k: nat, b: BufferInfo)
    requires IsEntry(elf, s, k)
  {
    var i := elf.SymbolAt(s, k).shndx;
    i in infer && infer[i] == b
  }

  ghost predicate FirstEntry(elf: Elf, s: nat, k: nat) {
    IsEntry(elf, s, k) &&
    (forall s': nat, k': nat :: s' < s ==> !IsEntry(elf, s', k')) && (forall k': nat :: k' < k ==> !IsEntry(elf, s, k'))
  }

  class VPUXLoader {
    const mgr: BufferManager
    const reader: Reader
    var infer: BufferMap
    var backup: BufferMap
    var runtime: seq<Symbol>
    var symbolTypes: seq<u32>
    var relocIndexes: seq<nat>
    var jitIndexes: seq<nat>
    var scratch: seq<nat>
    var explicit: bool
    var loaded: bool

    function State(): LoaderState
      reads this
    {
      LoaderState(infer, backup, runtime, symbolTypes, relocIndexes, jitIndexes, scratch, explicit, loaded)
    }

    /** No buffer is locked: what the driver may rely on between any two operations. */
    ghost predicate Idle()
      reads mgr, reader
    {
      mgr.Valid() && mgr.locked == {} && mgr.mem[BLOB] == reader.elf.blob && CacheOk(reader.elf, mgr.mem, reader.cache)
    }

    /** Nothing that this loader writes is cached. */
    predicate OwnsNoCache()
      reads this, reader
    {
      State().Regions() !! CacheRegions(reader.cache)
    }

    ghost predicate Ready()
      reads this, mgr, reader
    {
      Idle() && Sound(reader.elf, mgr.mem, State()) && OwnsNoCache()
    }

    constructor (mgr: BufferManager, reader: Reader)
      ensures this.mgr == mgr && this.reader == reader && !loaded
      ensures infer == map[] && backup == map[] && relocIndexes == [] && jitIndexes == [] && scratch == []
    {
      this.mgr, this.reader := mgr, reader;
      infer, backup := map[], map[];
      runtime, symbolTypes := [], [];
      relocIndexes, jitIndexes, scratch := [], [], [];
      explicit, loaded := false, false;
    }

    /** The member initializers of the copy constructors, given copies of the containers. */
    constructor Copy(other: VPUXLoader, infer: BufferMap, backup: BufferMap, runtime: seq<Symbol>)
      ensures mgr == other.mgr && reader == other.reader
      ensures State() == other.State().(infer := infer, backup := backup, runtime := runtime)
    {
      mgr, reader := other.mgr, other.reader;
      this.infer, this.backup, this.runtime := infer, backup, runtime;
      symbolTypes := other.symbolTypes;
      relocIndexes, jitIndexes, scratch := other.relocIndexes, other.jitIndexes, other.scratch;
      explicit, loaded := other.explicit, other.loaded;
    }

    // ---------- relocations ----------

    /** The relocation function applied to the bytes of one target. */
    method ApplyOne(b: DeviceBuffer, job: Job) returns (status: Status)
      requires mgr.Valid() && WholeRegion(mgr.mem, b) && b.cpu.value.region in mgr.locked
      modifies mgr`mem
      ensures mgr.Valid() && WholeRegion(mgr.mem, b)
      ensures var r := b.cpu.value.region;
        var p := PatchOne(old(mgr.mem)[r], job);
        status == p.status && mgr.mem == old(mgr.mem)[r := p.image]
    {
      var r := b.cpu.value.region;
      ghost var image := mgr.mem[r];
      assert mgr.mem == mgr.mem[r := image];
      var rela := job.rela;
      var width := Width(rela.rtype);
      if rela.offset >= b.size || width == 0 {
        return Err(RelocError);
      }
      if job.target.Unresolved? {
        return Err(job.target.error);
      }
      if rela.offset + width > b.size {
        return Err(Undefined);
      }
      var bytes := mgr.mem[r][rela.offset..rela.offset + width];
      match PatchBytes(rela.rtype, bytes, job.target.symbol, rela.addend) {
        case None =>
          return Err(Undefined);
        case Some(patched) =>
          mgr.Write(b, rela.offset, patched);
          return Ok;
      }
    }

    /** The search for the section type of a symbol without an address. */
    method FindSymbolType(stype: u32) returns (index: nat)
      ensures index == FirstIndex(symbolTypes, stype)
    {
      index := 0;
      while index < |symbolTypes|
        invariant index <= |symbolTypes| && forall n :: 0 <= n < index ==> symbolTypes[n] != stype
      {
        if symbolTypes[index] == stype {
          break;
        }
        index := index + 1;
      }
    }

    /** Symbol k of the runtime symbols or of a table that was read. */
    method ReadSymbol(link: u32, k: nat) returns (symbol: Symbol)
      requires if link == VPU_RT_SYMTAB then k < |runtime|
        else link in reader.cache && CachedRight(reader.elf, mgr.mem, link, reader.cache[link]) && reader.elf.HasEntry(link, k)
      ensures symbol == if link == VPU_RT_SYMTAB then runtime[k] else reader.elf.SymbolAt(link, k)
    {
      if link == VPU_RT_SYMTAB {
        symbol := runtime[k];
      } else {
        symbol := SymbolFrom(reader.Entry(mgr.mem, link, k));
      }
    }

    method ResolveSymbol(link: u32, r: Rela) returns (t: Target)
      requires CacheOk(reader.elf, mgr.mem, reader.cache)
      requires link == VPU_RT_SYMTAB || link in reader.cache
      ensures link < |reader.elf.headers| || link == VPU_RT_SYMTAB
      ensures t == ResolveStatic(reader.elf, State().Ctx(), link, r)
    {
      hide FirstIndex, Displaced, Elf.SymbolAt, Elf.HasEntry, Elf.EntriesNum, SymbolFrom;
      assert link != VPU_RT_SYMTAB ==> CachedRight(reader.elf, mgr.mem, link, reader.cache[link]);
      hide CachedRight;
      var n := if link == VPU_RT_SYMTAB then |runtime| else reader.elf.EntriesNum(link);
      if r.sym > n {
        return Unresolved(RelocError);
      }
      if r.sym == n || (link != VPU_RT_SYMTAB && !reader.elf.HasEntry(link, r.sym)) {
        return Unresolved(Undefined);
      }
      var symbol := ReadSymbol(link, r.sym);
      var symValue: bv64 := 0;
      if symbol.shndx in infer {
        symValue := infer[symbol.shndx].buffer.vpu;
      }
      assert symValue == AddressOf(State().Ctx(), symbol.shndx);
      hide AddressOf;
      if symValue != 0 || link == VPU_RT_SYMTAB {
        return Resolved(Displaced(symbol.val, symValue));
      }
      if symbol.shndx >= |reader.elf.headers| {
        return Unresolved(RangeError);
      }
      var index := FindSymbolType(reader.elf.headers[symbol.shndx].stype);
      if index >= |runtime| {
        return Unresolved(Undefined);
      }
      t := Resolved(runtime[index].val);
    }

    /** Entry n of a relocation section that was read. */
    method ReadRelocation(j: nat, n: nat) returns (r: Rela)
      requires CacheOk(reader.elf, mgr.mem, reader.cache) && j in reader.cache
      requires j < |reader.elf.headers| && reader.elf.InBlob(j) && reader.elf.TableInside(j) && n < reader.elf.EntriesNum(j)
      ensures r == reader.elf.Relocs(j)[n]
    {
      hide Elf.EntriesNum, RelaFrom;
      EntryInside(reader.elf, j, n);
      assert CachedRight(reader.elf, mgr.mem, j, reader.cache[j]);
      r := RelaFrom(reader.Entry(mgr.mem, j, n));
    }

    /** Entry n of relocation section j, read and resolved from the cache and applied to the locked buffer of its target. */
    method ApplyEntry(j: nat, n: nat, b: DeviceBuffer) returns (status: Status)
      requires j < |reader.elf.headers| && mgr.Valid() && WholeRegion(mgr.mem, b) && b.cpu.value.region in mgr.locked
      requires CacheOk(reader.elf, mgr.mem, reader.cache) && b.cpu.value.region !in CacheRegions(reader.cache)
      requires j in reader.cache && reader.elf.InBlob(j) && reader.elf.TableInside(j) && n < reader.elf.EntriesNum(j)
      requires reader.elf.headers[j].link == VPU_RT_SYMTAB || reader.elf.headers[j].link in reader.cache
      modifies mgr`mem
      ensures mgr.Valid() && WholeRegion(mgr.mem, b) && CacheOk(reader.elf, mgr.mem, reader.cache)
      ensures reader.elf.headers[j].link < |reader.elf.headers| || reader.elf.headers[j].link == VPU_RT_SYMTAB
      ensures var r, rela := b.cpu.value.region, reader.elf.Relocs(j)[n];
        var p := PatchOne(old(mgr.mem)[r], Job(rela, ResolveStatic(reader.elf, State().Ctx(), reader.elf.headers[j].link, rela)));
        status == p.status && mgr.mem == old(mgr.mem)[r := p.image]
    {
      hide PatchOne, ResolveStatic, CacheOk, Elf.EntriesNum, Elf.Relocs, Elf.TableInside, CacheRegions;
      var rela := ReadRelocation(j, n);
      var target := ResolveSymbol(reader.elf.headers[j].link, rela);
      status := ApplyOne(b, Job(rela, target));
      CacheStays(reader.elf, old(mgr.mem), mgr.mem, reader.cache, {b.cpu.value.region});
    }

    /** The entries of relocation section j, applied in order to the locked buffer of its target. The tables are read
        from the cache entry by entry, while the target changes. */
    method ApplyEntries(j: nat, b: DeviceBuffer) returns (status: Status)
      requires j < |reader.elf.headers| && mgr.Valid() && WholeRegion(mgr.mem, b) && b.cpu.value.region in mgr.locked
      requires CheckStatic(reader.elf, infer.Keys, j).Ok? && CacheOk(reader.elf, mgr.mem, reader.cache)
      requires j in reader.cache && LinkCached(reader.elf, reader.cache.Keys, j)
      requires b.cpu.value.region !in CacheRegions(reader.cache)
      modifies mgr`mem
      ensures mgr.Valid()
      ensures var r, task := b.cpu.value.region, StaticTask(reader.elf, State().Ctx(), j);
        var p := PatchAll(old(mgr.mem)[r], task.jobs);
        status == p.status && mgr.mem == old(mgr.mem)[r := p.image]
    {
      hide PatchOne, ResolveStatic, CacheOk, Elf.EntriesNum, Elf.Relocs, Elf.TableInside, CacheRegions;
      var count := reader.elf.EntriesNum(j);
      ghost var r, jobs := b.cpu.value.region, StaticTask(reader.elf, State().Ctx(), j).jobs;
      ghost var image := mgr.mem[r];
      assert mgr.mem == mgr.mem[r := image] && jobs[0..] == jobs;
      hide CheckStatic, LinkCached;
      status := Ok;
      var n := 0;
      while n < count
        invariant n <= count == |jobs| && mgr.Valid() && WholeRegion(mgr.mem, b) && mgr.locked == old(mgr.locked)
        invariant mgr.mem == old(mgr.mem)[r := mgr.mem[r]] && CacheOk(reader.elf, mgr.mem, reader.cache)
        invariant PatchAll(image, jobs) == PatchAll(mgr.mem[r], jobs[n..]) && status.Ok?
      {
        assert jobs[n..][1..] == jobs[n + 1..];
        status := ApplyEntry(j, n, b);
        if status.Err? {
          return;
        }
        n := n + 1;
      }
    }

    /** The checks on a whole relocation section, which also read the tables that its entries need. */
    method CheckSection(j: nat) returns (status: Status)
      requires Idle() && j < |reader.elf.headers|
      modifies reader, mgr
      ensures Idle() && Extends(old(mgr.mem), mgr.mem) && CacheGrows(old(mgr.mem), old(reader.cache), reader.cache)
      ensures status == CheckStatic(reader.elf, infer.Keys, j)
      ensures status.Ok? ==> j in reader.cache && LinkCached(reader.elf, reader.cache.Keys, j)
      ensures j in old(reader.cache) && LinkCached(reader.elf, old(reader.cache.Keys), j) ==>
        reader.accesses == old(reader.accesses)
    {
      hide CacheOk, CacheGrows;
      var elf := reader.elf;
      var h := elf.headers[j];
      status := reader.GetData(mgr, j);
      if status.Err? {
        return;
      }
      if h.entsize == 0 {
        return Err(SectionError);
      }
      if h.link >= |elf.headers| && h.link != VPU_RT_SYMTAB {
        return Err(RangeError);
      }
      if h.link != VPU_RT_SYMTAB {
        var symtab := elf.headers[h.link];
        if symtab.entsize == 0 {
          return Err(SectionError);
        }
        if symtab.stype != SHT_SYMTAB {
          return Err(RelocError);
        }
        ghost var mem, cache := mgr.mem, reader.cache;
        status := reader.GetData(mgr, h.link);
        CacheGrowsTwice(old(mgr.mem), mem, old(reader.cache), cache, reader.cache);
        if status.Err? {
          return;
        }
      }
      if !h.Has(SHF_INFO_LINK) || h.info == 0 || h.info > |elf.headers| {
        return Err(RelocError);
      }
      if h.info == |elf.headers| {
        return Err(RangeError);
      }
      if h.info !in infer {
        return Err(OutOfRange);
      }
      if !elf.TableInside(j) {
        return Err(Undefined);
      }
    }

    /** One relocation section: its checks, and then its entries under the lock of its target. */
    method ApplySection(j: nat) returns (status: Status)
      requires Ready() && j in relocIndexes && j < |reader.elf.headers|
      modifies mgr, reader
      ensures Ready() && ChangesOnly(old(mgr.mem), mgr.mem, State().Regions())
      ensures RunTask(ImagesOf(old(mgr.mem), infer), StaticTask(reader.elf, State().Ctx(), j))
        == Outcome(ImagesOf(mgr.mem, infer), status)
      ensures CacheGrows(old(mgr.mem), old(reader.cache), reader.cache)
      ensures status.Ok? ==> j in reader.cache && LinkCached(reader.elf, reader.cache.Keys, j)
      ensures j in old(reader.cache) && LinkCached(reader.elf, old(reader.cache.Keys), j) ==>
        reader.accesses == old(reader.accesses)
    {
      hide Sound, StaticTask, JitTask, CacheOk, CacheRegions, CacheGrows, Owned, ImagesOf, LinkCached, CheckStatic;
      assert State().Ctx().addresses.Keys == infer.Keys;
      status := CheckSection(j);
      ghost var mem, cache := mgr.mem, reader.cache;
      GrownIsReady(reader.elf, old(mgr.mem), mem, State(), old(reader.cache), cache);
      if status.Err? {
        RefusedTask(reader.elf, State().Ctx(), j);
        return;
      }
      status := ApplyChecked(j);
    }

    /** A section that passed its checks: its entries, under the lock of its target. */
    method ApplyChecked(j: nat) returns (status: Status)
      requires Ready() && j in relocIndexes && j < |reader.elf.headers| && CheckStatic(reader.elf, infer.Keys, j).Ok?
      requires j in reader.cache && LinkCached(reader.elf, reader.cache.Keys, j)
      modifies mgr
      ensures Ready() && ChangesOnly(old(mgr.mem), mgr.mem, State().Regions())
      ensures RunTask(ImagesOf(old(mgr.mem), infer), StaticTask(reader.elf, State().Ctx(), j))
        == Outcome(ImagesOf(mgr.mem, infer), status)
    {
      hide Injective, Owned, Frozen, SoundData, PatchAll, ResolveStatic, LinkCached, CacheOk, CacheRegions, Elf.Relocs, CheckStatic;
      ghost var mem := mgr.mem;
      assert State().Ctx().addresses.Keys == infer.Keys;
      var i := reader.elf.headers[j].info;
      CheckedTarget(reader.elf, infer.Keys, j);
      assert PrivateTarget(reader.elf, infer, j);
      var b := infer[i].buffer;
      PrivateBuffer(reader.elf, mem, State(), i);
      ghost var r, image := b.cpu.value.region, mem[b.cpu.value.region];
      OwnedRegion(infer, i);
      mgr.Lock(b);
      status := ApplyEntries(j, b);
      mgr.Unlock(b);
      PrivateWrite(reader.elf, mem, State(), i, PatchAll(image, StaticTask(reader.elf, State().Ctx(), j).jobs).image);
      CacheStays(reader.elf, mem, mgr.mem, reader.cache, State().Regions());
    }

    /** The load-time relocation sections, in the order in which they were registered. */
    method ApplyRelocations() returns (status: Status)
      requires Ready()
      modifies mgr, reader
      ensures Ready() && ChangesOnly(old(mgr.mem), mgr.mem, State().Regions())
      ensures RunTasks(ImagesOf(old(mgr.mem), infer), StaticTasks(reader.elf, State().Ctx(), relocIndexes))
        == Outcome(ImagesOf(mgr.mem, infer), status)
      ensures CacheGrows(old(mgr.mem), old(reader.cache), reader.cache)
      ensures status.Ok? ==> TablesCached(reader.elf, reader.cache.Keys, relocIndexes)
      ensures TablesCached(reader.elf, old(reader.cache.Keys), relocIndexes) ==> reader.accesses == old(reader.accesses)
    {
      hide Owned, Frozen, Sound, StaticTask, ImagesOf, RunTask, LinkCached, CacheOk, CacheRegions, CacheGrows;
      assert AllInFile(reader.elf, relocIndexes) by { ReadyIndexes(reader.elf, mgr.mem, State()); }
      ghost var tasks := StaticTasks(reader.elf, State().Ctx(), relocIndexes);
      ghost var images := ImagesOf(mgr.mem, infer);
      assert tasks[0..] == tasks;
      NothingCached(mgr.mem, reader.cache);
      status := Ok;
      var k := 0;
      while k < |relocIndexes|
        invariant k <= |relocIndexes| && Ready() && status.Ok?
        invariant ChangesOnly(old(mgr.mem), mgr.mem, State().Regions())
        invariant RunTasks(images, tasks) == RunTasks(ImagesOf(mgr.mem, infer), tasks[k..])
        invariant CacheGrows(old(mgr.mem), old(reader.cache), reader.cache)
        invariant forall n :: 0 <= n < k ==>
          relocIndexes[n] in reader.cache && LinkCached(reader.elf, reader.cache.Keys, relocIndexes[n])
        invariant TablesCached(reader.elf, old(reader.cache.Keys), relocIndexes) ==> reader.accesses == old(reader.accesses)
      {
        var j := relocIndexes[k];
        ghost var mem, cache := mgr.mem, reader.cache;
        GrownKeys(old(mgr.mem), old(reader.cache), cache);
        MoreTables(reader.elf, old(reader.cache.Keys), cache.Keys, j);
        assert tasks[k..][0] == StaticTask(reader.elf, State().Ctx(), j) && tasks[k..][1..] == tasks[k + 1..];
        status := ApplySection(j);
        CacheGrowsTwice(old(mgr.mem), mem, old(reader.cache), cache, reader.cache);
        if status.Err? {
          return;
        }
        GrownKeys(mem, cache, reader.cache);
        forall n | 0 <= n < k
          ensures LinkCached(reader.elf, reader.cache.Keys, relocIndexes[n])
        {
          MoreTables(reader.elf, cache.Keys, reader.cache.Keys, relocIndexes[n]);
        }
        k := k + 1;
      }
    }

    // ---------- load ----------

    /** The pass over all sections that decides which get buffers, allocates scratch and registers relocations. */
    method RegisterSections() returns (status: Status)
      requires Idle() && infer == map[] && relocIndexes == [] && jitIndexes == [] && scratch == []
      modifies this`infer, this`relocIndexes, this`jitIndexes, this`scratch, mgr, reader
      ensures Idle() && Extends(old(mgr.mem), mgr.mem) && CacheGrows(old(mgr.mem), old(reader.cache), reader.cache)
      ensures status == RegistersOutcome(reader.elf, explicit, |reader.elf.headers|)
      ensures status.Ok? ==> Registered(reader.elf, infer, explicit, relocIndexes, jitIndexes, scratch, |reader.elf.headers|)
      ensures status.Ok? ==> EarlyTables(reader.elf, reader.cache.Keys, |reader.elf.headers|)
    {
      hide CacheGrows, CacheOk, Registered, EarlyTables, RegisterOutcome;
      var elf := reader.elf;
      NothingCached(mgr.mem, reader.cache);
      NothingRegistered(elf, explicit, reader.cache.Keys);
      status := Ok;
      var i := 0;
      while i < |elf.headers|
        invariant i <= |elf.headers| && Idle() && Extends(old(mgr.mem), mgr.mem)
        invariant CacheGrows(old(mgr.mem), old(reader.cache), reader.cache)
        invariant Registered(elf, infer, explicit, relocIndexes, jitIndexes, scratch, i)
        invariant EarlyTables(elf, reader.cache.Keys, i) && status.Ok? && status == RegistersOutcome(elf, explicit, i)
      {
        ghost var mem, cache := mgr.mem, reader.cache;
        status := RegisterSection(i);
        CacheGrowsTwice(old(mgr.mem), mem, old(reader.cache), cache, reader.cache);
        if status.Err? {
          FirstRefusalDecides(elf, explicit, i + 1, |elf.headers|);
          return;
        }
        i := i + 1;
      }
    }

    method RegisterSection(i: nat) returns (status: Status)
      requires Idle() && i < |reader.elf.headers|
      requires Registered(reader.elf, infer, explicit, relocIndexes, jitIndexes, scratch, i)
      requires EarlyTables(reader.elf, reader.cache.Keys, i)
      modifies this`infer, this`relocIndexes, this`jitIndexes, this`scratch, mgr, reader
      ensures Idle() && Extends(old(mgr.mem), mgr.mem) && CacheGrows(old(mgr.mem), old(reader.cache), reader.cache)
      ensures status == RegisterOutcome(reader.elf, explicit, i)
      ensures status.Ok? ==> Registered(reader.elf, infer, explicit, relocIndexes, jitIndexes, scratch, i + 1)
      ensures status.Ok? ==> EarlyTables(reader.elf, reader.cache.Keys, i + 1)
    {
      hide Registered, EarlyTables, RegisteredEntry, CacheGrows, CacheOk, IsScratchEntry, Lacking;
      ghost var infer0, reloc0, jit0, scratch0 := infer, relocIndexes, jitIndexes, scratch;
      NotYetRegistered(reader.elf, infer, explicit, relocIndexes, jitIndexes, scratch, i);
      NothingCached(mgr.mem, reader.cache);
      var h := reader.elf.headers[i];
      status := Ok;
      match ActionOf(h.stype) {
        case AllocateAndLoad =>
          if !explicit || h.Has(SHF_ALLOC) {
            infer := infer[i := BufferInfo(NO_BUFFER, true, true, !h.Has(SHF_WRITE), false)];
          }
        case Allocate =>
          if (!explicit || h.Has(SHF_ALLOC)) && !h.IsNetworkIO() {
            status := RegisterScratch(i);
          }
        case Relocate =>
          status := RegisterRelocations(i);
        case RegisterUserIO =>
          status := reader.GetData(mgr, i);
        case NoAction =>
        case Refuse(e) =>
          status := Err(e);
      }
      if status.Ok? {
        EntryRegistered(reader.elf, infer, explicit, i);
        WhatLacks(infer, i);
        RegisteredNext(reader.elf, infer0, infer, explicit, reloc0, relocIndexes, jit0, jitIndexes, scratch0, scratch, i);
        GrownKeys(old(mgr.mem), old(reader.cache), reader.cache);
        EarlyTablesNext(reader.elf, old(reader.cache.Keys), reader.cache.Keys, i);
      }
    }

    method RegisterScratch(i: nat) returns (status: Status)
      requires Idle() && i < |reader.elf.headers|
      modifies this`infer, this`scratch, mgr
      ensures Idle() && Extends(old(mgr.mem), mgr.mem)
      ensures status == if reader.elf.headers[i].Has(SHF_WRITE) then Ok else Err(SectionError)
      ensures status.Ok? ==> i in infer && infer == old(infer)[i := infer[i]] && IsScratchEntry(infer, i) && infer[i].isProcessed
      ensures status.Ok? ==> infer[i].buffer.cpu.Some? ==> infer[i].buffer.size == reader.elf.headers[i].size
      ensures status.Ok? ==> scratch == old(scratch) + if infer[i].buffer.cpu.None? then [i] else []
    {
      hide CacheOk;
      var h := reader.elf.headers[i];
      if !h.Has(SHF_WRITE) {
        return Err(SectionError);
      }
      var b := mgr.Allocate(h.size, true);
      CacheStays(reader.elf, old(mgr.mem), mgr.mem, reader.cache, {});
      if b.cpu.None? {
        scratch := scratch + [i];
      }
      infer := infer[i := BufferInfo(b, true, false, false, true)];
      status := Ok;
    }

    method RegisterRelocations(i: nat) returns (status: Status)
      requires Idle() && i < |reader.elf.headers|
      modifies this`relocIndexes, this`jitIndexes, mgr, reader
      ensures Idle() && Extends(old(mgr.mem), mgr.mem) && CacheGrows(old(mgr.mem), old(reader.cache), reader.cache)
      ensures var h := reader.elf.headers[i];
        status == if h.Has(VPU_SHF_JIT) then reader.elf.ReadStatus(i) else Ok
      ensures status.Ok? ==>
        var jit := reader.elf.headers[i].Has(VPU_SHF_JIT);
        relocIndexes == old(relocIndexes) + (if jit then [] else [i]) &&
        jitIndexes == old(jitIndexes) + (if jit then [i] else []) && (jit ==> i in reader.cache)
    {
      hide CacheOk, CacheGrows;
      NothingCached(mgr.mem, reader.cache);
      status := Ok;
      if reader.elf.headers[i].Has(VPU_SHF_JIT) {
        status := reader.GetData(mgr, i);
        if status.Ok? {
          jitIndexes := jitIndexes + [i];
        }
      } else {
        relocIndexes := relocIndexes + [i];
      }
    }

    /** Excludes the targets of the given relocation sections from sharing. */
    method UpdateSharedBuffers(indexes: seq<nat>) returns (status: Status)
      requires AllInFile(reader.elf, indexes)
      modifies this`infer
      ensures infer.Keys == old(infer.Keys) && status == TargetsOutcome(reader.elf, infer.Keys, indexes, |indexes|)
      ensures status.Ok? ==> infer == Unshared(reader.elf, old(infer), indexes)
    {
      hide Targeted, Unshared;
      var elf := reader.elf;
      assert indexes[0..] == indexes;
      var k := 0;
      while k < |indexes|
        invariant k <= |indexes| && infer.Keys == old(infer.Keys) && TargetsOutcome(elf, infer.Keys, indexes, k).Ok?
        invariant Unshared(elf, old(infer), indexes) == Unshared(elf, infer, indexes[k..])
      {
        var h := elf.headers[indexes[k]];
        UnsharedStep(elf, infer, indexes, k);
        if !h.Has(SHF_INFO_LINK) || h.info == 0 || h.info > |elf.headers| {
          FirstTargetDecides(elf, infer.Keys, indexes, k + 1, |indexes|);
          return Err(RelocError);
        }
        if h.info !in infer {
          FirstTargetDecides(elf, infer.Keys, indexes, k + 1, |indexes|);
          return Err(OutOfRange);
        }
        if !infer[h.info].isProcessed {
          infer := infer[h.info := infer[h.info].(isShared := false)];
        }
        k := k + 1;
      }
      NothingUnshared(elf, infer);
      status := Ok;
    }

    /** Fetches the shared buffers; for every other data section a backup and a private copy of it. */
    method LoadBuffers(ghost mem0: Memory) returns (status: Status)
      requires Idle() && Loading(reader.elf, mem0, mgr.mem, State(), infer.Keys)
      requires forall i :: i in infer && !infer[i].hasData ==> infer[i].isProcessed
      modifies this`infer, this`backup, mgr, reader`accesses
      ensures Idle() && Extends(old(mgr.mem), mgr.mem)
      ensures status.Ok? <==> AllInBlob(reader.elf, old(infer))
      ensures status.Err? ==> SomeDataEnds(reader.elf, old(infer), status)
      ensures status.Ok? ==> Loading(reader.elf, mem0, mgr.mem, State(), {}) && SameFlags(old(infer), infer)
    {
      hide Loading, CacheOk, AllInBlob, InBlobSoFar, SameFlags, SomeDataEnds;
      var elf := reader.elf;
      status := Ok;
      var todo := infer.Keys;
      NothingVisited(elf, infer);
      while todo != {}
        invariant todo <= infer.Keys && Idle() && Extends(old(mgr.mem), mgr.mem) && status.Ok?
        invariant Loading(elf, mem0, mgr.mem, State(), todo) && SameFlags(old(infer), infer)
        invariant forall i :: i in todo ==> infer[i] == old(infer)[i]
        invariant InBlobSoFar(elf, old(infer), todo)
        decreases todo
      {
        var i :| i in todo;
        LoadingEntry(elf, mem0, mgr.mem, State(), todo, i);
        ghost var before := infer;
        FlagsKeys(old(infer), infer);
        if !infer[i].isProcessed {
          status := LoadBuffer(mem0, todo, i);
          if status.Err? {
            NotInBlob(elf, old(infer), i, status);
            return;
          }
          FlagsKept(old(infer), before, infer, i);
        }
        OneMoreInBlob(elf, old(infer), todo, i);
        todo := todo - {i};
      }
      AllVisitedInBlob(elf, old(infer));
    }

    method LoadBuffer(ghost mem0: Memory, ghost todo: set<nat>, i: nat) returns (status: Status)
      requires Idle() && Loading(reader.elf, mem0, mgr.mem, State(), todo)
      requires i in todo && i in infer && infer[i].hasData && i < |reader.elf.headers|
      modifies this`infer, this`backup, mgr, reader`accesses
      ensures Idle() && Extends(old(mgr.mem), mgr.mem)
      ensures status == reader.elf.ReadStatus(i)
      ensures status.Err? ==> infer == old(infer)
      ensures status.Ok? ==> i in infer && infer == old(infer)[i := infer[i]]
      ensures status.Ok? ==> infer[i].hasData && infer[i].isShared == old(infer)[i].isShared
      ensures status.Ok? ==> Loading(reader.elf, mem0, mgr.mem, State(), todo - {i})
    {
      hide Loading, CacheOk;
      ghost var mem, st := mgr.mem, State();
      var info := infer[i];
      var found;
      status, found := reader.GetDataBuffer(mgr, i);
      CacheStays(reader.elf, mem, mgr.mem, reader.cache, {});
      if status.Err? {
        return;
      }
      if info.isShared {
        infer := infer[i := info.(buffer := found.buffer, managed := found.managed, isProcessed := true)];
        SharedVisited(reader.elf, mem0, mem, mgr.mem, st, todo, i, infer[i]);
      } else {
        var saved := BufferInfo(found.buffer, found.managed, true, true, true);
        var b := CopyOfBackup(saved);
        backup := backup[i := saved];
        infer := infer[i := info.(buffer := b, managed := true, isProcessed := true)];
        PrivateVisited(reader.elf, mem0, mem, mgr.mem, st, todo, i, infer[i], saved);
      }
    }

    /** A new private buffer with the bytes of a backup, which is locked meanwhile. */
    method CopyOfBackup(saved: BufferInfo) returns (b: DeviceBuffer)
      requires Idle() && Placed(mgr.mem, saved.buffer)
      modifies mgr
      ensures Idle() && Extends(old(mgr.mem), mgr.mem) && WholeRegion(mgr.mem, b) && b.size == saved.buffer.size
      ensures b.cpu.value.region !in old(mgr.mem)
      ensures mgr.mem[b.cpu.value.region] == BytesOf(old(mgr.mem), saved.buffer)
    {
      hide CacheOk;
      if saved.managed {
        mgr.Lock(saved.buffer);
      }
      b := mgr.Allocate(saved.buffer.size, false);
      mgr.LoadWithLock(b, BytesOf(mgr.mem, saved.buffer));
      if saved.managed {
        mgr.Unlock(saved.buffer);
      }
      CacheStays(reader.elf, old(mgr.mem), mgr.mem, reader.cache, {});
    }

    /** The part of load that comes before relocations. */
    method LoadSections() returns (status: Status)
      requires Idle() && reader.elf.TargetsCarryData()
      requires infer == map[] && backup == map[] && relocIndexes == [] && jitIndexes == [] && scratch == []
      modifies this`infer, this`backup, this`relocIndexes, this`jitIndexes, this`scratch, mgr, reader
      ensures Idle() && Extends(old(mgr.mem), mgr.mem) && CacheGrows(old(mgr.mem), old(reader.cache), reader.cache)
      ensures status.Ok? <==> SectionsLoad(reader.elf, explicit)
      ensures status.Err? ==> SectionsRefused(reader.elf, explicit, status)
      ensures status.Ok? ==> Ready() && Settled(reader.elf, old(mgr.mem), State()) && ScratchAllocated(reader.elf, State())
      ensures status.Ok? ==> ImagesOf(mgr.mem, infer) == PristineImages(reader.elf, PrivateKeys(infer))
      ensures status.Ok? ==> EarlyTables(reader.elf, reader.cache.Keys, |reader.elf.headers|)
    {
      hide Owned, Frozen, Sound, Registered, EarlyTables, Loading, ImagesOf, SharedExactly, Unshared, IsData, IsScratch, SameFlags,
        CacheOk, CacheRegions, CacheGrows, RegistersOutcome, TargetsOutcome, AllInBlob, AllDataInBlob, RelocSections, BufferKeys,
        SomeDataEnds;
      ghost var elf := reader.elf;
      RelocSectionsInFile(elf);
      status := RegisterSections();
      if status.Err? {
        return;
      }
      ghost var mem1, registered := mgr.mem, infer;
      RegisteredIndexes(elf, infer, explicit, relocIndexes, jitIndexes, scratch);
      RegisteredKeys(elf, infer, explicit, relocIndexes, jitIndexes, scratch);
      status := UpdateSharedBuffers(relocIndexes);
      if status.Err? {
        return;
      }
      status := UpdateSharedBuffers(jitIndexes);
      if status.Err? {
        return;
      }
      NothingLoaded(elf, mem1, mgr.mem, registered, State());
      DataToLoad(elf, registered, State());
      ghost var toLoad, decided := infer, State();
      status := LoadBuffers(mem1);
      if status.Err? {
        DataRefused(elf, registered, decided, status);
        return;
      }
      LoadedPrivateTargets(elf, registered, State());
      AllVisited(elf, mem1, mgr.mem, State());
      SharingDecided(elf, registered, State());
      LoadedScratch(elf, registered, State());
      CacheExists(elf, mem1, reader.cache);
    }

    /** Loads the file once. Relocations wait for the scratch buffers when the driver handed out empty ones. */
    method Load(runtime: seq<Symbol>, explicit: bool, symbolTypes: seq<u32>) returns (status: Status)
      requires Idle() && reader.elf.TargetsCarryData()
      requires !loaded ==> infer == map[] && backup == map[] && relocIndexes == [] && jitIndexes == [] && scratch == []
      modifies this, mgr, reader
      ensures Idle() && Extends(old(mgr.mem), mgr.mem) && CacheGrows(old(mgr.mem), old(reader.cache), reader.cache)
      ensures old(loaded) ==> status == Err(SequenceError) && State() == old(State()) && mgr.mem == old(mgr.mem)
      ensures !old(loaded) && !SectionsLoad(reader.elf, explicit) ==> SectionsRefused(reader.elf, explicit, status)
      ensures !old(loaded) && SectionsLoad(reader.elf, explicit) ==>
        Ready() && Classified(reader.elf, State()) && this.runtime == runtime && this.explicit == explicit &&
        this.symbolTypes == symbolTypes
      ensures !old(loaded) && SectionsLoad(reader.elf, explicit) ==>
        AllInFile(reader.elf, relocIndexes) && ScratchAllocated(reader.elf, State()) &&
        status == LoadOutcome(reader.elf, State())
      ensures status.Ok? ==>
        Ready() && LoadPost(reader.elf, old(mgr.mem), mgr.mem, State(), runtime, explicit, symbolTypes)
      ensures status.Ok? ==> loaded && EarlyTables(reader.elf, reader.cache.Keys, |reader.elf.headers|)
      ensures status.Ok? && scratch == [] ==> AllCached(reader.elf, reader.cache.Keys)
    {
      hide Owned, Frozen, Sound, RunTasks, StaticTasks, EarlyTables, LinkCached, ImagesOf, PristineImages, LoadPost,
        SectionsLoad, SectionsRefused, CacheOk, CacheRegions, CacheGrows, TablesCached, RelocSections, Pending;
      NothingCached(mgr.mem, reader.cache);
      if loaded {
        return Err(SequenceError);
      }
      this.runtime, this.symbolTypes, this.explicit := runtime, symbolTypes, explicit;
      ghost var elf := reader.elf;
      status := LoadSections();
      if status.Err? {
        return;
      }
      ghost var mem1, cache, st := mgr.mem, reader.cache, State();
      ReadyIndexes(elf, mgr.mem, st);
      if scratch == [] {
        status := ApplyRelocations();
        OnlyOwnChanged(old(mgr.mem), mem1, mgr.mem, st);
        CacheGrowsTwice(old(mgr.mem), mem1, old(reader.cache), cache, reader.cache);
        if status.Err? {
          return;
        }
        GrownKeys(mem1, cache, reader.cache);
        MoreEarlyTables(elf, cache.Keys, reader.cache.Keys);
      }
      OnlyOwnChanged(old(mgr.mem), mem1, mgr.mem, st);
      LoadDone(elf, old(mgr.mem), mgr.mem, st);
      LoadedAlike(elf, st);
      hide Settled, Relocated;
      loaded := true;
    }

    // ---------- user buffers ----------

    method CheckJitSection(j: nat) returns (status: Status)
      requires Idle() && j < |reader.elf.headers|
      modifies reader, mgr
      ensures Idle() && Extends(old(mgr.mem), mgr.mem) && CacheGrows(old(mgr.mem), old(reader.cache), reader.cache)
      ensures status == CheckJit(reader.elf, infer.Keys, j)
      ensures status.Ok? ==> j in reader.cache && reader.elf.headers[j].link in reader.cache
      ensures j in old(reader.cache) && LinkCached(reader.elf, old(reader.cache.Keys), j) ==>
        reader.accesses == old(reader.accesses)
    {
      hide CacheOk, CacheGrows;
      var elf := reader.elf;
      var h := elf.headers[j];
      status := reader.GetData(mgr, j);
      if status.Err? {
        return;
      }
      if h.entsize == 0 {
        return Err(SectionError);
      }
      if h.link >= |elf.headers| {
        return Err(RangeError);
      }
      var symtab := elf.headers[h.link];
      if h.link == VPU_RT_SYMTAB || symtab.stype != SHT_SYMTAB {
        return Err(RelocError);
      }
      if symtab.entsize == 0 {
        return Err(SectionError);
      }
      ghost var mem, cache := mgr.mem, reader.cache;
      status := reader.GetData(mgr, h.link);
      CacheGrowsTwice(old(mgr.mem), mem, old(reader.cache), cache, reader.cache);
      GrownKeys(mem, cache, reader.cache);
      if status.Err? {
        return;
      }
      if !h.IsNetworkIO() || !h.Has(SHF_INFO_LINK) {
        return Err(RelocError);
      }
      if h.info !in infer {
        return Err(OutOfRange);
      }
      if !elf.TableInside(j) {
        return Err(Undefined);
      }
    }

    /** The user's buffer that a JIT relocation refers to, with the size that the symbol table gives it. */
    method ResolveUser(link: u32, users: seq<bv64>, r: Rela) returns (t: Target)
      requires CacheOk(reader.elf, mgr.mem, reader.cache) && link in reader.cache
      ensures link < |reader.elf.headers| && t == ResolveJit(reader.elf, link, users, r)
    {
      hide SymbolFrom, Elf.HasEntry, Elf.EntriesNum;
      assert CachedRight(reader.elf, mgr.mem, link, reader.cache[link]);
      hide CachedRight;
      if r.sym > reader.elf.EntriesNum(link) || r.sym > |users| {
        return Unresolved(RelocError);
      }
      if r.sym == 0 || r.sym == reader.elf.EntriesNum(link) || !reader.elf.HasEntry(link, r.sym) {
        return Unresolved(Undefined);
      }
      var symbol := SymbolFrom(reader.Entry(mgr.mem, link, r.sym));
      t := Resolved(SymVal(users[r.sym - 1], symbol.val.size));
    }

    /** Entry n of JIT relocation section j, applied with the user's addresses. */
    method ApplyJitEntry(j: nat, n: nat, b: DeviceBuffer, users: seq<bv64>) returns (status: Status)
      requires j < |reader.elf.headers| && mgr.Valid() && WholeRegion(mgr.mem, b) && b.cpu.value.region in mgr.locked
      requires CacheOk(reader.elf, mgr.mem, reader.cache) && b.cpu.value.region !in CacheRegions(reader.cache)
      requires j in reader.cache && reader.elf.InBlob(j) && reader.elf.TableInside(j) && n < reader.elf.EntriesNum(j)
      requires reader.elf.headers[j].link in reader.cache
      modifies mgr`mem
      ensures mgr.Valid() && WholeRegion(mgr.mem, b) && CacheOk(reader.elf, mgr.mem, reader.cache)
      ensures reader.elf.headers[j].link < |reader.elf.headers|
      ensures var r, rela := b.cpu.value.region, reader.elf.Relocs(j)[n];
        var p := PatchOne(old(mgr.mem)[r], Job(rela, ResolveJit(reader.elf, reader.elf.headers[j].link, users, rela)));
        status == p.status && mgr.mem == old(mgr.mem)[r := p.image]
    {
      hide PatchOne, ResolveJit, CacheOk, Elf.EntriesNum, Elf.Relocs, Elf.TableInside, CacheRegions;
      var rela := ReadRelocation(j, n);
      var target := ResolveUser(reader.elf.headers[j].link, users, rela);
      status := ApplyOne(b, Job(rela, target));
      CacheStays(reader.elf, old(mgr.mem), mgr.mem, reader.cache, {b.cpu.value.region});
    }

    /** The entries of a JIT relocation section, applied in order. */
    method ApplyJitEntries(j: nat, b: DeviceBuffer, io: UserIO) returns (status: Status)
      requires j < |reader.elf.headers| && mgr.Valid() && WholeRegion(mgr.mem, b) && b.cpu.value.region in mgr.locked
      requires CheckJit(reader.elf, infer.Keys, j).Ok? && CacheOk(reader.elf, mgr.mem, reader.cache)
      requires j in reader.cache && reader.elf.headers[j].link in reader.cache
      requires b.cpu.value.region !in CacheRegions(reader.cache)
      modifies mgr`mem
      ensures mgr.Valid()
      ensures var r, task := b.cpu.value.region, JitTask(reader.elf, infer.Keys, io, j);
        var p := PatchAll(old(mgr.mem)[r], task.jobs);
        status == p.status && mgr.mem == old(mgr.mem)[r := p.image]
    {
      hide PatchOne, ResolveJit, CacheOk, Elf.EntriesNum, Elf.Relocs, Elf.TableInside, CacheRegions;
      var count, users := reader.elf.EntriesNum(j), UsersOf(reader.elf.headers[j], io);
      ghost var r, jobs := b.cpu.value.region, JitTask(reader.elf, infer.Keys, io, j).jobs;
      ghost var image := mgr.mem[r];
      assert mgr.mem == mgr.mem[r := image] && jobs[0..] == jobs;
      status := Ok;
      var n := 0;
      while n < count
        invariant n <= count == |jobs| && mgr.Valid() && WholeRegion(mgr.mem, b) && mgr.locked == old(mgr.locked)
        invariant mgr.mem == old(mgr.mem)[r := mgr.mem[r]] && CacheOk(reader.elf, mgr.mem, reader.cache)
        invariant PatchAll(image, jobs) == PatchAll(mgr.mem[r], jobs[n..]) && status.Ok?
      {
        assert jobs[n..][1..] == jobs[n + 1..];
        status := ApplyJitEntry(j, n, b, users);
        if status.Err? {
          return;
        }
        n := n + 1;
      }
    }

    method ApplyJitSection(j: nat, io: UserIO) returns (status: Status)
      requires Ready() && j in jitIndexes && j < |reader.elf.headers|
      modifies mgr, reader
      ensures Ready() && ChangesOnly(old(mgr.mem), mgr.mem, State().Regions())
      ensures RunTask(ImagesOf(old(mgr.mem), infer), JitTask(reader.elf, infer.Keys, io, j))
        == Outcome(ImagesOf(mgr.mem, infer), status)
      ensures CacheGrows(old(mgr.mem), old(reader.cache), reader.cache)
      ensures j in old(reader.cache) && LinkCached(reader.elf, old(reader.cache.Keys), j) ==>
        reader.accesses == old(reader.accesses)
    {
      hide Sound, StaticTask, JitTask, CacheOk, CacheRegions, CacheGrows, Owned, ImagesOf, LinkCached, CheckJit;
      status := CheckJitSection(j);
      ghost var mem, cache := mgr.mem, reader.cache;
      GrownIsReady(reader.elf, old(mgr.mem), mem, State(), old(reader.cache), cache);
      if status.Err? {
        RefusedUserTask(reader.elf, infer.Keys, io, j);
        return;
      }
      status := ApplyJitChecked(j, io);
    }

    /** A section that passed its checks: its entries, under the lock of its target. */
    method ApplyJitChecked(j: nat, io: UserIO) returns (status: Status)
      requires Ready() && j in jitIndexes && j < |reader.elf.headers| && CheckJit(reader.elf, infer.Keys, j).Ok?
      requires j in reader.cache && reader.elf.headers[j].link in reader.cache
      modifies mgr
      ensures Ready() && ChangesOnly(old(mgr.mem), mgr.mem, State().Regions())
      ensures RunTask(ImagesOf(old(mgr.mem), infer), JitTask(reader.elf, infer.Keys, io, j))
        == Outcome(ImagesOf(mgr.mem, infer), status)
    {
      hide Injective, Owned, Frozen, SoundData, PatchAll, ResolveJit, LinkCached, CacheOk, CacheRegions, Elf.Relocs, CheckJit;
      ghost var mem := mgr.mem;
      var i := reader.elf.headers[j].info;
      CheckedUserTarget(reader.elf, infer.Keys, j);
      assert PrivateTarget(reader.elf, infer, j);
      var b := infer[i].buffer;
      PrivateBuffer(reader.elf, mem, State(), i);
      ghost var r, image := b.cpu.value.region, mem[b.cpu.value.region];
      OwnedRegion(infer, i);
      mgr.Lock(b);
      status := ApplyJitEntries(j, b, io);
      mgr.Unlock(b);
      PrivateWrite(reader.elf, mem, State(), i, PatchAll(image, JitTask(reader.elf, infer.Keys, io, j).jobs).image);
      CacheStays(reader.elf, mem, mgr.mem, reader.cache, State().Regions());
    }

    /** Patches the user's buffers into the private images. When all tables were read at load time, the access
        manager is not needed. */
    method ApplyJitRelocations(io: UserIO) returns (status: Status)
      requires Ready()
      modifies mgr, reader
      ensures Ready() && JitPost(reader.elf, old(mgr.mem), mgr.mem, State(), io, status)
      ensures CacheGrows(old(mgr.mem), old(reader.cache), reader.cache)
      ensures TablesCached(reader.elf, old(reader.cache.Keys), jitIndexes) ==> reader.accesses == old(reader.accesses)
    {
      hide Owned, Frozen, Sound, JitTask, ImagesOf, RunTask, LinkCached, CacheOk, CacheRegions, CacheGrows;
      assert AllInFile(reader.elf, jitIndexes) by { ReadyIndexes(reader.elf, mgr.mem, State()); }
      ghost var tasks := JitTasks(reader.elf, infer.Keys, io, jitIndexes);
      ghost var images := ImagesOf(mgr.mem, infer);
      assert tasks[0..] == tasks;
      NothingCached(mgr.mem, reader.cache);
      status := Ok;
      var k := 0;
      while k < |jitIndexes|
        invariant k <= |jitIndexes| && Ready() && status.Ok?
        invariant ChangesOnly(old(mgr.mem), mgr.mem, State().Regions())
        invariant RunTasks(images, tasks) == RunTasks(ImagesOf(mgr.mem, infer), tasks[k..])
        invariant CacheGrows(old(mgr.mem), old(reader.cache), reader.cache)
        invariant TablesCached(reader.elf, old(reader.cache.Keys), jitIndexes) ==> reader.accesses == old(reader.accesses)
      {
        var j := jitIndexes[k];
        ghost var mem, cache := mgr.mem, reader.cache;
        GrownKeys(old(mgr.mem), old(reader.cache), cache);
        MoreTables(reader.elf, old(reader.cache.Keys), cache.Keys, j);
        assert tasks[k..][0] == JitTask(reader.elf, infer.Keys, io, j) && tasks[k..][1..] == tasks[k + 1..];
        status := ApplyJitSection(j, io);
        CacheGrowsTwice(old(mgr.mem), mem, old(reader.cache), cache, reader.cache);
        if status.Err? {
          return;
        }
        k := k + 1;
      }
    }

    /** The buffer of the first entry symbol in file order. After load the symbol tables are at hand. */
    method GetEntry() returns (status: Status, b: BufferInfo)
      requires Ready()
      modifies reader, mgr
      ensures Ready() && Extends(old(mgr.mem), mgr.mem) && CacheGrows(old(mgr.mem), old(reader.cache), reader.cache)
      ensures EarlyTables(reader.elf, old(reader.cache.Keys), |reader.elf.headers|) ==> reader.accesses == old(reader.accesses)
      ensures status == EntryOutcome(reader.elf, infer.Keys, 0)
      ensures status.Ok? ==> exists s: nat, k: nat :: FirstEntry(reader.elf, s, k) && EntryBuffer(reader.elf, infer, s, k, b)
      ensures status == Err(ImplausibleState) ==> forall s: nat, k: nat :: !IsEntry(reader.elf, s, k)
    {
      hide Sound, CacheOk, CacheGrows, CacheRegions, EarlyTables, Owned, EntryIn, IsEntry;
      var elf := reader.elf;
      b := BufferInfo(NO_BUFFER, false, false, false, false);
      NothingCached(mgr.mem, reader.cache);
      var s := 0;
      while s < |elf.headers|
        invariant s <= |elf.headers| && Ready() && Extends(old(mgr.mem), mgr.mem)
        invariant CacheGrows(old(mgr.mem), old(reader.cache), reader.cache)
        invariant EarlyTables(elf, old(reader.cache.Keys), |elf.headers|) ==> reader.accesses == old(reader.accesses)
        invariant forall s': nat, k': nat :: s' < s ==> !IsEntry(elf, s', k')
        invariant EntryOutcome(elf, infer.Keys, 0) == EntryOutcome(elf, infer.Keys, s)
      {
        if elf.headers[s].stype == SHT_SYMTAB {
          ghost var mem, cache := mgr.mem, reader.cache;
          EarlierEnough(elf, old(mgr.mem), old(reader.cache), cache);
          var found;
          status, found, b := SearchTable(s);
          CacheGrowsTwice(old(mgr.mem), mem, old(reader.cache), cache, reader.cache);
          if status.Err? || found {
            return;
          }
        } else {
          NoEntries(elf, s);
        }
        s := s + 1;
      }
      NoEntriesBeyond(elf);
      status := Err(ImplausibleState);
    }

    /** The search in symbol table s. */
    method SearchTable(s: nat) returns (status: Status, found: bool, b: BufferInfo)
      requires Ready() && s < |reader.elf.headers| && reader.elf.headers[s].stype == SHT_SYMTAB
      modifies reader, mgr
      ensures Ready() && Extends(old(mgr.mem), mgr.mem) && CacheGrows(old(mgr.mem), old(reader.cache), reader.cache)
      ensures EarlyTables(reader.elf, old(reader.cache.Keys), |reader.elf.headers|) ==> reader.accesses == old(reader.accesses)
      ensures EntryOutcome(reader.elf, infer.Keys, s)
        == if status.Err? || found then status else EntryOutcome(reader.elf, infer.Keys, s + 1)
      ensures status != Err(ImplausibleState)
      ensures status.Ok? && found ==>
        exists k: nat :: FirstIn(reader.elf, s, k) && EntryBuffer(reader.elf, infer, s, k, b)
      ensures status.Ok? && !found ==> forall k': nat :: !IsEntry(reader.elf, s, k')
    {
      hide Sound, CacheOk, CacheGrows, CacheRegions, SymbolFrom, EarlyTables, NeededLater, Owned, EntryIn;
      var elf := reader.elf;
      b := BufferInfo(NO_BUFFER, false, false, false, false);
      found := false;
      NothingCached(mgr.mem, reader.cache);
      if elf.headers[s].entsize == 0 {
        return Err(SectionError), found, b;
      }
      if EarlyTables(elf, reader.cache.Keys, |elf.headers|) {
        SymbolsNeeded(elf, reader.cache.Keys, s);
      }
      status := reader.GetData(mgr, s);
      GrownIsReady(elf, old(mgr.mem), mgr.mem, State(), old(reader.cache), reader.cache);
      if status.Err? {
        return;
      }
      var k;
      status, k := FindEntry(s);
      if status.Err? {
        return;
      }
      if k < elf.EntriesNum(s) {
        var symbol := ReadEntry(s, k);
        if symbol.shndx !in infer {
          return Err(OutOfRange), found, b;
        }
        b := infer[symbol.shndx];
        found := true;
        assert EntryBuffer(elf, infer, s, k, b);
      }
    }

    /** Symbol k of a symbol table that was read. */
    method ReadEntry(s: nat, k: nat) returns (symbol: Symbol)
      requires CacheOk(reader.elf, mgr.mem, reader.cache) && s in reader.cache
      requires s < |reader.elf.headers| && reader.elf.HasEntry(s, k)
      ensures symbol == reader.elf.SymbolAt(s, k)
    {
      hide SymbolFrom, Elf.EntryBytes;
      assert CachedRight(reader.elf, mgr.mem, s, reader.cache[s]);
      symbol := SymbolFrom(reader.Entry(mgr.mem, s, k));
    }

    /** The first entry symbol of table s, or the number of symbols. */
    method FindEntry(s: nat) returns (status: Status, k: nat)
      requires CacheOk(reader.elf, mgr.mem, reader.cache) && s in reader.cache
      requires s < |reader.elf.headers| && reader.elf.headers[s].stype == SHT_SYMTAB
      ensures status == if EntryIn(reader.elf, s, 0).Beyond? then Err(Undefined) else Ok
      ensures EntryIn(reader.elf, s, 0).Found? ==> k == EntryIn(reader.elf, s, 0).k
      ensures EntryIn(reader.elf, s, 0).Missing? ==> k == reader.elf.EntriesNum(s)
      ensures status.Ok? ==> k <= reader.elf.EntriesNum(s) && forall k': nat :: k' < k ==> !IsEntry(reader.elf, s, k')
      ensures status.Ok? && k < reader.elf.EntriesNum(s) ==> IsEntry(reader.elf, s, k)
    {
      hide CacheOk, Elf.SymbolAt, Elf.EntriesNum, Elf.HasEntry;
      k := 0;
      while k < reader.elf.EntriesNum(s)
        invariant k <= reader.elf.EntriesNum(s) && forall k': nat :: k' < k ==> !IsEntry(reader.elf, s, k')
        invariant EntryIn(reader.elf, s, 0) == EntryIn(reader.elf, s, k)
      {
        if !reader.elf.HasEntry(s, k) {
          return Err(Undefined), k;
        }
        var symbol := ReadEntry(s, k);
        if symbol.stype == VPU_STT_ENTRY {
          return Ok, k;
        }
        k := k + 1;
      }
      status := Ok;
    }

    // ---------- going back to the file's bytes ----------

    /** Copies every backup over its private buffer, whatever the order of the map. The check that their sizes
        agree cannot fail: both have the size of the section. */
    method ReloadNewBuffers()
      requires Ready()
      modifies mgr
      ensures Ready() && ChangesOnly(old(mgr.mem), mgr.mem, State().Regions()) && mgr.mem.Keys == old(mgr.mem.Keys)
      ensures ImagesOf(mgr.mem, infer) == PristineImages(reader.elf, PrivateKeys(infer))
    {
      hide Owned, Frozen, Sound, PrivateKeys, CacheOk, CacheRegions;
      var todo := infer.Keys;
      while todo != {}
        invariant todo <= infer.Keys && Ready() && ChangesOnly(old(mgr.mem), mgr.mem, State().Regions())
        invariant mgr.mem.Keys == old(mgr.mem.Keys)
        invariant forall i :: i in infer && i !in todo && infer[i].IsPrivate() ==>
          i in ImagesOf(mgr.mem, infer) && i < |reader.elf.headers| && reader.elf.InBlob(i) &&
          ImagesOf(mgr.mem, infer)[i] == reader.elf.Pristine(i)
        decreases todo
      {
        var i :| i in todo;
        if infer[i].hasData && !infer[i].isShared {
          PrivateBuffer(reader.elf, mgr.mem, State(), i);
          BlobIsReadOnly(State());
          PrivateWrite(reader.elf, mgr.mem, State(), i, reader.elf.Pristine(i));
          OwnedRegion(infer, i);
          ReloadOne(infer[i].buffer, backup[i]);
        }
        todo := todo - {i};
      }
      SamePrivateImages(reader.elf, mgr.mem, State());
    }

    /** The backup is locked while its bytes are copied into the private buffer. */
    method ReloadOne(b: DeviceBuffer, from: BufferInfo)
      requires Idle() && WholeRegion(mgr.mem, b) && Placed(mgr.mem, from.buffer) && from.buffer.size == b.size
      requires b.cpu.value.region != from.buffer.cpu.value.region && b.cpu.value.region != BLOB
      requires b.cpu.value.region !in CacheRegions(reader.cache)
      modifies mgr
      ensures Idle() && mgr.mem == old(mgr.mem)[b.cpu.value.region := BytesOf(old(mgr.mem), from.buffer)]
    {
      hide CacheOk, CacheRegions;
      if from.managed {
        mgr.Lock(from.buffer);
      }
      mgr.LoadWithLock(b, BytesOf(mgr.mem, from.buffer));
      if from.managed {
        mgr.Unlock(from.buffer);
      }
      CacheStays(reader.elf, old(mgr.mem), mgr.mem, reader.cache, {b.cpu.value.region});
    }

    // ---------- scratch buffers that arrive late ----------

    method UpdateSharedScratchBuffers(buffers: seq<DeviceBuffer>) returns (status: Status)
      requires Ready()
      modifies this`infer, mgr, reader
      ensures Ready() && ScratchPost(reader.elf, old(mgr.mem), mgr.mem, old(State()), State(), buffers, status)
      ensures CacheGrows(old(mgr.mem), old(reader.cache), reader.cache)
      ensures TablesCached(reader.elf, old(reader.cache.Keys), relocIndexes) ==> reader.accesses == old(reader.accesses)
      ensures status.Ok? && scratch != [] ==> TablesCached(reader.elf, reader.cache.Keys, relocIndexes)
    {
      hide Owned, Frozen, Sound, RunTasks, WithScratch, StaticTasks, CacheOk, CacheRegions, CacheGrows, TablesCached;
      NothingCached(mgr.mem, reader.cache);
      if |scratch| != |buffers| {
        return Err(RuntimeError);
      }
      if scratch == [] {
        return Ok;
      }
      ghost var st := State();
      ReloadNewBuffers();
      ghost var mem := mgr.mem;
      ScratchKeepsSound(reader.elf, mem, st, buffers);
      ScratchIsNotData(reader.elf, mem, st, buffers);
      SoundScratch(reader.elf, mem, st);
      ResetScratch(buffers);
      assert State() == st.(infer := WithScratch(st.infer, st.scratch, buffers));
      status := ApplyRelocations();
      CacheGrowsSince(old(mgr.mem), mem, old(reader.cache), reader.cache);
    }

    method ResetScratch(buffers: seq<DeviceBuffer>)
      requires |scratch| == |buffers| && forall k :: 0 <= k < |scratch| ==> IsScratchEntry(infer, scratch[k])
      modifies this`infer
      ensures forall k :: 0 <= k < |old(scratch)| ==>
        old(scratch)[k] in old(infer) && !old(infer)[old(scratch)[k]].hasData
      ensures infer == WithScratch(old(infer), old(scratch), buffers)
    {
      var k := 0;
      assert scratch[0..] == scratch && buffers[0..] == buffers;
      while k < |scratch|
        invariant k <= |scratch| && forall n :: 0 <= n < |scratch| ==> IsScratchEntry(infer, scratch[n])
        invariant WithScratch(old(infer), scratch, buffers) == WithScratch(infer, scratch[k..], buffers[k..])
      {
        assert scratch[k..][1..] == scratch[k + 1..] && buffers[k..][1..] == buffers[k + 1..];
        infer := infer[scratch[k] := infer[scratch[k]].(buffer := buffers[k])];
        k := k + 1;
      }
    }
  }

  // ---------- what load establishes on the way ----------

  /** The buffer map and the registered sections after the first n sections. */
  ghost predicate Registered(elf: Elf, infer: BufferMap, explicit: bool, relocIndexes: seq<nat>, jitIndexes: seq<nat>,
                             scratch: seq<nat>, n: nat)
    requires n <= |elf.headers|
  {
    (forall i: nat :: i in infer <==> i < n && (IsData(elf, explicit, i) || IsScratch(elf, explicit, i))) &&
    (forall i :: i in infer ==> RegisteredEntry(elf, explicit, infer, i)) &&
    relocIndexes == RelocSections(elf, false, n) && jitIndexes == RelocSections(elf, true, n) &&
    scratch == Pending(infer, n)
  }

  ghost predicate RegisteredEntry(elf: Elf, explicit: bool, infer: BufferMap, i: nat)
    requires i in infer
  {
    if IsData(elf, explicit, i) then infer[i] == BufferInfo(NO_BUFFER, true, true, !elf.headers[i].Has(SHF_WRITE), false)
    else !infer[i].hasData && !infer[i].isShared && infer[i].isProcessed && SectionSized(elf, infer[i].buffer, i)
  }

  /** A buffer, unless it is empty, is as large as its section. */
  predicate SectionSized(elf: Elf, b: DeviceBuffer, i: nat) {
    b.cpu.Some? ==> i < |elf.headers| && b.size == elf.headers[i].size
  }

  /** The buffer map after the targets of the given relocation sections stopped being shared. */
  function Unshared(elf: Elf, infer: BufferMap, indexes: seq<nat>): (m: BufferMap)
    requires AllInFile(elf, indexes)
    ensures m.Keys == infer.Keys
    ensures forall i :: i in infer ==>
      m[i] == infer[i].(isShared := infer[i].isShared && (infer[i].isProcessed || !Targeted(elf, indexes, i)))
  {
    if indexes == [] then infer
    else
      var t := elf.headers[indexes[0]].info;
      var rest := indexes[1..];
      assert forall i :: Targeted(elf, indexes, i) <==> i == t || Targeted(elf, rest, i) by {
        forall i
          ensures Targeted(elf, indexes, i) <==> i == t || Targeted(elf, rest, i)
        {
          TargetedCons(elf, indexes, i);
        }
      }
      if t in infer && !infer[t].isProcessed then Unshared(elf, infer[t := infer[t].(isShared := false)], rest)
      else Unshared(elf, infer, rest)
  }

  lemma NothingUnshared(elf: Elf, infer: BufferMap)
    ensures Unshared(elf, infer, []) == infer
  {}

  lemma UnsharedStep(elf: Elf, infer: BufferMap, indexes: seq<nat>, k: nat)
    requires AllInFile(elf, indexes) && k < |indexes|
    ensures var t := elf.headers[indexes[k]].info;
      var next := if t in infer && !infer[t].isProcessed then infer[t := infer[t].(isShared := false)] else infer;
      Unshared(elf, infer, indexes[k..]) == Unshared(elf, next, indexes[k + 1..])
  {
    hide Targeted;
    assert indexes[k..][1..] == indexes[k + 1..];
  }

  predicate Targeted(elf: Elf, indexes: seq<nat>, i: nat)
    requires AllInFile(elf, indexes)
  {
    exists k :: 0 <= k < |indexes| && elf.headers[indexes[k]].info == i
  }

  lemma TargetedCons(elf: Elf, indexes: seq<nat>, i: nat)
    requires AllInFile(elf, indexes) && indexes != []
    ensures Targeted(elf, indexes, i) <==> elf.headers[indexes[0]].info == i || Targeted(elf, indexes[1..], i)
  {
    if Targeted(elf, indexes, i) {
      var k :| 0 <= k < |indexes| && elf.headers[indexes[k]].info == i;
      assert k > 0 ==> indexes[1..][k - 1] == indexes[k];
    }
    if Targeted(elf, indexes[1..], i) {
      var k :| 0 <= k < |indexes[1..]| && elf.headers[indexes[1..][k]].info == i;
      assert indexes[k + 1] == indexes[1..][k];
    }
  }

  /** The two maps differ in buffers only. */
  ghost predicate SameFlags(m: BufferMap, m': BufferMap) {
    m'.Keys == m.Keys && forall i :: i in m ==>
      m'[i].hasData == m[i].hasData && m'[i].isShared == m[i].isShared && (!m[i].hasData ==> m'[i] == m[i])
  }

  /** The sections and regions of a loaded file, whatever its images are. */
  ghost predicate Settled(elf: Elf, mem0: Memory, st: LoaderState) {
    st.Regions() !! mem0.Keys && st.ReadOnly() * mem0.Keys <= {BLOB} && Classified(elf, st)
  }

  predicate AllInBlob(elf: Elf, infer: BufferMap) {
    forall i :: i in infer && infer[i].hasData ==> i < |elf.headers| && elf.InBlob(i)
  }

  predicate InBlobSoFar(elf: Elf, infer: BufferMap, todo: set<nat>) {
    forall i :: i in infer && i !in todo && infer[i].hasData ==> i < |elf.headers| && elf.InBlob(i)
  }

  lemma NothingVisited(elf: Elf, infer: BufferMap)
    ensures InBlobSoFar(elf, infer, infer.Keys) && SameFlags(infer, infer)
  {}

  lemma OneMoreInBlob(elf: Elf, infer: BufferMap, todo: set<nat>, i: nat)
    requires InBlobSoFar(elf, infer, todo) && i in infer && (infer[i].hasData ==> i < |elf.headers| && elf.InBlob(i))
    ensures InBlobSoFar(elf, infer, todo - {i})
  {}

  lemma AllVisitedInBlob(elf: Elf, infer: BufferMap)
    requires InBlobSoFar(elf, infer, {})
    ensures AllInBlob(elf, infer)
  {}

  /** Some data section is read with this outcome. */
  predicate SomeDataEnds(elf: Elf, infer: BufferMap, status: Status) {
    exists i :: i in infer && infer[i].hasData && i < |elf.headers| && status == elf.ReadStatus(i)
  }

  lemma NotInBlob(elf: Elf, infer: BufferMap, i: nat, status: Status)
    requires i in infer && infer[i].hasData && i < |elf.headers| && status == elf.ReadStatus(i) && status.Err?
    ensures !AllInBlob(elf, infer) && SomeDataEnds(elf, infer, status)
  {}

  lemma FlagsKeys(m: BufferMap, m': BufferMap)
    requires SameFlags(m, m')
    ensures m'.Keys == m.Keys && forall i :: i in m ==> m[i].hasData == m'[i].hasData
  {}

  lemma FlagsKept(m0: BufferMap, m: BufferMap, m': BufferMap, i: nat)
    requires SameFlags(m0, m) && i in m && m[i].hasData && i in m' && m' == m[i := m'[i]]
    requires m'[i].hasData && m'[i].isShared == m[i].isShared
    ensures SameFlags(m0, m')
  {}

  lemma EntryInside(elf: Elf, j: nat, n: nat)
    requires j < |elf.headers| && elf.InBlob(j) && elf.TableInside(j) && n < elf.EntriesNum(j)
    ensures elf.HasEntry(j, n)
  {
    hide Elf.EntriesNum;
  }

  lemma CheckedTarget(elf: Elf, keys: set<nat>, j: nat)
    requires j < |elf.headers| && CheckStatic(elf, keys, j).Ok?
    ensures elf.headers[j].info in keys
    ensures elf.headers[j].link == VPU_RT_SYMTAB ||
      (elf.headers[j].link < |elf.headers| && elf.headers[elf.headers[j].link].stype == SHT_SYMTAB)
  {}

  lemma RefusedTask(elf: Elf, c: Context, j: nat)
    requires j < |elf.headers| && CheckStatic(elf, c.addresses.Keys, j).Err?
    ensures StaticTask(elf, c, j) == Fails(CheckStatic(elf, c.addresses.Keys, j).error)
  {}

  lemma RefusedUserTask(elf: Elf, keys: set<nat>, io: UserIO, j: nat)
    requires j < |elf.headers| && CheckJit(elf, keys, j).Err?
    ensures JitTask(elf, keys, io, j) == Fails(CheckJit(elf, keys, j).error)
  {}

  lemma CheckedUserTarget(elf: Elf, keys: set<nat>, j: nat)
    requires j < |elf.headers| && CheckJit(elf, keys, j).Ok?
    ensures elf.headers[j].info in keys
  {}

  lemma SymbolsNeeded(elf: Elf, cached: set<nat>, s: nat)
    requires s < |elf.headers| && elf.headers[s].stype == SHT_SYMTAB && EarlyTables(elf, cached, |elf.headers|)
    ensures s in cached
  {
    assert NeededLater(elf, s);
  }

  lemma NoEntries(elf: Elf, s: nat)
    requires s < |elf.headers| && elf.headers[s].stype != SHT_SYMTAB
    ensures forall k: nat :: !IsEntry(elf, s, k)
  {}

  lemma NoEntriesBeyond(elf: Elf)
    ensures forall s: nat, k: nat :: s >= |elf.headers| ==> !IsEntry(elf, s, k)
  {}

  lemma EarlierEnough(elf: Elf, mem: Memory, cache: Cache, cache': Cache)
    requires CacheGrows(mem, cache, cache')
    ensures EarlyTables(elf, cache.Keys, |elf.headers|) ==> EarlyTables(elf, cache'.Keys, |elf.headers|)
  {
    hide NeededLater, CacheRegions;
    GrownKeys(mem, cache, cache');
  }

  lemma {:induction false} FirstRefusalDecides(elf: Elf, explicit: bool, k: nat, n: nat)
    requires k <= n <= |elf.headers| && RegistersOutcome(elf, explicit, k).Err?
    ensures RegistersOutcome(elf, explicit, n) == RegistersOutcome(elf, explicit, k)
  {
    hide RegisterOutcome;
    if k < n {
      FirstRefusalDecides(elf, explicit, k, n - 1);
    }
  }

  lemma {:induction false} FirstTargetDecides(elf: Elf, keys: set<nat>, indexes: seq<nat>, k: nat, n: nat)
    requires AllInFile(elf, indexes) && k <= n <= |indexes| && TargetsOutcome(elf, keys, indexes, k).Err?
    ensures TargetsOutcome(elf, keys, indexes, n) == TargetsOutcome(elf, keys, indexes, k)
  {
    hide TargetOutcome;
    if k < n {
      FirstTargetDecides(elf, keys, indexes, k, n - 1);
    }
  }

  lemma RegisteredKeys(elf: Elf, infer: BufferMap, explicit: bool, relocIndexes: seq<nat>, jitIndexes: seq<nat>,
                       scratch: seq<nat>)
    requires Registered(elf, infer, explicit, relocIndexes, jitIndexes, scratch, |elf.headers|)
    ensures infer.Keys == BufferKeys(elf, explicit)
  {
    hide IsData, IsScratch, RegisteredEntry;
  }

  lemma DataRefused(elf: Elf, registered: BufferMap, st: LoaderState, status: Status)
    requires Registered(elf, registered, st.explicit, st.relocIndexes, st.jitIndexes, st.scratch, |elf.headers|)
    requires AllInFile(elf, st.relocIndexes) && AllInFile(elf, st.jitIndexes)
    requires st.infer == Decided(elf, registered, st.relocIndexes, st.jitIndexes) && SomeDataEnds(elf, st.infer, status)
    requires HeadersOutcome(elf, st.explicit).Ok? && status.Err?
    ensures SectionsRefused(elf, st.explicit, status)
  {
    hide Targeted, IsScratch, HeadersOutcome, Unshared;
    var i :| i in st.infer && st.infer[i].hasData && i < |elf.headers| && status == elf.ReadStatus(i);
    assert i in registered && registered[i].hasData;
    assert RegisteredEntry(elf, st.explicit, registered, i);
  }

  /** What loadBuffers has to read is the data of the file. */
  lemma DataToLoad(elf: Elf, registered: BufferMap, st: LoaderState)
    requires Registered(elf, registered, st.explicit, st.relocIndexes, st.jitIndexes, st.scratch, |elf.headers|)
    requires AllInFile(elf, st.relocIndexes) && AllInFile(elf, st.jitIndexes)
    requires st.infer == Decided(elf, registered, st.relocIndexes, st.jitIndexes)
    ensures AllInBlob(elf, st.infer) <==> AllDataInBlob(elf, st.explicit)
  {
    hide Targeted, IsScratch;
    forall i | i in st.infer
      ensures i < |elf.headers| && (st.infer[i].hasData <==> IsData(elf, st.explicit, i))
    {
      assert RegisteredEntry(elf, st.explicit, registered, i);
    }
    forall i | 0 <= i < |elf.headers| && IsData(elf, st.explicit, i)
      ensures i in st.infer
    {
      assert i in registered;
    }
  }

  lemma LoadDone(elf: Elf, mem0: Memory, mem: Memory, st: LoaderState)
    requires Sound(elf, mem, st) && Settled(elf, mem0, st) && Extends(mem0, mem)
    requires AllInFile(elf, st.relocIndexes) && ScratchAllocated(elf, st)
    requires if st.scratch == [] then Relocated(elf, st).status.Ok? && ImagesOf(mem, st.infer) == Relocated(elf, st).images
      else ImagesOf(mem, st.infer) == PristineImages(elf, PrivateKeys(st.infer))
    ensures Sound(elf, mem, st.(loaded := true))
    ensures LoadPost(elf, mem0, mem, st.(loaded := true), st.runtime, st.explicit, st.symbolTypes)
  {
    hide Sound, Owned, Frozen, RunTasks, StaticTasks, IsData, IsScratch, ImagesOf, PristineImages, Pending;
    LoadedIsSound(elf, mem, st);
    assert st.(loaded := true).Ctx() == st.Ctx();
  }

  lemma LoadedAlike(elf: Elf, st: LoaderState)
    requires Classified(elf, st) && AllInFile(elf, st.relocIndexes)
    ensures Classified(elf, st.(loaded := true)) && LoadOutcome(elf, st.(loaded := true)) == LoadOutcome(elf, st)
  {
    hide IsData, IsScratch, IsTarget, RunTasks, StaticTasks;
    assert st.(loaded := true).Ctx() == st.Ctx();
  }

  lemma OnlyOwnChanged(mem0: Memory, mem1: Memory, mem2: Memory, st: LoaderState)
    requires Extends(mem0, mem1) && st.Regions() !! mem0.Keys
    requires mem1 == mem2 || ChangesOnly(mem1, mem2, st.Regions())
    ensures Extends(mem0, mem2)
  {
    hide Owned;
  }

  lemma NothingRegistered(elf: Elf, explicit: bool, cached: set<nat>)
    ensures Registered(elf, map[], explicit, [], [], [], 0) && EarlyTables(elf, cached, 0)
  {}

  lemma NotYetRegistered(elf: Elf, infer: BufferMap, explicit: bool, relocIndexes: seq<nat>, jitIndexes: seq<nat>,
                         scratch: seq<nat>, i: nat)
    requires i <= |elf.headers| && Registered(elf, infer, explicit, relocIndexes, jitIndexes, scratch, i)
    ensures i !in infer
  {
    hide RegisteredEntry, IsData, IsScratch;
  }

  lemma EntryRegistered(elf: Elf, infer: BufferMap, explicit: bool, i: nat)
    requires i in infer ==>
      if IsData(elf, explicit, i)
      then infer[i] == BufferInfo(NO_BUFFER, true, true, !elf.headers[i].Has(SHF_WRITE), false)
      else IsScratchEntry(infer, i) && infer[i].isProcessed && SectionSized(elf, infer[i].buffer, i)
    ensures i in infer ==> RegisteredEntry(elf, explicit, infer, i)
  {}

  lemma RegisteredNext(elf: Elf, infer: BufferMap, infer': BufferMap, explicit: bool, reloc: seq<nat>, reloc': seq<nat>,
                       jit: seq<nat>, jit': seq<nat>, scratch: seq<nat>, scratch': seq<nat>, i: nat)
    requires i < |elf.headers| && Registered(elf, infer, explicit, reloc, jit, scratch, i)
    requires i in infer' <==> IsData(elf, explicit, i) || IsScratch(elf, explicit, i)
    requires forall k :: k != i ==> (k in infer' <==> k in infer)
    requires forall k :: k in infer && k != i ==> infer'[k] == infer[k]
    requires i in infer' ==> RegisteredEntry(elf, explicit, infer', i)
    requires reloc' == reloc + if elf.IsRela(i) && !elf.headers[i].Has(VPU_SHF_JIT) then [i] else []
    requires jit' == jit + if elf.IsRela(i) && elf.headers[i].Has(VPU_SHF_JIT) then [i] else []
    requires scratch' == scratch + if Lacking(infer', i) then [i] else []
    ensures Registered(elf, infer', explicit, reloc', jit', scratch', i + 1)
  {
    hide IsData, IsScratch;
    forall k | k in infer'
      ensures RegisteredEntry(elf, explicit, infer', k)
    {
      if k != i { assert RegisteredEntry(elf, explicit, infer, k); }
    }
    PendingAlike(infer, infer', i);
  }

  lemma WhatLacks(infer: BufferMap, i: nat)
    ensures i !in infer || infer[i].hasData ==> !Lacking(infer, i)
    ensures IsScratchEntry(infer, i) ==> (Lacking(infer, i) <==> infer[i].buffer.cpu.None?)
  {}

  lemma {:induction false} PendingAlike(infer: BufferMap, infer': BufferMap, n: nat)
    requires forall i :: 0 <= i < n ==> Lacking(infer, i) == Lacking(infer', i)
    ensures Pending(infer', n) == Pending(infer, n)
  {
    if n > 0 { PendingAlike(infer, infer', n - 1); }
  }

  lemma EarlyTablesNext(elf: Elf, cached: set<nat>, cached': set<nat>, i: nat)
    requires i < |elf.headers| && EarlyTables(elf, cached, i) && cached <= cached'
    requires NeededLater(elf, i) ==> i in cached'
    ensures EarlyTables(elf, cached', i + 1)
  {}

  lemma RegisteredIndexes(elf: Elf, infer: BufferMap, explicit: bool, relocIndexes: seq<nat>, jitIndexes: seq<nat>,
                          scratch: seq<nat>)
    requires Registered(elf, infer, explicit, relocIndexes, jitIndexes, scratch, |elf.headers|)
    ensures AllInFile(elf, relocIndexes) && AllInFile(elf, jitIndexes)
    ensures relocIndexes == RelocSections(elf, false, |elf.headers|) && jitIndexes == RelocSections(elf, true, |elf.headers|)
  {
    assert forall k :: 0 <= k < |relocIndexes| ==> relocIndexes[k] in relocIndexes;
    assert forall k :: 0 <= k < |jitIndexes| ==> jitIndexes[k] in jitIndexes;
  }

  lemma LoadingEntry(elf: Elf, mem0: Memory, mem: Memory, st: LoaderState, todo: set<nat>, i: nat)
    requires Loading(elf, mem0, mem, st, todo) && i in todo && i in st.infer
    ensures i < |elf.headers| && (st.infer[i].hasData ==> !st.infer[i].isProcessed)
    ensures !st.infer[i].hasData ==> Loading(elf, mem0, mem, st, todo - {i})
  {
    hide RegionsSoFar;
    assert st.infer[i].hasData ==> EntryOk(elf, mem, st, todo, i);
    hide Visited, Waiting;
  }

  /** The buffer map before loadBuffers. */
  function Decided(elf: Elf, registered: BufferMap, relocIndexes: seq<nat>, jitIndexes: seq<nat>): BufferMap
    requires AllInFile(elf, relocIndexes) && AllInFile(elf, jitIndexes)
  {
    Unshared(elf, Unshared(elf, registered, relocIndexes), jitIndexes)
  }

  lemma NothingLoaded(elf: Elf, mem0: Memory, mem: Memory, registered: BufferMap, st: LoaderState)
    requires BLOB in mem0 && mem0[BLOB] == elf.blob && Extends(mem0, mem)
    requires Registered(elf, registered, st.explicit, st.relocIndexes, st.jitIndexes, st.scratch, |elf.headers|)
    requires AllInFile(elf, st.relocIndexes) && AllInFile(elf, st.jitIndexes)
    requires st.infer == Decided(elf, registered, st.relocIndexes, st.jitIndexes) && st.backup == map[]
    ensures Loading(elf, mem0, mem, st, st.infer.Keys)
    ensures forall i :: i in st.infer && !st.infer[i].hasData ==> st.infer[i].isProcessed
  {
    hide Targeted;
    forall i | i in st.infer
      ensures i < |elf.headers| && if st.infer[i].hasData || st.infer[i].isShared
              then IsData(elf, st.explicit, i) && Waiting(st.infer[i]) else st.infer[i].isProcessed
    {
      assert RegisteredEntry(elf, st.explicit, registered, i);
    }
    NoRegions(st);
    hide Owned, Frozen;
    assert RegionsSoFar(mem0, mem, st);
  }

  lemma NoRegions(st: LoaderState)
    requires st.backup == map[]
    requires forall i :: i in st.infer && (st.infer[i].hasData || st.infer[i].isShared) ==> st.infer[i].buffer.cpu.None?
    ensures st.Regions() == {} && st.ReadOnly() == {BLOB}
  {}

  /** The relocation sections of the file, all together. */
  lemma TargetsRegistered(elf: Elf, i: nat)
    requires AllInFile(elf, RelocSections(elf, false, |elf.headers|)) && AllInFile(elf, RelocSections(elf, true, |elf.headers|))
    ensures IsTarget(elf, i) <==>
      Targeted(elf, RelocSections(elf, false, |elf.headers|), i) || Targeted(elf, RelocSections(elf, true, |elf.headers|), i)
  {
    var a, b := RelocSections(elf, false, |elf.headers|), RelocSections(elf, true, |elf.headers|);
    if IsTarget(elf, i) {
      var j :| 0 <= j < |elf.headers| && elf.IsRela(j) && elf.headers[j].info == i;
      if elf.headers[j].Has(VPU_SHF_JIT) {
        assert j in b;
        var k :| 0 <= k < |b| && b[k] == j;
      } else {
        assert j in a;
        var k :| 0 <= k < |a| && a[k] == j;
      }
    }
    if Targeted(elf, a, i) {
      var k :| 0 <= k < |a| && elf.headers[a[k]].info == i;
      assert a[k] in a;
    }
    if Targeted(elf, b, i) {
      var k :| 0 <= k < |b| && elf.headers[b[k]].info == i;
      assert b[k] in b;
    }
  }

  lemma TargetIsTargeted(elf: Elf, indexes: seq<nat>, j: nat)
    requires AllInFile(elf, indexes) && j in indexes
    ensures j < |elf.headers| && Targeted(elf, indexes, elf.headers[j].info)
  {
    var k :| 0 <= k < |indexes| && indexes[k] == j;
  }

  lemma RegisteredTarget(elf: Elf, registered: BufferMap, st: LoaderState, j: nat)
    requires elf.TargetsCarryData()
    requires Registered(elf, registered, st.explicit, st.relocIndexes, st.jitIndexes, st.scratch, |elf.headers|)
    requires AllInFile(elf, st.relocIndexes) && AllInFile(elf, st.jitIndexes)
    requires SameFlags(Decided(elf, registered, st.relocIndexes, st.jitIndexes), st.infer)
    requires j in st.relocIndexes || j in st.jitIndexes
    ensures j < |elf.headers| && elf.IsRela(j) && PrivateTarget(elf, st.infer, j)
  {
    if j in st.relocIndexes { TargetIsTargeted(elf, st.relocIndexes, j); } else { TargetIsTargeted(elf, st.jitIndexes, j); }
    hide Targeted;
    var t := elf.headers[j].info;
    if t in st.infer {
      assert RegisteredEntry(elf, st.explicit, registered, t);
      assert elf.headers[t].stype == SHT_PROGBITS;
    }
  }

  /** Every registered relocation section patches a private buffer. */
  lemma LoadedPrivateTargets(elf: Elf, registered: BufferMap, st: LoaderState)
    requires elf.TargetsCarryData()
    requires Registered(elf, registered, st.explicit, st.relocIndexes, st.jitIndexes, st.scratch, |elf.headers|)
    requires AllInFile(elf, st.relocIndexes) && AllInFile(elf, st.jitIndexes)
    requires SameFlags(Decided(elf, registered, st.relocIndexes, st.jitIndexes), st.infer)
    ensures forall j :: j in st.relocIndexes || j in st.jitIndexes ==> elf.IsRela(j) && PrivateTarget(elf, st.infer, j)
    ensures forall k :: 0 <= k < |st.scratch| ==> IsScratchEntry(st.infer, st.scratch[k])
  {
    hide Targeted, IsData, IsScratch, PrivateTarget, RegisteredEntry;
    forall j | j in st.relocIndexes || j in st.jitIndexes
      ensures elf.IsRela(j) && PrivateTarget(elf, st.infer, j)
    {
      RegisteredTarget(elf, registered, st, j);
    }
    LoadedScratch(elf, registered, st);
    forall k | 0 <= k < |st.scratch|
      ensures IsScratchEntry(st.infer, st.scratch[k])
    {
      assert st.scratch[k] in st.scratch;
    }
  }

  /** Scratch entries are what they were when they were registered. */
  lemma LoadedScratch(elf: Elf, registered: BufferMap, st: LoaderState)
    requires Registered(elf, registered, st.explicit, st.relocIndexes, st.jitIndexes, st.scratch, |elf.headers|)
    requires AllInFile(elf, st.relocIndexes) && AllInFile(elf, st.jitIndexes)
    requires SameFlags(Decided(elf, registered, st.relocIndexes, st.jitIndexes), st.infer)
    ensures ScratchAllocated(elf, st)
  {
    hide Targeted, IsData, IsScratch;
    forall i | i in registered
      ensures Lacking(registered, i) == Lacking(st.infer, i)
      ensures !st.infer[i].hasData && st.infer[i].buffer.cpu.Some? ==>
        i < |elf.headers| && st.infer[i].buffer.size == elf.headers[i].size
    {
      assert RegisteredEntry(elf, st.explicit, registered, i);
    }
    hide RegisteredEntry, Lacking;
    forall i: nat | i < |elf.headers|
      ensures Lacking(registered, i) == Lacking(st.infer, i)
    {
      NothingLacks(registered, st.infer, i);
    }
    PendingAlike(registered, st.infer, |elf.headers|);
  }

  lemma NothingLacks(m: BufferMap, m': BufferMap, i: nat)
    ensures i !in m ==> !Lacking(m, i)
    ensures i !in m' ==> !Lacking(m', i)
  {}

  /** After load a buffer is shared exactly when it is read-only data that no relocation section patches. */
  lemma SharingDecided(elf: Elf, registered: BufferMap, st: LoaderState)
    requires Registered(elf, registered, st.explicit, st.relocIndexes, st.jitIndexes, st.scratch, |elf.headers|)
    requires AllInFile(elf, st.relocIndexes) && AllInFile(elf, st.jitIndexes)
    requires SameFlags(Decided(elf, registered, st.relocIndexes, st.jitIndexes), st.infer)
    ensures SharedExactly(elf, st)
    ensures forall i :: i in st.infer <==> IsData(elf, st.explicit, i) || IsScratch(elf, st.explicit, i)
    ensures forall i :: i in st.infer ==> (st.infer[i].hasData <==> IsData(elf, st.explicit, i))
  {
    hide Targeted, IsTarget;
    forall i | i in st.infer
      ensures st.infer[i].isShared <==>
        IsData(elf, st.explicit, i) && !elf.headers[i].Has(SHF_WRITE) && !IsTarget(elf, i)
      ensures st.infer[i].hasData <==> IsData(elf, st.explicit, i)
    {
      assert RegisteredEntry(elf, st.explicit, registered, i);
      TargetsRegistered(elf, i);
    }
  }

  lemma LoadedIsSound(elf: Elf, mem: Memory, st: LoaderState)
    requires Sound(elf, mem, st)
    ensures Sound(elf, mem, st.(loaded := true))
  {
    forall i | i in st.infer && st.infer[i].hasData
      ensures SoundData(elf, mem, st.(loaded := true), i)
    {
      assert SoundData(elf, mem, st, i);
    }
  }

  lemma MoreEarlyTables(elf: Elf, cached: set<nat>, cached': set<nat>)
    requires EarlyTables(elf, cached, |elf.headers|) && cached <= cached'
    ensures EarlyTables(elf, cached', |elf.headers|)
  {}

  // ---------- copies ----------

  /** The copy of a buffer map, in whatever order its entries are visited. */
  method CopyBufferMap(mgr: BufferManager, elf: Elf, src: BufferMap) returns (m: BufferMap)
    requires mgr.Valid() && forall i :: i in src && !src[i].isShared ==> i < |elf.headers|
    modifies mgr
    ensures mgr.Valid() && mgr.locked == old(mgr.locked) && Extends(old(mgr.mem), mgr.mem)
    ensures CopyOf(elf, old(mgr.mem), mgr.mem, src, m) && m.Keys == src.Keys
  {
    m := map[];
    var todo := src.Keys;
    while todo != {}
      invariant todo <= src.Keys && m.Keys == src.Keys - todo
      invariant mgr.Valid() && mgr.locked == old(mgr.locked) && Extends(old(mgr.mem), mgr.mem)
      invariant CopyOf(elf, old(mgr.mem), mgr.mem, src, m)
      decreases todo
    {
      var i :| i in todo;
      if src[i].isShared {
        m := m[i := src[i]];
      } else {
        var b := mgr.Allocate(elf.headers[i].size, !src[i].hasData);
        m := m[i := src[i].(buffer := b)];
      }
      todo := todo - {i};
    }
  }

  /** The member-wise part of the copy constructors. */
  method CopyMembers(other: VPUXLoader, runtime: seq<Symbol>) returns (clone: VPUXLoader)
    requires other.Ready()
    modifies other.mgr
    ensures fresh(clone) && clone.mgr == other.mgr && clone.reader == other.reader && clone.Ready()
    ensures Extends(old(other.mgr.mem), other.mgr.mem)
    ensures clone.State() == other.State().(infer := clone.infer, runtime := runtime)
    ensures CopyOf(other.reader.elf, old(other.mgr.mem), other.mgr.mem, other.infer, clone.infer)
    ensures clone.infer.Keys == other.infer.Keys
  {
    hide Sound, CopyOf, AllShared, CacheOk, CacheRegions, Owned, Frozen;
    var mgr, elf := other.mgr, other.reader.elf;
    ghost var mem, src, cache := mgr.mem, other.State(), other.reader.cache;
    SoundBackup(elf, mem, src);
    var infer := CopyBufferMap(mgr, elf, other.infer);
    ghost var mem1 := mgr.mem;
    var backup := CopyBufferMap(mgr, elf, other.backup);
    CopiedState(elf, mem, mem1, mgr.mem, src, infer, backup, runtime);
    CopyRegions(elf, mem, mgr.mem, src, infer);
    CacheExists(elf, mem, cache);
    CacheStays(elf, mem, mgr.mem, cache, {});
    clone := new VPUXLoader.Copy(other, infer, backup, runtime);
  }

  lemma CopiedState(elf: Elf, mem: Memory, mem1: Memory, mem2: Memory, src: LoaderState, infer: BufferMap,
                    backup: BufferMap, runtime: seq<Symbol>)
    requires Sound(elf, mem, src) && Extends(mem, mem1) && Extends(mem1, mem2)
    requires CopyOf(elf, mem, mem1, src.infer, infer) && infer.Keys == src.infer.Keys
    requires CopyOf(elf, mem1, mem2, src.backup, backup) && backup.Keys == src.backup.Keys
    ensures backup == src.backup && CopyOf(elf, mem, mem2, src.infer, infer)
    ensures Sound(elf, mem2, src.(infer := infer, runtime := runtime))
  {
    hide Sound, CopyOf, AllShared;
    SoundBackup(elf, mem, src);
    SharedCopy(elf, mem1, mem2, src.backup, backup);
    CopyStays(elf, mem, mem1, mem2, src.infer, infer);
    CopyIsSound(elf, mem, mem2, src, infer, runtime);
  }

  /** The copy constructors: a loader on the same file, with its own private buffers, relocated anew for their
      addresses. It throws exactly if that relocation does. When all tables were read at load time, the access
      manager is not needed. */
  method Clone(other: VPUXLoader, runtime: seq<Symbol>) returns (status: Status, clone: VPUXLoader)
    requires other.Ready() && other.loaded
    modifies other.mgr, other.reader
    ensures other.Ready() && other.State() == old(other.State())
    ensures fresh(clone) && clone.mgr == other.mgr && clone.reader == other.reader && clone.Ready()
    ensures Extends(old(other.mgr.mem), other.mgr.mem)
    ensures clone.State() == other.State().(infer := clone.infer, runtime := runtime) && SameSharing(other.infer, clone.infer)
    ensures AllInFile(other.reader.elf, clone.relocIndexes) && status == Relocated(other.reader.elf, clone.State()).status
    ensures status.Ok? ==>
      clone.loaded &&
      ClonePost(other.reader.elf, old(other.mgr.mem), other.mgr.mem, other.State(), clone.State(), runtime)
    ensures CacheGrows(old(other.mgr.mem), old(other.reader.cache), other.reader.cache)
    ensures status.Ok? ==> TablesCached(other.reader.elf, other.reader.cache.Keys, other.relocIndexes)
    ensures TablesCached(other.reader.elf, old(other.reader.cache.Keys), other.relocIndexes) ==>
      other.reader.accesses == old(other.reader.accesses)
  {
    hide Owned, Frozen, Sound, RunTasks, StaticTasks, CopyOf, LinkCached, ImagesOf, CacheOk, CacheRegions, CacheGrows, TablesCached;
    var mgr, elf := other.mgr, other.reader.elf;
    ghost var mem, src, cache := mgr.mem, other.State(), other.reader.cache;
    clone := CopyMembers(other, runtime);
    ghost var copied := mgr.mem;
    ghost var st := clone.State();
    CopyRegions(elf, mem, copied, src, clone.infer);
    ReadyIndexes(elf, copied, st);
    clone.ReloadNewBuffers();
    ghost var reloaded := mgr.mem;
    status := clone.ApplyRelocations();
    assert clone.State() == st && ChangesOnly(copied, mgr.mem, st.Regions());
    assert Extends(mem, mgr.mem);
    CacheGrowsSince(mem, reloaded, cache, other.reader.cache);
    GrownIsReady(elf, mem, mgr.mem, src, cache, other.reader.cache);
    CopyFlags(elf, mem, copied, src.infer, clone.infer);
  }

  lemma CopyFlags(elf: Elf, mem: Memory, mem': Memory, src: BufferMap, m: BufferMap)
    requires CopyOf(elf, mem, mem', src, m) && m.Keys == src.Keys
    ensures SameSharing(src, m)
  {
    hide Injective;
  }

  lemma SoundBackup(elf: Elf, mem: Memory, st: LoaderState)
    requires Sound(elf, mem, st)
    ensures AllShared(st.backup) && forall i :: i in st.infer ==> i < |elf.headers|
    ensures forall i :: i in st.backup ==> st.backup[i].isShared
  {}

  lemma CopyStays(elf: Elf, mem: Memory, mem1: Memory, mem2: Memory, src: BufferMap, m: BufferMap)
    requires CopyOf(elf, mem, mem1, src, m) && Extends(mem1, mem2)
    ensures CopyOf(elf, mem, mem2, src, m)
  {
    hide Injective;
  }

  lemma ReadyIndexes(elf: Elf, mem: Memory, st: LoaderState)
    requires Sound(elf, mem, st)
    ensures AllInFile(elf, st.relocIndexes) && AllInFile(elf, st.jitIndexes)
  {}

  lemma MoreTables(elf: Elf, cached: set<nat>, cached': set<nat>, j: nat)
    requires cached <= cached' && j < |elf.headers|
    ensures LinkCached(elf, cached, j) ==> LinkCached(elf, cached', j)
  {}

  lemma SamePrivateImages(elf: Elf, mem: Memory, st: LoaderState)
    requires Sound(elf, mem, st)
    requires forall i :: i in st.infer && st.infer[i].IsPrivate() ==>
      i in ImagesOf(mem, st.infer) && i < |elf.headers| && elf.InBlob(i) && ImagesOf(mem, st.infer)[i] == elf.Pristine(i)
    ensures ImagesOf(mem, st.infer) == PristineImages(elf, PrivateKeys(st.infer))
  {
    hide Sound;
  }
}
