/** What the loader's soundness says about the memory regions it uses. */
module LoaderFacts {
  import opened Bytes
  import opened ElfFile
  import opened LoaderModel

  lemma OwnedRegion(m: BufferMap, i: nat)
    requires i in m && m[i].IsPrivate() && m[i].buffer.cpu.Some?
    ensures m[i].buffer.cpu.value.region in Owned(m)
  {
    assert i in PrivateKeys(m);
  }

  lemma SharedRegion(infer: BufferMap, backup: BufferMap, i: nat)
    requires i in infer && infer[i].isShared && infer[i].buffer.cpu.Some?
    ensures infer[i].buffer.cpu.value.region in Frozen(infer, backup)
  {
    assert i in SharedKeys(infer);
  }

  lemma BackupRegion(infer: BufferMap, backup: BufferMap, i: nat)
    requires i in backup && backup[i].buffer.cpu.Some?
    ensures backup[i].buffer.cpu.value.region in Frozen(infer, backup)
  {}

  ghost predicate SameRegions(mem: Memory, mem': Memory, st: LoaderState) {
    forall r :: r in mem && (r in st.Regions() || r in st.ReadOnly()) ==> r in mem' && mem'[r] == mem[r]
  }

  lemma SoundDataStays(elf: Elf, mem: Memory, mem': Memory, st: LoaderState, i: nat)
    requires i in st.infer && st.infer[i].hasData && SoundData(elf, mem, st, i) && SameRegions(mem, mem', st)
    ensures SoundData(elf, mem', st, i)
    ensures st.infer[i].IsPrivate() ==> mem'[st.infer[i].buffer.cpu.value.region] == mem[st.infer[i].buffer.cpu.value.region]
  {
    if st.infer[i].isShared {
      SharedRegion(st.infer, st.backup, i);
    } else {
      OwnedRegion(st.infer, i);
      BackupRegion(st.infer, st.backup, i);
    }
  }

  /** A loader whose own and read-only regions are unchanged is as good as before. */
  lemma Untouched(elf: Elf, mem: Memory, mem': Memory, st: LoaderState)
    requires Sound(elf, mem, st) && SameRegions(mem, mem', st)
    ensures Sound(elf, mem', st) && ImagesOf(mem', st.infer) == ImagesOf(mem, st.infer)
  {
    hide Owned, Frozen, SoundData, Injective, PrivateKeys, IsScratchEntry, PrivateTarget, AllInFile;
    forall i | i in st.infer && st.infer[i].hasData
      ensures SoundData(elf, mem', st, i)
      ensures st.infer[i].IsPrivate() ==> WholeRegion(mem, st.infer[i].buffer) && WholeRegion(mem', st.infer[i].buffer)
      ensures st.infer[i].IsPrivate() ==> mem'[st.infer[i].buffer.cpu.value.region] == mem[st.infer[i].buffer.cpu.value.region]
    {
      SoundDataStays(elf, mem, mem', st, i);
      PrivateIsWhole(elf, mem, st, i);
      PrivateIsWhole(elf, mem', st, i);
    }
    BlobIsReadOnly(st);
    assert ImagesOf(mem', st.infer) == ImagesOf(mem, st.infer);
  }

  lemma PrivateBuffer(elf: Elf, mem: Memory, st: LoaderState, i: nat)
    requires Sound(elf, mem, st) && i in st.infer && st.infer[i].IsPrivate()
    ensures WholeRegion(mem, st.infer[i].buffer) && st.infer[i].managed && i in PrivateKeys(st.infer)
    ensures i < |elf.headers| && elf.InBlob(i) && st.infer[i].buffer.size == |elf.Pristine(i)|
    ensures st.infer[i].buffer.cpu.value.region !in st.ReadOnly()
    ensures i in st.backup && Placed(mem, st.backup[i].buffer) && BytesOf(mem, st.backup[i].buffer) == elf.Pristine(i)
    ensures st.backup[i].buffer.cpu.value.region in st.ReadOnly()
  {
    assert SoundData(elf, mem, st, i);
    OwnedRegion(st.infer, i);
    BackupRegion(st.infer, st.backup, i);
    hide SoundData, Injective, PrivateTarget, IsScratchEntry, Owned, Frozen;
  }

  lemma PrivateIsWhole(elf: Elf, mem: Memory, st: LoaderState, i: nat)
    requires i in st.infer && SoundData(elf, mem, st, i)
    ensures st.infer[i].IsPrivate() ==> WholeRegion(mem, st.infer[i].buffer)
  {}

  lemma BlobIsReadOnly(st: LoaderState)
    ensures BLOB in st.ReadOnly()
  {}

  /** The regions a sound loader uses exist. */
  lemma RegionsExist(elf: Elf, mem: Memory, st: LoaderState)
    requires Sound(elf, mem, st)
    ensures st.Regions() <= mem.Keys && st.ReadOnly() <= mem.Keys
  {
    forall r | r in st.Regions()
      ensures r in mem
    {
      var i :| i in st.infer && i in PrivateKeys(st.infer) && st.infer[i].buffer.cpu.Some?
                && st.infer[i].buffer.cpu.value.region == r;
      assert SoundData(elf, mem, st, i);
    }
  }

  lemma SoundIsDisjoint(elf: Elf, mem: Memory, st: LoaderState)
    requires Sound(elf, mem, st)
    ensures st.Regions() !! st.ReadOnly()
  {}

  /** Two maps with the same data and shared entries, and the same flags elsewhere. */
  ghost predicate SameData(m: BufferMap, m': BufferMap) {
    m'.Keys == m.Keys && forall i :: i in m ==>
      m'[i].hasData == m[i].hasData && m'[i].isShared == m[i].isShared &&
      (m[i].hasData || m[i].isShared ==> m'[i] == m[i])
  }

  lemma SameDataSameRegions(m: BufferMap, m': BufferMap, backup: BufferMap)
    requires SameData(m, m')
    ensures PrivateKeys(m') == PrivateKeys(m) && Owned(m') == Owned(m) && Frozen(m', backup) == Frozen(m, backup)
  {
    assert PrivateKeys(m') == PrivateKeys(m) && SharedKeys(m') == SharedKeys(m);
    SameEntriesSameRegions(m, m', PrivateKeys(m));
    SameEntriesSameRegions(m, m', SharedKeys(m));
    hide RegionsOf, PrivateKeys, SharedKeys;
  }

  lemma SameEntriesSameRegions(m: BufferMap, m': BufferMap, keys: set<nat>)
    requires m'.Keys == m.Keys && forall i :: i in m && i in keys ==> m'[i] == m[i]
    ensures RegionsOf(m', keys) == RegionsOf(m, keys)
  {}

  lemma SoundScratch(elf: Elf, mem: Memory, st: LoaderState)
    requires Sound(elf, mem, st)
    ensures forall k :: 0 <= k < |st.scratch| ==> IsScratchEntry(st.infer, st.scratch[k])
  {}

  /** Replacing scratch buffers leaves the private and the shared buffers as they were. */
  lemma ScratchIsNotData(elf: Elf, mem: Memory, st: LoaderState, buffers: seq<DeviceBuffer>)
    requires Sound(elf, mem, st) && |st.scratch| == |buffers|
    ensures var infer' := WithScratch(st.infer, st.scratch, buffers);
      SameData(st.infer, infer') && PrivateKeys(infer') == PrivateKeys(st.infer) && Owned(infer') == Owned(st.infer) &&
      Frozen(infer', st.backup) == Frozen(st.infer, st.backup)
  {
    var infer' := WithScratch(st.infer, st.scratch, buffers);
    SoundScratch(elf, mem, st);
    hide Owned, Frozen, WithScratch, Sound, PrivateKeys;
    assert SameData(st.infer, infer');
    SameDataSameRegions(st.infer, infer', st.backup);
  }

  /** Replacing the image of one private buffer. */
  lemma PrivateWrite(elf: Elf, mem: Memory, st: LoaderState, i: nat, image: seq<byte>)
    requires Sound(elf, mem, st) && i in PrivateKeys(st.infer) && |image| == st.infer[i].buffer.size
    ensures WholeRegion(mem, st.infer[i].buffer) && st.infer[i].managed
    ensures i in ImagesOf(mem, st.infer) && ImagesOf(mem, st.infer)[i] == mem[st.infer[i].buffer.cpu.value.region]
    ensures var mem' := mem[st.infer[i].buffer.cpu.value.region := image];
      Sound(elf, mem', st) && ImagesOf(mem', st.infer) == ImagesOf(mem, st.infer)[i := image] &&
      ChangesOnly(mem, mem', st.Regions())
  {
    assert SoundData(elf, mem, st, i);
    var r := st.infer[i].buffer.cpu.value.region;
    var mem' := mem[r := image];
    OwnedRegion(st.infer, i);
    BlobIsReadOnly(st);
    forall k | k in st.infer && st.infer[k].hasData
      ensures SoundData(elf, mem', st, k)
    {
      PrivateWriteElsewhere(elf, mem, st, i, image, k);
    }
    hide Owned, Frozen;
    assert Sound(elf, mem', st);
    forall k | k in PrivateKeys(st.infer)
      ensures WholeRegion(mem, st.infer[k].buffer) && WholeRegion(mem', st.infer[k].buffer)
      ensures k != i ==> st.infer[k].buffer.cpu.value.region != r
    {
      assert SoundData(elf, mem, st, k);
      assert SoundData(elf, mem', st, k);
    }
    assert ImagesOf(mem', st.infer) == ImagesOf(mem, st.infer)[i := image];
  }

  lemma PrivateWriteElsewhere(elf: Elf, mem: Memory, st: LoaderState, i: nat, image: seq<byte>, k: nat)
    requires Sound(elf, mem, st) && i in PrivateKeys(st.infer) && |image| == st.infer[i].buffer.size
    requires WholeRegion(mem, st.infer[i].buffer) && k in st.infer && st.infer[k].hasData
    ensures SoundData(elf, mem[st.infer[i].buffer.cpu.value.region := image], st, k)
  {
    hide Injective, PrivateTarget, IsScratchEntry;
    assert SoundData(elf, mem, st, k);
    OwnedRegion(st.infer, i);
    if st.infer[k].isShared {
      SharedRegion(st.infer, st.backup, k);
    } else {
      BackupRegion(st.infer, st.backup, k);
    }
  }

  /** Soundness and images depend only on the data and shared entries of the buffer map. */
  lemma SameDataSound(elf: Elf, mem: Memory, st: LoaderState, infer': BufferMap)
    requires Sound(elf, mem, st) && SameData(st.infer, infer')
    ensures Sound(elf, mem, st.(infer := infer')) && ImagesOf(mem, infer') == ImagesOf(mem, st.infer)
  {
    var st' := st.(infer := infer');
    SameDataSameRegions(st.infer, infer', st.backup);
    hide Owned, Frozen, PrivateKeys, Placed, BytesOf;
    forall i | i in infer' && infer'[i].hasData
      ensures SoundData(elf, mem, st', i)
    {
      assert SoundData(elf, mem, st, i);
    }
    assert Injective(infer');
    hide Injective, SoundData, WholeRegion;
    forall j | j in st.relocIndexes || j in st.jitIndexes
      ensures PrivateTarget(elf, infer', j)
    {
      assert PrivateTarget(elf, st.infer, j);
    }
    assert ImagesOf(mem, infer') == ImagesOf(mem, st.infer);
  }

  /** The state after scratch buffers were replaced is sound, with the same images. */
  lemma ScratchKeepsSound(elf: Elf, mem: Memory, st: LoaderState, buffers: seq<DeviceBuffer>)
    requires Sound(elf, mem, st) && |st.scratch| == |buffers|
    ensures var st' := st.(infer := WithScratch(st.infer, st.scratch, buffers));
      Sound(elf, mem, st') && ImagesOf(mem, st'.infer) == ImagesOf(mem, st.infer) && st'.Regions() == st.Regions()
  {
    hide Owned, Frozen, WithScratch, PrivateKeys, SoundData, Injective;
    ScratchIsNotData(elf, mem, st, buffers);
    SameDataSound(elf, mem, st, WithScratch(st.infer, st.scratch, buffers));
  }

  // ---------- copies ----------

  /** A copy of a buffer map: shared buffers are the same buffers, the others have new regions of their own. */
  ghost predicate CopyOf(elf: Elf, mem: Memory, mem': Memory, src: BufferMap, m: BufferMap) {
    m.Keys <= src.Keys && Injective(m) && forall i :: i in m ==>
      (if src[i].isShared then m[i] == src[i] else m[i].(buffer := src[i].buffer) == src[i]) &&
      (m[i].IsPrivate() ==>
        i < |elf.headers| && WholeRegion(mem', m[i].buffer) && m[i].buffer.size == elf.headers[i].size &&
        m[i].buffer.cpu.value.region !in mem)
  }

  lemma CopyRegions(elf: Elf, mem: Memory, mem': Memory, src: LoaderState, m: BufferMap)
    requires CopyOf(elf, mem, mem', src.infer, m) && m.Keys == src.infer.Keys
    ensures Owned(m) !! mem.Keys && Frozen(m, src.backup) == Frozen(src.infer, src.backup)
    ensures PrivateKeys(m) == PrivateKeys(src.infer)
  {
    hide Injective, WholeRegion;
    assert SharedKeys(m) == SharedKeys(src.infer);
    SameEntriesSameRegions(src.infer, m, SharedKeys(m));
    forall r | r in Owned(m)
      ensures r !in mem
    {
      var i :| i in m && i in PrivateKeys(m) && m[i].buffer.cpu.Some? && m[i].buffer.cpu.value.region == r;
    }
  }

  /** A copy of a sound loader, with any runtime symbols, is sound before anything is copied into its buffers. */
  lemma CopyIsSound(elf: Elf, mem: Memory, mem': Memory, src: LoaderState, m: BufferMap, runtime: seq<Symbol>)
    requires Sound(elf, mem, src) && Extends(mem, mem')
    requires CopyOf(elf, mem, mem', src.infer, m) && m.Keys == src.infer.Keys
    ensures Sound(elf, mem', src.(infer := m, runtime := runtime))
  {
    var st := src.(infer := m, runtime := runtime);
    CopyRegions(elf, mem, mem', src, m);
    RegionsExist(elf, mem, src);
    hide Owned, Frozen, PrivateKeys, Injective;
    forall i | i in m && m[i].hasData
      ensures SoundData(elf, mem', st, i)
    {
      CopiedData(elf, mem, mem', src, m, runtime, i);
    }
    hide SoundData;
    forall j | j in st.relocIndexes || j in st.jitIndexes
      ensures PrivateTarget(elf, m, j)
    {
      assert PrivateTarget(elf, src.infer, j);
    }
    forall k | 0 <= k < |st.scratch|
      ensures IsScratchEntry(m, st.scratch[k])
    {
      assert IsScratchEntry(src.infer, st.scratch[k]);
    }
  }

  lemma CopiedData(elf: Elf, mem: Memory, mem': Memory, src: LoaderState, m: BufferMap, runtime: seq<Symbol>, i: nat)
    requires Sound(elf, mem, src) && Extends(mem, mem')
    requires CopyOf(elf, mem, mem', src.infer, m) && m.Keys == src.infer.Keys && i in m && m[i].hasData
    ensures SoundData(elf, mem', src.(infer := m, runtime := runtime), i)
  {
    assert SoundData(elf, mem, src, i);
    hide Injective, PrivateTarget, IsScratchEntry;
  }

  /** A map of shared buffers is copied as it is. */
  lemma SharedCopy(elf: Elf, mem: Memory, mem': Memory, src: BufferMap, m: BufferMap)
    requires CopyOf(elf, mem, mem', src, m) && m.Keys == src.Keys && AllShared(src)
    ensures m == src
  {
    hide Injective;
  }

  // ---------- the reader's cache ----------

  /** Writes elsewhere and new memory leave what is cached as it was. */
  lemma CacheStays(elf: Elf, mem: Memory, mem': Memory, cache: Cache, regions: set<nat>)
    requires CacheOk(elf, mem, cache) && ChangesOnly(mem, mem', regions) && regions !! CacheRegions(cache)
    ensures CacheOk(elf, mem', cache)
  {
    forall i | i in cache
      ensures CachedRight(elf, mem', i, cache[i])
    {
      assert CachedRight(elf, mem, i, cache[i]);
      assert cache[i].cpu.value.region in CacheRegions(cache);
    }
  }

  lemma CacheExists(elf: Elf, mem: Memory, cache: Cache)
    requires CacheOk(elf, mem, cache)
    ensures CacheRegions(cache) <= mem.Keys
  {
    forall r | r in CacheRegions(cache)
      ensures r in mem
    {
      var i :| i in cache && cache[i].cpu.Some? && cache[i].cpu.value.region == r;
      assert CachedRight(elf, mem, i, cache[i]);
    }
  }

  lemma NewInCache(elf: Elf, mem: Memory, mem': Memory, cache: Cache, i: nat, b: DeviceBuffer)
    requires CacheOk(elf, mem, cache) && Extends(mem, mem') && i !in cache && CachedRight(elf, mem', i, b)
    requires b.cpu.value.region == BLOB || b.cpu.value.region !in mem
    ensures CacheOk(elf, mem', cache[i := b]) && CacheGrows(mem, cache, cache[i := b])
  {
    var cache' := cache[i := b];
    CacheStays(elf, mem, mem', cache, {});
    hide CachedRight;
    forall r | r in CacheRegions(cache')
      ensures r in CacheRegions(cache) || r == BLOB || r !in mem
    {
      var k :| k in cache' && cache'[k].cpu.Some? && cache'[k].cpu.value.region == r;
      if k != i { assert cache[k] == cache'[k]; }
    }
  }

  lemma NothingCached(mem: Memory, cache: Cache)
    ensures CacheGrows(mem, cache, cache)
  {}

  lemma CacheGrowsTwice(mem: Memory, mem': Memory, a: Cache, b: Cache, c: Cache)
    requires CacheGrows(mem, a, b) && CacheGrows(mem', b, c) && mem.Keys <= mem'.Keys
    ensures CacheGrows(mem, a, c)
  {
    hide CacheRegions;
  }

  /** What a reader adds to its cache is nobody's own. */
  lemma StillApart(elf: Elf, mem: Memory, st: LoaderState, cache: Cache, cache': Cache)
    requires Sound(elf, mem, st) && st.Regions() !! CacheRegions(cache) && CacheGrows(mem, cache, cache')
    ensures st.Regions() !! CacheRegions(cache')
  {
    RegionsExist(elf, mem, st);
    SoundIsDisjoint(elf, mem, st);
    BlobIsReadOnly(st);
    hide Owned, Frozen, CacheRegions, Sound;
  }

  lemma CacheGrowsSince(mem: Memory, mem': Memory, cache: Cache, cache': Cache)
    requires CacheGrows(mem', cache, cache') && mem.Keys <= mem'.Keys
    ensures CacheGrows(mem, cache, cache')
  {
    hide CacheRegions;
  }

  lemma GrownKeys(mem: Memory, cache: Cache, cache': Cache)
    requires CacheGrows(mem, cache, cache')
    ensures cache.Keys <= cache'.Keys
  {
    hide CacheRegions;
  }

  /** A loader stays ready while its reader reads. */
  lemma GrownIsReady(elf: Elf, mem: Memory, mem': Memory, st: LoaderState, cache: Cache, cache': Cache)
    requires Sound(elf, mem, st) && st.Regions() !! CacheRegions(cache)
    requires Extends(mem, mem') && CacheGrows(mem, cache, cache')
    ensures Sound(elf, mem', st) && ImagesOf(mem', st.infer) == ImagesOf(mem, st.infer)
    ensures st.Regions() !! CacheRegions(cache')
  {
    StillApart(elf, mem, st, cache, cache');
    RegionsExist(elf, mem, st);
    hide Sound, ImagesOf, Owned, Frozen, CacheRegions, CacheGrows;
    Untouched(elf, mem, mem', st);
  }

  /** Every JIT relocation section and the symbol table it links to are among the tables that load reads early. */
  lemma JitTablesCached(elf: Elf, cached: set<nat>)
    requires EarlyTables(elf, cached, |elf.headers|)
    ensures TablesCached(elf, cached, RelocSections(elf, true, |elf.headers|))
  {}

  // ---------- when the search for the entry point succeeds ----------

  /** Every symbol of table s can be read, and none of them marks the entry point. */
  predicate PassedOver(elf: Elf, s: nat)
    requires s < |elf.headers|
  {
    elf.headers[s].stype == SHT_SYMTAB ==>
      elf.headers[s].entsize != 0 && elf.InBlob(s) &&
      forall k :: 0 <= k < elf.EntriesNum(s) ==> elf.HasEntry(s, k) && !IsEntry(elf, s, k)
  }

  /** Symbol k of table s is the first entry symbol from section s0 on, and nothing before it stops the search. */
  predicate Reached(elf: Elf, s0: nat, s: nat, k: nat) {
    s0 <= s < |elf.headers| && IsEntry(elf, s, k) && (forall k' :: 0 <= k' < k ==> !IsEntry(elf, s, k')) &&
    forall s' :: s0 <= s' < s ==> PassedOver(elf, s')
  }

  lemma SearchInTable(elf: Elf, s: nat, k: nat)
    requires s < |elf.headers| && elf.headers[s].stype == SHT_SYMTAB
    ensures EntryIn(elf, s, k).Missing?
      <==> forall k' :: k <= k' < elf.EntriesNum(s) ==> elf.HasEntry(s, k') && !IsEntry(elf, s, k')
    ensures forall n: nat :: k <= n ==>
      (EntryIn(elf, s, k) == Found(n) <==> IsEntry(elf, s, n) && forall k' :: k <= k' < n ==> !IsEntry(elf, s, k'))
  {
    hide Elf.EntriesNum, Elf.HasEntry, EntryIn, IsEntry;
    SearchMissing(elf, s, k);
    forall n: nat | k <= n
      ensures EntryIn(elf, s, k) == Found(n) <==> IsEntry(elf, s, n) && NoEntryBetween(elf, s, k, n)
    {
      SearchFinds(elf, s, k, n);
    }
  }

  /** Every symbol from the k-th on can be read and marks no entry point. */
  predicate NoEntryFrom(elf: Elf, s: nat, k: nat)
    requires s < |elf.headers|
  {
    forall k' :: k <= k' < elf.EntriesNum(s) ==> elf.HasEntry(s, k') && !IsEntry(elf, s, k')
  }

  predicate NoEntryBetween(elf: Elf, s: nat, k: nat, n: nat) {
    forall k' :: k <= k' < n ==> !IsEntry(elf, s, k')
  }

  lemma NextEntries(elf: Elf, s: nat, k: nat, n: nat)
    requires s < |elf.headers|
    ensures NoEntryFrom(elf, s, k) <==>
      (k < elf.EntriesNum(s) ==> elf.HasEntry(s, k) && !IsEntry(elf, s, k) && NoEntryFrom(elf, s, k + 1))
    ensures k < n ==> (NoEntryBetween(elf, s, k, n) <==> !IsEntry(elf, s, k) && NoEntryBetween(elf, s, k + 1, n))
  {
    hide Elf.EntriesNum, Elf.HasEntry, IsEntry;
  }

  lemma {:induction false} SearchMissing(elf: Elf, s: nat, k: nat)
    requires s < |elf.headers| && elf.headers[s].stype == SHT_SYMTAB
    ensures EntryIn(elf, s, k).Missing? <==> NoEntryFrom(elf, s, k)
    decreases elf.EntriesNum(s) - k
  {
    SearchStep(elf, s, k);
    NextEntries(elf, s, k, k);
    hide Elf.EntriesNum, Elf.HasEntry, EntryIn, IsEntry, NoEntryFrom;
    if k < elf.EntriesNum(s) && elf.HasEntry(s, k) && !IsEntry(elf, s, k) {
      SearchMissing(elf, s, k + 1);
    }
  }

  lemma {:induction false} SearchFinds(elf: Elf, s: nat, k: nat, n: nat)
    requires s < |elf.headers| && elf.headers[s].stype == SHT_SYMTAB && k <= n
    ensures EntryIn(elf, s, k) == Found(n) <==> IsEntry(elf, s, n) && NoEntryBetween(elf, s, k, n)
    decreases n - k
  {
    SearchStep(elf, s, k);
    NextEntries(elf, s, k, n);
    EntriesAreInside(elf, s, k, n);
    hide Elf.EntriesNum, Elf.HasEntry, EntryIn, IsEntry, NoEntryBetween;
    if k < n && k < elf.EntriesNum(s) && elf.HasEntry(s, k) && !IsEntry(elf, s, k) {
      SearchFinds(elf, s, k + 1, n);
    }
  }

  lemma SearchStep(elf: Elf, s: nat, k: nat)
    requires s < |elf.headers| && elf.headers[s].stype == SHT_SYMTAB
    ensures EntryIn(elf, s, k) ==
      if k >= elf.EntriesNum(s) then Missing
      else if !elf.HasEntry(s, k) then Beyond
      else if IsEntry(elf, s, k) then Found(k)
      else EntryIn(elf, s, k + 1)
    ensures EntryIn(elf, s, k).Found? ==> k <= EntryIn(elf, s, k).k
  {
    hide Elf.EntriesNum, Elf.SymbolAt, Elf.HasEntry;
  }

  /** Behind the end of a table, or behind what can be read, there is no entry symbol. */
  lemma EntriesAreInside(elf: Elf, s: nat, k: nat, n: nat)
    requires s < |elf.headers| && k <= n
    ensures k >= elf.EntriesNum(s) || !elf.HasEntry(s, k) ==> !IsEntry(elf, s, n)
    ensures NoEntryBetween(elf, s, n, n)
  {
    hide Elf.EntriesNum, Elf.SymbolAt;
  }

  predicate FirstIn(elf: Elf, s: nat, k: nat) {
    IsEntry(elf, s, k) && forall k' :: 0 <= k' < k ==> !IsEntry(elf, s, k')
  }

  /** The section that the entry symbol refers to has a buffer. */
  predicate HasBuffer(elf: Elf, keys: set<nat>, s: nat, k: nat) {
    IsEntry(elf, s, k) && elf.SymbolAt(s, k).shndx in keys
  }

  ghost predicate FoundIn(elf: Elf, keys: set<nat>, s: nat) {
    exists k: nat :: FirstIn(elf, s, k) && HasBuffer(elf, keys, s, k)
  }

  ghost predicate FoundFrom(elf: Elf, keys: set<nat>, s0: nat) {
    exists s: nat, k: nat :: Reached(elf, s0, s, k) && HasBuffer(elf, keys, s, k)
  }

  /** getEntry succeeds exactly if some entry symbol is reached and its section has a buffer. */
  lemma {:induction false} EntryFoundExactly(elf: Elf, keys: set<nat>, s0: nat)
    ensures EntryOutcome(elf, keys, s0).Ok? <==> FoundFrom(elf, keys, s0)
    decreases |elf.headers| - s0
  {
    hide FoundFrom, FoundIn, PassedOver, EntryIn;
    if s0 < |elf.headers| {
      EntryFoundExactly(elf, keys, s0 + 1);
      HereOrLater(elf, keys, s0);
      FoundHere(elf, keys, s0);
    } else {
      NothingFound(elf, keys, s0);
    }
  }

  lemma NothingFound(elf: Elf, keys: set<nat>, s0: nat)
    requires s0 >= |elf.headers|
    ensures !FoundFrom(elf, keys, s0)
  {}

  lemma HereOrLater(elf: Elf, keys: set<nat>, s0: nat)
    requires s0 < |elf.headers|
    ensures FoundFrom(elf, keys, s0) <==> FoundIn(elf, keys, s0) || (PassedOver(elf, s0) && FoundFrom(elf, keys, s0 + 1))
  {
    hide Reached, PassedOver, HasBuffer, FirstIn;
    FirstTableDecides(elf, s0, s0 + 1);
    FirstIsReached(elf, s0);
    if FoundFrom(elf, keys, s0) {
      var s: nat, k: nat :| Reached(elf, s0, s, k) && HasBuffer(elf, keys, s, k);
      NotBefore(elf, s0, s, k);
    }
  }

  lemma NotBefore(elf: Elf, s0: nat, s: nat, k: nat)
    requires Reached(elf, s0, s, k)
    ensures s0 <= s
  {}

  lemma FirstIsReached(elf: Elf, s: nat)
    ensures forall k: nat :: FirstIn(elf, s, k) <==> Reached(elf, s, s, k)
  {
    hide PassedOver;
  }

  lemma FoundHere(elf: Elf, keys: set<nat>, s: nat)
    requires s < |elf.headers|
    ensures EntryOutcome(elf, keys, s).Ok?
      <==> FoundIn(elf, keys, s) || (PassedOver(elf, s) && EntryOutcome(elf, keys, s + 1).Ok?)
  {
    hide Elf.EntriesNum, Elf.SymbolAt;
    if elf.headers[s].stype == SHT_SYMTAB {
      SearchInTable(elf, s, 0);
      hide EntryIn;
      NoTableNoEntry(elf, s);
      if EntryIn(elf, s, 0).Found? { assert FirstIn(elf, s, EntryIn(elf, s, 0).k); }
      forall k: nat | FirstIn(elf, s, k) ensures EntryIn(elf, s, 0) == Found(k) {}
    }
  }

  lemma NoTableNoEntry(elf: Elf, s: nat)
    requires s < |elf.headers|
    ensures elf.headers[s].entsize == 0 || !elf.InBlob(s) ==> forall k: nat :: !IsEntry(elf, s, k)
  {}

  lemma FirstTableDecides(elf: Elf, s0: nat, next: nat)
    requires s0 < |elf.headers| && next == s0 + 1
    ensures forall s: nat, k: nat :: Reached(elf, next, s, k) ==> s > s0
    ensures forall s: nat, k: nat :: s > s0 ==> (Reached(elf, s0, s, k) <==> PassedOver(elf, s0) && Reached(elf, next, s, k))
  {
    hide PassedOver, IsEntry;
  }
}
