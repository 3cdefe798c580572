/** What holds while loadBuffers visits the buffer map, one entry at a time and in any order. */
module LoadingFacts {
  import opened LoaderModel
  import opened LoaderFacts

  /** A data entry that loadBuffers has not visited. */
  predicate Waiting(b: BufferInfo) {
    b.hasData && !b.isProcessed && b.buffer.cpu.None?
  }

  /** A data entry that loadBuffers has visited: a private one holds a copy of the file's bytes. */
  ghost predicate Visited(elf: Elf, mem: Memory, st: LoaderState, i: nat)
    requires i in st.infer
  {
    SoundData(elf, mem, st, i) &&
    (st.infer[i].IsPrivate() ==> mem[st.infer[i].buffer.cpu.value.region] == elf.Pristine(i))
  }

  /** The regions in use so far: private ones are new, read-only ones are new or the file. */
  ghost predicate RegionsSoFar(mem0: Memory, mem: Memory, st: LoaderState) {
    Injective(st.infer) && st.Regions() !! st.ReadOnly() && st.Regions() !! mem0.Keys && st.Regions() <= mem.Keys &&
    st.ReadOnly() <= mem.Keys && st.ReadOnly() * mem0.Keys <= {BLOB}
  }

  ghost predicate EntryOk(elf: Elf, mem: Memory, st: LoaderState, todo: set<nat>, i: nat)
    requires i in st.infer
  {
    if i in todo then Waiting(st.infer[i]) && i !in st.backup && IsData(elf, st.explicit, i) else Visited(elf, mem, st, i)
  }

  ghost predicate Loading(elf: Elf, mem0: Memory, mem: Memory, st: LoaderState, todo: set<nat>) {
    BLOB in mem0 && mem0[BLOB] == elf.blob && Extends(mem0, mem) && RegionsSoFar(mem0, mem, st) && AllShared(st.backup) &&
    (forall i :: i in st.infer ==> i < |elf.headers|) &&
    (forall i :: i in st.infer && st.infer[i].hasData ==> EntryOk(elf, mem, st, todo, i))
  }

  lemma RegionsOfUpdate(m: BufferMap, keys: set<nat>, i: nat, info: BufferInfo)
    requires i in keys && (i in m ==> m[i].buffer.cpu.None?) && info.buffer.cpu.Some?
    ensures RegionsOf(m[i := info], keys) == RegionsOf(m, keys) + {info.buffer.cpu.value.region}
  {
    var m', r := m[i := info], info.buffer.cpu.value.region;
    assert i in m' && i in keys && m'[i].buffer.cpu.Some?;
    forall x | x in RegionsOf(m, keys)
      ensures x in RegionsOf(m', keys)
    {
      var k :| k in m && k in keys && m[k].buffer.cpu.Some? && m[k].buffer.cpu.value.region == x;
      assert m'[k] == m[k];
    }
    forall x | x in RegionsOf(m', keys)
      ensures x == r || x in RegionsOf(m, keys)
    {
      var k :| k in m' && k in keys && m'[k].buffer.cpu.Some? && m'[k].buffer.cpu.value.region == x;
      assert k != i ==> m[k] == m'[k];
    }
  }

  lemma RegionsOfOtherKeys(m: BufferMap, keys: set<nat>, i: nat, info: BufferInfo)
    requires i !in keys
    ensures RegionsOf(m[i := info], keys) == RegionsOf(m, keys)
  {
    var m' := m[i := info];
    assert forall k :: k in keys && k in m ==> m'[k] == m[k];
    assert forall k :: k in keys && k in m' ==> k in m;
  }

  /** The regions after a waiting entry got its buffer. */
  lemma InferRegions(m: BufferMap, i: nat, info: BufferInfo)
    requires i in m && Waiting(m[i]) && info.buffer.cpu.Some?
    requires info.hasData && info.isShared == m[i].isShared
    ensures var m', r := m[i := info], info.buffer.cpu.value.region;
      if info.isShared
      then Owned(m') == Owned(m) && RegionsOf(m', SharedKeys(m')) == RegionsOf(m, SharedKeys(m)) + {r}
      else Owned(m') == Owned(m) + {r} && RegionsOf(m', SharedKeys(m')) == RegionsOf(m, SharedKeys(m))
  {
    var m' := m[i := info];
    assert PrivateKeys(m') == PrivateKeys(m) && SharedKeys(m') == SharedKeys(m);
    if info.isShared {
      RegionsOfUpdate(m, SharedKeys(m), i, info);
      RegionsOfOtherKeys(m, PrivateKeys(m), i, info);
    } else {
      RegionsOfUpdate(m, PrivateKeys(m), i, info);
      RegionsOfOtherKeys(m, SharedKeys(m), i, info);
    }
  }

  lemma BackupRegions(m: BufferMap, i: nat, info: BufferInfo)
    requires i !in m && info.buffer.cpu.Some?
    ensures RegionsOf(m[i := info], m[i := info].Keys) == RegionsOf(m, m.Keys) + {info.buffer.cpu.value.region}
  {
    var keys := m[i := info].Keys;
    RegionsOfUpdate(m, keys, i, info);
    assert RegionsOf(m, keys) == RegionsOf(m, m.Keys);
  }

  /** Entries visited earlier stay so when memory grows and other entries are filled in. */
  lemma VisitedStays(elf: Elf, mem: Memory, mem': Memory, st: LoaderState, st': LoaderState, k: nat)
    requires k in st.infer && st.infer[k].hasData && Visited(elf, mem, st, k) && Extends(mem, mem')
    requires k in st'.infer && st'.infer[k] == st.infer[k] && st'.explicit == st.explicit
    requires k in st.backup ==> k in st'.backup && st'.backup[k] == st.backup[k]
    ensures Visited(elf, mem', st', k)
  {}

  /** Filling in entry i leaves the other entries as they were. */
  lemma EntriesStay(elf: Elf, mem: Memory, mem': Memory, st: LoaderState, st': LoaderState, todo: set<nat>, i: nat)
    requires Extends(mem, mem') && st'.explicit == st.explicit && i in st.infer && i in todo
    requires st'.infer.Keys == st.infer.Keys && forall k :: k in st.infer && k != i ==> st'.infer[k] == st.infer[k]
    requires forall k :: k != i ==> (k in st'.backup <==> k in st.backup)
    requires forall k :: k != i && k in st.backup ==> st'.backup[k] == st.backup[k]
    requires forall k :: k in st.infer && st.infer[k].hasData ==> EntryOk(elf, mem, st, todo, k)
    requires Visited(elf, mem', st', i)
    ensures forall k :: k in st'.infer && st'.infer[k].hasData ==> EntryOk(elf, mem', st', todo - {i}, k)
  {
    hide Visited, Waiting, IsData;
    forall k | k in st'.infer && st'.infer[k].hasData
      ensures EntryOk(elf, mem', st', todo - {i}, k)
    {
      if k != i {
        assert EntryOk(elf, mem, st, todo, k);
        if k !in todo { VisitedStays(elf, mem, mem', st, st', k); }
      }
    }
  }

  lemma SharedRegionsSoFar(mem0: Memory, mem: Memory, mem': Memory, st: LoaderState, i: nat, info: BufferInfo)
    requires RegionsSoFar(mem0, mem, st) && Extends(mem0, mem) && Extends(mem, mem')
    requires i in st.infer && Waiting(st.infer[i]) && st.infer[i].isShared && info.hasData && info.isShared
    requires info.buffer.cpu.Some? && info.buffer.cpu.value.region in mem'
    requires info.buffer.cpu.value.region == BLOB || info.buffer.cpu.value.region !in mem
    ensures RegionsSoFar(mem0, mem', st.(infer := st.infer[i := info]))
  {
    var st', r := st.(infer := st.infer[i := info]), info.buffer.cpu.value.region;
    InferRegions(st.infer, i, info);
    BlobIsReadOnly(st);
    hide Owned, RegionsOf, SharedKeys, Waiting;
    assert st'.ReadOnly() == st.ReadOnly() + {r};
    hide Frozen;
    assert Injective(st'.infer);
    hide Injective;
  }

  /** One shared entry: its buffer is the reader's. */
  lemma SharedVisited(elf: Elf, mem0: Memory, mem: Memory, mem': Memory, st: LoaderState, todo: set<nat>, i: nat,
                      info: BufferInfo)
    requires Loading(elf, mem0, mem, st, todo) && i in todo && i in st.infer && st.infer[i].hasData && st.infer[i].isShared
    requires Extends(mem, mem') && info.hasData && info.isShared && elf.InBlob(i)
    requires Placed(mem', info.buffer) && BytesOf(mem', info.buffer) == elf.Pristine(i)
    requires info.buffer.size == elf.headers[i].size
    requires info.buffer.cpu.value.region == BLOB || info.buffer.cpu.value.region !in mem
    ensures Loading(elf, mem0, mem', st.(infer := st.infer[i := info]), todo - {i})
  {
    var st' := st.(infer := st.infer[i := info]);
    assert EntryOk(elf, mem, st, todo, i);
    hide RegionsSoFar, EntryOk, AllShared, IsData, Owned, Frozen;
    SharedRegionsSoFar(mem0, mem, mem', st, i, info);
    assert Visited(elf, mem', st', i);
    hide Visited, Waiting, Placed, BytesOf;
    EntriesStay(elf, mem, mem', st, st', todo, i);
  }

  /** One private entry: a backup with the file's bytes, and a new region with a copy of them. */
  lemma PrivateVisited(elf: Elf, mem0: Memory, mem: Memory, mem': Memory, st: LoaderState, todo: set<nat>, i: nat,
                       info: BufferInfo, saved: BufferInfo)
    requires Loading(elf, mem0, mem, st, todo) && i in todo && i in st.infer && st.infer[i].hasData && !st.infer[i].isShared
    requires Extends(mem, mem') && info.IsPrivate() && info.managed && saved.isShared && elf.InBlob(i)
    requires Placed(mem', saved.buffer) && BytesOf(mem', saved.buffer) == elf.Pristine(i)
    requires saved.buffer.cpu.value.region == BLOB || saved.buffer.cpu.value.region !in mem
    requires WholeRegion(mem', info.buffer) && info.buffer.size == elf.headers[i].size
    requires mem'[info.buffer.cpu.value.region] == elf.Pristine(i)
    requires info.buffer.cpu.value.region !in mem && info.buffer.cpu.value.region != saved.buffer.cpu.value.region
    ensures Loading(elf, mem0, mem', st.(infer := st.infer[i := info], backup := st.backup[i := saved]), todo - {i})
  {
    var st' := st.(infer := st.infer[i := info], backup := st.backup[i := saved]);
    hide RegionsSoFar, EntryOk, IsData, Owned, Frozen, Visited, BytesOf, AllShared, Waiting, WholeRegion, Placed;
    WaitingEntry(elf, mem, st, todo, i);
    PlacedRegions(mem', info.buffer, saved.buffer);
    NewPrivateVisited(elf, mem', st', i);
    PrivateRegions(st, i, info, saved);
    BlobIsReadOnly(st);
    PrivateRegionsSoFar(mem0, mem, mem', st, st', i, info, saved.buffer.cpu.value.region);
    OneMoreShared(st.backup, i, saved);
    EntriesStay(elf, mem, mem', st, st', todo, i);
  }

  lemma WaitingEntry(elf: Elf, mem: Memory, st: LoaderState, todo: set<nat>, i: nat)
    requires i in st.infer && i in todo && EntryOk(elf, mem, st, todo, i)
    ensures Waiting(st.infer[i]) && i !in st.backup && IsData(elf, st.explicit, i)
  {}

  lemma PlacedRegions(mem: Memory, a: DeviceBuffer, b: DeviceBuffer)
    requires WholeRegion(mem, a) && Placed(mem, b)
    ensures a.cpu.Some? && a.cpu.value.region in mem && b.cpu.Some? && b.cpu.value.region in mem
  {}

  lemma OneMoreShared(m: BufferMap, i: nat, b: BufferInfo)
    requires AllShared(m) && b.isShared
    ensures AllShared(m[i := b])
  {}

  lemma NewPrivateVisited(elf: Elf, mem: Memory, st: LoaderState, i: nat)
    requires i in st.infer && i in st.backup && IsData(elf, st.explicit, i) && elf.InBlob(i)
    requires st.infer[i].IsPrivate() && st.infer[i].managed
    requires WholeRegion(mem, st.infer[i].buffer) && st.infer[i].buffer.size == elf.headers[i].size
    requires mem[st.infer[i].buffer.cpu.value.region] == elf.Pristine(i)
    requires Placed(mem, st.backup[i].buffer) && BytesOf(mem, st.backup[i].buffer) == elf.Pristine(i)
    ensures Visited(elf, mem, st, i)
  {}

  lemma PrivateRegions(st: LoaderState, i: nat, info: BufferInfo, saved: BufferInfo)
    requires i in st.infer && Waiting(st.infer[i]) && i !in st.backup && !st.infer[i].isShared
    requires info.IsPrivate() && info.buffer.cpu.Some? && saved.buffer.cpu.Some?
    ensures var st' := st.(infer := st.infer[i := info], backup := st.backup[i := saved]);
      st'.Regions() == st.Regions() + {info.buffer.cpu.value.region} &&
      st'.ReadOnly() == st.ReadOnly() + {saved.buffer.cpu.value.region}
  {
    InferRegions(st.infer, i, info);
    BackupRegions(st.backup, i, saved);
    hide Owned, RegionsOf, SharedKeys;
  }

  lemma PrivateRegionsSoFar(mem0: Memory, mem: Memory, mem': Memory, st: LoaderState, st': LoaderState, i: nat,
                            info: BufferInfo, saved: nat)
    requires RegionsSoFar(mem0, mem, st) && Extends(mem0, mem) && Extends(mem, mem') && BLOB in st.ReadOnly()
    requires i in st.infer && st'.infer == st.infer[i := info] && info.IsPrivate() && info.buffer.cpu.Some?
    requires st'.Regions() == st.Regions() + {info.buffer.cpu.value.region} && st'.ReadOnly() == st.ReadOnly() + {saved}
    requires saved in mem' && (saved == BLOB || saved !in mem)
    requires info.buffer.cpu.value.region in mem' && info.buffer.cpu.value.region !in mem && info.buffer.cpu.value.region != saved
    ensures RegionsSoFar(mem0, mem', st')
  {
    forall k | k in st.infer && HasPrivateRegion(st.infer[k])
      ensures st.infer[k].buffer.cpu.value.region != info.buffer.cpu.value.region
    {
      OwnedRegion(st.infer, k);
    }
    hide Owned, Frozen;
  }

  /** When every entry has been visited the loader is sound and its images are the file's bytes. */
  lemma AllVisited(elf: Elf, mem0: Memory, mem: Memory, st: LoaderState)
    requires Loading(elf, mem0, mem, st, {})
    requires AllInFile(elf, st.relocIndexes) && AllInFile(elf, st.jitIndexes)
    requires forall j :: j in st.relocIndexes || j in st.jitIndexes ==> elf.IsRela(j) && PrivateTarget(elf, st.infer, j)
    requires forall k :: 0 <= k < |st.scratch| ==> IsScratchEntry(st.infer, st.scratch[k])
    ensures Sound(elf, mem, st) && st.Regions() !! mem0.Keys && st.ReadOnly() * mem0.Keys <= {BLOB}
    ensures ImagesOf(mem, st.infer) == PristineImages(elf, PrivateKeys(st.infer))
  {
    hide Owned, Frozen, Injective, PrivateTarget, IsScratchEntry;
    forall i | i in st.infer && st.infer[i].hasData
      ensures SoundData(elf, mem, st, i)
      ensures st.infer[i].IsPrivate() ==>
        Placed(mem, st.infer[i].buffer) && elf.InBlob(i) && mem[st.infer[i].buffer.cpu.value.region] == elf.Pristine(i)
    {
      assert EntryOk(elf, mem, st, {}, i);
    }
    hide SoundData;
    assert ImagesOf(mem, st.infer) == PristineImages(elf, PrivateKeys(st.infer));
  }
}
