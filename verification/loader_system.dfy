/** Loader objects over one buffer manager are the systems whose runs LoaderRuns is about: every call on any of them is
    a step, and every sequence of calls a run. */
module LoaderSystem {
  import opened Bytes
  import opened Errors
  import opened Options
  import opened LoaderModel
  import opened LoaderRuns
  import opened DeviceMemory
  import Loader

  type VPUXLoader = Loader.VPUXLoader

  // ---------- objects and systems ----------

  function ReaderStateOf(r: Reader): ReaderState
    reads r
  {
    ReaderState(r.cache, r.accesses)
  }

  ghost predicate IsMember(mgr: BufferManager, readers: seq<Reader>, loader: VPUXLoader, m: Member)
    reads loader
  {
    m.reader < |readers| && loader.mgr == mgr && loader.reader == readers[m.reader] && loader.State() == m.state && loader.loaded
  }

  ghost predicate AreReaders(readers: seq<Reader>, elf: Elf, s: System)
    reads readers
  {
    |readers| == |s.readers| && (forall c, d :: 0 <= c < d < |readers| ==> readers[c] != readers[d]) &&
    forall c :: 0 <= c < |readers| ==> readers[c].elf == elf && ReaderStateOf(readers[c]) == s.readers[c]
  }

  ghost predicate AreMembers(mgr: BufferManager, readers: seq<Reader>, loaders: seq<VPUXLoader>, s: System)
    reads loaders
  {
    |loaders| == |s.members| && (forall k, l :: 0 <= k < l < |loaders| ==> loaders[k] != loaders[l]) &&
    forall k :: 0 <= k < |loaders| ==> IsMember(mgr, readers, loaders[k], s.members[k])
  }

  /** Memory, caches, access counts and loader states are those of the system, and no buffer is locked. */
  ghost predicate Represents(mgr: BufferManager, readers: seq<Reader>, loaders: seq<VPUXLoader>, elf: Elf, s: System)
    reads mgr, readers, loaders
  {
    mgr.Valid() && mgr.locked == {} && mgr.mem == s.mem && AreReaders(readers, elf, s) &&
    AreMembers(mgr, readers, loaders, s)
  }

  /** What every operation of a loader asks for holds of all loaders, whatever the others have done. */
  lemma MembersAreReady(mgr: BufferManager, readers: seq<Reader>, loaders: seq<VPUXLoader>, elf: Elf, s: System, k: nat)
    requires Represents(mgr, readers, loaders, elf, s) && Inv(elf, s) && k < |loaders|
    ensures loaders[k].Ready() && loaders[k].loaded && loaders[k].reader.elf == elf
  {
    hide Sound, CacheOk, CacheRegions, Owned, AllLoadedOk, Expected, ImagesOf, Separate;
    var m := s.members[k];
    assert IsMember(mgr, readers, loaders[k], m);
    assert ReaderStateOf(readers[m.reader]) == s.readers[m.reader];
    assert MemberOk(elf, s.mem, m);
  }

  // ---------- one call, one step ----------

  /** The system after member k acted through its reader. */
  ghost function Acted(s: System, mem: Memory, k: nat, m: Member, r: ReaderState): System
    requires k < |s.members| && s.members[k].reader < |s.readers|
  {
    System(mem, s.readers[s.members[k].reader := r], s.members[k := m])
  }

  /** Everybody but reader m.reader and loader k is as before. */
  ghost predicate OthersAre(readers: seq<Reader>, loaders: seq<VPUXLoader>, mgr: BufferManager, s: System, k: nat)
    requires |readers| == |s.readers| && |loaders| == |s.members| && k < |s.members|
    reads readers, loaders
  {
    (forall c :: 0 <= c < |readers| && c != s.members[k].reader ==> ReaderStateOf(readers[c]) == s.readers[c]) &&
    (forall l :: 0 <= l < |loaders| && l != k ==> IsMember(mgr, readers, loaders[l], s.members[l]))
  }

  lemma ActedRepresents(mgr: BufferManager, readers: seq<Reader>, loaders: seq<VPUXLoader>, elf: Elf, s: System, k: nat,
                        m: Member)
    requires |readers| == |s.readers| && |loaders| == |s.members| && k < |s.members| && m.reader == s.members[k].reader
    requires forall c, d :: 0 <= c < d < |readers| ==> readers[c] != readers[d]
    requires forall i, j :: 0 <= i < j < |loaders| ==> loaders[i] != loaders[j]
    requires forall c :: 0 <= c < |readers| ==> readers[c].elf == elf
    requires mgr.Valid() && mgr.locked == {} && OthersAre(readers, loaders, mgr, s, k)
    requires IsMember(mgr, readers, loaders[k], m)
    ensures Represents(mgr, readers, loaders, elf, Acted(s, mgr.mem, k, m, ReaderStateOf(readers[m.reader])))
  {
    assert m.reader < |readers|;
    hide IsMember;
    var s' := Acted(s, mgr.mem, k, m, ReaderStateOf(readers[m.reader]));
    forall l | 0 <= l < |loaders| ensures IsMember(mgr, readers, loaders[l], s'.members[l]) {}
    forall c | 0 <= c < |readers| ensures ReaderStateOf(readers[c]) == s'.readers[c] {}
  }

  method CallPatchUserIO(mgr: BufferManager, readers: seq<Reader>, loaders: seq<VPUXLoader>, ghost elf: Elf, ghost s: System,
                  k: nat, io: UserIO) returns (status: Status, ghost s': System)
    requires Represents(mgr, readers, loaders, elf, s) && Inv(elf, s) && k < |loaders|
    modifies mgr, readers
    ensures Represents(mgr, readers, loaders, elf, s') && Step(elf, s, PatchUserIO(k, io, status), s')
  {
    hide Inv, JitPost, Sound, CacheOk, CacheGrows, CacheRegions, Owned, TablesCached;
    MembersAreReady(mgr, readers, loaders, elf, s, k);
    ghost var m := s.members[k];
    assert IsMember(mgr, readers, loaders[k], m);
    assert ReaderStateOf(readers[m.reader]) == s.readers[m.reader];
    status := loaders[k].ApplyJitRelocations(io);
    ghost var m' := m.(jits := m.jits + [io]);
    assert OthersAre(readers, loaders, mgr, s, k);
    ActedRepresents(mgr, readers, loaders, elf, s, k, m');
    s' := Acted(s, mgr.mem, k, m', ReaderStateOf(readers[m.reader]));
  }

  method CallUpdateScratch(mgr: BufferManager, readers: seq<Reader>, loaders: seq<VPUXLoader>, ghost elf: Elf, ghost s: System,
                          k: nat, buffers: seq<DeviceBuffer>) returns (status: Status, ghost s': System)
    requires Represents(mgr, readers, loaders, elf, s) && Inv(elf, s) && k < |loaders|
    modifies mgr, readers, loaders
    ensures Represents(mgr, readers, loaders, elf, s') && Step(elf, s, UpdateScratch(k, buffers, status), s')
  {
    hide Inv, ScratchPost, Sound, CacheOk, CacheGrows, CacheRegions, Owned, TablesCached;
    MembersAreReady(mgr, readers, loaders, elf, s, k);
    ghost var m := s.members[k];
    assert IsMember(mgr, readers, loaders[k], m);
    assert ReaderStateOf(readers[m.reader]) == s.readers[m.reader];
    status := loaders[k].UpdateSharedScratchBuffers(buffers);
    ghost var renewed := |m.state.scratch| == |buffers| > 0;
    ghost var m' := if renewed then Member(loaders[k].State(), m.reader, true, []) else m;
    ScratchUntouched(elf, s.mem, mgr.mem, m.state, loaders[k].State(), buffers, status);
    assert OthersAre(readers, loaders, mgr, s, k);
    ActedRepresents(mgr, readers, loaders, elf, s, k, m');
    s' := Acted(s, mgr.mem, k, m', ReaderStateOf(readers[m.reader]));
  }

  lemma ScratchUntouched(elf: Elf, mem: Memory, mem': Memory, st: LoaderState, st': LoaderState, buffers: seq<DeviceBuffer>,
                         status: Status)
    requires Sound(elf, mem, st) && ScratchPost(elf, mem, mem', st, st', buffers, status)
    ensures !(|st.scratch| == |buffers| > 0) ==> st' == st
    ensures st'.loaded == st.loaded && st'.scratch == st.scratch && st'.relocIndexes == st.relocIndexes
  {
    hide Sound, Relocated, WithScratch;
  }

  method CallGetEntry(mgr: BufferManager, readers: seq<Reader>, loaders: seq<VPUXLoader>, ghost elf: Elf, ghost s: System,
                     k: nat) returns (status: Status, ghost s': System)
    requires Represents(mgr, readers, loaders, elf, s) && Inv(elf, s) && k < |loaders|
    modifies mgr, readers
    ensures Represents(mgr, readers, loaders, elf, s') && Step(elf, s, FindEntry(k), s')
  {
    hide Inv, Sound, CacheOk, CacheGrows, CacheRegions, Owned, EarlyTables, EntryOutcome;
    MembersAreReady(mgr, readers, loaders, elf, s, k);
    ghost var m := s.members[k];
    assert IsMember(mgr, readers, loaders[k], m);
    assert ReaderStateOf(readers[m.reader]) == s.readers[m.reader];
    var b;
    status, b := loaders[k].GetEntry();
    assert OthersAre(readers, loaders, mgr, s, k);
    ActedRepresents(mgr, readers, loaders, elf, s, k, m);
    s' := Acted(s, mgr.mem, k, m, ReaderStateOf(readers[m.reader]));
  }

  /** One loader more, with the reader it was copied from or a new one. */
  lemma JoinedRepresents(mgr: BufferManager, readers: seq<Reader>, loaders: seq<VPUXLoader>, elf: Elf, s: System,
                         loader: VPUXLoader, m: Member)
    requires Represents(mgr, readers, loaders, elf, s) && IsMember(mgr, readers, loader, m) && loader !in loaders
    ensures Represents(mgr, readers, loaders + [loader], elf, s.(members := s.members + [m]))
  {
    hide IsMember;
  }

  /** Copies loader k, with its own runtime symbols or with others. */
  method CallClone(mgr: BufferManager, readers: seq<Reader>, loaders: seq<VPUXLoader>, ghost elf: Elf, ghost s: System,
                  k: nat, others: Option<seq<Symbol>>)
      returns (status: Status, loaders': seq<VPUXLoader>, ghost e: Event, ghost s': System)
    requires Represents(mgr, readers, loaders, elf, s) && Inv(elf, s) && k < |loaders|
    modifies mgr, readers
    ensures Represents(mgr, readers, loaders', elf, s') && Step(elf, s, e, s')
    ensures loaders <= loaders' && forall k :: 0 <= k < |loaders'| ==> loaders'[k] in loaders || fresh(loaders'[k])
    ensures e == if status.Err? then CloneFailed(k) else if others.None? then Event.Clone(k) else CloneWith(k, others.value)
    ensures |loaders'| == |loaders| + if status.Ok? then 1 else 0
  {
    hide Inv, ClonePost, Sound, CacheOk, CacheGrows, CacheRegions, Owned, TablesCached, Relocated, SameSharing, CloneStep;
    MembersAreReady(mgr, readers, loaders, elf, s, k);
    ghost var m := s.members[k];
    assert IsMember(mgr, readers, loaders[k], m);
    assert ReaderStateOf(readers[m.reader]) == s.readers[m.reader];
    var runtime := if others.Some? then others.value else loaders[k].runtime;
    var clone;
    status, clone := Loader.Clone(loaders[k], runtime);
    assert OthersAre(readers, loaders, mgr, s, k);
    ActedRepresents(mgr, readers, loaders, elf, s, k, m);
    ghost var t := Acted(s, mgr.mem, k, m, ReaderStateOf(readers[m.reader]));
    loaders', s' := loaders, t;
    e := CloneFailed(k);
    if status.Ok? {
      ghost var copy := Member(clone.State(), m.reader, true, []);
      JoinedRepresents(mgr, readers, loaders, elf, t, clone, copy);
      loaders', s' := loaders + [clone], t.(members := t.members + [copy]);
      e := if others.None? then Event.Clone(k) else CloneWith(k, others.value);
      CloneIsStep(elf, s, t, k, copy, runtime);
    }
  }

  lemma CloneIsStep(elf: Elf, s: System, t: System, k: nat, copy: Member, runtime: seq<Symbol>)
    requires k < |s.members| && t.members == s.members && Sound(elf, s.mem, s.members[k].state)
    requires ClonePost(elf, s.mem, t.mem, s.members[k].state, copy.state, runtime)
    requires copy.relocated && copy.jits == [] && copy.reader == s.members[k].reader
    requires Reads(elf, s, t, copy.reader, RelocsAtHand(elf, s, s.members[k])) && RelocsAtHand(elf, t, s.members[k])
    requires copy.state.Regions() !! CacheRegions(t.readers[copy.reader].cache)
    ensures CloneStep(elf, s, t.(members := t.members + [copy]), k, runtime)
  {
    hide ClonePost, Sound, CacheOk, CacheGrows, CacheRegions, Owned, TablesCached;
    var s' := t.(members := t.members + [copy]);
    assert s'.members[..|s.members|] == s.members;
  }

  lemma LoadedRepresents(mgr: BufferManager, readers: seq<Reader>, loaders: seq<VPUXLoader>, elf: Elf, s: System,
                         reader: Reader, loader: VPUXLoader, m: Member)
    requires Represents(mgr, readers, loaders, elf, s)
    requires reader !in readers && loader !in loaders && reader.elf == elf
    requires m.reader == |readers| && IsMember(mgr, readers + [reader], loader, m)
    ensures Represents(mgr, readers + [reader], loaders + [loader], elf,
                       System(s.mem, s.readers + [ReaderStateOf(reader)], s.members + [m]))
  {
    forall k | 0 <= k < |loaders| ensures IsMember(mgr, readers + [reader], loaders[k], s.members[k]) {
      assert IsMember(mgr, readers, loaders[k], s.members[k]);
    }
  }

  /** Nothing but memory has changed. */
  lemma StillRepresents(mgr: BufferManager, readers: seq<Reader>, loaders: seq<VPUXLoader>, elf: Elf, s: System)
    requires mgr.Valid() && mgr.locked == {} && AreReaders(readers, elf, s) && AreMembers(mgr, readers, loaders, s)
    ensures Represents(mgr, readers, loaders, elf, s.(mem := mgr.mem))
  {}

  /** Loads the file into a new loader with a reader of its own. */
  method CallLoad(mgr: BufferManager, readers: seq<Reader>, loaders: seq<VPUXLoader>, elf: Elf, ghost s: System,
                 runtime: seq<Symbol>, explicit: bool, symbolTypes: seq<u32>)
      returns (status: Status, readers': seq<Reader>, loaders': seq<VPUXLoader>, ghost e: Event, ghost s': System)
    requires Represents(mgr, readers, loaders, elf, s) && Inv(elf, s) && elf.TargetsCarryData()
    modifies mgr
    ensures Represents(mgr, readers', loaders', elf, s') && Step(elf, s, e, s')
    ensures forall c :: 0 <= c < |readers'| ==> readers'[c] in readers || fresh(readers'[c])
    ensures forall k :: 0 <= k < |loaders'| ==> loaders'[k] in loaders || fresh(loaders'[k])
    ensures e == if status.Ok? then Load(runtime, explicit, symbolTypes) else LoadFailed
    ensures if status.Ok? then loaders <= loaders' && |loaders'| == |loaders| + 1 else loaders' == loaders
  {
    hide Inv, LoadPost, Sound, CacheOk, CacheGrows, CacheRegions, Owned, EarlyTables, AllCached, Relocated, SectionsLoad,
      SectionsRefused, Classified, AllInFile, LoadStep;
    NewReaderIsReady(elf, s);
    var reader := new Reader(elf);
    var loader := new Loader.VPUXLoader(mgr, reader);
    status := loader.Load(runtime, explicit, symbolTypes);
    ghost var t := s.(mem := mgr.mem);
    StillRepresents(mgr, readers, loaders, elf, s);
    readers', loaders', e, s' := readers, loaders, LoadFailed, t;
    if status.Ok? {
      ghost var m := Member(loader.State(), |readers|, loader.scratch == [], []);
      LoadedRepresents(mgr, readers, loaders, elf, t, reader, loader, m);
      readers', loaders' := readers + [reader], loaders + [loader];
      e, s' := Load(runtime, explicit, symbolTypes), System(t.mem, t.readers + [ReaderStateOf(reader)], t.members + [m]);
      LoadIsStep(elf, s, t.mem, ReaderStateOf(reader), m, runtime, explicit, symbolTypes);
    }
  }

  lemma LoadIsStep(elf: Elf, s: System, mem: Memory, r: ReaderState, m: Member, runtime: seq<Symbol>, explicit: bool,
                   symbolTypes: seq<u32>)
    requires LoadPost(elf, s.mem, mem, m.state, runtime, explicit, symbolTypes)
    requires m.relocated == (m.state.scratch == []) && m.jits == [] && m.reader == |s.readers|
    requires CacheOk(elf, mem, r.cache) && CacheGrows(s.mem, map[], r.cache) && m.state.Regions() !! CacheRegions(r.cache)
    requires EarlyTables(elf, r.cache.Keys, |elf.headers|) && (m.state.scratch == [] ==> AllCached(elf, r.cache.Keys))
    ensures Step(elf, s, Load(runtime, explicit, symbolTypes), System(mem, s.readers + [r], s.members + [m]))
  {
    hide LoadPost, CacheOk, CacheGrows, CacheRegions, EarlyTables, AllCached, Owned;
    var s' := System(mem, s.readers + [r], s.members + [m]);
    assert s'.members[..|s.members|] == s.members && s'.readers[..|s.readers|] == s.readers;
  }

  lemma NewReaderIsReady(elf: Elf, s: System)
    requires Inv(elf, s)
    ensures BLOB in s.mem && s.mem[BLOB] == elf.blob && CacheOk(elf, s.mem, map[])
  {
    hide ReadersOk, AllLoadedOk, MemberOk, Separate;
  }

  // ---------- every sequence of calls is a run ----------

  datatype Call =
    | LoadCall(runtime: seq<Symbol>, explicit: bool, symbolTypes: seq<u32>)
    | CloneCall(loader: nat, others: Option<seq<Symbol>>)
    | ScratchCall(loader: nat, buffers: seq<DeviceBuffer>)
    | UserIOCall(loader: nat, io: UserIO)
    | EntryCall(loader: nat)

  /** Calls, failing ones included, on any of the loaders that there are by then: a run, at whose end the objects are
      those of its last system. So what holds over all runs holds of the objects, and no buffer is locked between calls. */
  method Run(elf: Elf, calls: seq<Call>)
      returns (mgr: BufferManager, readers: seq<Reader>, loaders: seq<VPUXLoader>, ghost run: seq<System>, ghost events: seq<Event>)
    requires elf.TargetsCarryData()
    ensures IsRun(elf, run, events) && Inv(elf, run[|events|])
    ensures Represents(mgr, readers, loaders, elf, run[|events|])
  {
    hide Inv, Step, Represents;
    mgr := new BufferManager(elf.blob);
    readers, loaders := [], [];
    ghost var s := System(mgr.mem, [], []);
    run, events := [s], [];
    NothingRepresented(mgr, elf, s);
    for n := 0 to |calls|
      invariant IsRun(elf, run, events) && s == run[|events|] && Inv(elf, s) && Represents(mgr, readers, loaders, elf, s)
      invariant fresh(mgr)
      invariant forall c :: 0 <= c < |readers| ==> fresh(readers[c])
      invariant forall k :: 0 <= k < |loaders| ==> fresh(loaders[k])
    {
      var call := calls[n];
      if call.LoadCall? || call.loader < |loaders| {
        ghost var e, s';
        readers, loaders, e, s' := Perform(mgr, readers, loaders, elf, s, call);
        StepKeepsInv(elf, s, e, s');
        OneStepMore(elf, run, events, e, s');
        run, events, s := run + [s'], events + [e], s';
      }
    }
  }

  lemma NothingRepresented(mgr: BufferManager, elf: Elf, s: System)
    requires mgr.Valid() && mgr.locked == {} && mgr.mem == map[BLOB := elf.blob] && s == System(mgr.mem, [], [])
    ensures Represents(mgr, [], [], elf, s) && Inv(elf, s) && IsRun(elf, [s], [])
  {
    NoMembers(elf, s);
  }

  lemma OneStepMore(elf: Elf, run: seq<System>, events: seq<Event>, e: Event, s': System)
    requires IsRun(elf, run, events) && Step(elf, run[|events|], e, s')
    ensures IsRun(elf, run + [s'], events + [e])
  {
    hide Step;
    var run', events' := run + [s'], events + [e];
    forall k | 0 <= k < |events'| ensures Step(elf, run'[k], events'[k], run'[k + 1]) {
      if k < |events| { assert Step(elf, run[k], events[k], run[k + 1]); }
    }
  }

  method Perform(mgr: BufferManager, readers: seq<Reader>, loaders: seq<VPUXLoader>, elf: Elf, ghost s: System, call: Call)
      returns (readers': seq<Reader>, loaders': seq<VPUXLoader>, ghost e: Event, ghost s': System)
    requires Represents(mgr, readers, loaders, elf, s) && Inv(elf, s) && elf.TargetsCarryData()
    requires !call.LoadCall? ==> call.loader < |loaders|
    modifies mgr, readers, loaders
    ensures Represents(mgr, readers', loaders', elf, s') && Step(elf, s, e, s')
    ensures forall c :: 0 <= c < |readers'| ==> readers'[c] in readers || fresh(readers'[c])
    ensures forall k :: 0 <= k < |loaders'| ==> loaders'[k] in loaders || fresh(loaders'[k])
  {
    hide Inv, Step, Represents;
    readers', loaders' := readers, loaders;
    var status: Status;
    match call {
      case LoadCall(runtime, explicit, symbolTypes) =>
        status, readers', loaders', e, s' := CallLoad(mgr, readers, loaders, elf, s, runtime, explicit, symbolTypes);
      case CloneCall(k, others) =>
        status, loaders', e, s' := CallClone(mgr, readers, loaders, elf, s, k, others);
      case ScratchCall(k, buffers) =>
        status, s' := CallUpdateScratch(mgr, readers, loaders, elf, s, k, buffers);
        e := UpdateScratch(k, buffers, status);
      case UserIOCall(k, io) =>
        status, s' := CallPatchUserIO(mgr, readers, loaders, elf, s, k, io);
        e := PatchUserIO(k, io, status);
      case EntryCall(k) =>
        status, s' := CallGetEntry(mgr, readers, loaders, elf, s, k);
        e := FindEntry(k);
    }
  }
}
