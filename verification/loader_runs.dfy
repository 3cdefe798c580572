/** Every run of any number of loaders over one memory: what all of them keep, and what the images are. */
module LoaderRuns {
  import opened Bytes
  import opened Errors
  import opened Relocations
  import opened Patching
  import opened Tasks
  import opened LoaderModel
  import opened LoaderFacts

  /** A loader, the reader it shares with its clones, and what has happened to its private images since they were last
      copied from the file: whether its relocations ran, and with which user buffers it was patched afterwards. */
  datatype Member = Member(state: LoaderState, reader: nat, relocated: bool, jits: seq<UserIO>)

  datatype ReaderState = ReaderState(cache: Cache, accesses: nat)

  datatype System = System(mem: Memory, readers: seq<ReaderState>, members: seq<Member>)

  datatype Event =
    | Load(runtime: seq<Symbol>, explicit: bool, symbolTypes: seq<u32>)
    | Clone(source: nat)
    | CloneWith(source: nat, runtime: seq<Symbol>)
    | UpdateScratch(member: nat, buffers: seq<DeviceBuffer>, status: Status)
    | PatchUserIO(member: nat, io: UserIO, status: Status)
    | FindEntry(member: nat)
    | LoadFailed           // a load that threw: no loader and no reader come of it
    | CloneFailed(source: nat)  // a copy construction that threw

  // ---------- what the images of a member are ----------

  /** The images before any user buffers are patched in. */
  function Base(elf: Elf, m: Member): (images: Images)
    requires AllInFile(elf, m.state.relocIndexes)
  {
    if m.relocated then Relocated(elf, m.state).images else PristineImages(elf, PrivateKeys(m.state.infer))
  }

  function UserTasks(elf: Elf, st: LoaderState, io: UserIO): seq<Task>
    requires AllInFile(elf, st.jitIndexes)
  {
    JitTasks(elf, st.infer.Keys, io, st.jitIndexes)
  }

  function AfterJits(elf: Elf, st: LoaderState, images: Images, jits: seq<UserIO>): Images
    requires AllInFile(elf, st.jitIndexes)
    decreases |jits|
  {
    if jits == [] then images
    else
      RunTasks(AfterJits(elf, st, images, jits[..|jits| - 1]), UserTasks(elf, st, jits[|jits| - 1])).images
  }

  function Expected(elf: Elf, m: Member): Images
    requires AllInFile(elf, m.state.relocIndexes) && AllInFile(elf, m.state.jitIndexes)
  {
    AfterJits(elf, m.state, Base(elf, m), m.jits)
  }

  // ---------- the invariant ----------

  ghost predicate MemberOk(elf: Elf, mem: Memory, m: Member) {
    Sound(elf, mem, m.state) && ImagesOf(mem, m.state.infer) == Expected(elf, m)
  }

  /** Nobody writes what another loader owns or what several loaders read. */
  ghost predicate Separate(a: LoaderState, b: LoaderState) {
    a.Regions() !! b.Regions() && a.Regions() !! b.ReadOnly() && b.Regions() !! a.ReadOnly()
  }

  ghost predicate MembersOk(elf: Elf, s: System) {
    BLOB in s.mem && s.mem[BLOB] == elf.blob &&
    (forall k :: 0 <= k < |s.members| ==> MemberOk(elf, s.mem, s.members[k])) &&
    (forall k, l :: 0 <= k < |s.members| && 0 <= l < |s.members| && k != l ==>
      Separate(s.members[k].state, s.members[l].state))
  }

  /** What the readers keep is what the file holds, and no loader writes there. */
  ghost predicate ReadersOk(elf: Elf, s: System) {
    (forall c :: 0 <= c < |s.readers| ==> CacheOk(elf, s.mem, s.readers[c].cache)) &&
    (forall c, k :: 0 <= c < |s.readers| && 0 <= k < |s.members| ==>
      s.members[k].state.Regions() !! CacheRegions(s.readers[c].cache))
  }

  /** A loaded loader: its sections are classified by the file's headers, and the tables needed later are at hand. */
  ghost predicate LoadedOk(elf: Elf, s: System, m: Member) {
    Classified(elf, m.state) && m.reader < |s.readers| &&
    EarlyTables(elf, s.readers[m.reader].cache.Keys, |elf.headers|)
  }

  ghost predicate AllLoadedOk(elf: Elf, s: System) {
    forall k :: 0 <= k < |s.members| ==> LoadedOk(elf, s, s.members[k])
  }

  ghost predicate Inv(elf: Elf, s: System) {
    MembersOk(elf, s) && ReadersOk(elf, s) && AllLoadedOk(elf, s)
  }

  // ---------- steps ----------

  /** Reader c may read; if everything it is asked for is at hand, it does not go to the access manager. */
  ghost predicate Reads(elf: Elf, s: System, s': System, c: nat, atHand: bool) {
    c < |s.readers| && |s'.readers| == |s.readers| && s'.readers == s.readers[c := s'.readers[c]] &&
    CacheOk(elf, s'.mem, s'.readers[c].cache) && CacheGrows(s.mem, s.readers[c].cache, s'.readers[c].cache) &&
    (atHand ==> s'.readers[c].accesses == s.readers[c].accesses)
  }

  ghost predicate RelocsAtHand(elf: Elf, s: System, m: Member) {
    m.reader < |s.readers| && TablesCached(elf, s.readers[m.reader].cache.Keys, m.state.relocIndexes)
  }

  ghost predicate LoadStep(elf: Elf, s: System, s': System, runtime: seq<Symbol>, explicit: bool, symbolTypes: seq<u32>) {
    |s'.members| == |s.members| + 1 && s'.members[..|s.members|] == s.members &&
    |s'.readers| == |s.readers| + 1 && s'.readers[..|s.readers|] == s.readers &&
    var m, cache := s'.members[|s.members|], s'.readers[|s.readers|].cache;
    LoadPost(elf, s.mem, s'.mem, m.state, runtime, explicit, symbolTypes) &&
    m.relocated == (m.state.scratch == []) && m.jits == [] && m.reader == |s.readers| &&
    CacheOk(elf, s'.mem, cache) && CacheGrows(s.mem, map[], cache) && m.state.Regions() !! CacheRegions(cache) &&
    EarlyTables(elf, cache.Keys, |elf.headers|) && (m.state.scratch == [] ==> AllCached(elf, cache.Keys))
  }

  ghost predicate CloneStep(elf: Elf, s: System, s': System, source: nat, runtime: seq<Symbol>) {
    source < |s.members| && Sound(elf, s.mem, s.members[source].state) &&
    |s'.members| == |s.members| + 1 && s'.members[..|s.members|] == s.members &&
    var src, m := s.members[source], s'.members[|s.members|];
    ClonePost(elf, s.mem, s'.mem, src.state, m.state, runtime) && m.relocated && m.jits == [] && m.reader == src.reader &&
    Reads(elf, s, s', src.reader, RelocsAtHand(elf, s, src)) && RelocsAtHand(elf, s', src) &&
    m.state.Regions() !! CacheRegions(s'.readers[src.reader].cache)
  }

  ghost predicate ScratchStep(elf: Elf, s: System, s': System, k: nat, buffers: seq<DeviceBuffer>, status: Status) {
    k < |s.members| && Sound(elf, s.mem, s.members[k].state) &&
    |s'.members| == |s.members| && s'.members == s.members[k := s'.members[k]] &&
    var m, m' := s.members[k], s'.members[k];
    ScratchPost(elf, s.mem, s'.mem, m.state, m'.state, buffers, status) && m'.reader == m.reader &&
    (if |m.state.scratch| == |buffers| > 0 then m'.relocated && m'.jits == [] else m' == m) &&
    Reads(elf, s, s', m.reader, RelocsAtHand(elf, s, m)) &&
    (status.Ok? && m.state.scratch != [] ==> RelocsAtHand(elf, s', m))
  }

  ghost predicate UserIOStep(elf: Elf, s: System, s': System, k: nat, io: UserIO, status: Status) {
    k < |s.members| && Sound(elf, s.mem, s.members[k].state) &&
    |s'.members| == |s.members| && s'.members == s.members[k := s'.members[k]] &&
    var m, m' := s.members[k], s'.members[k];
    JitPost(elf, s.mem, s'.mem, m.state, io, status) && m' == m.(jits := m.jits + [io]) && m.reader < |s.readers| &&
    Reads(elf, s, s', m.reader, TablesCached(elf, s.readers[m.reader].cache.Keys, m.state.jitIndexes))
  }

  ghost predicate EntryStep(elf: Elf, s: System, s': System, k: nat) {
    k < |s.members| && s'.members == s.members && Extends(s.mem, s'.mem) && s.members[k].reader < |s.readers| &&
    Reads(elf, s, s', s.members[k].reader, EarlyTables(elf, s.readers[s.members[k].reader].cache.Keys, |elf.headers|))
  }

  ghost predicate CloneFailedStep(elf: Elf, s: System, s': System, source: nat) {
    source < |s.members| && s'.members == s.members && Extends(s.mem, s'.mem) &&
    Reads(elf, s, s', s.members[source].reader, RelocsAtHand(elf, s, s.members[source]))
  }

  ghost predicate Step(elf: Elf, s: System, e: Event, s': System) {
    match e
    case Load(runtime, explicit, symbolTypes) => LoadStep(elf, s, s', runtime, explicit, symbolTypes)
    case Clone(source) => source < |s.members| && CloneStep(elf, s, s', source, s.members[source].state.runtime)
    case CloneWith(source, runtime) => CloneStep(elf, s, s', source, runtime)
    case UpdateScratch(k, buffers, status) => ScratchStep(elf, s, s', k, buffers, status)
    case PatchUserIO(k, io, status) => UserIOStep(elf, s, s', k, io, status)
    case FindEntry(k) => EntryStep(elf, s, s', k)
    case LoadFailed => Extends(s.mem, s'.mem) && s'.members == s.members && s'.readers == s.readers
    case CloneFailed(source) => CloneFailedStep(elf, s, s', source)
  }

  ghost predicate IsRun(elf: Elf, run: seq<System>, events: seq<Event>) {
    |run| == |events| + 1 && run[0].members == [] && run[0].readers == [] && BLOB in run[0].mem && run[0].mem[BLOB] == elf.blob &&
    forall k :: 0 <= k < |events| ==> Step(elf, run[k], events[k], run[k + 1])
  }

  // ---------- every step keeps the invariant ----------

  lemma OldMembersStay(elf: Elf, s: System, mem': Memory)
    requires MembersOk(elf, s) && Extends(s.mem, mem')
    ensures MembersOk(elf, s.(mem := mem'))
    ensures forall k :: 0 <= k < |s.members| ==>
      ImagesOf(mem', s.members[k].state.infer) == ImagesOf(s.mem, s.members[k].state.infer)
  {
    hide Sound, ImagesOf, Expected, Separate;
    forall k | 0 <= k < |s.members|
      ensures MemberOk(elf, mem', s.members[k])
      ensures ImagesOf(mem', s.members[k].state.infer) == ImagesOf(s.mem, s.members[k].state.infer)
    {
      assert MemberOk(elf, s.mem, s.members[k]);
      Untouched(elf, s.mem, mem', s.members[k].state);
    }
  }

  /** What one loader does leaves every other loader's images alone. */
  lemma UntouchedByOther(elf: Elf, s: System, mem': Memory, k: nat, l: nat)
    requires MembersOk(elf, s) && k < |s.members| && l < |s.members| && k != l
    requires ChangesOnly(s.mem, mem', s.members[k].state.Regions())
    ensures MemberOk(elf, mem', s.members[l])
    ensures ImagesOf(mem', s.members[l].state.infer) == ImagesOf(s.mem, s.members[l].state.infer)
  {
    hide Sound, ImagesOf, Expected, Owned, Frozen;
    assert Separate(s.members[k].state, s.members[l].state);
    assert MemberOk(elf, s.mem, s.members[l]);
    Untouched(elf, s.mem, mem', s.members[l].state);
  }

  /** A new loader whose own regions are new, and whose read-only regions are new or read by an old loader. */
  lemma NewMember(elf: Elf, s: System, s': System)
    requires MembersOk(elf, s) && Extends(s.mem, s'.mem)
    requires |s'.members| == |s.members| + 1 && s'.members[..|s.members|] == s.members
    requires MemberOk(elf, s'.mem, s'.members[|s.members|])
    requires var st := s'.members[|s.members|].state;
      st.Regions() !! s.mem.Keys &&
      forall k :: 0 <= k < |s.members| ==> s.members[k].state.Regions() !! st.ReadOnly()
    ensures MembersOk(elf, s')
  {
    hide Sound, ImagesOf, Expected, Owned, Frozen, MemberOk;
    OldMembersStay(elf, s, s'.mem);
    var n := |s.members|;
    forall k | 0 <= k < n
      ensures s'.members[k] == s.members[k]
      ensures Separate(s'.members[k].state, s'.members[n].state)
    {
      assert s'.members[..n][k] == s.members[k];
      assert Sound(elf, s.mem, s.members[k].state) by { MemberIsSound(elf, s.mem, s.members[k]); }
      RegionsExist(elf, s.mem, s.members[k].state);
    }
    forall k, l | 0 <= k < |s'.members| && 0 <= l < |s'.members| && k != l
      ensures Separate(s'.members[k].state, s'.members[l].state)
    {
      if k < n && l < n { assert Separate(s.members[k].state, s.members[l].state); }
    }
    forall k | 0 <= k < |s'.members|
      ensures MemberOk(elf, s'.mem, s'.members[k])
    {
      if k < n { assert MemberOk(elf, s'.mem, s.(mem := s'.mem).members[k]); }
    }
    assert s'.mem[BLOB] == elf.blob;
  }

  lemma MemberIsSound(elf: Elf, mem: Memory, m: Member)
    requires MemberOk(elf, mem, m)
    ensures Sound(elf, mem, m.state)
  {}

  lemma LoadKeepsMembers(elf: Elf, s: System, s': System, runtime: seq<Symbol>, explicit: bool, symbolTypes: seq<u32>)
    requires MembersOk(elf, s) && LoadStep(elf, s, s', runtime, explicit, symbolTypes)
    ensures MembersOk(elf, s')
  {
    hide Owned, Frozen, Relocated, SharedExactly;
    var st := s'.members[|s.members|].state;
    forall k | 0 <= k < |s.members|
      ensures s.members[k].state.Regions() !! st.ReadOnly()
    {
      MemberIsSound(elf, s.mem, s.members[k]);
      RegionsExist(elf, s.mem, s.members[k].state);
      BlobIsReadOnly(s.members[k].state);
      forall r | r in s.members[k].state.Regions()
        ensures r !in st.ReadOnly()
      {
        assert r in s.mem && r != BLOB;
        assert r in st.ReadOnly() ==> r in st.ReadOnly() * s.mem.Keys;
      }
    }
    NewMember(elf, s, s');
  }

  lemma CloneKeepsMembers(elf: Elf, s: System, s': System, source: nat, runtime: seq<Symbol>)
    requires MembersOk(elf, s) && CloneStep(elf, s, s', source, runtime)
    ensures MembersOk(elf, s')
  {
    hide Owned, Frozen, Relocated;
    forall k | 0 <= k < |s.members|
      ensures s.members[k].state.Regions() !! s.members[source].state.ReadOnly()
    {
      MemberIsSound(elf, s.mem, s.members[k]);
      if k != source { assert Separate(s.members[k].state, s.members[source].state); }
    }
    NewMember(elf, s, s');
  }

  /** Only this member changes, in regions of its own, which stay the same. */
  lemma ChangedMember(elf: Elf, s: System, s': System, k: nat)
    requires MembersOk(elf, s) && k < |s.members|
    requires |s'.members| == |s.members| && s'.members == s.members[k := s'.members[k]]
    requires ChangesOnly(s.mem, s'.mem, s.members[k].state.Regions())
    requires s'.members[k].state.Regions() == s.members[k].state.Regions()
    requires s'.members[k].state.ReadOnly() == s.members[k].state.ReadOnly()
    requires MemberOk(elf, s'.mem, s'.members[k])
    ensures MembersOk(elf, s')
  {
    hide Sound, ImagesOf, Expected, Owned, Frozen, MemberOk;
    forall l | 0 <= l < |s.members|
      ensures MemberOk(elf, s'.mem, s'.members[l])
    {
      if l != k { UntouchedByOther(elf, s, s'.mem, k, l); }
    }
    forall i, j | 0 <= i < |s.members| && 0 <= j < |s.members| && i != j
      ensures Separate(s'.members[i].state, s'.members[j].state)
    {
      assert Separate(s.members[i].state, s.members[j].state);
    }
    assert BLOB !in s.members[k].state.Regions() by {
      assert MemberOk(elf, s.mem, s.members[k]);
      MemberIsSound(elf, s.mem, s.members[k]);
      SoundIsDisjoint(elf, s.mem, s.members[k].state);
      BlobIsReadOnly(s.members[k].state);
    }
  }

  lemma ScratchKeepsMembers(elf: Elf, s: System, s': System, k: nat, buffers: seq<DeviceBuffer>, status: Status)
    requires MembersOk(elf, s) && ScratchStep(elf, s, s', k, buffers, status)
    ensures MembersOk(elf, s')
  {
    hide Owned, Frozen, Relocated, RunTasks, Separate, WithScratch;
    var m, m' := s.members[k], s'.members[k];
    if |m.state.scratch| == |buffers| > 0 {
      ScratchIsNotData(elf, s.mem, m.state, buffers);
      assert MemberOk(elf, s'.mem, m');
      ChangedMember(elf, s, s', k);
    } else {
      SameMembers(elf, s, s');
    }
  }

  lemma UserIOKeepsMembers(elf: Elf, s: System, s': System, k: nat, io: UserIO, status: Status)
    requires MembersOk(elf, s) && UserIOStep(elf, s, s', k, io, status)
    ensures MembersOk(elf, s')
  {
    hide Owned, Frozen, Relocated, RunTasks, Separate, Sound;
    var m, m' := s.members[k], s'.members[k];
    assert MemberOk(elf, s.mem, m);
    assert m'.jits[..|m'.jits| - 1] == m.jits;
    assert MemberOk(elf, s'.mem, m');
    ChangedMember(elf, s, s', k);
  }

  lemma SameMembers(elf: Elf, s: System, t: System)
    requires MembersOk(elf, s) && t.mem == s.mem && t.members == s.members
    ensures MembersOk(elf, t)
  {
    hide MemberOk, Separate;
  }

  lemma ExtendsKeepsMembers(elf: Elf, s: System, s': System)
    requires MembersOk(elf, s) && Extends(s.mem, s'.mem) && s'.members == s.members
    ensures MembersOk(elf, s')
  {
    hide MembersOk;
    OldMembersStay(elf, s, s'.mem);
    SameMembers(elf, s.(mem := s'.mem), s');
  }

  lemma StepKeepsMembers(elf: Elf, s: System, e: Event, s': System)
    requires MembersOk(elf, s) && Step(elf, s, e, s')
    ensures MembersOk(elf, s')
  {
    hide MembersOk, LoadStep, CloneStep, ScratchStep, UserIOStep, Reads;
    match e
    case Load(runtime, explicit, symbolTypes) => LoadKeepsMembers(elf, s, s', runtime, explicit, symbolTypes);
    case Clone(source) => CloneKeepsMembers(elf, s, s', source, s.members[source].state.runtime);
    case CloneWith(source, runtime) => CloneKeepsMembers(elf, s, s', source, runtime);
    case UpdateScratch(k, buffers, status) => ScratchKeepsMembers(elf, s, s', k, buffers, status);
    case PatchUserIO(k, io, status) => UserIOKeepsMembers(elf, s, s', k, io, status);
    case FindEntry(_) => ExtendsKeepsMembers(elf, s, s');
    case LoadFailed => ExtendsKeepsMembers(elf, s, s');
    case CloneFailed(_) => ExtendsKeepsMembers(elf, s, s');
  }

  // ---------- the readers ----------

  /** What memory may do between two states without touching what readers keep. */
  lemma CachesStay(elf: Elf, s: System, mem': Memory, regions: set<nat>)
    requires ReadersOk(elf, s) && ChangesOnly(s.mem, mem', regions)
    requires forall c :: 0 <= c < |s.readers| ==> regions !! CacheRegions(s.readers[c].cache)
    ensures forall c :: 0 <= c < |s.readers| ==> CacheOk(elf, mem', s.readers[c].cache)
  {
    hide CacheOk, CacheRegions, ChangesOnly;
    forall c | 0 <= c < |s.readers|
      ensures CacheOk(elf, mem', s.readers[c].cache)
    {
      CacheStays(elf, s.mem, mem', s.readers[c].cache, regions);
    }
  }

  lemma MemberApart(elf: Elf, s: System, k: nat, c: nat, cache': Cache)
    requires MembersOk(elf, s) && ReadersOk(elf, s) && k < |s.members| && c < |s.readers|
    requires CacheGrows(s.mem, s.readers[c].cache, cache')
    ensures s.members[k].state.Regions() !! CacheRegions(cache')
  {
    hide Owned, CacheRegions, CacheGrows, Sound, ImagesOf, Expected, Separate;
    assert MemberOk(elf, s.mem, s.members[k]);
    StillApart(elf, s.mem, s.members[k].state, s.readers[c].cache, cache');
  }

  /** A step in which reader c reads, and the acting loader writes its own regions. */
  lemma ReadKeepsReaders(elf: Elf, s: System, s': System, c: nat, atHand: bool, regions: set<nat>)
    requires MembersOk(elf, s) && ReadersOk(elf, s) && Reads(elf, s, s', c, atHand)
    requires ChangesOnly(s.mem, s'.mem, regions)
    requires forall d :: 0 <= d < |s.readers| ==> regions !! CacheRegions(s.readers[d].cache)
    requires |s'.members| == |s.members|
    requires forall k :: 0 <= k < |s.members| ==> s'.members[k].state.Regions() == s.members[k].state.Regions()
    ensures ReadersOk(elf, s')
  {
    hide MembersOk, Owned, CacheRegions, CacheGrows, CacheOk, ChangesOnly;
    CachesStay(elf, s, s'.mem, regions);
    forall d, k | 0 <= d < |s'.readers| && 0 <= k < |s'.members|
      ensures s'.members[k].state.Regions() !! CacheRegions(s'.readers[d].cache)
    {
      if d == c { MemberApart(elf, s, k, c, s'.readers[c].cache); }
    }
  }

  /** A new loader whose own regions are new. */
  lemma NewMemberReaders(elf: Elf, s: System, s': System, t: System)
    requires ReadersOk(elf, s) && ReadersOk(elf, t) && t.mem == s'.mem && t.readers == s'.readers && t.members == s.members
    requires |s'.members| == |s.members| + 1 && s'.members[..|s.members|] == s.members
    requires forall c :: 0 <= c < |s'.readers| ==> s'.members[|s.members|].state.Regions() !! CacheRegions(s'.readers[c].cache)
    ensures ReadersOk(elf, s')
  {
    hide Owned, CacheRegions, CacheOk;
    forall c, k | 0 <= c < |s'.readers| && 0 <= k < |s'.members|
      ensures s'.members[k].state.Regions() !! CacheRegions(s'.readers[c].cache)
    {
      if k < |s.members| { assert s'.members[..|s.members|][k] == s.members[k]; }
    }
  }

  lemma OldCachesExist(elf: Elf, s: System, c: nat)
    requires ReadersOk(elf, s) && c < |s.readers|
    ensures CacheRegions(s.readers[c].cache) <= s.mem.Keys
  {
    hide CacheRegions, CacheOk;
    CacheExists(elf, s.mem, s.readers[c].cache);
  }

  lemma LoadKeepsReaders(elf: Elf, s: System, s': System, runtime: seq<Symbol>, explicit: bool, symbolTypes: seq<u32>)
    requires MembersOk(elf, s) && ReadersOk(elf, s) && LoadStep(elf, s, s', runtime, explicit, symbolTypes)
    ensures ReadersOk(elf, s')
  {
    hide MembersOk, Owned, Frozen, CacheRegions, CacheOk, CacheGrows, Classified, Relocated, Sound, EarlyTables, AllCached;
    var t, n := System(s'.mem, s'.readers, s.members), |s.readers|;
    var cache := s'.readers[n].cache;
    CachesStay(elf, s, s'.mem, {});
    forall c | 0 <= c < n
      ensures s'.readers[c] == s.readers[c]
    {
      assert s'.readers[..n][c] == s.readers[c];
    }
    forall k | 0 <= k < |s.members|
      ensures s.members[k].state.Regions() !! CacheRegions(cache)
    {
      NewCacheApart(elf, s, k, cache);
    }
    forall c | 0 <= c < n
      ensures s'.members[|s.members|].state.Regions() !! CacheRegions(s'.readers[c].cache)
    {
      OldCachesExist(elf, s, c);
    }
    NewMemberReaders(elf, s, s', t);
  }

  lemma NewCacheApart(elf: Elf, s: System, k: nat, cache: Cache)
    requires MembersOk(elf, s) && k < |s.members| && CacheGrows(s.mem, map[], cache)
    ensures s.members[k].state.Regions() !! CacheRegions(cache)
  {
    hide Owned, CacheGrows, Sound, ImagesOf, Expected, Separate;
    assert MemberOk(elf, s.mem, s.members[k]);
    assert CacheRegions(map[]) == {};
    hide CacheRegions;
    StillApart(elf, s.mem, s.members[k].state, map[], cache);
  }

  lemma CloneKeepsReaders(elf: Elf, s: System, s': System, source: nat, runtime: seq<Symbol>)
    requires MembersOk(elf, s) && ReadersOk(elf, s) && CloneStep(elf, s, s', source, runtime)
    ensures ReadersOk(elf, s')
  {
    hide MembersOk, Owned, Frozen, CacheRegions, CacheOk, CacheGrows, Relocated, Sound, RelocsAtHand;
    var c := s.members[source].reader;
    var t := System(s'.mem, s'.readers, s.members);
    ReadKeepsReaders(elf, s, t, c, RelocsAtHand(elf, s, s.members[source]), {});
    forall d | 0 <= d < |s'.readers|
      ensures s'.members[|s.members|].state.Regions() !! CacheRegions(s'.readers[d].cache)
    {
      if d != c { OldCachesExist(elf, s, d); }
    }
    NewMemberReaders(elf, s, s', t);
  }

  lemma StepKeepsReaders(elf: Elf, s: System, e: Event, s': System)
    requires MembersOk(elf, s) && ReadersOk(elf, s) && Step(elf, s, e, s')
    ensures ReadersOk(elf, s')
  {
    hide MembersOk, LoadStep, CloneStep, Owned, CacheRegions, CacheOk, CacheGrows, Reads, RelocsAtHand, Sound, WithScratch,
      EarlyTables, TablesCached, Frozen, Relocated, RunTasks;
    match e
    case Load(runtime, explicit, symbolTypes) => LoadKeepsReaders(elf, s, s', runtime, explicit, symbolTypes);
    case Clone(source) => CloneKeepsReaders(elf, s, s', source, s.members[source].state.runtime);
    case CloneWith(source, runtime) => CloneKeepsReaders(elf, s, s', source, runtime);
    case UpdateScratch(k, buffers, status) =>
      var m := s.members[k];
      if |m.state.scratch| == |buffers| { ScratchIsNotData(elf, s.mem, m.state, buffers); }
      ReadKeepsReaders(elf, s, s', m.reader, RelocsAtHand(elf, s, m), m.state.Regions());
    case PatchUserIO(k, io, status) =>
      var m := s.members[k];
      ReadKeepsReaders(elf, s, s', m.reader, TablesCached(elf, s.readers[m.reader].cache.Keys, m.state.jitIndexes),
                       m.state.Regions());
    case FindEntry(k) =>
      var c := s.members[k].reader;
      ReadKeepsReaders(elf, s, s', c, EarlyTables(elf, s.readers[c].cache.Keys, |elf.headers|), {});
    case LoadFailed => CachesStay(elf, s, s'.mem, {});
    case CloneFailed(source) =>
      var m := s.members[source];
      ReadKeepsReaders(elf, s, s', m.reader, RelocsAtHand(elf, s, m), {});
  }

  // ---------- classification ----------

  /** Buffers and symbols do not matter for it. */
  lemma ClassifiedKept(elf: Elf, st: LoaderState, st': LoaderState)
    requires Classified(elf, st) && st'.explicit == st.explicit && st'.infer.Keys == st.infer.Keys
    requires st'.relocIndexes == st.relocIndexes && st'.jitIndexes == st.jitIndexes && st'.scratch == st.scratch
    requires forall i :: i in st.infer ==>
      st'.infer[i].hasData == st.infer[i].hasData && st'.infer[i].isShared == st.infer[i].isShared
    ensures Classified(elf, st')
  {
    hide IsData, IsScratch, IsTarget;
    forall i ensures i in st'.infer <==> i in st.infer {}
  }

  lemma CloneClassified(elf: Elf, mem: Memory, mem': Memory, src: LoaderState, st: LoaderState, runtime: seq<Symbol>)
    requires Classified(elf, src) && Sound(elf, mem, src) && ClonePost(elf, mem, mem', src, st, runtime)
    ensures Classified(elf, st)
  {
    hide Classified, Sound, Owned, Frozen, Relocated;
    forall i | i in src.infer
      ensures st.infer[i].hasData == src.infer[i].hasData && st.infer[i].isShared == src.infer[i].isShared
    {
      assert i in st.infer;
    }
    ClassifiedKept(elf, src, st);
  }

  lemma ScratchClassified(elf: Elf, mem: Memory, mem': Memory, st: LoaderState, st': LoaderState,
                          buffers: seq<DeviceBuffer>, status: Status)
    requires Classified(elf, st) && Sound(elf, mem, st) && ScratchPost(elf, mem, mem', st, st', buffers, status)
    ensures Classified(elf, st')
  {
    if st'.infer != st.infer {
      SoundScratch(elf, mem, st);
      hide Classified, Sound, Owned, Frozen, Relocated, WithScratch;
      forall i | i in st.infer
        ensures st'.infer[i].hasData == st.infer[i].hasData && st'.infer[i].isShared == st.infer[i].isShared
      {
        assert st'.infer[i].(buffer := st.infer[i].buffer) == st.infer[i];
      }
      ClassifiedKept(elf, st, st');
    }
  }

  lemma ReaderGrows(elf: Elf, s: System, s': System, c: nat, atHand: bool, d: nat)
    requires Reads(elf, s, s', c, atHand) && d < |s.readers|
    ensures |s'.readers| == |s.readers| && s.readers[d].cache.Keys <= s'.readers[d].cache.Keys
  {
    hide CacheOk, CacheRegions;
  }

  lemma LoadedStays(elf: Elf, s: System, s': System, m: Member, m': Member)
    requires LoadedOk(elf, s, m) && Classified(elf, m'.state) && m'.reader == m.reader && |s'.readers| >= |s.readers|
    requires s.readers[m.reader].cache.Keys <= s'.readers[m.reader].cache.Keys
    ensures LoadedOk(elf, s', m')
  {
    hide Classified, NeededLater;
  }

  lemma ReadKeepsLoaded(elf: Elf, s: System, s': System, c: nat, atHand: bool)
    requires AllLoadedOk(elf, s) && Reads(elf, s, s', c, atHand)
    ensures forall k :: 0 <= k < |s.members| ==> LoadedOk(elf, s', s.members[k])
  {
    hide Reads, Classified, EarlyTables;
    forall k | 0 <= k < |s.members|
      ensures LoadedOk(elf, s', s.members[k])
    {
      assert LoadedOk(elf, s, s.members[k]);
      ReaderGrows(elf, s, s', c, atHand, s.members[k].reader);
      LoadedStays(elf, s, s', s.members[k], s.members[k]);
    }
  }

  lemma LoadKeepsLoaded(elf: Elf, s: System, s': System, runtime: seq<Symbol>, explicit: bool, symbolTypes: seq<u32>)
    requires AllLoadedOk(elf, s) && LoadStep(elf, s, s', runtime, explicit, symbolTypes)
    ensures AllLoadedOk(elf, s')
  {
    hide Classified, EarlyTables, Sound, Owned, Frozen, Relocated, CacheOk, CacheGrows, CacheRegions, AllCached;
    forall k | 0 <= k < |s'.members|
      ensures LoadedOk(elf, s', s'.members[k])
    {
      if k < |s.members| {
        assert s'.members[..|s.members|][k] == s.members[k] && LoadedOk(elf, s, s.members[k]);
        assert s'.readers[..|s.readers|][s.members[k].reader] == s.readers[s.members[k].reader];
      }
    }
  }

  lemma CloneKeepsLoaded(elf: Elf, s: System, s': System, source: nat, runtime: seq<Symbol>)
    requires AllLoadedOk(elf, s) && CloneStep(elf, s, s', source, runtime)
    ensures AllLoadedOk(elf, s')
  {
    hide Classified, EarlyTables, Sound, Owned, Frozen, Relocated, CacheOk, CacheGrows, CacheRegions, Reads, RelocsAtHand;
    var src := s.members[source];
    ReadKeepsLoaded(elf, s, s', src.reader, RelocsAtHand(elf, s, src));
    assert LoadedOk(elf, s, src);
    CloneClassified(elf, s.mem, s'.mem, src.state, s'.members[|s.members|].state, runtime);
    forall k | 0 <= k < |s'.members|
      ensures LoadedOk(elf, s', s'.members[k])
    {
      if k < |s.members| { assert s'.members[..|s.members|][k] == s.members[k]; }
    }
  }

  lemma StepKeepsLoaded(elf: Elf, s: System, e: Event, s': System)
    requires AllLoadedOk(elf, s) && Step(elf, s, e, s')
    ensures AllLoadedOk(elf, s')
  {
    hide Classified, EarlyTables, Sound, Owned, Frozen, Relocated, CacheOk, CacheGrows, CacheRegions, Reads, RelocsAtHand, LoadStep,
      CloneStep, TablesCached, RunTasks, ScratchPost, JitPost, LoadedOk;
    match e
    case Load(runtime, explicit, symbolTypes) => LoadKeepsLoaded(elf, s, s', runtime, explicit, symbolTypes);
    case Clone(source) => CloneKeepsLoaded(elf, s, s', source, s.members[source].state.runtime);
    case CloneWith(source, runtime) => CloneKeepsLoaded(elf, s, s', source, runtime);
    case UpdateScratch(k, buffers, status) =>
      var m := s.members[k];
      ReadKeepsLoaded(elf, s, s', m.reader, RelocsAtHand(elf, s, m));
      LoadedParts(elf, s, m);
      ScratchClassified(elf, s.mem, s'.mem, m.state, s'.members[k].state, buffers, status);
      SameReader(elf, s', m, s'.members[k]);
    case PatchUserIO(k, io, status) =>
      var m := s.members[k];
      ReadKeepsLoaded(elf, s, s', m.reader, TablesCached(elf, s.readers[m.reader].cache.Keys, m.state.jitIndexes));
      LoadedParts(elf, s, m);
      SameReader(elf, s', m, s'.members[k]);
    case FindEntry(k) =>
      var c := s.members[k].reader;
      ReadKeepsLoaded(elf, s, s', c, EarlyTables(elf, s.readers[c].cache.Keys, |elf.headers|));
    case LoadFailed => SameReaders(elf, s, s');
    case CloneFailed(source) =>
      var m := s.members[source];
      ReadKeepsLoaded(elf, s, s', m.reader, RelocsAtHand(elf, s, m));
  }

  lemma LoadedParts(elf: Elf, s: System, m: Member)
    requires LoadedOk(elf, s, m)
    ensures Classified(elf, m.state) && m.reader < |s.readers|
  {}

  lemma SameReader(elf: Elf, s: System, m: Member, m': Member)
    requires LoadedOk(elf, s, m) && Classified(elf, m'.state) && m'.reader == m.reader
    ensures LoadedOk(elf, s, m')
  {}

  lemma SameReaders(elf: Elf, s: System, s': System)
    requires AllLoadedOk(elf, s) && s'.members == s.members && s'.readers == s.readers
    ensures AllLoadedOk(elf, s')
  {
    hide Classified, EarlyTables;
    forall k | 0 <= k < |s'.members|
      ensures LoadedOk(elf, s', s'.members[k])
    {
      assert LoadedOk(elf, s, s.members[k]);
    }
  }

  // ---------- runs ----------

  lemma StepKeepsInv(elf: Elf, s: System, e: Event, s': System)
    requires Inv(elf, s) && Step(elf, s, e, s')
    ensures Inv(elf, s')
  {
    hide Step, MembersOk, ReadersOk, AllLoadedOk;
    StepKeepsMembers(elf, s, e, s');
    StepKeepsReaders(elf, s, e, s');
    StepKeepsLoaded(elf, s, e, s');
  }

  /** In every state of every run, each loader's private images are what its own history makes of the file's bytes:
      its load-time relocations applied once, then its user-buffer patches, whatever other loaders did; its sections
      are classified and shared as the file's headers say; and what the readers keep is what the file holds. */
  lemma {:induction false} RunKeepsInv(elf: Elf, run: seq<System>, events: seq<Event>, n: nat)
    requires IsRun(elf, run, events) && n < |run|
    ensures Inv(elf, run[n])
  {
    hide Step, Inv;
    if n == 0 {
      NoMembers(elf, run[0]);
    } else {
      RunKeepsInv(elf, run, events, n - 1);
      assert Step(elf, run[n - 1], events[n - 1], run[n - 1 + 1]);
      StepKeepsInv(elf, run[n - 1], events[n - 1], run[n]);
    }
  }

  lemma NoMembers(elf: Elf, s: System)
    requires s.members == [] && s.readers == [] && BLOB in s.mem && s.mem[BLOB] == elf.blob
    ensures Inv(elf, s)
  {}

  // ---------- what the invariant means for the images ----------

  lemma StaticTasksHaveTargets(elf: Elf, mem: Memory, st: LoaderState)
    requires Sound(elf, mem, st)
    ensures HaveTargets(PrivateKeys(st.infer), StaticTasks(elf, st.Ctx(), st.relocIndexes))
  {
    hide ResolveStatic, SoundData, Injective, Owned, Frozen, IsScratchEntry;
    var tasks := StaticTasks(elf, st.Ctx(), st.relocIndexes);
    forall t | t in tasks && t.Patches?
      ensures t.target in PrivateKeys(st.infer)
    {
      var k :| 0 <= k < |tasks| && tasks[k] == t;
      assert st.relocIndexes[k] in st.relocIndexes;
      assert PrivateTarget(elf, st.infer, st.relocIndexes[k]);
    }
  }

  lemma UserTasksHaveTargets(elf: Elf, mem: Memory, st: LoaderState, io: UserIO)
    requires Sound(elf, mem, st)
    ensures HaveTargets(PrivateKeys(st.infer), UserTasks(elf, st, io))
  {
    hide ResolveJit, SoundData, Injective, Owned, Frozen, IsScratchEntry;
    var tasks := UserTasks(elf, st, io);
    forall t | t in tasks && t.Patches?
      ensures t.target in PrivateKeys(st.infer)
    {
      var k :| 0 <= k < |tasks| && tasks[k] == t;
      assert st.jitIndexes[k] in st.jitIndexes;
      assert PrivateTarget(elf, st.infer, st.jitIndexes[k]);
    }
  }

  lemma BaseCoversPrivate(elf: Elf, mem: Memory, m: Member)
    requires Sound(elf, mem, m.state)
    ensures Base(elf, m).Keys == PrivateKeys(m.state.infer)
  {
    var st := m.state;
    hide RunTasks, StaticTasks, Injective, Owned, Frozen;
    forall i | i in PrivateKeys(st.infer)
      ensures i < |elf.headers| && elf.InBlob(i)
    {
      assert SoundData(elf, mem, st, i);
    }
    assert PristineImages(elf, PrivateKeys(st.infer)).Keys == PrivateKeys(st.infer);
  }

  /** Every private buffer of a loader whose relocations ran, and that was not patched since, holds the file's bytes
      with all load-time relocations for its section applied exactly once, in file order, resolved against this
      loader's own addresses and symbols. */
  lemma CanonicalImages(elf: Elf, s: System, k: nat, i: nat)
    requires MembersOk(elf, s) && k < |s.members| && i in PrivateKeys(s.members[k].state.infer)
    requires s.members[k].relocated && s.members[k].jits == [] && Relocated(elf, s.members[k].state).status.Ok?
    ensures var st := s.members[k].state;
      i in ImagesOf(s.mem, st.infer) && i < |elf.headers| && elf.InBlob(i) &&
      ImagesOf(s.mem, st.infer)[i]
        == PatchAll(elf.Pristine(i), JobsFor(StaticTasks(elf, st.Ctx(), st.relocIndexes), i)).image
  {
    hide RunTasks, PatchAll, JobsFor, StaticTasks, Injective, Owned, Frozen, NoneFails;
    var m := s.members[k];
    assert MemberOk(elf, s.mem, m);
    StaticTasksHaveTargets(elf, s.mem, m.state);
    assert m.state.infer[i].hasData;
    assert SoundData(elf, s.mem, m.state, i);
    EachSectionItsOwn(PristineImages(elf, PrivateKeys(m.state.infer)), StaticTasks(elf, m.state.Ctx(), m.state.relocIndexes));
  }

  /** When the relocations of a load or of a copy succeed: every section passes its checks, and every private section
      accepts its own relocations, given this loader's addresses and symbols. */
  lemma RelocationSucceedsExactly(elf: Elf, mem: Memory, st: LoaderState)
    requires Sound(elf, mem, st)
    ensures forall i :: i in PrivateKeys(st.infer) ==> i < |elf.headers| && elf.InBlob(i)
    ensures AllInFile(elf, st.relocIndexes)
    ensures Relocated(elf, st).status.Ok? <==>
      (forall k :: 0 <= k < |st.relocIndexes| ==> CheckStatic(elf, st.infer.Keys, st.relocIndexes[k]).Ok?) &&
      (forall i :: i in PrivateKeys(st.infer) ==>
        PatchAll(elf.Pristine(i), JobsFor(StaticTasks(elf, st.Ctx(), st.relocIndexes), i)).status.Ok?)
  {
    hide RunTasks, PatchAll, JobsFor, StaticTask, Injective, Owned, Frozen, NoneFails, CheckStatic;
    forall i | i in PrivateKeys(st.infer)
      ensures i < |elf.headers| && elf.InBlob(i)
    {
      assert SoundData(elf, mem, st, i);
    }
    hide SoundData;
    StaticTasksHaveTargets(elf, mem, st);
    EachSectionItsOwn(PristineImages(elf, PrivateKeys(st.infer)), StaticTasks(elf, st.Ctx(), st.relocIndexes));
    NoSectionFails(elf, st.Ctx(), st.relocIndexes);
    assert st.Ctx().addresses.Keys == st.infer.Keys;
  }

  lemma NoSectionFails(elf: Elf, c: Context, indexes: seq<nat>)
    requires AllInFile(elf, indexes)
    ensures NoneFails(StaticTasks(elf, c, indexes))
      <==> forall k :: 0 <= k < |indexes| ==> CheckStatic(elf, c.addresses.Keys, indexes[k]).Ok?
  {
    hide CheckStatic, ResolveStatic, Elf.Relocs, Elf.TableInside;
    var tasks := StaticTasks(elf, c, indexes);
    if NoneFails(tasks) {
      forall k | 0 <= k < |indexes| ensures CheckStatic(elf, c.addresses.Keys, indexes[k]).Ok? {
        assert tasks[k] in tasks;
      }
    }
  }

  /** In particular, a file without load-time relocations loads, once its sections do, and its copies never throw. */
  lemma NothingToRelocate(elf: Elf, st: LoaderState)
    requires st.relocIndexes == []
    ensures Relocated(elf, st).status == Ok && LoadOutcome(elf, st) == Ok
  {}

  lemma ClassifiedAlike(elf: Elf, a: LoaderState, b: LoaderState)
    requires Classified(elf, a) && Classified(elf, b) && a.explicit == b.explicit
    ensures a.relocIndexes == b.relocIndexes && PrivateKeys(a.infer) == PrivateKeys(b.infer)
  {
    hide IsData, IsScratch, IsTarget;
  }

  /** Loaders of one file, loaded with the same allocation mode, with their buffers at the same addresses and the same
      symbols, have identical images whenever their relocations ran and no user buffers were patched in: in whichever
      runs they live, and whether they were loaded, cloned from a patched loader or given scratch buffers late. */
  lemma SameAddressesSameImages(elf: Elf, run: seq<System>, events: seq<Event>, n: nat, k: nat,
                                run': seq<System>, events': seq<Event>, n': nat, k': nat)
    requires IsRun(elf, run, events) && n < |run| && k < |run[n].members|
    requires IsRun(elf, run', events') && n' < |run'| && k' < |run'[n'].members|
    requires run[n].members[k].relocated && run'[n'].members[k'].relocated
    requires run[n].members[k].jits == run'[n'].members[k'].jits == []
    requires run[n].members[k].state.Ctx() == run'[n'].members[k'].state.Ctx()
    requires run[n].members[k].state.explicit == run'[n'].members[k'].state.explicit
    ensures ImagesOf(run[n].mem, run[n].members[k].state.infer) == ImagesOf(run'[n'].mem, run'[n'].members[k'].state.infer)
  {
    hide RunTasks, Sound, StaticTasks, ImagesOf, PristineImages, Classified, IsRun, ReadersOk, EarlyTables;
    RunKeepsInv(elf, run, events, n);
    RunKeepsInv(elf, run', events', n');
    var m, m' := run[n].members[k], run'[n'].members[k'];
    assert MemberOk(elf, run[n].mem, m) && MemberOk(elf, run'[n'].mem, m');
    assert LoadedOk(elf, run[n], m) && LoadedOk(elf, run'[n'], m');
    ClassifiedAlike(elf, m.state, m'.state);
  }

  lemma UserTasksSameShape(elf: Elf, st: LoaderState, a: UserIO, b: UserIO)
    requires AllInFile(elf, st.jitIndexes)
    ensures SameShape(UserTasks(elf, st, a), UserTasks(elf, st, b))
  {}

  /** All JIT relocations are of overwriting types. */
  predicate JitOverwrites(elf: Elf, st: LoaderState)
    requires AllInFile(elf, st.jitIndexes)
  {
    forall j :: j in st.jitIndexes && j < |elf.headers| && elf.InBlob(j) && elf.TableInside(j) ==>
      forall r :: r in elf.Relocs(j) ==> Overwriting(r.rtype)
  }

  lemma JitTasksOverwrite(elf: Elf, st: LoaderState, io: UserIO)
    requires AllInFile(elf, st.jitIndexes) && JitOverwrites(elf, st)
    ensures OnlyOverwriting(UserTasks(elf, st, io))
  {
    hide Overwriting, ResolveJit, Elf.Relocs, Elf.EntriesNum, Elf.TableInside;
    forall t | t in UserTasks(elf, st, io) && t.Patches?
      ensures AllOverwriting(t.jobs)
    {
      var k :| 0 <= k < |st.jitIndexes| && UserTasks(elf, st, io)[k] == t;
      var relocs := elf.Relocs(st.jitIndexes[k]);
      forall job | job in t.jobs
        ensures Overwriting(job.rela.rtype)
      {
        var n :| 0 <= n < |t.jobs| && t.jobs[n] == job;
        assert job.rela == relocs[n] && relocs[n] in relocs;
      }
    }
  }

  /** Earlier patches, failed ones included, do not decide how a later one ends, and leave no trace once it succeeds. */
  lemma {:induction false} EarlierJitsForgotten(elf: Elf, st: LoaderState, images: Images, jits: seq<UserIO>, io: UserIO)
    requires AllInFile(elf, st.jitIndexes) && JitOverwrites(elf, st)
    requires forall u :: HaveTargets(images.Keys, UserTasks(elf, st, u))
    ensures AfterJits(elf, st, images, jits).Keys == images.Keys
    ensures var tasks := UserTasks(elf, st, io);
      var after, alone := RunTasks(AfterJits(elf, st, images, jits), tasks), RunTasks(images, tasks);
      after.status == alone.status && (after.status.Ok? ==> after == alone)
    decreases |jits|
  {
    hide RunTasks, JitOverwrites, UserTasks, SameShape, OnlyOverwriting, HaveTargets;
    if jits != [] {
      var before, last := jits[..|jits| - 1], jits[|jits| - 1];
      EarlierJitsForgotten(elf, st, images, before, io);
      UserTasksSameShape(elf, st, last, io);
      JitTasksOverwrite(elf, st, last);
      JitTasksOverwrite(elf, st, io);
      JitAbsorbs(AfterJits(elf, st, images, before), UserTasks(elf, st, last), UserTasks(elf, st, io));
    }
  }

  /** With overwriting JIT relocations, once a patch succeeds the images are those of patching the unpatched images
      with these user buffers alone, however often the loader was patched before. */
  lemma OnlyLastUserIOCounts(elf: Elf, s: System, s': System, k: nat, io: UserIO)
    requires Inv(elf, s) && Step(elf, s, PatchUserIO(k, io, Ok), s') && JitOverwrites(elf, s.members[k].state)
    ensures AllInFile(elf, s.members[k].state.relocIndexes)
    ensures ImagesOf(s'.mem, s'.members[k].state.infer)
      == RunTasks(Base(elf, s.members[k]), UserTasks(elf, s.members[k].state, io)).images
  {
    hide RunTasks, JitOverwrites, UserTasks, HaveTargets, ImagesOf, Base, Separate, SoundData, Reads, ReadersOk, AllLoadedOk;
    var m := s.members[k];
    assert MemberOk(elf, s.mem, m);
    BaseCoversPrivate(elf, s.mem, m);
    forall u
      ensures HaveTargets(Base(elf, m).Keys, UserTasks(elf, m.state, u))
    {
      UserTasksHaveTargets(elf, s.mem, m.state, u);
    }
    EarlierJitsForgotten(elf, m.state, Base(elf, m), m.jits, io);
    UserTasksAre(elf, m.state, io);
  }

  lemma UserTasksAre(elf: Elf, st: LoaderState, io: UserIO)
    requires AllInFile(elf, st.jitIndexes)
    ensures UserTasks(elf, st, io) == JitTasks(elf, st.infer.Keys, io, st.jitIndexes)
  {}

  // ---------- the reader's cache over runs ----------

  /** What a reader keeps of a section is what a fresh read of the file would give, in every state of every run. */
  lemma CachedIsFresh(elf: Elf, run: seq<System>, events: seq<Event>, n: nat, c: nat, i: nat)
    requires IsRun(elf, run, events) && n < |run| && c < |run[n].readers| && i in run[n].readers[c].cache
    ensures var b := run[n].readers[c].cache[i];
      i < |elf.headers| && elf.InBlob(i) && Placed(run[n].mem, b) && BytesOf(run[n].mem, b) == elf.Pristine(i)
  {
    hide IsRun, MembersOk, AllLoadedOk, Placed, BytesOf;
    RunKeepsInv(elf, run, events, n);
    assert CacheOk(elf, run[n].mem, run[n].readers[c].cache);
    assert CachedRight(elf, run[n].mem, i, run[n].readers[c].cache[i]);
  }

  lemma AllCachedGrows(elf: Elf, cached: set<nat>, cached': set<nat>)
    requires AllCached(elf, cached) && cached <= cached'
    ensures AllCached(elf, cached')
  {
    hide NeededLater, RelocSections;
  }

  lemma AllAtHand(elf: Elf, s: System, m: Member)
    requires LoadedOk(elf, s, m) && AllCached(elf, s.readers[m.reader].cache.Keys)
    ensures RelocsAtHand(elf, s, m)
    ensures TablesCached(elf, s.readers[m.reader].cache.Keys, m.state.jitIndexes)
    ensures EarlyTables(elf, s.readers[m.reader].cache.Keys, |elf.headers|)
  {
    hide SharedExactly, IsData, IsScratch, LinkCached, TablesCached, EarlyTables;
    JitTablesCached(elf, s.readers[m.reader].cache.Keys);
  }

  lemma ReadsNothing(elf: Elf, s: System, e: Event, s': System, c: nat)
    requires AllLoadedOk(elf, s) && Step(elf, s, e, s') && c < |s.readers| && AllCached(elf, s.readers[c].cache.Keys)
    ensures c < |s'.readers| && s'.readers[c].accesses == s.readers[c].accesses
    ensures AllCached(elf, s'.readers[c].cache.Keys)
  {
    hide AllCached, LoadPost, ClonePost, ScratchPost, JitPost, RelocsAtHand, LoadedOk, CacheOk, CacheRegions, TablesCached,
      EarlyTables, Sound, Owned, Reads;
    match e {
      case Load(_, _, _) => assert s'.readers[..|s.readers|][c] == s.readers[c];
      case Clone(source) => RelocsReadNothing(elf, s, s', s.members[source], c);
      case CloneWith(source, _) => RelocsReadNothing(elf, s, s', s.members[source], c);
      case UpdateScratch(k, _, _) => RelocsReadNothing(elf, s, s', s.members[k], c);
      case PatchUserIO(k, _, _) =>
        var m := s.members[k];
        MemberReadsNothing(elf, s, m, c);
        OtherReaders(elf, s, s', m.reader, TablesCached(elf, s.readers[m.reader].cache.Keys, m.state.jitIndexes), c);
      case FindEntry(k) =>
        var m := s.members[k];
        MemberReadsNothing(elf, s, m, c);
        OtherReaders(elf, s, s', m.reader, EarlyTables(elf, s.readers[m.reader].cache.Keys, |elf.headers|), c);
      case LoadFailed =>
      case CloneFailed(source) => RelocsReadNothing(elf, s, s', s.members[source], c);
    }
    AllCachedGrows(elf, s.readers[c].cache.Keys, s'.readers[c].cache.Keys);
  }

  lemma RelocsReadNothing(elf: Elf, s: System, s': System, m: Member, c: nat)
    requires LoadedOk(elf, s, m) && Reads(elf, s, s', m.reader, RelocsAtHand(elf, s, m))
    requires c < |s.readers| && AllCached(elf, s.readers[c].cache.Keys)
    ensures c < |s'.readers| && s'.readers[c].accesses == s.readers[c].accesses
    ensures s.readers[c].cache.Keys <= s'.readers[c].cache.Keys
  {
    hide LoadedOk, Reads, RelocsAtHand, AllCached;
    MemberReadsNothing(elf, s, m, c);
    OtherReaders(elf, s, s', m.reader, RelocsAtHand(elf, s, m), c);
  }

  lemma OtherReaders(elf: Elf, s: System, s': System, r: nat, atHand: bool, c: nat)
    requires Reads(elf, s, s', r, atHand) && c < |s.readers| && (r == c ==> atHand)
    ensures c < |s'.readers| && s'.readers[c].accesses == s.readers[c].accesses
    ensures s.readers[c].cache.Keys <= s'.readers[c].cache.Keys
  {
    hide CacheOk, CacheRegions;
  }

  lemma MemberReadsNothing(elf: Elf, s: System, m: Member, c: nat)
    requires LoadedOk(elf, s, m) && c < |s.readers| && AllCached(elf, s.readers[c].cache.Keys)
    ensures m.reader < |s.readers| && (m.reader == c ==>
      RelocsAtHand(elf, s, m) && TablesCached(elf, s.readers[m.reader].cache.Keys, m.state.jitIndexes) &&
      EarlyTables(elf, s.readers[m.reader].cache.Keys, |elf.headers|))
  {
    hide AllCached, RelocsAtHand, TablesCached, EarlyTables, Classified;
    if m.reader == c { AllAtHand(elf, s, m); }
  }

  /** Once a reader keeps everything, no operation of any loader that uses it goes to the access manager again: no
      patch, clone, scratch update or entry lookup, successful or not, in any order. */
  lemma {:induction false} NoMoreAccesses(elf: Elf, run: seq<System>, events: seq<Event>, a: nat, b: nat, c: nat)
    requires IsRun(elf, run, events) && a <= b < |run|
    requires c < |run[a].readers| && AllCached(elf, run[a].readers[c].cache.Keys)
    ensures c < |run[b].readers| && run[b].readers[c].accesses == run[a].readers[c].accesses
    ensures AllCached(elf, run[b].readers[c].cache.Keys)
    decreases b
  {
    hide Step, AllCached, MembersOk, ReadersOk, AllLoadedOk;
    if a < b {
      NoMoreAccesses(elf, run, events, a, b - 1, c);
      RunKeepsInv(elf, run, events, b - 1);
      assert Step(elf, run[b - 1], events[b - 1], run[b - 1 + 1]);
      ReadsNothing(elf, run[b - 1], events[b - 1], run[b], c);
    }
  }

  /** A load without pending scratch buffers leaves its reader in that state, and so does, after a load with pending
      ones, the first scratch update or copy construction that succeeds. */
  lemma EverythingIsCached(elf: Elf, s: System, e: Event, s': System)
    requires Inv(elf, s) && Step(elf, s, e, s')
    ensures e.Load? && s'.members[|s.members|].state.scratch == [] ==>
      AllCached(elf, s'.readers[s'.members[|s.members|].reader].cache.Keys)
    ensures e.UpdateScratch? && e.status.Ok? && s.members[e.member].state.scratch != [] ==>
      AllCached(elf, s'.readers[s.members[e.member].reader].cache.Keys)
    ensures e.Clone? || e.CloneWith? ==> AllCached(elf, s'.readers[s.members[e.source].reader].cache.Keys)
  {
    hide MembersOk, ReadersOk, LoadPost, ClonePost, ScratchPost, JitPost, CacheOk, CacheGrows, CacheRegions, Sound, Owned,
      Reads, LoadedOk, EarlyTables, TablesCached;
    StepKeepsLoaded(elf, s, e, s');
    match e
    case UpdateScratch(k, _, _) => AtHandIsCached(elf, s, s', s'.members[k], s.members[k]);
    case Clone(source) => AtHandIsCached(elf, s, s', s'.members[|s.members|], s.members[source]);
    case CloneWith(source, _) => AtHandIsCached(elf, s, s', s'.members[|s.members|], s.members[source]);
    case _ =>
  }

  lemma AtHandIsCached(elf: Elf, s: System, s': System, m': Member, m: Member)
    requires LoadedOk(elf, s, m) && LoadedOk(elf, s', m') && m'.reader == m.reader
    ensures RelocsAtHand(elf, s', m) ==> AllCached(elf, s'.readers[m.reader].cache.Keys)
  {
    hide SharedExactly, IsData, IsScratch, TablesCached, EarlyTables, RelocSections;
  }

  // ---------- what a run never changes ----------

  lemma ScratchChangesOwn(elf: Elf, s: System, e: Event, s': System)
    requires MembersOk(elf, s) && e.UpdateScratch? && Step(elf, s, e, s')
    ensures ChangesOnly(s.mem, s'.mem, s.members[e.member].state.Regions())
  {
    hide MembersOk, Sound, Reads, Owned, Frozen, Relocated, WithScratch;
  }

  lemma ImagesKept(elf: Elf, s: System, e: Event, s': System, k: nat)
    requires MembersOk(elf, s) && Step(elf, s, e, s') && k < |s.members|
    requires !(e.UpdateScratch? && e.member == k) && !(e.PatchUserIO? && e.member == k)
    ensures |s'.members| >= |s.members| && s'.members[k] == s.members[k]
    ensures ImagesOf(s'.mem, s.members[k].state.infer) == ImagesOf(s.mem, s.members[k].state.infer)
  {
    hide Sound, ImagesOf, Expected, Owned, Frozen, MemberOk, Separate, MembersOk, Relocated, RunTasks, SharedExactly, WithScratch;
    match e
    case Load(_, _, _) => OldMembersStay(elf, s, s'.mem); assert s'.members[..|s.members|][k] == s.members[k];
    case Clone(source) => OldMembersStay(elf, s, s'.mem); assert s'.members[..|s.members|][k] == s.members[k];
    case CloneWith(source, _) => OldMembersStay(elf, s, s'.mem); assert s'.members[..|s.members|][k] == s.members[k];
    case UpdateScratch(j, _, _) => ScratchChangesOwn(elf, s, e, s'); UntouchedByOther(elf, s, s'.mem, j, k);
    case PatchUserIO(j, _, _) => UntouchedByOther(elf, s, s'.mem, j, k);
    case FindEntry(_) => OldMembersStay(elf, s, s'.mem);
    case LoadFailed => OldMembersStay(elf, s, s'.mem);
    case CloneFailed(_) => OldMembersStay(elf, s, s'.mem);
  }

  /** A step writes only regions that the acting loader owns: the file, the backups and the shared buffers of every
      loader keep their bytes. */
  lemma ReadOnlyKept(elf: Elf, s: System, e: Event, s': System, k: nat, r: nat)
    requires MembersOk(elf, s) && Step(elf, s, e, s') && k < |s.members| && r in s.members[k].state.ReadOnly()
    ensures r in s.mem && r in s'.mem && s'.mem[r] == s.mem[r]
    ensures |s'.members| >= |s.members| && r in s'.members[k].state.ReadOnly()
  {
    hide ImagesOf, Expected, Owned, Frozen, Relocated, RunTasks, Classified, WithScratch, Reads, CacheOk, CacheGrows, EarlyTables,
      AllCached, CacheRegions;
    MemberIsSound(elf, s.mem, s.members[k]);
    match e
    case Load(_, _, _) => assert s'.members[..|s.members|][k] == s.members[k];
    case Clone(source) => assert s'.members[..|s.members|][k] == s.members[k];
    case CloneWith(source, _) => assert s'.members[..|s.members|][k] == s.members[k];
    case UpdateScratch(j, buffers, _) =>
      MemberIsSound(elf, s.mem, s.members[j]);
      if j != k { assert Separate(s.members[j].state, s.members[k].state); }
      if |s.members[j].state.scratch| == |buffers| { ScratchIsNotData(elf, s.mem, s.members[j].state, buffers); }
    case PatchUserIO(j, _, _) =>
      MemberIsSound(elf, s.mem, s.members[j]);
      if j != k { assert Separate(s.members[j].state, s.members[k].state); }
    case FindEntry(_) =>
    case LoadFailed =>
    case CloneFailed(_) =>
  }

  /** Over a whole run, no byte of the file, of a backup or of a shared buffer is ever written. */
  lemma {:induction false} PristineNeverWritten(elf: Elf, run: seq<System>, events: seq<Event>, a: nat, b: nat, k: nat, r: nat)
    requires IsRun(elf, run, events) && a <= b < |run| && k < |run[a].members| && r in run[a].members[k].state.ReadOnly()
    ensures r in run[a].mem && r in run[b].mem && run[b].mem[r] == run[a].mem[r]
    ensures |run[b].members| > k && r in run[b].members[k].state.ReadOnly()
    decreases b
  {
    hide Step, MembersOk, Frozen, Owned;
    if a < b {
      PristineNeverWritten(elf, run, events, a, b - 1, k, r);
      RunKeepsInv(elf, run, events, b - 1);
      assert Step(elf, run[b - 1], events[b - 1], run[b - 1 + 1]);
      ReadOnlyKept(elf, run[b - 1], events[b - 1], run[b], k, r);
    } else {
      RunKeepsInv(elf, run, events, a);
      ReadOnlyExists(elf, run[a], k, r);
    }
  }

  lemma ReadOnlyExists(elf: Elf, s: System, k: nat, r: nat)
    requires MembersOk(elf, s) && k < |s.members| && r in s.members[k].state.ReadOnly()
    ensures r in s.mem
  {
    hide Frozen, Owned;
    assert MemberOk(elf, s.mem, s.members[k]);
  }

  // ---------- scratch buffers: only the last ones count ----------

  lemma {:induction false} WithScratchTwice(infer: BufferMap, scratch: seq<nat>, a: seq<DeviceBuffer>, b: seq<DeviceBuffer>)
    requires |scratch| == |a| == |b|
    requires forall k :: 0 <= k < |scratch| ==> scratch[k] in infer && !infer[scratch[k]].hasData
    ensures WithScratch(WithScratch(infer, scratch, a), scratch, b) == WithScratch(infer, scratch, b)
  {
    var x, y := WithScratch(WithScratch(infer, scratch, a), scratch, b), WithScratch(infer, scratch, b);
    forall i | i in infer
      ensures x[i] == y[i]
    {
      if i in scratch {
        WithScratchAt(WithScratch(infer, scratch, a), scratch, b, infer, i);
      }
    }
    assert x == y;
  }

  /** The buffer at a replaced index does not depend on the buffer that was there. */
  lemma {:induction false} WithScratchAt(m: BufferMap, scratch: seq<nat>, b: seq<DeviceBuffer>, m': BufferMap, i: nat)
    requires |scratch| == |b| && i in scratch
    requires forall k :: 0 <= k < |scratch| ==> scratch[k] in m && !m[scratch[k]].hasData
    requires forall k :: 0 <= k < |scratch| ==> scratch[k] in m' && !m'[scratch[k]].hasData
    requires m[i].(buffer := m'[i].buffer) == m'[i]
    ensures WithScratch(m, scratch, b)[i] == WithScratch(m', scratch, b)[i]
    decreases scratch
  {
    var s0 := scratch[0];
    var n, n' := m[s0 := m[s0].(buffer := b[0])], m'[s0 := m'[s0].(buffer := b[0])];
    if i in scratch[1..] {
      WithScratchAt(n, scratch[1..], b[1..], n', i);
    } else {
      assert i == s0;
    }
  }

  /** Each buffer arrives at its own scratch section, in file order. */
  lemma {:induction false} ScratchBuffersArrive(infer: BufferMap, scratch: seq<nat>, buffers: seq<DeviceBuffer>, k: nat)
    requires |scratch| == |buffers| && k < |scratch| && Ascending(scratch)
    requires forall k :: 0 <= k < |scratch| ==> scratch[k] in infer && !infer[scratch[k]].hasData
    ensures WithScratch(infer, scratch, buffers)[scratch[k]].buffer == buffers[k]
    decreases scratch
  {
    if k > 0 {
      ScratchBuffersArrive(infer[scratch[0] := infer[scratch[0]].(buffer := buffers[0])], scratch[1..], buffers[1..], k - 1);
    } else {
      assert scratch[0] !in scratch[1..];
    }
  }

  /** Once a loader that waited got its buffers, none of which is empty, no scratch section lacks one. */
  lemma NothingLacksAfterwards(elf: Elf, mem: Memory, st: LoaderState, buffers: seq<DeviceBuffer>, i: nat)
    requires Sound(elf, mem, st) && ScratchAllocated(elf, st) && |buffers| == |st.scratch|
    requires forall k :: 0 <= k < |buffers| ==> buffers[k].cpu.Some?
    ensures forall k :: 0 <= k < |st.scratch| ==> st.scratch[k] in st.infer && !st.infer[st.scratch[k]].hasData
    ensures !Lacking(WithScratch(st.infer, st.scratch, buffers), i)
  {
    SoundScratch(elf, mem, st);
    if i in st.infer {
      InfersInFile(elf, mem, st);
      hide Sound, WithScratch, Pending;
      if i in st.scratch {
        var k :| 0 <= k < |st.scratch| && st.scratch[k] == i;
        ScratchBuffersArrive(st.infer, st.scratch, buffers, k);
      } else {
        assert !Lacking(st.infer, i);
      }
    }
  }

  lemma InfersInFile(elf: Elf, mem: Memory, st: LoaderState)
    requires Sound(elf, mem, st)
    ensures forall i :: i in st.infer ==> i < |elf.headers|
  {}

  /** Two updates in a row are one update with the second's buffers: same buffers, outcome and images. */
  lemma ScratchComposes(elf: Elf, m0: Memory, m1: Memory, m2: Memory, s0: LoaderState, s1: LoaderState, s2: LoaderState,
                        a: seq<DeviceBuffer>, b: seq<DeviceBuffer>, statusA: Status, statusB: Status)
    requires Sound(elf, m0, s0) && |s0.scratch| == |a| == |b| > 0
    requires ScratchPost(elf, m0, m1, s0, s1, a, statusA)
    requires Sound(elf, m1, s1) && ScratchPost(elf, m1, m2, s1, s2, b, statusB)
    ensures ScratchPost(elf, m0, m2, s0, s2, b, statusB)
  {
    hide Relocated, Owned, Frozen, WithScratch, SoundData, Injective;
    WithScratchTwice(s0.infer, s0.scratch, a, b);
    ScratchIsNotData(elf, m0, s0, a);
  }

  /** A chain of scratch updates: memories, states, the buffers and the outcome of each call. */
  ghost predicate ScratchChain(elf: Elf, mems: seq<Memory>, states: seq<LoaderState>, calls: seq<seq<DeviceBuffer>>,
                               statuses: seq<Status>) {
    |mems| == |states| == |calls| + 1 && |statuses| == |calls| > 0 &&
    forall k :: 0 <= k < |calls| ==>
      Sound(elf, mems[k], states[k]) && |calls[k]| == |states[k].scratch| > 0 &&
      ScratchPost(elf, mems[k], mems[k + 1], states[k], states[k + 1], calls[k], statuses[k])
  }

  /** However often the scratch buffers are replaced, the outcome is that of one call with the last ones. */
  lemma {:induction false} OnlyLastScratchCounts(elf: Elf, mems: seq<Memory>, states: seq<LoaderState>,
                                                 calls: seq<seq<DeviceBuffer>>, statuses: seq<Status>)
    requires ScratchChain(elf, mems, states, calls, statuses)
    ensures Sound(elf, mems[0], states[0])
    ensures ScratchPost(elf, mems[0], mems[|calls|], states[0], states[|calls|], calls[|calls| - 1], statuses[|calls| - 1])
    ensures states[|calls|].scratch == states[0].scratch
    decreases |calls|
  {
    hide ScratchPost, Sound;
    var n := |calls| - 1;
    assert Sound(elf, mems[0], states[0]);
    if n > 0 {
      OnlyLastScratchCounts(elf, mems[..n + 1], states[..n + 1], calls[..n], statuses[..n]);
      assert mems[n + 1] == mems[|calls|] && calls[..n][n - 1] == calls[n - 1];
      ScratchKeepsIndexes(elf, mems[n - 1], mems[n - 1 + 1], states[n - 1], states[n - 1 + 1], calls[n - 1], statuses[n - 1]);
      ScratchComposes(elf, mems[0], mems[n], mems[n + 1], states[0], states[n], states[n + 1], calls[n - 1], calls[n],
                      statuses[n - 1], statuses[n]);
    }
    ScratchKeepsIndexes(elf, mems[n], mems[n + 1], states[n], states[n + 1], calls[n], statuses[n]);
  }

  lemma ScratchKeepsIndexes(elf: Elf, mem: Memory, mem': Memory, st: LoaderState, st': LoaderState,
                            buffers: seq<DeviceBuffer>, status: Status)
    requires Sound(elf, mem, st) && ScratchPost(elf, mem, mem', st, st', buffers, status)
    ensures st'.scratch == st.scratch
  {
    hide Sound, Relocated, WithScratch;
  }
}
