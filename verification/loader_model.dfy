/** The loader on values: which sections get buffers, how relocations find their symbols, and what each
    operation of the loader does to the memory that its buffers live in. */
module LoaderModel {
  import opened Bytes
  import opened Errors
  import opened Options
  import opened Relocations
  import opened Patching
  import opened Tasks
  import opened ElfFile
  import opened ElfCodec

  // ---------- the parsed file ----------

  datatype Symbol = Symbol(stype: nat, shndx: nat, val: SymVal)

  const VPU_STT_ENTRY: nat := 10

  /** The bytes of an Elf64_Rela and of an Elf64_Sym as relocation code uses them. */
  function RelaFrom(bs: seq<byte>): Rela
    requires |bs| == ENTRY_SIZE
  {
    var e := DecodeRela(bs);
    Rela(e.offset, RSym(e.info), RType(e.info), AsWord(e.addend))
  }

  function SymbolFrom(bs: seq<byte>): Symbol
    requires |bs| == ENTRY_SIZE
  {
    var e := DecodeSymbol(bs);
    Symbol(e.info % 16, e.shndx, SymVal(AsWord(e.value), AsWord(e.size)))
  }

  datatype Elf = Elf(headers: seq<SectionHeader>, blob: seq<byte>) {
    predicate InBlob(i: nat)
      requires i < |headers|
    {
      headers[i].offset + headers[i].size <= |blob|
    }

    /** How reading section i ends: the sum in the bounds check wraps around in size_t, and a range that passes it
        although it is not inside the file is then read from outside. */
    function ReadStatus(i: nat): (status: Status)
      requires i < |headers|
      ensures status.Ok? <==> InBlob(i)
      ensures status == Err(Undefined)
        <==> !InBlob(i) && (headers[i].offset + headers[i].size) % TWO_64 <= |blob|
    {
      if (headers[i].offset + headers[i].size) % TWO_64 > |blob| then Err(AccessError)
      else if !InBlob(i) then Err(Undefined)
      else Ok
    }

    /** The bytes of section i as the file holds them. */
    function Pristine(i: nat): (bs: seq<byte>)
      requires i < |headers| && InBlob(i)
      ensures |bs| == headers[i].size
    {
      blob[headers[i].offset..headers[i].offset + headers[i].size]
    }

    predicate IsRela(j: nat)
      requires j < |headers|
    {
      headers[j].stype == SHT_RELA
    }

    /** Relocation sections name sections with data, not scratch. */
    predicate TargetsCarryData() {
      forall j :: 0 <= j < |headers| && IsRela(j) && headers[j].info < |headers| ==>
        headers[headers[j].info].stype == SHT_PROGBITS
    }

    // ---------- tables ----------

    /** How many entries getEntriesNum reports. */
    function EntriesNum(i: nat): nat
      requires i < |headers|
    {
      if headers[i].entsize == 0 then 0 else headers[i].size / headers[i].entsize
    }

    /** Entries are read with the size of the structure, whatever the header says. */
    predicate HasEntry(i: nat, k: nat)
      requires i < |headers|
    {
      InBlob(i) && k * ENTRY_SIZE + ENTRY_SIZE <= headers[i].size
    }

    function EntryBytes(i: nat, k: nat): (bs: seq<byte>)
      requires i < |headers| && HasEntry(i, k)
      ensures |bs| == ENTRY_SIZE
    {
      Pristine(i)[k * ENTRY_SIZE..k * ENTRY_SIZE + ENTRY_SIZE]
    }

    predicate TableInside(i: nat)
      requires i < |headers|
    {
      EntriesNum(i) * ENTRY_SIZE <= headers[i].size
    }

    function Relocs(j: nat): (relocs: seq<Rela>)
      requires j < |headers| && InBlob(j) && TableInside(j)
      ensures |relocs| == EntriesNum(j)
    {
      seq(EntriesNum(j), k requires 0 <= k < EntriesNum(j) => RelaFrom(EntryBytes(j, k)))
    }

    function SymbolAt(i: nat, k: nat): Symbol
      requires i < |headers| && HasEntry(i, k)
    {
      SymbolFrom(EntryBytes(i, k))
    }
  }

  // ---------- classification of sections ----------

  datatype Action = NoAction | AllocateAndLoad | Allocate | Relocate | RegisterUserIO | Refuse(error: Error)

  function ActionOf(stype: u32): Action {
    if stype == SHT_PROGBITS then AllocateAndLoad
    else if stype == SHT_NOBITS then Allocate
    else if stype == SHT_RELA then Relocate
    else if stype == SHT_SYMTAB then RegisterUserIO
    else if stype == SHT_HASH || stype == SHT_DYNAMIC || stype == SHT_REL || stype == SHT_SHLIB || stype == SHT_DYNSYM
    then Refuse(SectionError)
    else if stype == SHT_NULL || stype == SHT_STRTAB || stype == SHT_NOTE || stype >= SHT_LOUSER then NoAction
    else Refuse(ImplausibleState)
  }

  /** Sections that are allocated and filled from the file. */
  predicate IsData(elf: Elf, explicit: bool, i: nat) {
    i < |elf.headers| && elf.headers[i].stype == SHT_PROGBITS &&
    (explicit ==> elf.headers[i].Has(SHF_ALLOC))
  }

  /** Sections that are allocated only. */
  predicate IsScratch(elf: Elf, explicit: bool, i: nat) {
    i < |elf.headers| && elf.headers[i].stype == SHT_NOBITS &&
    (explicit ==> elf.headers[i].Has(SHF_ALLOC)) && !elf.headers[i].IsNetworkIO()
  }

  /** Some relocation section, JIT or not, patches section i. */
  predicate IsTarget(elf: Elf, i: nat) {
    exists j :: 0 <= j < |elf.headers| && elf.IsRela(j) && elf.headers[j].info == i
  }

  /** The relocation sections among the first n, in file order: those resolved at load time, or the JIT ones. */
  function RelocSections(elf: Elf, jit: bool, n: nat): (s: seq<nat>)
    requires n <= |elf.headers|
    ensures forall j: nat :: j in s <==> j < n && elf.IsRela(j) && elf.headers[j].Has(VPU_SHF_JIT) == jit
  {
    if n == 0 then []
    else
      RelocSections(elf, jit, n - 1)
      + (if elf.IsRela(n - 1) && elf.headers[n - 1].Has(VPU_SHF_JIT) == jit then [n - 1] else [])
  }

  // ---------- symbol resolution ----------

  /** What relocations read besides the file: the runtime symbols, the section types they stand for, and the
      device addresses of the sections that have buffers. */
  datatype Context = Context(runtime: seq<Symbol>, symbolTypes: seq<u32>, addresses: map<nat, bv64>)

  /** The first index that holds x, or the length. */
  function FirstIndex(s: seq<u32>, x: u32): (k: nat)
    ensures k <= |s| && (k < |s| ==> s[k] == x) && forall n :: 0 <= n < k ==> s[n] != x
  {
    if s == [] || s[0] == x then 0 else FirstIndex(s[1..], x) + 1
  }

  function Displaced(v: SymVal, base: bv64): SymVal { v.(value := Plus(v.value, base)) }

  function AddressOf(c: Context, i: nat): bv64 {
    if i in c.addresses then c.addresses[i] else 0
  }

  /** The value of a symbol: displaced by its section's device address, or replaced by a runtime symbol when
      its section has none. */
  function ResolveStatic(elf: Elf, c: Context, link: u32, r: Rela): Target
    requires link < |elf.headers| || link == VPU_RT_SYMTAB
  {
    var runtime := link == VPU_RT_SYMTAB;
    var n := if runtime then |c.runtime| else elf.EntriesNum(link);
    if r.sym > n then Unresolved(RelocError)
    else if r.sym == n || (!runtime && !elf.HasEntry(link, r.sym)) then Unresolved(Undefined)
    else
      var symbol := if runtime then c.runtime[r.sym] else elf.SymbolAt(link, r.sym);
      var base := AddressOf(c, symbol.shndx);
      if base != 0 || runtime then Resolved(Displaced(symbol.val, base))
      else if symbol.shndx >= |elf.headers| then Unresolved(RangeError)
      else
        var k := FirstIndex(c.symbolTypes, elf.headers[symbol.shndx].stype);
        if k < |c.runtime| then Resolved(c.runtime[k].val) else Unresolved(Undefined)
  }

  /** The device addresses of the buffers that the user passes for one inference. */
  datatype UserIO = UserIO(inputs: seq<bv64>, outputs: seq<bv64>, profiling: seq<bv64>)

  function ResolveJit(elf: Elf, link: nat, users: seq<bv64>, r: Rela): Target
    requires link < |elf.headers|
  {
    if r.sym > elf.EntriesNum(link) || r.sym > |users| then Unresolved(RelocError)
    else if r.sym == 0 || r.sym == elf.EntriesNum(link) || !elf.HasEntry(link, r.sym) then Unresolved(Undefined)
    else Resolved(SymVal(users[r.sym - 1], elf.SymbolAt(link, r.sym).val.size))
  }

  // ---------- relocation sections as tasks ----------

  /** The checks applyRelocations makes on a whole section; keys are the sections that have buffers. */
  function CheckStatic(elf: Elf, keys: set<nat>, j: nat): Status
    requires j < |elf.headers|
  {
    var h, n := elf.headers[j], |elf.headers|;
    if elf.ReadStatus(j).Err? then elf.ReadStatus(j)
    else if h.entsize == 0 then Err(SectionError)
    else if !(h.link < n || h.link == VPU_RT_SYMTAB) then Err(RangeError)
    else if h.link != VPU_RT_SYMTAB && elf.headers[h.link].entsize == 0 then Err(SectionError)
    else if h.link != VPU_RT_SYMTAB && elf.headers[h.link].stype != SHT_SYMTAB then Err(RelocError)
    else if h.link != VPU_RT_SYMTAB && elf.ReadStatus(h.link).Err? then elf.ReadStatus(h.link)
    else if !h.Has(SHF_INFO_LINK) || h.info == 0 || h.info > n then Err(RelocError)
    else if h.info == n then Err(RangeError)
    else if h.info !in keys then Err(OutOfRange)
    else if !elf.TableInside(j) then Err(Undefined)
    else Ok
  }

  function StaticTask(elf: Elf, c: Context, j: nat): Task
    requires j < |elf.headers|
  {
    var h := elf.headers[j];
    var check := CheckStatic(elf, c.addresses.Keys, j);
    if check.Err? then Fails(check.error)
    else
      var relocs := elf.Relocs(j);
      Patches(h.info, seq(|relocs|, k requires 0 <= k < |relocs| => Job(relocs[k], ResolveStatic(elf, c, h.link, relocs[k]))))
  }

  predicate AllInFile(elf: Elf, indexes: seq<nat>) {
    forall k :: 0 <= k < |indexes| ==> indexes[k] < |elf.headers|
  }

  function StaticTasks(elf: Elf, c: Context, indexes: seq<nat>): (tasks: seq<Task>)
    requires AllInFile(elf, indexes)
  {
    seq(|indexes|, k requires 0 <= k < |indexes| => StaticTask(elf, c, indexes[k]))
  }

  /** The checks applyJitRelocations makes on a whole section. */
  function CheckJit(elf: Elf, keys: set<nat>, j: nat): Status
    requires j < |elf.headers|
  {
    var h, n := elf.headers[j], |elf.headers|;
    if elf.ReadStatus(j).Err? then elf.ReadStatus(j)
    else if h.entsize == 0 then Err(SectionError)
    else if h.link >= n then Err(RangeError)
    else if h.link == VPU_RT_SYMTAB || elf.headers[h.link].stype != SHT_SYMTAB then Err(RelocError)
    else if elf.headers[h.link].entsize == 0 then Err(SectionError)
    else if elf.ReadStatus(h.link).Err? then elf.ReadStatus(h.link)
    else if !h.IsNetworkIO() || !h.Has(SHF_INFO_LINK) then Err(RelocError)
    else if h.info !in keys then Err(OutOfRange)
    else if !elf.TableInside(j) then Err(Undefined)
    else Ok
  }

  function UsersOf(h: SectionHeader, io: UserIO): seq<bv64> {
    if h.Has(VPU_SHF_USERINPUT) then io.inputs
    else if h.Has(VPU_SHF_USEROUTPUT) then io.outputs
    else io.profiling
  }

  function JitTask(elf: Elf, keys: set<nat>, io: UserIO, j: nat): Task
    requires j < |elf.headers|
  {
    var h := elf.headers[j];
    var check := CheckJit(elf, keys, j);
    if check.Err? then Fails(check.error)
    else
      var relocs, users := elf.Relocs(j), UsersOf(h, io);
      Patches(h.info, seq(|relocs|, k requires 0 <= k < |relocs| => Job(relocs[k], ResolveJit(elf, h.link, users, relocs[k]))))
  }

  function JitTasks(elf: Elf, keys: set<nat>, io: UserIO, indexes: seq<nat>): (tasks: seq<Task>)
    requires AllInFile(elf, indexes)
  {
    seq(|indexes|, k requires 0 <= k < |indexes| => JitTask(elf, keys, io, indexes[k]))
  }

  // ---------- buffers in memory ----------

  datatype Location = Location(region: nat, offset: nat)

  datatype DeviceBuffer = DeviceBuffer(cpu: Option<Location>, vpu: bv64, size: nat)

  const NO_BUFFER := DeviceBuffer(None, 0, 0)

  /** managed: the buffer belongs to the buffer manager, so locking it reaches the manager. */
  datatype BufferInfo = BufferInfo(buffer: DeviceBuffer, managed: bool, hasData: bool, isShared: bool, isProcessed: bool)
  {
    predicate IsPrivate() { hasData && !isShared }
  }

  type BufferMap = map<nat, BufferInfo>

  /** Every allocation is a region of its own. */
  type Memory = map<nat, seq<byte>>

  /** The region that holds the ELF file itself. */
  const BLOB: nat := 0

  predicate Placed(mem: Memory, b: DeviceBuffer) {
    b.cpu.Some? && b.cpu.value.region in mem && b.cpu.value.offset + b.size <= |mem[b.cpu.value.region]|
  }

  function BytesOf(mem: Memory, b: DeviceBuffer): (bs: seq<byte>)
    requires Placed(mem, b)
    ensures |bs| == b.size
  {
    mem[b.cpu.value.region][b.cpu.value.offset..b.cpu.value.offset + b.size]
  }

  /** Data and at most one buffer per region: the whole region is this buffer. */
  predicate WholeRegion(mem: Memory, b: DeviceBuffer) {
    Placed(mem, b) && b.cpu.value.offset == 0 && |mem[b.cpu.value.region]| == b.size
  }

  function PrivateKeys(m: BufferMap): set<nat> {
    set i | i in m && m[i].IsPrivate()
  }

  function SharedKeys(m: BufferMap): set<nat> {
    set i | i in m && m[i].isShared
  }

  function RegionsOf(m: BufferMap, keys: set<nat>): set<nat> {
    set i | i in m && i in keys && m[i].buffer.cpu.Some? :: m[i].buffer.cpu.value.region
  }

  /** The regions only this loader writes. */
  function Owned(m: BufferMap): set<nat> {
    RegionsOf(m, PrivateKeys(m))
  }

  /** The regions that several loaders may read and none may write. */
  function Frozen(infer: BufferMap, backup: BufferMap): set<nat> {
    {BLOB} + RegionsOf(backup, backup.Keys) + RegionsOf(infer, SharedKeys(infer))
  }

  /** No two private buffers share a region. */
  ghost predicate Injective(m: BufferMap) {
    forall i, j :: i in m && j in m && i != j && HasPrivateRegion(m[i]) && HasPrivateRegion(m[j]) ==>
      m[i].buffer.cpu.value.region != m[j].buffer.cpu.value.region
  }

  predicate HasPrivateRegion(b: BufferInfo) {
    b.IsPrivate() && b.buffer.cpu.Some?
  }

  /** The images of the private buffers. */
  function ImagesOf(mem: Memory, m: BufferMap): (images: Images) {
    map i: nat | i in m && m[i].IsPrivate() && Placed(mem, m[i].buffer) :: mem[m[i].buffer.cpu.value.region]
  }

  function PristineImages(elf: Elf, keys: set<nat>): (images: Images) {
    map i: nat | i in keys && i < |elf.headers| && elf.InBlob(i) :: elf.Pristine(i)
  }

  // ---------- the loader's fields ----------

  datatype LoaderState = LoaderState(
    infer: BufferMap, backup: BufferMap, runtime: seq<Symbol>, symbolTypes: seq<u32>,
    relocIndexes: seq<nat>, jitIndexes: seq<nat>, scratch: seq<nat>, explicit: bool, loaded: bool)
  {
    function Ctx(): Context {
      Context(runtime, symbolTypes, map i | i in infer :: infer[i].buffer.vpu)
    }

    function Regions(): set<nat> { Owned(infer) }

    function ReadOnly(): set<nat> { Frozen(infer, backup) }
  }

  ghost predicate SoundData(elf: Elf, mem: Memory, st: LoaderState, i: nat)
    requires i in st.infer
  {
    var info := st.infer[i];
    IsData(elf, st.explicit, i) && elf.InBlob(i) && info.buffer.size == elf.headers[i].size &&
    (if info.isShared then Placed(mem, info.buffer) && BytesOf(mem, info.buffer) == elf.Pristine(i)
     else
       WholeRegion(mem, info.buffer) && info.managed && i in st.backup && Placed(mem, st.backup[i].buffer) &&
       BytesOf(mem, st.backup[i].buffer) == elf.Pristine(i))
  }

  predicate AllShared(m: BufferMap) {
    forall i :: i in m ==> m[i].isShared
  }

  predicate IsScratchEntry(infer: BufferMap, i: nat) {
    i in infer && !infer[i].hasData && !infer[i].isShared
  }

  predicate PrivateTarget(elf: Elf, infer: BufferMap, j: nat) {
    j < |elf.headers| && elf.IsRela(j) && elf.headers[j].info in infer ==>
      infer[elf.headers[j].info].IsPrivate()
  }

  /** What holds of every loader whose buffers have been loaded. */
  ghost predicate Sound(elf: Elf, mem: Memory, st: LoaderState) {
    BLOB in mem && mem[BLOB] == elf.blob &&
    (forall i :: i in st.infer && st.infer[i].hasData ==> SoundData(elf, mem, st, i)) &&
    Injective(st.infer) && st.Regions() !! st.ReadOnly() &&
    st.ReadOnly() <= mem.Keys && AllShared(st.backup) &&
    (forall i :: i in st.infer ==> i < |elf.headers|) &&
    AllInFile(elf, st.relocIndexes) && AllInFile(elf, st.jitIndexes) &&
    (forall j :: j in st.relocIndexes || j in st.jitIndexes ==> elf.IsRela(j) && PrivateTarget(elf, st.infer, j)) &&
    (forall k :: 0 <= k < |st.scratch| ==> IsScratchEntry(st.infer, st.scratch[k]))
  }

  ghost predicate Extends(mem: Memory, mem': Memory) {
    forall r :: r in mem ==> r in mem' && mem'[r] == mem[r]
  }

  /** Only the given regions may have changed; new ones may have been added. */
  ghost predicate ChangesOnly(mem: Memory, mem': Memory, regions: set<nat>) {
    forall r :: r in mem ==> r in mem' && (r !in regions ==> mem'[r] == mem[r])
  }

  // ---------- the reader's cache ----------

  /** The buffers in which a reader keeps the sections it has read. */
  type Cache = map<nat, DeviceBuffer>

  /** What is cached for section i is what the file holds. */
  predicate CachedRight(elf: Elf, mem: Memory, i: nat, b: DeviceBuffer) {
    i < |elf.headers| && elf.InBlob(i) && Placed(mem, b) && BytesOf(mem, b) == elf.Pristine(i)
  }

  ghost predicate CacheOk(elf: Elf, mem: Memory, cache: Cache) {
    forall i :: i in cache ==> CachedRight(elf, mem, i, cache[i])
  }

  function CacheRegions(cache: Cache): set<nat> {
    set i | i in cache && cache[i].cpu.Some? :: cache[i].cpu.value.region
  }

  /** Nothing that was cached changes; what is added lies inside the file or in new memory. */
  ghost predicate CacheGrows(mem: Memory, cache: Cache, cache': Cache) {
    (forall i :: i in cache ==> i in cache' && cache'[i] == cache[i]) &&
    forall r :: r in CacheRegions(cache') ==> r in CacheRegions(cache) || r == BLOB || r !in mem
  }

  /** The tables that these relocation sections need have been read already. */
  ghost predicate TablesCached(elf: Elf, cached: set<nat>, indexes: seq<nat>) {
    forall j :: j in indexes && j < |elf.headers| ==> j in cached && LinkCached(elf, cached, j)
  }

  ghost predicate LinkCached(elf: Elf, cached: set<nat>, j: nat)
    requires j < |elf.headers|
  {
    var link := elf.headers[j].link;
    link < |elf.headers| && elf.headers[link].stype == SHT_SYMTAB && link != VPU_RT_SYMTAB ==> link in cached
  }

  predicate NeededLater(elf: Elf, i: nat)
    requires i < |elf.headers|
  {
    elf.headers[i].stype == SHT_SYMTAB || (elf.IsRela(i) && elf.headers[i].Has(VPU_SHF_JIT))
  }

  /** The tables among the first n sections that load reads so that the file is not needed later: symbol tables and JIT
      relocations. */
  ghost predicate EarlyTables(elf: Elf, cached: set<nat>, n: nat)
    requires n <= |elf.headers|
  {
    forall i :: 0 <= i < n && NeededLater(elf, i) ==> i in cached
  }

  /** Everything that any later operation may want to read. */
  ghost predicate AllCached(elf: Elf, cached: set<nat>) {
    TablesCached(elf, cached, RelocSections(elf, false, |elf.headers|)) && EarlyTables(elf, cached, |elf.headers|)
  }

  // ---------- how load ends ----------

  /** The sections that get buffers. */
  function BufferKeys(elf: Elf, explicit: bool): set<nat> {
    set i: nat | i < |elf.headers| && (IsData(elf, explicit, i) || IsScratch(elf, explicit, i))
  }

  /** The pass over all sections: what section i contributes. */
  function RegisterOutcome(elf: Elf, explicit: bool, i: nat): Status
    requires i < |elf.headers|
  {
    var h := elf.headers[i];
    match ActionOf(h.stype)
    case AllocateAndLoad => Ok
    case Allocate => if IsScratch(elf, explicit, i) && !h.Has(SHF_WRITE) then Err(SectionError) else Ok
    case Relocate => if h.Has(VPU_SHF_JIT) then elf.ReadStatus(i) else Ok
    case RegisterUserIO => elf.ReadStatus(i)
    case NoAction => Ok
    case Refuse(e) => Err(e)
  }

  /** The first of the first n sections that is refused decides. */
  function RegistersOutcome(elf: Elf, explicit: bool, n: nat): Status
    requires n <= |elf.headers|
  {
    if n == 0 then Ok
    else
      var before := RegistersOutcome(elf, explicit, n - 1);
      if before.Err? then before else RegisterOutcome(elf, explicit, n - 1)
  }

  /** A relocation section has to name a section with a buffer. */
  function TargetOutcome(elf: Elf, keys: set<nat>, j: nat): Status
    requires j < |elf.headers|
  {
    var h := elf.headers[j];
    if !h.Has(SHF_INFO_LINK) || h.info == 0 || h.info > |elf.headers| then Err(RelocError)
    else if h.info !in keys then Err(OutOfRange)
    else Ok
  }

  function TargetsOutcome(elf: Elf, keys: set<nat>, indexes: seq<nat>, n: nat): Status
    requires AllInFile(elf, indexes) && n <= |indexes|
  {
    if n == 0 then Ok
    else
      var before := TargetsOutcome(elf, keys, indexes, n - 1);
      if before.Err? then before else TargetOutcome(elf, keys, indexes[n - 1])
  }

  predicate AllDataInBlob(elf: Elf, explicit: bool) {
    forall i :: 0 <= i < |elf.headers| && IsData(elf, explicit, i) ==> elf.InBlob(i)
  }

  /** How the passes of load over the headers end. */
  function HeadersOutcome(elf: Elf, explicit: bool): Status {
    var keys, n := BufferKeys(elf, explicit), |elf.headers|;
    RelocSectionsInFile(elf);
    var relocs, jits := RelocSections(elf, false, n), RelocSections(elf, true, n);
    var registered := RegistersOutcome(elf, explicit, n);
    var targets := TargetsOutcome(elf, keys, relocs, |relocs|);
    if registered.Err? then registered
    else if targets.Err? then targets
    else TargetsOutcome(elf, keys, jits, |jits|)
  }

  /** The part of load before relocations succeeds, by the headers and the size of the file alone. */
  predicate SectionsLoad(elf: Elf, explicit: bool) {
    HeadersOutcome(elf, explicit).Ok? && AllDataInBlob(elf, explicit)
  }

  /** How it ends otherwise. Data is read in the order of an unordered map, so any data section that cannot be read may
      be the one that throws. */
  predicate SectionsRefused(elf: Elf, explicit: bool, status: Status) {
    status.Err? &&
    if HeadersOutcome(elf, explicit).Err? then status == HeadersOutcome(elf, explicit)
    else exists i :: 0 <= i < |elf.headers| && IsData(elf, explicit, i) && status == elf.ReadStatus(i)
  }

  lemma RelocSectionsInFile(elf: Elf)
    ensures AllInFile(elf, RelocSections(elf, false, |elf.headers|))
    ensures AllInFile(elf, RelocSections(elf, true, |elf.headers|))
  {
    var a, b := RelocSections(elf, false, |elf.headers|), RelocSections(elf, true, |elf.headers|);
    assert forall k :: 0 <= k < |a| ==> a[k] in a;
    assert forall k :: 0 <= k < |b| ==> b[k] in b;
  }

  /** A load that gets past that ends like its relocations, unless those have to wait for scratch buffers. */
  function LoadOutcome(elf: Elf, st: LoaderState): Status
    requires AllInFile(elf, st.relocIndexes)
  {
    if st.scratch == [] then Relocated(elf, st).status else Ok
  }

  // ---------- the entry point ----------

  /** Symbol k of symbol table s marks the entry point. */
  predicate IsEntry(elf: Elf, s: nat, k: nat) {
    s < |elf.headers| && elf.headers[s].stype == SHT_SYMTAB && k < elf.EntriesNum(s) && elf.HasEntry(s, k) &&
    elf.SymbolAt(s, k).stype == VPU_STT_ENTRY
  }

  datatype EntrySearch = Found(k: nat) | Missing | Beyond

  /** The search in one table, from symbol k on; Beyond is a read past the end of the table. */
  function EntryIn(elf: Elf, s: nat, k: nat): (r: EntrySearch)
    requires s < |elf.headers| && elf.headers[s].stype == SHT_SYMTAB
    ensures r.Found? ==> k <= r.k && IsEntry(elf, s, r.k)
    decreases elf.EntriesNum(s) - k
  {
    if k >= elf.EntriesNum(s) then Missing
    else if !elf.HasEntry(s, k) then Beyond
    else if elf.SymbolAt(s, k).stype == VPU_STT_ENTRY then Found(k)
    else EntryIn(elf, s, k + 1)
  }

  /** How the search ends, from section s on; keys are the sections that have buffers. */
  function EntryOutcome(elf: Elf, keys: set<nat>, s: nat): Status
    decreases |elf.headers| - s
  {
    if s >= |elf.headers| then Err(ImplausibleState)
    else if elf.headers[s].stype != SHT_SYMTAB then EntryOutcome(elf, keys, s + 1)
    else if elf.headers[s].entsize == 0 then Err(SectionError)
    else if elf.ReadStatus(s).Err? then elf.ReadStatus(s)
    else match EntryIn(elf, s, 0)
      case Beyond => Err(Undefined)
      case Missing => EntryOutcome(elf, keys, s + 1)
      case Found(k) => if elf.SymbolAt(s, k).shndx in keys then Ok else Err(OutOfRange)
  }

  // ---------- the operations ----------

  // ---------- the operations ----------

  /** The images a loader has once its relocations have run. */
  function Relocated(elf: Elf, st: LoaderState): (o: Outcome)
    requires AllInFile(elf, st.relocIndexes)
  {
    RunTasks(PristineImages(elf, PrivateKeys(st.infer)), StaticTasks(elf, st.Ctx(), st.relocIndexes))
  }

  /** Which sections of a loaded file are shared between clones. */
  ghost predicate SharedExactly(elf: Elf, st: LoaderState) {
    forall i :: i in st.infer ==>
      (st.infer[i].isShared <==>
        IsData(elf, st.explicit, i) && !elf.headers[i].Has(SHF_WRITE) && !IsTarget(elf, i))
  }

  predicate Ascending(s: seq<nat>) {
    forall k, l :: 0 <= k < l < |s| ==> s[k] < s[l]
  }

  /** A scratch section whose buffer the driver left empty. */
  predicate Lacking(infer: BufferMap, i: nat) {
    IsScratchEntry(infer, i) && infer[i].buffer.cpu.None?
  }

  /** Those among the first n sections, in file order. */
  function Pending(infer: BufferMap, n: nat): (s: seq<nat>)
    ensures forall i: nat :: i in s <==> i < n && Lacking(infer, i)
    ensures Ascending(s)
  {
    if n == 0 then []
    else
      var before := Pending(infer, n - 1);
      assert forall k :: 0 <= k < |before| ==> before[k] in before;
      before + if Lacking(infer, n - 1) then [n - 1] else []
  }

  /** Scratch buffers have the size of their section, and exactly those that are missing are waited for. */
  ghost predicate ScratchAllocated(elf: Elf, st: LoaderState) {
    st.scratch == Pending(st.infer, |elf.headers|) &&
    forall i :: i in st.infer && !st.infer[i].hasData && st.infer[i].buffer.cpu.Some? ==>
      i < |elf.headers| && st.infer[i].buffer.size == elf.headers[i].size
  }

  /** What load decides about the sections of the file, by its headers alone. */
  ghost predicate Classified(elf: Elf, st: LoaderState) {
    st.relocIndexes == RelocSections(elf, false, |elf.headers|) &&
    st.jitIndexes == RelocSections(elf, true, |elf.headers|) && Ascending(st.scratch) &&
    (forall i :: i in st.infer <==> IsData(elf, st.explicit, i) || IsScratch(elf, st.explicit, i)) &&
    (forall i :: i in st.infer ==> (st.infer[i].hasData <==> IsData(elf, st.explicit, i))) &&
    SharedExactly(elf, st)
  }

  /** A successful load. */
  ghost predicate LoadPost(elf: Elf, mem: Memory, mem': Memory, st: LoaderState,
                     runtime: seq<Symbol>, explicit: bool, symbolTypes: seq<u32>) {
    Sound(elf, mem', st) && Extends(mem, mem') && st.Regions() !! mem.Keys && st.ReadOnly() * mem.Keys <= {BLOB} &&
    st.loaded && st.runtime == runtime && st.explicit == explicit && st.symbolTypes == symbolTypes &&
    Classified(elf, st) && ScratchAllocated(elf, st) &&
    (if st.scratch == []
     then Relocated(elf, st).status.Ok? && ImagesOf(mem', st.infer) == Relocated(elf, st).images
     else ImagesOf(mem', st.infer) == PristineImages(elf, PrivateKeys(st.infer)))
  }

  /** The same entries: shared ones are the same, the others differ in their buffers only. */
  ghost predicate SameSharing(m: BufferMap, m': BufferMap) {
    m'.Keys == m.Keys &&
    forall i :: i in m ==> if m[i].isShared then m'[i] == m[i] else m'[i].(buffer := m[i].buffer) == m[i]
  }

  /** A successful copy construction, with the source's runtime symbols or with others. */
  ghost predicate ClonePost(elf: Elf, mem: Memory, mem': Memory, src: LoaderState, st: LoaderState, runtime: seq<Symbol>)
    requires Sound(elf, mem, src)
  {
    Sound(elf, mem', st) && Extends(mem, mem') && st.Regions() !! mem.Keys && st.ReadOnly() == src.ReadOnly() &&
    st == src.(infer := st.infer, runtime := runtime) && SameSharing(src.infer, st.infer) &&
    Relocated(elf, st).status.Ok? && ImagesOf(mem', st.infer) == Relocated(elf, st).images
  }

  /** The buffer map after the scratch buffers have been replaced. */
  function WithScratch(infer: BufferMap, scratch: seq<nat>, buffers: seq<DeviceBuffer>): (m: BufferMap)
    requires |scratch| == |buffers|
    requires forall k :: 0 <= k < |scratch| ==> scratch[k] in infer && !infer[scratch[k]].hasData
    ensures m.Keys == infer.Keys
    ensures forall i :: i in infer && i !in scratch ==> m[i] == infer[i]
    ensures forall i :: i in infer ==> m[i].(buffer := infer[i].buffer) == infer[i]
  {
    if scratch == [] then infer
    else
      assert scratch[0] in infer;
      WithScratch(infer[scratch[0] := infer[scratch[0]].(buffer := buffers[0])], scratch[1..], buffers[1..])
  }

  /** updateSharedScratchBuffers, successful or not. */
  ghost predicate ScratchPost(elf: Elf, mem: Memory, mem': Memory, st: LoaderState, st': LoaderState,
                        buffers: seq<DeviceBuffer>, status: Status)
    requires Sound(elf, mem, st)
  {
    if |st.scratch| != |buffers| then status == Err(RuntimeError) && mem' == mem && st' == st
    else if st.scratch == [] then status == Ok && mem' == mem && st' == st
    else
      st' == st.(infer := WithScratch(st.infer, st.scratch, buffers)) && Sound(elf, mem', st') &&
      ChangesOnly(mem, mem', st.Regions()) &&
      Relocated(elf, st').status == status && ImagesOf(mem', st'.infer) == Relocated(elf, st').images
  }

  /** applyJitRelocations, successful or not. */
  ghost predicate JitPost(elf: Elf, mem: Memory, mem': Memory, st: LoaderState, io: UserIO, status: Status)
    requires Sound(elf, mem, st)
  {
    Sound(elf, mem', st) && ChangesOnly(mem, mem', st.Regions()) &&
    var o := RunTasks(ImagesOf(mem, st.infer), JitTasks(elf, st.infer.Keys, io, st.jitIndexes));
    o.status == status && ImagesOf(mem', st.infer) == o.images
  }
}
