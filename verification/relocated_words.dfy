/** What stands in an image where a relocation of the file points: the relocation function of the file's own bytes, for the
    symbol as this loader resolves it. */
module RelocatedWords {
  import opened Bytes
  import opened Errors
  import opened Relocations
  import opened RelocationValues
  import opened Patching
  import opened Tasks
  import opened ElfFile
  import opened LoaderModel
  import opened LoaderTables
  import opened LoaderRuns
  import opened Resolution
  import SymbolTables

  // ---------- one entry of one section ----------

  /** Entry k of the table of the p-th section in a list of relocation sections. */
  datatype Place = Place(p: nat, k: nat)

  /** The place is an entry of a table that a writer emitted for rs, and the section has passed its checks. */
  ghost predicate IsEntryOf(elf: Elf, c: Context, indexes: seq<nat>, at: Place, rs: seq<SymbolTables.NewRelocation>) {
    at.p < |indexes| && at.k < |rs| && IsTableOf(elf, indexes[at.p], rs) &&
    CheckStatic(elf, c.addresses.Keys, indexes[at.p]).Ok?
  }

  /** The relocation that stands there, resolved. */
  function JobOf(elf: Elf, c: Context, j: nat, r: SymbolTables.NewRelocation): Job
    requires j < |elf.headers| && (elf.headers[j].link < |elf.headers| || elf.headers[j].link == VPU_RT_SYMTAB)
  {
    Job(RelaOf(r), ResolveStatic(elf, c, elf.headers[j].link, RelaOf(r)))
  }

  lemma CheckedLink(elf: Elf, c: Context, j: nat)
    requires j < |elf.headers| && CheckStatic(elf, c.addresses.Keys, j).Ok?
    ensures elf.headers[j].link < |elf.headers| || elf.headers[j].link == VPU_RT_SYMTAB
  {}

  lemma EntryIsJob(elf: Elf, c: Context, indexes: seq<nat>, at: Place, rs: seq<SymbolTables.NewRelocation>)
    requires AllInFile(elf, indexes) && IsEntryOf(elf, c, indexes, at, rs)
    ensures var j, tasks := indexes[at.p], StaticTasks(elf, c, indexes);
      (elf.headers[j].link < |elf.headers| || elf.headers[j].link == VPU_RT_SYMTAB) &&
      tasks[at.p].Patches? && tasks[at.p].target == elf.headers[j].info && at.k < |tasks[at.p].jobs| &&
      tasks[at.p].jobs[at.k] == JobOf(elf, c, j, rs[at.k])
  {
    hide ResolveStatic, StaticTask, CheckStatic, IsTableOf;
    CheckedLink(elf, c, indexes[at.p]);
    EveryEntryIsAJob(elf, c, indexes[at.p], rs);
  }

  /** No other relocation of the same target touches the bytes of this one. */
  ghost predicate AloneInFile(elf: Elf, c: Context, indexes: seq<nat>, at: Place)
    requires AllInFile(elf, indexes) && at.p < |indexes|
  {
    var tasks := StaticTasks(elf, c, indexes);
    tasks[at.p].Patches? && PlaceOf(tasks, at.p, at.k) < |JobsFor(tasks, tasks[at.p].target)| &&
    Alone(JobsFor(tasks, tasks[at.p].target), PlaceOf(tasks, at.p, at.k))
  }

  /** Every relocation takes effect: if the relocations of a loader succeed, each entry of each table that is alone in its
      range names a symbol that resolves, lies inside its target, and leaves there what its function makes of the bytes that
      the file holds there. */
  lemma EveryEntryTakesEffect(elf: Elf, st: LoaderState, at: Place, rs: seq<SymbolTables.NewRelocation>)
    requires AllInFile(elf, st.relocIndexes) && Relocated(elf, st).status.Ok?
    requires HaveTargets(PristineImages(elf, PrivateKeys(st.infer)).Keys, StaticTasks(elf, st.Ctx(), st.relocIndexes))
    requires IsEntryOf(elf, st.Ctx(), st.relocIndexes, at, rs) && AloneInFile(elf, st.Ctx(), st.relocIndexes, at)
    ensures var j := st.relocIndexes[at.p];
      var i := elf.headers[j].info;
      i in Relocated(elf, st).images && i < |elf.headers| && elf.InBlob(i) &&
      (elf.headers[j].link < |elf.headers| || elf.headers[j].link == VPU_RT_SYMTAB) &&
      HasEffect(elf.Pristine(i), Relocated(elf, st).images[i], JobOf(elf, st.Ctx(), j, rs[at.k]))
  {
    hide HasEffect, RunTasks, JobsFor, PlaceOf, StaticTask, Alone, JobOf, CheckStatic, IsTableOf;
    EntryIsJob(elf, st.Ctx(), st.relocIndexes, at, rs);
    EveryJobTakesEffect(PristineImages(elf, PrivateKeys(st.infer)), StaticTasks(elf, st.Ctx(), st.relocIndexes), at.p, at.k);
  }

  // ---------- the images of loaders ----------

  /** Relocations ran and succeeded, and no user buffers were patched in since. */
  ghost predicate OnlyRelocated(elf: Elf, mem: Memory, m: Member) {
    MemberOk(elf, mem, m) && m.relocated && m.jits == [] && Relocated(elf, m.state).status.Ok?
  }

  lemma ItsImages(elf: Elf, mem: Memory, m: Member)
    requires OnlyRelocated(elf, mem, m)
    ensures ImagesOf(mem, m.state.infer) == Relocated(elf, m.state).images
    ensures HaveTargets(PristineImages(elf, PrivateKeys(m.state.infer)).Keys,
                        StaticTasks(elf, m.state.Ctx(), m.state.relocIndexes))
  {
    hide RunTasks, StaticTasks, Injective, Owned, Frozen;
    StaticTasksHaveTargets(elf, mem, m.state);
    forall i | i in PrivateKeys(m.state.infer)
      ensures i < |elf.headers| && elf.InBlob(i)
    {
      assert SoundData(elf, mem, m.state, i);
    }
  }

  /** In the images of a loader, loaded, copied or given scratch buffers late, every entry of the file's tables that is alone in
      its range has taken effect, for this loader's addresses and symbols. */
  lemma EntryInImage(elf: Elf, mem: Memory, m: Member, at: Place, rs: seq<SymbolTables.NewRelocation>)
    requires OnlyRelocated(elf, mem, m)
    requires IsEntryOf(elf, m.state.Ctx(), m.state.relocIndexes, at, rs)
    requires AloneInFile(elf, m.state.Ctx(), m.state.relocIndexes, at)
    ensures var j := m.state.relocIndexes[at.p];
      var i := elf.headers[j].info;
      i in ImagesOf(mem, m.state.infer) && i < |elf.headers| && elf.InBlob(i) &&
      (elf.headers[j].link < |elf.headers| || elf.headers[j].link == VPU_RT_SYMTAB) &&
      HasEffect(elf.Pristine(i), ImagesOf(mem, m.state.infer)[i], JobOf(elf, m.state.Ctx(), j, rs[at.k]))
  {
    hide HasEffect, RunTasks, StaticTasks, ImagesOf, JobOf, IsEntryOf, AloneInFile;
    ItsImages(elf, mem, m);
    EveryEntryTakesEffect(elf, m.state, at, rs);
  }

  // ---------- user buffers ----------

  /** Entry k of the p-th JIT section is alone in its range of its target. */
  ghost predicate AloneAmongJits(tasks: seq<Task>, at: Place) {
    at.p < |tasks| && tasks[at.p].Patches? && PlaceOf(tasks, at.p, at.k) < |JobsFor(tasks, tasks[at.p].target)| &&
    Alone(JobsFor(tasks, tasks[at.p].target), PlaceOf(tasks, at.p, at.k))
  }

  /** The job of a JIT relocation; symbols count the buffers of the section's kind. */
  function JitJobOf(elf: Elf, io: UserIO, j: nat, r: SymbolTables.NewRelocation): Job
    requires j < |elf.headers| && elf.headers[j].link < |elf.headers|
  {
    Job(RelaOf(r), ResolveJit(elf, elf.headers[j].link, UsersOf(elf.headers[j], io), RelaOf(r)))
  }

  lemma JitEntryIsJob(elf: Elf, keys: set<nat>, io: UserIO, j: nat, k: nat, rs: seq<SymbolTables.NewRelocation>)
    requires IsTableOf(elf, j, rs) && k < |rs| && JitTask(elf, keys, io, j).Patches?
    ensures var task := JitTask(elf, keys, io, j);
      elf.headers[j].link < |elf.headers| && task.target == elf.headers[j].info &&
      k < |task.jobs| && task.jobs[k] == JitJobOf(elf, io, j, rs[k])
  {
    hide ResolveJit, UsersOf, Elf.Relocs, Elf.TableInside, Elf.EntriesNum, RelaOf, IsTableOf;
    EveryJitEntryIsAJob(elf, keys, io, j, rs);
  }

  lemma ImagesCoverPrivate(elf: Elf, mem: Memory, st: LoaderState)
    requires Sound(elf, mem, st)
    ensures ImagesOf(mem, st.infer).Keys == PrivateKeys(st.infer)
  {
    hide Injective, Owned, Frozen;
    forall i | i in PrivateKeys(st.infer)
      ensures i in ImagesOf(mem, st.infer)
    {
      assert SoundData(elf, mem, st, i);
    }
  }

  /** Patching in user buffers takes effect, entry by entry: where a JIT relocation that is alone in its range points, the
      image holds what its function makes of the bytes before, for the address of the buffer that its symbol stands for. */
  lemma JitEntryInImage(elf: Elf, mem: Memory, mem': Memory, st: LoaderState, io: UserIO, at: Place,
                        rs: seq<SymbolTables.NewRelocation>)
    requires Sound(elf, mem, st) && JitPost(elf, mem, mem', st, io, Ok)
    requires at.p < |st.jitIndexes| && at.k < |rs| && IsTableOf(elf, st.jitIndexes[at.p], rs)
    requires AloneAmongJits(UserTasks(elf, st, io), at)
    ensures var j, images, images' := st.jitIndexes[at.p], ImagesOf(mem, st.infer), ImagesOf(mem', st.infer);
      var i := elf.headers[j].info;
      elf.headers[j].link < |elf.headers| && i in images && i in images' &&
      HasEffect(images[i], images'[i], JitJobOf(elf, io, j, rs[at.k]))
  {
    var tasks := UserTasks(elf, st, io);
    UserTasksHaveTargets(elf, mem, st, io);
    ImagesCoverPrivate(elf, mem, st);
    hide HasEffect, RunTasks, JobsFor, PlaceOf, Alone, ImagesOf, IsTableOf, JitTask, JitJobOf, Sound;
    JitEntryIsJob(elf, st.infer.Keys, io, st.jitIndexes[at.p], at.k, rs);
    EveryJobTakesEffect(ImagesOf(mem, st.infer), tasks, at.p, at.k);
  }

  // ---------- copies at other addresses ----------

  lemma SameChecksSameShape(elf: Elf, c: Context, c': Context, indexes: seq<nat>)
    requires AllInFile(elf, indexes) && c'.addresses.Keys == c.addresses.Keys
    ensures SameShape(StaticTasks(elf, c, indexes), StaticTasks(elf, c', indexes))
  {
    hide ResolveStatic, CheckStatic, Elf.Relocs, Elf.TableInside;
  }

  lemma AloneAlike(elf: Elf, c: Context, c': Context, indexes: seq<nat>, at: Place)
    requires AllInFile(elf, indexes) && c'.addresses.Keys == c.addresses.Keys
    requires at.p < |indexes| && AloneInFile(elf, c, indexes, at)
    ensures AloneInFile(elf, c', indexes, at)
  {
    hide StaticTask, JobsFor, Apart;
    var a, b := StaticTasks(elf, c, indexes), StaticTasks(elf, c', indexes);
    SameChecksSameShape(elf, c, c', indexes);
    JobsForSameRelas(a, b, a[at.p].target);
    JobsForSameRelas(a[..at.p], b[..at.p], a[at.p].target);
  }

  lemma StoredWord(before: seq<byte>, after: seq<byte>, job: Job)
    requires HasEffect(before, after, job) && job.rela.rtype == R_VPU_64
    ensures job.target.Resolved? && job.rela.offset + 8 <= |after|
    ensures Load64(after[job.rela.offset..job.rela.offset + 8]) == Plus(job.target.symbol.value, job.rela.addend)
  {
    hide PatchBytes, Load64, Plain64, Plus;
    Cases64(before[job.rela.offset..job.rela.offset + 8], job.target.symbol, job.rela.addend);
    PlainAreSums(job.target.symbol, job.rela.addend);
  }

  lemma NestedSumsMove(v: bv64, a: bv64, a': bv64, addend: bv64)
    ensures MovedAlike(v + a + addend, v + a' + addend, a, a')
  {}

  lemma OuterSumsMove(v: bv64, a: bv64, a': bv64, addend: bv64)
    ensures MovedAlike(Plus(v + a, addend), Plus(v + a', addend), a, a')
  {
    hide MovedAlike;
    NestedSumsMove(v, a, a', addend);
  }

  lemma PlusIs(v: bv64, a: bv64)
    ensures Plus(v, a) == v + a
  {}

  lemma WordsMove(v: bv64, a: bv64, a': bv64, addend: bv64)
    ensures MovedAlike(Plus(Plus(v, a), addend), Plus(Plus(v, a'), addend), a, a')
  {
    hide MovedAlike, Plus;
    OuterSumsMove(v, a, a', addend);
    PlusIs(v, a);
    PlusIs(v, a');
  }

  /** The entry is a R_VPU_64 relocation, alone in its range, against a symbol of the file whose section has an address. */
  ghost predicate StoresAddress(elf: Elf, st: LoaderState, at: Place, rs: seq<SymbolTables.NewRelocation>) {
    AllInFile(elf, st.relocIndexes) && IsEntryOf(elf, st.Ctx(), st.relocIndexes, at, rs) &&
    AloneInFile(elf, st.Ctx(), st.relocIndexes, at) && rs[at.k].rtype == R_VPU_64 &&
    InTable(elf, elf.headers[st.relocIndexes[at.p]].link, RelaOf(rs[at.k])) &&
    HasAddress(st.Ctx(), SectionOf(elf, st, at, rs))
  }

  /** The section whose symbol the entry names. */
  ghost function SectionOf(elf: Elf, st: LoaderState, at: Place, rs: seq<SymbolTables.NewRelocation>): nat
    requires at.p < |st.relocIndexes| && at.k < |rs| && st.relocIndexes[at.p] < |elf.headers|
    requires InTable(elf, elf.headers[st.relocIndexes[at.p]].link, RelaOf(rs[at.k]))
  {
    Named(elf, elf.headers[st.relocIndexes[at.p]].link, RelaOf(rs[at.k])).shndx
  }

  predicate HasWord(images: Images, i: nat, at: nat) { i in images && at + 8 <= |images[i]| }

  function WordIn(images: Images, i: nat, at: nat): bv64
    requires HasWord(images, i, at)
  {
    Load64(images[i][at..at + 8])
  }

  /** What an entry that stores an address has left in its image. */
  ghost predicate LeftWord(elf: Elf, images: Images, st: LoaderState, at: Place, rs: seq<SymbolTables.NewRelocation>,
                           word: bv64)
  {
    at.p < |st.relocIndexes| && at.k < |rs| && st.relocIndexes[at.p] < |elf.headers| &&
    HasWord(images, elf.headers[st.relocIndexes[at.p]].info, rs[at.k].offset) &&
    word == WordIn(images, elf.headers[st.relocIndexes[at.p]].info, rs[at.k].offset)
  }

  /** The value that such an entry takes from its symbol. */
  ghost predicate Takes(elf: Elf, st: LoaderState, at: Place, rs: seq<SymbolTables.NewRelocation>, value: bv64)
    requires StoresAddress(elf, st, at, rs)
  {
    value == Plus(Named(elf, elf.headers[st.relocIndexes[at.p]].link, RelaOf(rs[at.k])).val.value,
                  st.Ctx().addresses[SectionOf(elf, st, at, rs)])
  }

  lemma WordAt(elf: Elf, mem: Memory, m: Member, at: Place, rs: seq<SymbolTables.NewRelocation>, j: nat, link: u32, r: Rela)
    returns (value: bv64)
    requires OnlyRelocated(elf, mem, m) && AllInFile(elf, m.state.relocIndexes)
    requires IsEntryOf(elf, m.state.Ctx(), m.state.relocIndexes, at, rs)
    requires AloneInFile(elf, m.state.Ctx(), m.state.relocIndexes, at)
    requires j == m.state.relocIndexes[at.p] < |elf.headers| && link == elf.headers[j].link && r == RelaOf(rs[at.k])
    requires r.rtype == R_VPU_64 && InTable(elf, link, r) && HasAddress(m.state.Ctx(), Named(elf, link, r).shndx)
    ensures value == Plus(Named(elf, link, r).val.value, m.state.Ctx().addresses[Named(elf, link, r).shndx])
    ensures HasWord(ImagesOf(mem, m.state.infer), elf.headers[j].info, r.offset)
    ensures WordIn(ImagesOf(mem, m.state.infer), elf.headers[j].info, r.offset) == Plus(value, r.addend)
  {
    hide HasEffect, Load64, Plus, ImagesOf, OnlyRelocated, ResolveStatic, InTable, HasAddress, AloneInFile, IsEntryOf, RelaOf,
      Elf.InBlob, LoaderState.Ctx, HasWord;
    EntryInImage(elf, mem, m, at, rs);
    DisplacedSymbol(elf, m.state.Ctx(), link, r);
    var image := ImagesOf(mem, m.state.infer)[elf.headers[j].info];
    StoredWord(elf.Pristine(elf.headers[j].info), image, Job(r, ResolveStatic(elf, m.state.Ctx(), link, r)));
    value := ResolveStatic(elf, m.state.Ctx(), link, r).symbol.value;
    WordHere(ImagesOf(mem, m.state.infer), elf.headers[j].info, r.offset);
  }

  lemma WordHere(images: Images, i: nat, at: nat)
    requires i in images && at + 8 <= |images[i]|
    ensures HasWord(images, i, at) && WordIn(images, i, at) == Load64(images[i][at..at + 8])
  {}

  lemma WordStored(elf: Elf, mem: Memory, m: Member, at: Place, rs: seq<SymbolTables.NewRelocation>) returns (value: bv64)
    requires OnlyRelocated(elf, mem, m) && StoresAddress(elf, m.state, at, rs)
    ensures Takes(elf, m.state, at, rs, value)
    ensures LeftWord(elf, ImagesOf(mem, m.state.infer), m.state, at, rs, Plus(value, AsWord(rs[at.k].addend)))
  {
    hide Plus, ImagesOf, OnlyRelocated, InTable, HasAddress, AloneInFile, CheckStatic, IsTableOf, Elf.InBlob, WordIn, HasWord,
      AsWord, Named, LoaderState.Ctx;
    var j := m.state.relocIndexes[at.p];
    value := WordAt(elf, mem, m, at, rs, j, elf.headers[j].link, RelaOf(rs[at.k]));
  }

  lemma DisplacedSymbol(elf: Elf, c: Context, link: u32, r: Rela)
    requires InTable(elf, link, r) && HasAddress(c, Named(elf, link, r).shndx)
    ensures var t, named := ResolveStatic(elf, c, link, r), Named(elf, link, r);
      t.Resolved? && t.symbol.value == Plus(named.val.value, c.addresses[named.shndx])
  {
    hide Plus, Elf.EntriesNum, Elf.HasEntry, Elf.SymbolAt, FirstIndex;
  }

  lemma StoresAddressAlike(elf: Elf, st: LoaderState, st': LoaderState, at: Place, rs: seq<SymbolTables.NewRelocation>)
    requires st'.relocIndexes == st.relocIndexes && st'.Ctx().addresses.Keys == st.Ctx().addresses.Keys
    requires StoresAddress(elf, st, at, rs) && HasAddress(st'.Ctx(), SectionOf(elf, st, at, rs))
    ensures StoresAddress(elf, st', at, rs) && SectionOf(elf, st', at, rs) == SectionOf(elf, st, at, rs)
  {
    hide AloneInFile, CheckStatic, IsTableOf, InTable, Named, HasAddress, LoaderState.Ctx, RelaOf;
    AloneAlike(elf, st.Ctx(), st'.Ctx(), st.relocIndexes, at);
  }

  /** A word that R_VPU_64 stored for a symbol of section i, in the images of two loaders of one file: its value differs
      exactly as the device addresses of their buffers for section i differ. So a copy refers to its own buffers, not to those
      of the loader it was made from. */
  lemma CopiesReferToThemselves(elf: Elf, mem: Memory, m: Member, mem': Memory, m': Member, at: Place,
                                rs: seq<SymbolTables.NewRelocation>) returns (word: bv64, word': bv64)
    requires OnlyRelocated(elf, mem, m) && OnlyRelocated(elf, mem', m') && StoresAddress(elf, m.state, at, rs)
    requires Classified(elf, m.state) && Classified(elf, m'.state) && m.state.explicit == m'.state.explicit
    requires HasAddress(m'.state.Ctx(), SectionOf(elf, m.state, at, rs))
    ensures LeftWord(elf, ImagesOf(mem, m.state.infer), m.state, at, rs, word)
    ensures LeftWord(elf, ImagesOf(mem', m'.state.infer), m'.state, at, rs, word')
    ensures var section := SectionOf(elf, m.state, at, rs);
      section in m.state.infer && section in m'.state.infer &&
      MovedAlike(word, word', m.state.infer[section].buffer.vpu, m'.state.infer[section].buffer.vpu)
  {
    AlikeKeys(elf, m.state, m'.state);
    StoresAddressAlike(elf, m.state, m'.state, at, rs);
    var value := WordStored(elf, mem, m, at, rs);
    var value' := WordStored(elf, mem', m', at, rs);
    word, word' := Plus(value, AsWord(rs[at.k].addend)), Plus(value', AsWord(rs[at.k].addend));
    hide OnlyRelocated, StoresAddress, SectionOf, LeftWord, MovedAlike, Plus, Classified, ImagesOf, Named, AsWord;
    var section, r := SectionOf(elf, m.state, at, rs), RelaOf(rs[at.k]);
    WordsMove(Named(elf, elf.headers[m.state.relocIndexes[at.p]].link, r).val.value,
              m.state.Ctx().addresses[section], m'.state.Ctx().addresses[section], AsWord(rs[at.k].addend));
  }

  lemma AlikeKeys(elf: Elf, a: LoaderState, b: LoaderState)
    requires Classified(elf, a) && Classified(elf, b) && a.explicit == b.explicit
    ensures a.relocIndexes == b.relocIndexes && a.infer.Keys == b.infer.Keys
  {
    hide IsData, IsScratch, IsTarget;
  }
}
