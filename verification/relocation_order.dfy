/** The order of relocations, within their sections and of the sections, as a question about two files. */
module RelocationOrder {
  import opened Bytes
  import opened ElfFile
  import opened Patching
  import opened Tasks
  import opened LoaderModel
  import opened LoaderRuns

  // ---------- permutations ----------

  lemma RemoveAt<T>(s: seq<T>, k: nat)
    requires k < |s|
    ensures s == s[..k] + ([s[k]] + s[k + 1..])
    ensures multiset(s) == multiset{s[k]} + multiset(s[..k] + s[k + 1..])
  {
    var front, back := s[..k], s[k + 1..];
    assert s == front + ([s[k]] + back);
    assert multiset(s) == multiset(front) + multiset([s[k]] + back);
  }

  /** The first of a occurs in its permutation, and without it the rests are permutations of each other. */
  lemma TakeOut<T>(a: seq<T>, b: seq<T>) returns (k: nat)
    requires a != [] && multiset(a) == multiset(b)
    ensures k < |b| && b[k] == a[0] && multiset(a[1..]) == multiset(b[..k] + b[k + 1..])
    ensures a == [a[0]] + a[1..] && b == b[..k] + ([b[k]] + b[k + 1..])
  {
    assert a[0] in multiset(b);
    k :| 0 <= k < |b| && b[k] == a[0];
    RemoveAt(a, 0);
    assert a[..0] + a[1..] == a[1..];
    RemoveAt(b, k);
    var rest, rest' := multiset(a[1..]), multiset(b[..k] + b[k + 1..]);
    assert multiset{a[0]} + rest == multiset{a[0]} + rest';
    assert rest == multiset(a) - multiset{a[0]} && rest' == multiset(b) - multiset{a[0]};
  }

  // ---------- lists of tasks ----------

  lemma {:induction false} JobsForBoth(a: seq<Task>, b: seq<Task>, i: nat)
    ensures JobsFor(a + b, i) == JobsFor(a, i) + JobsFor(b, i)
  {
    if a == [] {
      assert a + b == b;
    } else {
      assert (a + b)[1..] == a[1..] + b;
      JobsForBoth(a[1..], b, i);
    }
  }

  /** The same section, refused alike or with the same jobs in some order. */
  predicate SameTask(a: Task, b: Task) {
    if a.Fails? then b == a else b.Patches? && b.target == a.target && multiset(b.jobs) == multiset(a.jobs)
  }

  lemma {:induction false} SameTasksReordered(a: seq<Task>, b: seq<Task>, i: nat)
    requires |a| == |b| && forall k :: 0 <= k < |a| ==> SameTask(a[k], b[k])
    ensures multiset(JobsFor(a, i)) == multiset(JobsFor(b, i)) && (NoneFails(a) <==> NoneFails(b))
  {
    if a != [] {
      SameTasksReordered(a[1..], b[1..], i);
      assert SameTask(a[0], b[0]);
      assert a == [a[0]] + a[1..] && b == [b[0]] + b[1..];
    }
  }

  lemma {:induction false} PermutedReordered(a: seq<Task>, b: seq<Task>, i: nat)
    requires multiset(a) == multiset(b)
    ensures multiset(JobsFor(a, i)) == multiset(JobsFor(b, i)) && (NoneFails(a) <==> NoneFails(b))
  {
    if a == [] {
      assert |b| == |multiset(b)| == 0;
    } else {
      var k := TakeOut(a, b);
      var front, back := b[..k], b[k + 1..];
      PermutedReordered(a[1..], front + back, i);
      JobsForBoth(front, [b[k]] + back, i);
      JobsForBoth(front, back, i);
      NoneFailsBoth([a[0]], a[1..]);
      NoneFailsBoth(front, [b[k]] + back);
      NoneFailsBoth([b[k]], back);
      NoneFailsBoth(front, back);
    }
  }

  lemma NoneFailsBoth(a: seq<Task>, b: seq<Task>)
    ensures NoneFails(a + b) <==> NoneFails(a) && NoneFails(b)
  {
    assert forall t :: t in a + b <==> t in a || t in b;
  }

  // ---------- the tasks of two files ----------

  /** The files differ only in the order of entries within the relocation sections of the list. */
  ghost predicate SameButOrder(elf: Elf, elf': Elf, indexes: seq<nat>) {
    elf'.headers == elf.headers && |elf'.blob| == |elf.blob| &&
    (forall i :: 0 <= i < |elf.headers| && elf.InBlob(i) && !elf.IsRela(i) ==> elf'.Pristine(i) == elf.Pristine(i)) &&
    forall j :: j in indexes && j < |elf.headers| && elf.InBlob(j) && elf.TableInside(j) ==>
      multiset(elf'.Relocs(j)) == multiset(elf.Relocs(j))
  }

  function JobsOf(elf: Elf, c: Context, link: u32, relocs: seq<Rela>): seq<Job>
    requires link < |elf.headers| || link == VPU_RT_SYMTAB
  {
    seq(|relocs|, k requires 0 <= k < |relocs| => Job(relocs[k], ResolveStatic(elf, c, link, relocs[k])))
  }

  lemma {:induction false} JobsOfPermuted(elf: Elf, c: Context, link: u32, relocs: seq<Rela>, relocs': seq<Rela>)
    requires link < |elf.headers| || link == VPU_RT_SYMTAB
    requires multiset(relocs) == multiset(relocs')
    ensures multiset(JobsOf(elf, c, link, relocs)) == multiset(JobsOf(elf, c, link, relocs'))
  {
    hide ResolveStatic;
    if relocs == [] {
      assert |relocs'| == |multiset(relocs')| == 0;
    } else {
      var k := TakeOut(relocs, relocs');
      var front, back := relocs'[..k], relocs'[k + 1..];
      JobsOfPermuted(elf, c, link, relocs[1..], front + back);
      var first := [Job(relocs[0], ResolveStatic(elf, c, link, relocs[0]))];
      assert JobsOf(elf, c, link, relocs) == first + JobsOf(elf, c, link, relocs[1..]);
      assert JobsOf(elf, c, link, front + back) == JobsOf(elf, c, link, front) + JobsOf(elf, c, link, back);
      assert JobsOf(elf, c, link, relocs') == JobsOf(elf, c, link, front) + (first + JobsOf(elf, c, link, back));
    }
  }

  lemma ResolvesAlike(elf: Elf, elf': Elf, c: Context, indexes: seq<nat>, link: u32, r: Rela)
    requires SameButOrder(elf, elf', indexes)
    requires link == VPU_RT_SYMTAB || (link < |elf.headers| && elf.headers[link].stype == SHT_SYMTAB)
    ensures ResolveStatic(elf', c, link, r) == ResolveStatic(elf, c, link, r)
  {
    hide SymbolFrom, Elf.Relocs, Elf.TableInside, FirstIndex, Displaced, AddressOf;
    if link != VPU_RT_SYMTAB && elf.HasEntry(link, r.sym) {
      assert elf'.Pristine(link) == elf.Pristine(link);
      assert elf'.EntryBytes(link, r.sym) == elf.EntryBytes(link, r.sym);
    }
  }

  lemma TaskReordered(elf: Elf, elf': Elf, c: Context, indexes: seq<nat>, j: nat)
    requires SameButOrder(elf, elf', indexes) && j in indexes && j < |elf.headers|
    ensures SameTask(StaticTask(elf, c, j), StaticTask(elf', c, j))
  {
    hide ResolveStatic, Elf.Relocs;
    var link := elf.headers[j].link;
    assert CheckStatic(elf', c.addresses.Keys, j) == CheckStatic(elf, c.addresses.Keys, j);
    if CheckStatic(elf, c.addresses.Keys, j).Ok? {
      var relocs, relocs' := elf.Relocs(j), elf'.Relocs(j);
      JobsOfPermuted(elf, c, link, relocs, relocs');
      forall k | 0 <= k < |relocs'|
        ensures ResolveStatic(elf', c, link, relocs'[k]) == ResolveStatic(elf, c, link, relocs'[k])
      {
        ResolvesAlike(elf, elf', c, indexes, link, relocs'[k]);
      }
      assert StaticTask(elf, c, j).jobs == JobsOf(elf, c, link, relocs);
      assert StaticTask(elf', c, j).jobs == JobsOf(elf, c, link, relocs');
    }
  }

  lemma {:induction false} TasksPermuted(elf: Elf, c: Context, indexes: seq<nat>, indexes': seq<nat>)
    requires AllInFile(elf, indexes) && AllInFile(elf, indexes') && multiset(indexes) == multiset(indexes')
    ensures multiset(StaticTasks(elf, c, indexes)) == multiset(StaticTasks(elf, c, indexes'))
  {
    hide StaticTask;
    if indexes == [] {
      assert |indexes'| == |multiset(indexes')| == 0;
    } else {
      var k := TakeOut(indexes, indexes');
      var front, back := indexes'[..k], indexes'[k + 1..];
      TasksPermuted(elf, c, indexes[1..], front + back);
      var first := [StaticTask(elf, c, indexes[0])];
      assert StaticTasks(elf, c, indexes) == first + StaticTasks(elf, c, indexes[1..]);
      assert StaticTasks(elf, c, front + back) == StaticTasks(elf, c, front) + StaticTasks(elf, c, back);
      assert StaticTasks(elf, c, indexes') == StaticTasks(elf, c, front) + (first + StaticTasks(elf, c, back));
    }
  }

  /** Files that differ in the order of entries, and lists of relocation sections in another order, give the same tasks
      up to order. */
  lemma FilesReordered(elf: Elf, elf': Elf, c: Context, indexes: seq<nat>, indexes': seq<nat>, keys: set<nat>)
    requires SameButOrder(elf, elf', indexes) && AllInFile(elf, indexes) && AllInFile(elf', indexes')
    requires multiset(indexes) == multiset(indexes')
    ensures Reordered(keys, StaticTasks(elf, c, indexes), StaticTasks(elf', c, indexes'))
  {
    hide StaticTask, JobsFor, NoneFails, SameButOrder, SameTask;
    assert AllInFile(elf', indexes) by { SameFile(elf, elf', indexes); }
    var a, mid, b := StaticTasks(elf, c, indexes), StaticTasks(elf', c, indexes), StaticTasks(elf', c, indexes');
    forall k | 0 <= k < |a| ensures SameTask(a[k], mid[k]) {
      TaskReordered(elf, elf', c, indexes, indexes[k]);
    }
    TasksPermuted(elf', c, indexes, indexes');
    SameTasksReordered(a, mid, 0);
    PermutedReordered(mid, b, 0);
    forall i | i in keys ensures multiset(JobsFor(a, i)) == multiset(JobsFor(b, i)) {
      SameTasksReordered(a, mid, i);
      PermutedReordered(mid, b, i);
    }
  }

  lemma SameFile(elf: Elf, elf': Elf, indexes: seq<nat>)
    requires SameButOrder(elf, elf', indexes) && AllInFile(elf, indexes)
    ensures AllInFile(elf', indexes)
  {}

  // ---------- disjoint entries ----------

  predicate IsTableFor(elf: Elf, j: nat, i: nat) {
    j < |elf.headers| && elf.InBlob(j) && elf.TableInside(j) && elf.headers[j].info == i
  }

  /** No two entries of the listed sections that patch section i touch a common byte. */
  ghost predicate EntriesApart(elf: Elf, indexes: seq<nat>, i: nat) {
    forall k, l, m, n ::
      0 <= k < |indexes| && 0 <= l < |indexes| && IsTableFor(elf, indexes[k], i) && IsTableFor(elf, indexes[l], i) &&
      0 <= m < |elf.Relocs(indexes[k])| && 0 <= n < |elf.Relocs(indexes[l])| && (k != l || m != n) ==>
      Apart(elf.Relocs(indexes[k])[m], elf.Relocs(indexes[l])[n])
  }

  lemma {:induction false} JobOrigin(tasks: seq<Task>, i: nat, job: Job) returns (k: nat)
    requires job in JobsFor(tasks, i)
    ensures k < |tasks| && tasks[k].Patches? && tasks[k].target == i && job in tasks[k].jobs
  {
    if job in TaskJobsFor(tasks[0], i) {
      k := 0;
    } else {
      k := JobOrigin(tasks[1..], i, job);
      k := k + 1;
    }
  }

  lemma EntriesToJobs(elf: Elf, c: Context, indexes: seq<nat>, i: nat)
    requires AllInFile(elf, indexes) && EntriesApart(elf, indexes, i)
    ensures AllApart(JobsFor(StaticTasks(elf, c, indexes), i))
  {
    hide ResolveStatic, Elf.Relocs, Elf.TableInside, JobsFor, Apart;
    var tasks := StaticTasks(elf, c, indexes);
    forall a, b | a in JobsFor(tasks, i) && b in JobsFor(tasks, i) && a != b
      ensures Apart(a.rela, b.rela)
    {
      var k := JobOrigin(tasks, i, a);
      var l := JobOrigin(tasks, i, b);
      var m :| 0 <= m < |tasks[k].jobs| && tasks[k].jobs[m] == a;
      var n :| 0 <= n < |tasks[l].jobs| && tasks[l].jobs[n] == b;
      assert IsTableFor(elf, indexes[k], i) && IsTableFor(elf, indexes[l], i);
      assert elf.Relocs(indexes[k])[m] == a.rela && elf.Relocs(indexes[l])[n] == b.rela;
      assert k != l || m != n;
    }
  }

  // ---------- the theorem ----------

  /** If the entries for each private section touch pairwise disjoint bytes, a loader at the same addresses ends alike and
      with the same images whichever way the file orders the entries of its relocation sections, and in whichever order
      the sections are applied. */
  lemma RelocationOrderDoesNotMatter(elf: Elf, elf': Elf, c: Context, indexes: seq<nat>, indexes': seq<nat>, images: Images)
    requires SameButOrder(elf, elf', indexes) && AllInFile(elf, indexes) && AllInFile(elf', indexes')
    requires multiset(indexes) == multiset(indexes')
    requires HaveTargets(images.Keys, StaticTasks(elf, c, indexes)) && HaveTargets(images.Keys, StaticTasks(elf', c, indexes'))
    requires forall i :: i in images ==> EntriesApart(elf, indexes, i)
    ensures var a, b := RunTasks(images, StaticTasks(elf, c, indexes)), RunTasks(images, StaticTasks(elf', c, indexes'));
      (a.status.Ok? <==> b.status.Ok?) && (a.status.Ok? ==> a.images == b.images)
  {
    hide RunTasks, StaticTask, EntriesApart, SameButOrder, AllApart, JobsFor;
    FilesReordered(elf, elf', c, indexes, indexes', images.Keys);
    forall i | i in images ensures AllApart(JobsFor(StaticTasks(elf, c, indexes), i)) {
      EntriesToJobs(elf, c, indexes, i);
    }
    OrderDoesNotMatter(images, StaticTasks(elf, c, indexes), StaticTasks(elf', c, indexes'));
  }

  /** For loaders: images of a loader of the one file are the images of a loader of the other, at the same addresses. */
  lemma RelocatedInAnyOrder(elf: Elf, elf': Elf, mem: Memory, mem': Memory, st: LoaderState, st': LoaderState)
    requires Sound(elf, mem, st) && Sound(elf', mem', st') && SameButOrder(elf, elf', st.relocIndexes)
    requires st.Ctx() == st'.Ctx() && PrivateKeys(st.infer) == PrivateKeys(st'.infer)
    requires multiset(st.relocIndexes) == multiset(st'.relocIndexes)
    requires forall i :: i in PrivateKeys(st.infer) ==> EntriesApart(elf, st.relocIndexes, i)
    ensures AllInFile(elf, st.relocIndexes) && AllInFile(elf', st'.relocIndexes)
    ensures Relocated(elf, st).status.Ok? <==> Relocated(elf', st').status.Ok?
    ensures Relocated(elf, st).status.Ok? ==> Relocated(elf, st).images == Relocated(elf', st').images
  {
    hide RunTasks, EntriesApart, StaticTasks, Injective, Owned, Frozen;
    StaticTasksHaveTargets(elf, mem, st);
    StaticTasksHaveTargets(elf', mem', st');
    var images := PristineImages(elf, PrivateKeys(st.infer));
    forall i | i in PrivateKeys(st.infer)
      ensures i < |elf.headers| && elf.InBlob(i) && elf'.Pristine(i) == elf.Pristine(i)
    {
      assert SoundData(elf, mem, st, i);
    }
    hide SameButOrder, Sound;
    assert images.Keys == PrivateKeys(st.infer);
    assert PristineImages(elf', PrivateKeys(st'.infer)) == images;
    RelocationOrderDoesNotMatter(elf, elf', st.Ctx(), st.relocIndexes, st'.relocIndexes, images);
  }
}
