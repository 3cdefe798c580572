/** Whole runs of relocation sections over the images of a loader, keyed by section index. */
module Tasks {
  import opened Bytes
  import opened Errors
  import opened Patching

  type Images = map<nat, seq<byte>>

  /** One relocation section: refused as a whole, or a list of jobs on its target section. */
  datatype Task = Fails(error: Error) | Patches(target: nat, jobs: seq<Job>)

  datatype Outcome = Outcome(images: Images, status: Status)

  predicate HaveTargets(keys: set<nat>, tasks: seq<Task>) {
    forall t :: t in tasks && t.Patches? ==> t.target in keys
  }

  function RunTask(images: Images, task: Task): (o: Outcome)
    ensures o.images.Keys == images.Keys
    ensures forall i :: i in images ==> |o.images[i]| == |images[i]|
  {
    match task
    case Fails(e) => Outcome(images, Err(e))
    case Patches(i, jobs) =>
      if i !in images then Outcome(images, Err(OutOfRange))
      else
        var p := PatchAll(images[i], jobs);
        Outcome(images[i := p.image], p.status)
  }

  /** The relocation sections in order, up to the first failure. */
  function RunTasks(images: Images, tasks: seq<Task>): (o: Outcome)
    ensures o.images.Keys == images.Keys
    ensures forall i :: i in images ==> |o.images[i]| == |images[i]|
    decreases tasks
  {
    if tasks == [] then Outcome(images, Ok)
    else
      var first := RunTask(images, tasks[0]);
      if first.status.Err? then first else RunTasks(first.images, tasks[1..])
  }

  function TaskJobsFor(task: Task, i: nat): seq<Job> {
    if task.Patches? && task.target == i then task.jobs else []
  }

  /** The jobs that the tasks hold for section i, in the order in which they run. */
  function JobsFor(tasks: seq<Task>, i: nat): seq<Job> {
    if tasks == [] then [] else TaskJobsFor(tasks[0], i) + JobsFor(tasks[1..], i)
  }

  /** Where job k of task p stands among the jobs for its section. */
  function PlaceOf(tasks: seq<Task>, p: nat, k: nat): nat
    requires p < |tasks| && tasks[p].Patches?
  {
    |JobsFor(tasks[..p], tasks[p].target)| + k
  }

  /** No job of any task is lost on the way to its section. */
  lemma {:induction false} EveryJobHasItsPlace(tasks: seq<Task>, p: nat, k: nat)
    requires p < |tasks| && tasks[p].Patches? && k < |tasks[p].jobs|
    ensures PlaceOf(tasks, p, k) < |JobsFor(tasks, tasks[p].target)|
    ensures JobsFor(tasks, tasks[p].target)[PlaceOf(tasks, p, k)] == tasks[p].jobs[k]
  {
    if p > 0 {
      EveryJobHasItsPlace(tasks[1..], p - 1, k);
      assert tasks[..p][1..] == tasks[1..][..p - 1];
    }
  }

  /** Every job among those for a section comes from a task for that section. */
  lemma {:induction false} EveryPlaceHasItsJob(tasks: seq<Task>, i: nat, n: nat) returns (p: nat, k: nat)
    requires n < |JobsFor(tasks, i)|
    ensures p < |tasks| && tasks[p].Patches? && tasks[p].target == i && k < |tasks[p].jobs|
    ensures PlaceOf(tasks, p, k) == n && JobsFor(tasks, i)[n] == tasks[p].jobs[k]
  {
    var first := TaskJobsFor(tasks[0], i);
    if n < |first| {
      p, k := 0, n;
    } else {
      p, k := EveryPlaceHasItsJob(tasks[1..], i, n - |first|);
      p := p + 1;
      assert tasks[..p][1..] == tasks[1..][..p - 1];
    }
  }

  predicate NoneFails(tasks: seq<Task>) {
    forall t :: t in tasks ==> t.Patches?
  }

  /** A run over all sections succeeds exactly when every section's own relocations do, and then each image is
      its own relocations, each applied once, in order. */
  lemma {:induction false} EachSectionItsOwn(images: Images, tasks: seq<Task>)
    requires HaveTargets(images.Keys, tasks)
    ensures RunTasks(images, tasks).status.Ok? <==>
      NoneFails(tasks) && forall i :: i in images ==> PatchAll(images[i], JobsFor(tasks, i)).status.Ok?
    ensures RunTasks(images, tasks).status.Ok? ==>
      forall i :: i in images ==> RunTasks(images, tasks).images[i] == PatchAll(images[i], JobsFor(tasks, i)).image
    decreases tasks
  {
    hide PatchOne, PatchAll;
    if tasks == [] {
      forall i | i in images
        ensures PatchAll(images[i], JobsFor(tasks, i)) == Patched(images[i], Ok)
      {
        EmptyPatch(images[i]);
      }
    } else {
      var task, rest := tasks[0], tasks[1..];
      assert task in tasks;
      if task.Fails? {
        assert !NoneFails(tasks);
      } else {
        var t, first := task.target, RunTask(images, task);
        forall i | i in images
          ensures PatchAll(images[i], JobsFor(tasks, i)) ==
            if i != t then PatchAll(images[i], JobsFor(rest, i))
            else if first.status.Err? then PatchAll(images[t], task.jobs)
            else PatchAll(first.images[t], JobsFor(rest, t))
        {
          PatchAllAppend(images[t], task.jobs, JobsFor(rest, t));
          assert [] + JobsFor(rest, i) == JobsFor(rest, i);
        }
        if first.status.Ok? {
          EachSectionItsOwn(first.images, rest);
          NoneFailsTail(tasks);
        }
      }
    }
  }

  lemma EmptyPatch(image: seq<byte>)
    ensures PatchAll(image, []) == Patched(image, Ok)
  {}

  lemma NoneFailsTail(tasks: seq<Task>)
    requires tasks != [] && tasks[0].Patches?
    ensures NoneFails(tasks) <==> NoneFails(tasks[1..])
  {
    assert tasks == [tasks[0]] + tasks[1..];
  }

  /** In a successful run every job of every task that is alone in its range has its effect on the old image. */
  lemma EveryJobTakesEffect(images: Images, tasks: seq<Task>, p: nat, k: nat)
    requires HaveTargets(images.Keys, tasks) && RunTasks(images, tasks).status.Ok?
    requires p < |tasks| && tasks[p].Patches? && k < |tasks[p].jobs|
    requires PlaceOf(tasks, p, k) < |JobsFor(tasks, tasks[p].target)|
    requires Alone(JobsFor(tasks, tasks[p].target), PlaceOf(tasks, p, k))
    ensures var i := tasks[p].target;
      i in images && HasEffect(images[i], RunTasks(images, tasks).images[i], tasks[p].jobs[k])
  {
    hide PatchAll, RunTasks, JobsFor, PlaceOf, NoneFails, Alone, HasEffect;
    assert tasks[p] in tasks;
    EachSectionItsOwn(images, tasks);
    EveryJobHasItsPlace(tasks, p, k);
    AppliedOnce(images[tasks[p].target], JobsFor(tasks, tasks[p].target), PlaceOf(tasks, p, k));
  }

  // ---------- order independence over whole runs ----------

  /** The same relocations for every section, in any order within and across relocation sections. */
  predicate Reordered(keys: set<nat>, a: seq<Task>, b: seq<Task>) {
    (NoneFails(a) <==> NoneFails(b)) && forall i :: i in keys ==> multiset(JobsFor(a, i)) == multiset(JobsFor(b, i))
  }

  lemma OrderDoesNotMatter(images: Images, a: seq<Task>, b: seq<Task>)
    requires HaveTargets(images.Keys, a) && HaveTargets(images.Keys, b) && Reordered(images.Keys, a, b)
    requires forall i :: i in images ==> AllApart(JobsFor(a, i))
    ensures RunTasks(images, a).status.Ok? <==> RunTasks(images, b).status.Ok?
    ensures RunTasks(images, a).status.Ok? ==> RunTasks(images, a).images == RunTasks(images, b).images
  {
    hide PatchAll, RunTasks, AllApart, JobsFor, NoneFails;
    EachSectionItsOwn(images, a);
    EachSectionItsOwn(images, b);
    forall i | i in images
      ensures SameResult(PatchAll(images[i], JobsFor(a, i)), PatchAll(images[i], JobsFor(b, i)))
    {
      Permute(images[i], JobsFor(a, i), JobsFor(b, i));
    }
  }

  // ---------- absorption over whole runs ----------

  predicate SameRelas(a: seq<Job>, b: seq<Job>) {
    |a| == |b| && forall k :: 0 <= k < |a| ==> a[k].rela == b[k].rela
  }

  /** The same relocation sections, resolved against different symbols. */
  predicate SameShape(a: seq<Task>, b: seq<Task>) {
    |a| == |b| && forall k :: 0 <= k < |a| ==>
      if a[k].Fails? then a[k] == b[k]
      else b[k].Patches? && a[k].target == b[k].target && SameRelas(a[k].jobs, b[k].jobs)
  }

  predicate OnlyOverwriting(tasks: seq<Task>) {
    forall t :: t in tasks && t.Patches? ==> AllOverwriting(t.jobs)
  }

  lemma {:induction false} JobsForOverwriting(tasks: seq<Task>, i: nat)
    requires OnlyOverwriting(tasks)
    ensures AllOverwriting(JobsFor(tasks, i))
  {
    if tasks != [] {
      assert tasks[0] in tasks;
      JobsForOverwriting(tasks[1..], i);
    }
  }

  lemma {:induction false} JobsForSameRelas(a: seq<Task>, b: seq<Task>, i: nat)
    requires SameShape(a, b)
    ensures SameRelas(JobsFor(a, i), JobsFor(b, i))
  {
    if a != [] {
      JobsForSameRelas(a[1..], b[1..], i);
    }
  }

  lemma {:induction false} SameCover(a: seq<Job>, b: seq<Job>, k: nat)
    requires SameRelas(a, b) && AllOverwriting(a) && AllOverwriting(b)
    ensures Cover(a, k) == Cover(b, k)
  {
    hide MaskAt;
    if a != [] {
      SameCover(a[1..], b[1..], k);
    }
  }

  lemma {:induction false} CoverAppend(a: seq<Job>, b: seq<Job>, k: nat)
    requires AllOverwriting(a) && AllOverwriting(b) && AllOverwriting(a + b)
    ensures Cover(a + b, k) == Cover(a, k) | Cover(b, k)
    decreases a
  {
    hide MaskAt;
    if a == [] {
      assert a + b == b;
    } else {
      assert (a + b)[1..] == a[1..] + b;
      CoverAppend(a[1..], b, k);
    }
  }

  lemma AgreeInTwoSteps(x: byte, y: byte, z: byte, c: byte, d: byte)
    requires Agree(x, y, c) && Agree(y, z, d)
    ensures Agree(x, z, c | d)
  {}

  lemma AgreeOutsideBoth(x: seq<byte>, y: seq<byte>, z: seq<byte>, a: seq<Job>, b: seq<Job>)
    requires AllOverwriting(a) && AllOverwriting(b) && AllOverwriting(a + b)
    requires AgreeOutside(x, y, a) && AgreeOutside(y, z, b)
    ensures AgreeOutside(x, z, a + b)
  {
    hide Agree, Cover, AllOverwriting;
    forall k | 0 <= k < |x|
      ensures Agree(x[k], z[k], Cover(a + b, k))
    {
      CoverAppend(a, b, k);
      AgreeInTwoSteps(x[k], y[k], z[k], Cover(a, k), Cover(b, k));
    }
  }

  lemma TaskChangesCoveredOnly(images: Images, task: Task, i: nat)
    requires i in images && AllOverwriting(TaskJobsFor(task, i))
    ensures AgreeOutside(images[i], RunTask(images, task).images[i], TaskJobsFor(task, i))
  {
    hide AgreeOutside, AllOverwriting, PatchAll;
    if task.Patches? && task.target == i {
      ChangesCoveredOnly(images[i], task.jobs);
    } else {
      AgreeOutsideSelf(images[i], TaskJobsFor(task, i));
    }
  }

  /** A run of overwriting relocations, to its end or to a failure, changes each image only in covered bits. */
  lemma {:induction false} RunChangesCoveredOnly(images: Images, tasks: seq<Task>, i: nat)
    requires OnlyOverwriting(tasks) && i in images
    requires AllOverwriting(JobsFor(tasks, i))
    ensures AgreeOutside(images[i], RunTasks(images, tasks).images[i], JobsFor(tasks, i))
    decreases tasks
  {
    hide AgreeOutside, RunTask;
    if tasks == [] {
      AgreeOutsideSelf(images[i], []);
    } else {
      var rest := tasks[1..];
      assert tasks[0] in tasks;
      var first := RunTask(images, tasks[0]);
      JobsForOverwriting(rest, i);
      TaskChangesCoveredOnly(images, tasks[0], i);
      var last := RunTasks(images, tasks).images[i];
      if first.status.Ok? {
        RunChangesCoveredOnly(first.images, rest, i);
      } else {
        AgreeOutsideSelf(last, JobsFor(rest, i));
      }
      AgreeOutsideBoth(images[i], first.images[i], last, TaskJobsFor(tasks[0], i), JobsFor(rest, i));
    }
  }

  /** How a run of overwriting relocations ends depends on the sizes of the images only. */
  lemma {:induction false} RunStatusIgnoresBytes(x: Images, y: Images, tasks: seq<Task>)
    requires x.Keys == y.Keys && (forall i :: i in x ==> |x[i]| == |y[i]|) && OnlyOverwriting(tasks)
    ensures RunTasks(x, tasks).status == RunTasks(y, tasks).status
    decreases tasks
  {
    hide PatchAll, AllOverwriting;
    if tasks != [] {
      var task := tasks[0];
      assert task in tasks;
      if task.Patches? && task.target in x {
        StatusIgnoresBytes(x[task.target], y[task.target], task.jobs);
      }
      RunStatusIgnoresBytes(RunTask(x, task).images, RunTask(y, task).images, tasks[1..]);
    }
  }

  /** Patching with one set of user buffers and then with another is patching with the second alone, however far
      the first run got, provided all types involved overwrite: it ends the same way, and in success with the same
      images. */
  lemma JitAbsorbs(images: Images, a: seq<Task>, b: seq<Task>)
    requires HaveTargets(images.Keys, a) && HaveTargets(images.Keys, b)
    requires SameShape(a, b) && OnlyOverwriting(a) && OnlyOverwriting(b)
    ensures RunTasks(RunTasks(images, a).images, b).status == RunTasks(images, b).status
    ensures RunTasks(images, b).status.Ok? ==>
      RunTasks(RunTasks(images, a).images, b) == RunTasks(images, b)
  {
    hide PatchAll, RunTasks, AllOverwriting, JobsFor, NoneFails, Agree, Cover, OnlyOverwriting;
    var mid := RunTasks(images, a).images;
    RunStatusIgnoresBytes(mid, images, b);
    EachSectionItsOwn(images, b);
    EachSectionItsOwn(mid, b);
    forall i | i in images
      ensures SameResult(PatchAll(images[i], JobsFor(b, i)), PatchAll(mid[i], JobsFor(b, i)))
    {
      JobsForOverwriting(a, i);
      JobsForOverwriting(b, i);
      JobsForSameRelas(a, b, i);
      RunChangesCoveredOnly(images, a, i);
      forall k | 0 <= k < |images[i]|
        ensures Agree(images[i][k], mid[i][k], Cover(JobsFor(b, i), k))
      {
        SameCover(JobsFor(a, i), JobsFor(b, i), k);
      }
      AbsorbAll(images[i], mid[i], JobsFor(b, i));
    }
    if RunTasks(images, b).status.Ok? {
      assert RunTasks(mid, b).images == RunTasks(images, b).images;
    }
  }
}
