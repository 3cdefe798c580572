/** Lists of relocations applied to images: the loop bodies of applyRelocations and
    applyJitRelocations as functions on values, and the laws of applying them. */
module Patching {
  import opened Bytes
  import opened Errors
  import opened Options
  import opened Relocations

  /** A decoded Elf64_Rela: r_info is already split into symbol index and type. */
  datatype Rela = Rela(offset: nat, sym: nat, rtype: nat, addend: bv64)

  datatype Target = Resolved(symbol: SymVal) | Unresolved(error: Error)

  /** A relocation together with the symbol that was found for it. */
  datatype Job = Job(rela: Rela, target: Target)

  datatype Patched = Patched(image: seq<byte>, status: Status)

  /** Why a job cannot touch an image of the given size at all; Ok when it can. */
  function Refusal(job: Job, size: nat): Status {
    var r := job.rela;
    if r.offset >= size || Width(r.rtype) == 0 then Err(RelocError)
    else if job.target.Unresolved? then Err(job.target.error)
    else if r.offset + Width(r.rtype) > size then Err(Undefined)
    else Ok
  }

  /** The bytes a job rewrites. */
  function Window(image: seq<byte>, job: Job): (w: seq<byte>)
    requires Refusal(job, |image|).Ok?
    ensures |w| == Width(job.rela.rtype) > 0
  {
    image[job.rela.offset..job.rela.offset + Width(job.rela.rtype)]
  }

  function PatchOne(image: seq<byte>, job: Job): (p: Patched)
    ensures |p.image| == |image|
  {
    var refusal := Refusal(job, |image|);
    if refusal.Err? then Patched(image, refusal)
    else
      match PatchBytes(job.rela.rtype, Window(image, job), job.target.symbol, job.rela.addend)
      case None => Patched(image, Err(Undefined))
      case Some(bs) => Patched(Splice(image, job.rela.offset, bs), Ok)
  }

  /** The relocations of one section, in order, up to the first that fails. */
  function PatchAll(image: seq<byte>, jobs: seq<Job>): (p: Patched)
    ensures |p.image| == |image|
    decreases jobs
  {
    if jobs == [] then Patched(image, Ok)
    else
      var first := PatchOne(image, jobs[0]);
      if first.status.Err? then first else PatchAll(first.image, jobs[1..])
  }

  lemma {:induction false} PatchAllAppend(image: seq<byte>, a: seq<Job>, b: seq<Job>)
    ensures PatchAll(image, a + b) ==
      var p := PatchAll(image, a);
      if p.status.Err? then p else PatchAll(p.image, b)
    decreases a
  {
    hide PatchOne;
    if a == [] {
      assert a + b == b;
    } else {
      assert (a + b)[1..] == a[1..] + b;
      PatchAllAppend(PatchOne(image, a[0]).image, a[1..], b);
    }
  }

  /** Both succeed with the same image, or both fail. */
  predicate SameResult(p: Patched, q: Patched) {
    (p.status.Ok? <==> q.status.Ok?) && (p.status.Ok? ==> p.image == q.image)
  }

  // ---------- order independence ----------

  predicate Apart(a: Rela, b: Rela) {
    a.offset + Width(a.rtype) <= b.offset || b.offset + Width(b.rtype) <= a.offset
  }

  /** Any two different relocations rewrite disjoint byte ranges. */
  predicate AllApart(jobs: seq<Job>) {
    forall a, b :: a in jobs && b in jobs && a != b ==> Apart(a.rela, b.rela)
  }

  /** A successful job leaves every window apart from its own as it was. */
  lemma WindowStays(image: seq<byte>, a: Job, b: Job)
    requires Apart(a.rela, b.rela) && Refusal(b, |image|).Ok?
    ensures Window(PatchOne(image, a).image, b) == Window(image, b)
  {
    hide PatchBytes, Width;
    var image' := PatchOne(image, a).image;
    forall k | b.rela.offset <= k < b.rela.offset + Width(b.rela.rtype)
      ensures image'[k] == image[k]
    {}
  }

  lemma SplicesCommute(image: seq<byte>, i: nat, x: seq<byte>, j: nat, y: seq<byte>)
    requires i + |x| <= |image| && j + |y| <= |image| && (i + |x| <= j || j + |y| <= i)
    ensures Splice(Splice(image, i, x), j, y) == Splice(Splice(image, j, y), i, x)
  {}

  lemma SwapAdjacent(image: seq<byte>, a: Job, b: Job)
    requires Apart(a.rela, b.rela)
    ensures SameResult(PatchAll(image, [a, b]), PatchAll(image, [b, a]))
  {
    PatchTwo(image, a, b);
    PatchTwo(image, b, a);
    hide PatchBytes, Width, PatchAll, Splice, Window;
    if Refusal(a, |image|).Ok? && Refusal(b, |image|).Ok? {
      WindowStays(image, a, b);
      WindowStays(image, b, a);
      var x := PatchBytes(a.rela.rtype, Window(image, a), a.target.symbol, a.rela.addend);
      var y := PatchBytes(b.rela.rtype, Window(image, b), b.target.symbol, b.rela.addend);
      if x.Some? && y.Some? {
        SplicesCommute(image, a.rela.offset, x.value, b.rela.offset, y.value);
      }
    }
  }

  lemma PatchTwo(image: seq<byte>, a: Job, b: Job)
    ensures PatchAll(image, [a, b]) ==
      var p := PatchOne(image, a);
      if p.status.Err? then p else PatchOne(p.image, b)
  {
    hide PatchOne;
    assert [a, b][1..] == [b];
    var p := PatchOne(image, a);
    if p.status.Ok? {
      assert PatchAll(p.image, [b]) == PatchOne(p.image, b);
    }
  }

  lemma SwappedPermutes(before: seq<Job>, x: Job, y: Job, after: seq<Job>)
    ensures multiset(before + [x, y] + after) == multiset(before + [y, x] + after)
  {
    assert [x, y] == [x] + [y] && [y, x] == [y] + [x];
  }

  /** The job at index k may be applied first. */
  lemma {:induction false} MoveToFront(image: seq<byte>, jobs: seq<Job>, k: nat)
    requires k < |jobs| && AllApart(jobs)
    ensures SameResult(PatchAll(image, jobs), PatchAll(image, [jobs[k]] + jobs[..k] + jobs[k + 1..]))
    decreases k
  {
    hide PatchOne, PatchAll, Apart;
    var x := jobs[k];
    if k == 0 {
      assert [x] + jobs[..0] + jobs[1..] == jobs;
    } else {
      // swap x with its left neighbour, then move it on
      var y, before, after := jobs[k - 1], jobs[..k - 1], jobs[k + 1..];
      var swapped := before + [x, y] + after;
      assert jobs == before + [y, x] + after;
      SwapInside(image, before, y, x, after);
      SwappedPermutes(before, x, y, after);
      ApartForPermutation(jobs, swapped);
      MoveToFront(image, swapped, k - 1);
      assert [swapped[k - 1]] + swapped[..k - 1] + swapped[k..] == [x] + jobs[..k] + after;
    }
  }

  lemma SwapInside(image: seq<byte>, before: seq<Job>, a: Job, b: Job, after: seq<Job>)
    requires a != b ==> Apart(a.rela, b.rela)
    ensures SameResult(PatchAll(image, before + [a, b] + after), PatchAll(image, before + [b, a] + after))
  {
    hide PatchOne;
    if a != b {
      PatchAllAppend(image, before + [a, b], after);
      PatchAllAppend(image, before + [b, a], after);
      PatchAllAppend(image, before, [a, b]);
      PatchAllAppend(image, before, [b, a]);
      SwapAdjacent(PatchAll(image, before).image, a, b);
    }
  }

  lemma RemoveAt(s: seq<Job>, k: nat)
    requires k < |s|
    ensures multiset(s[..k] + s[k + 1..]) == multiset(s) - multiset{s[k]}
  {
    assert s == s[..k] + [s[k]] + s[k + 1..];
    assert multiset(s) == multiset(s[..k]) + multiset{s[k]} + multiset(s[k + 1..]);
  }

  lemma ApartForPermutation(jobs: seq<Job>, jobs': seq<Job>)
    requires multiset(jobs') <= multiset(jobs) && AllApart(jobs)
    ensures AllApart(jobs')
  {
    hide Apart;
    forall a | a in jobs'
      ensures a in jobs
    {
      assert a in multiset(jobs');
      assert a in multiset(jobs);
    }
  }

  ghost function Occurrence(jobs: seq<Job>, jobs': seq<Job>): (k: nat)
    requires jobs != [] && multiset(jobs) == multiset(jobs')
    ensures k < |jobs'| && jobs'[k] == jobs[0]
  {
    assert jobs[0] in multiset(jobs');
    var k: nat :| k < |jobs'| && jobs'[k] == jobs[0];
    k
  }

  lemma SameRests(jobs: seq<Job>, jobs': seq<Job>, k: nat)
    requires jobs != [] && multiset(jobs) == multiset(jobs') && k < |jobs'| && jobs'[k] == jobs[0]
    ensures multiset(jobs[1..]) == multiset(jobs'[..k] + jobs'[k + 1..])
    ensures multiset(jobs[1..]) <= multiset(jobs)
  {
    RemoveAt(jobs, 0);
    assert jobs[..0] + jobs[1..] == jobs[1..];
    RemoveAt(jobs', k);
  }

  lemma SameTailSameResult(image: seq<byte>, x: Job, rest: seq<Job>, rest': seq<Job>)
    requires SameResult(PatchAll(PatchOne(image, x).image, rest), PatchAll(PatchOne(image, x).image, rest'))
    ensures SameResult(PatchAll(image, [x] + rest), PatchAll(image, [x] + rest'))
  {
    hide PatchOne;
    assert ([x] + rest)[1..] == rest && ([x] + rest')[1..] == rest';
  }

  /** Relocations with disjoint targets give the same image in every order. */
  lemma {:induction false} Permute(image: seq<byte>, jobs: seq<Job>, jobs': seq<Job>)
    requires multiset(jobs) == multiset(jobs') && AllApart(jobs)
    ensures SameResult(PatchAll(image, jobs), PatchAll(image, jobs'))
    decreases jobs
  {
    hide PatchOne, AllApart, PatchAll;
    if jobs == [] {
      assert |jobs'| == |multiset(jobs')| == 0;
    } else {
      var k := Occurrence(jobs, jobs');
      var x, rest, rest' := jobs[0], jobs[1..], jobs'[..k] + jobs'[k + 1..];
      SameRests(jobs, jobs', k);
      ApartForPermutation(jobs, jobs');
      ApartForPermutation(jobs, rest);
      MoveToFront(image, jobs', k);
      assert [jobs'[k]] + jobs'[..k] + jobs'[k + 1..] == [x] + rest' && [x] + rest == jobs;
      Permute(PatchOne(image, x).image, rest, rest');
      SameTailSameResult(image, x, rest, rest');
    }
  }

  // ---------- what a relocation with a range of its own leaves there ----------

  /** No other relocation of the list touches the range of relocation k. */
  predicate Alone(jobs: seq<Job>, k: nat)
    requires k < |jobs|
  {
    forall l :: 0 <= l < |jobs| && l != k ==> Apart(jobs[l].rela, jobs[k].rela)
  }

  /** How one relocation ends: it is refused for an offset behind the image, for a type that is not in the map, or for the reason
      its symbol did not resolve; what it would write behind the image, or what its function leaves undefined, is undefined. */
  lemma EndsExactly(image: seq<byte>, job: Job)
    ensures var r, target, p := job.rela, job.target, PatchOne(image, job);
      var known := r.rtype <= 23 || 1011 <= r.rtype <= 1013;
      (r.offset >= |image| || !known ==> p.status == Err(RelocError)) &&
      (r.offset < |image| && known && target.Unresolved? ==> p.status == Err(target.error)) &&
      (r.offset < |image| && known && target.Resolved? ==>
        if r.offset + Width(r.rtype) > |image| then p.status == Err(Undefined)
        else if PatchBytes(r.rtype, image[r.offset..r.offset + Width(r.rtype)], target.symbol, r.addend).None?
        then p.status == Err(Undefined)
        else p.status == Ok) &&
      (p.status.Err? ==> p.image == image)
  {
    hide PatchBytes, Splice;
  }

  /** A list ends as its first relocation that fails does, with what came before applied; one that succeeds is applied to its end. */
  lemma EndsAtFirstFailure(image: seq<byte>, jobs: seq<Job>, k: nat)
    requires k < |jobs| && PatchAll(image, jobs[..k]).status.Ok?
    ensures var before := PatchAll(image, jobs[..k]).image;
      if PatchOne(before, jobs[k]).status.Err? then PatchAll(image, jobs) == PatchOne(before, jobs[k])
      else PatchAll(image, jobs[..k + 1]) == PatchOne(before, jobs[k])
  {
    hide PatchOne;
    var before := PatchAll(image, jobs[..k]).image;
    assert jobs == jobs[..k] + ([jobs[k]] + jobs[k + 1..]);
    PatchAllAppend(image, jobs[..k], [jobs[k]] + jobs[k + 1..]);
    PatchFirst(before, jobs[k], jobs[k + 1..]);
    assert jobs[..k + 1] == jobs[..k] + ([jobs[k]] + []);
    PatchAllAppend(image, jobs[..k], [jobs[k]] + []);
    PatchFirst(before, jobs[k], []);
    assert PatchAll(PatchOne(before, jobs[k]).image, []) == Patched(PatchOne(before, jobs[k]).image, Ok);
  }

  /** A list of relocations that are all apart from this one leaves its range as it was. */
  lemma {:induction false} RangeStays(image: seq<byte>, jobs: seq<Job>, x: Job)
    requires (forall l :: 0 <= l < |jobs| ==> Apart(jobs[l].rela, x.rela)) && Refusal(x, |image|).Ok?
    ensures Window(PatchAll(image, jobs).image, x) == Window(image, x)
    decreases jobs
  {
    hide PatchOne, Apart, Window, Refusal;
    if jobs != [] {
      WindowStays(image, jobs[0], x);
      RangeStays(PatchOne(image, jobs[0]).image, jobs[1..], x);
    }
  }

  /** Where a relocation points, the bytes after are what its function makes of the bytes before. */
  predicate HasEffect(before: seq<byte>, after: seq<byte>, job: Job) {
    var r, width := job.rela, Width(job.rela.rtype);
    |after| == |before| && job.target.Resolved? && 0 < width && r.offset + width <= |before| &&
    PatchBytes(r.rtype, before[r.offset..r.offset + width], job.target.symbol, r.addend)
      == Some(after[r.offset..r.offset + width])
  }

  lemma OwnRange(image: seq<byte>, x: Job)
    requires PatchOne(image, x).status.Ok?
    ensures HasEffect(image, PatchOne(image, x).image, x) && Refusal(x, |image|).Ok?
  {
    hide PatchBytes, Width;
    var at, bs := x.rela.offset, PatchBytes(x.rela.rtype, Window(image, x), x.target.symbol, x.rela.addend).value;
    assert Splice(image, at, bs)[at..at + |bs|] == bs;
  }

  lemma EffectOnRange(before: seq<byte>, before': seq<byte>, after: seq<byte>, after': seq<byte>, x: Job)
    requires |before| == |before'| == |after| == |after'| && Refusal(x, |before|).Ok?
    requires Window(before, x) == Window(before', x) && Window(after, x) == Window(after', x)
    ensures HasEffect(before, after, x) <==> HasEffect(before', after', x)
  {
    hide PatchBytes, Width;
  }

  /** Whatever else the list does, a relocation alone in its range is applied once, to the bytes that were there before. */
  lemma AppliedOnce(image: seq<byte>, jobs: seq<Job>, k: nat)
    requires k < |jobs| && Alone(jobs, k) && PatchAll(image, jobs).status.Ok?
    ensures HasEffect(image, PatchAll(image, jobs).image, jobs[k])
  {
    hide PatchBytes, PatchOne, Window, Refusal, Apart, PatchAll, HasEffect;
    var x, before, after := jobs[k], jobs[..k], jobs[k + 1..];
    assert jobs == before + ([x] + after);
    PatchAllAppend(image, before, [x] + after);
    var middle := PatchAll(image, before).image;
    PatchFirst(middle, x, after);
    OwnRange(middle, x);
    RangeStays(image, before, x);
    RangeStays(PatchOne(middle, x).image, after, x);
    EffectOnRange(image, middle, PatchAll(image, jobs).image, PatchOne(middle, x).image, x);
  }

  lemma PatchFirst(image: seq<byte>, x: Job, rest: seq<Job>)
    ensures PatchAll(image, [x] + rest) ==
      var first := PatchOne(image, x);
      if first.status.Err? then first else PatchAll(first.image, rest)
  {
    hide PatchOne;
    assert ([x] + rest)[1..] == rest;
  }

  // ---------- absorption ----------

  predicate AllOverwriting(jobs: seq<Job>) {
    forall j :: j in jobs ==> Overwriting(j.rela.rtype)
  }

  /** The bits of byte k that a relocation may change. */
  function MaskAt(r: Rela, k: nat): byte
    requires Overwriting(r.rtype)
  {
    if r.offset <= k < r.offset + Width(r.rtype) then MaskBytes(r.rtype)[k - r.offset] else 0
  }

  /** The bits of byte k that some relocation of the list may change. */
  function Cover(jobs: seq<Job>, k: nat): byte
    requires AllOverwriting(jobs)
  {
    if jobs == [] then 0 else MaskAt(jobs[0].rela, k) | Cover(jobs[1..], k)
  }

  predicate Agree(a: byte, b: byte, mask: byte) { a & !mask == b & !mask }

  /** Two images of the same length that differ only in bits the jobs cover. */
  predicate AgreeOutside(x: seq<byte>, y: seq<byte>, jobs: seq<Job>)
    requires AllOverwriting(jobs)
  {
    |x| == |y| && forall k :: 0 <= k < |x| ==> Agree(x[k], y[k], Cover(jobs, k))
  }

  lemma AgreeAfterReplace(x: byte, y: byte, x': byte, y': byte, m: byte, c: byte)
    requires Agree(x, y, m | c) && Replaces(x', y', x, m) && Replaces(y', x', y, m)
    ensures Agree(x', y', c)
  {}

  lemma AgreeWhole(x: byte, y: byte)
    requires Agree(x, y, 0)
    ensures x == y
  {}

  lemma AgreeZero(x: byte, y: byte, c: byte)
    requires Agree(x, y, 0 | c)
    ensures Agree(x, y, c)
  {}

  lemma AgreeReplaced(x: byte, x': byte, z: byte, m: byte, c: byte)
    requires Replaces(x', x', x, m) && Agree(x', z, c)
    ensures Agree(x, z, m | c)
  {}

  lemma AgreeWider(x: byte, y: byte, m: byte, c: byte)
    requires Agree(x, y, c)
    ensures Agree(x, y, m | c)
  {}

  /** What one successful overwriting job does to two images, byte by byte. */
  lemma PatchOneReplaces(x: seq<byte>, y: seq<byte>, job: Job, k: nat)
    requires |x| == |y| && k < |x| && Overwriting(job.rela.rtype)
    ensures PatchOne(x, job).status == PatchOne(y, job).status
    ensures var r, x', y' := job.rela, PatchOne(x, job).image, PatchOne(y, job).image;
      if PatchOne(x, job).status.Ok? && r.offset <= k < r.offset + Width(r.rtype)
      then Replaces(x'[k], y'[k], x[k], MaskAt(r, k)) && Replaces(y'[k], x'[k], y[k], MaskAt(r, k))
      else x'[k] == x[k] && y'[k] == y[k]
  {
    hide Replaces, PatchBytes, Width, MaskBytes, Overwriting;
    var r := job.rela;
    if Refusal(job, |x|).Ok? {
      OverwriteShape(r.rtype, Window(x, job), Window(y, job), job.target.symbol, r.addend);
      OverwriteShape(r.rtype, Window(y, job), Window(x, job), job.target.symbol, r.addend);
    }
  }

  /** One overwriting relocation, applied to images that agree outside it and the rest. */
  lemma AbsorbOne(x: seq<byte>, y: seq<byte>, jobs: seq<Job>)
    requires jobs != [] && AllOverwriting(jobs) && AgreeOutside(x, y, jobs)
    ensures PatchOne(x, jobs[0]).status == PatchOne(y, jobs[0]).status
    ensures PatchOne(x, jobs[0]).status.Ok? ==>
      AgreeOutside(PatchOne(x, jobs[0]).image, PatchOne(y, jobs[0]).image, jobs[1..])
  {
    hide Agree, PatchOne, Overwriting, Cover;
    if |x| > 0 { PatchOneReplaces(x, y, jobs[0], 0); } else { EmptyImage(x, y, jobs[0]); }
    if PatchOne(x, jobs[0]).status.Ok? {
      forall k | 0 <= k < |x|
        ensures Agree(PatchOne(x, jobs[0]).image[k], PatchOne(y, jobs[0]).image[k], Cover(jobs[1..], k))
      {
        AbsorbByte(x, y, jobs, k);
      }
    }
  }

  lemma AbsorbByte(x: seq<byte>, y: seq<byte>, jobs: seq<Job>, k: nat)
    requires jobs != [] && AllOverwriting(jobs) && |x| == |y| && k < |x| && Agree(x[k], y[k], Cover(jobs, k))
    requires PatchOne(x, jobs[0]).status.Ok?
    ensures Agree(PatchOne(x, jobs[0]).image[k], PatchOne(y, jobs[0]).image[k], Cover(jobs[1..], k))
  {
    hide Agree, Replaces, PatchOne, Width, MaskBytes, Overwriting;
    var r, rest, x', y' := jobs[0].rela, jobs[1..], PatchOne(x, jobs[0]).image, PatchOne(y, jobs[0]).image;
    PatchOneReplaces(x, y, jobs[0], k);
    if r.offset <= k < r.offset + Width(r.rtype) {
      AgreeAfterReplace(x[k], y[k], x'[k], y'[k], MaskAt(r, k), Cover(rest, k));
    } else {
      AgreeZero(x[k], y[k], Cover(rest, k));
    }
  }

  lemma EmptyImage(x: seq<byte>, y: seq<byte>, job: Job)
    requires |x| == |y| == 0
    ensures PatchOne(x, job) == PatchOne(y, job)
  {
    assert x == y;
  }

  /** Overwriting relocations forget everything about the bits they cover. */
  lemma {:induction false} AbsorbAll(x: seq<byte>, y: seq<byte>, jobs: seq<Job>)
    requires AllOverwriting(jobs) && AgreeOutside(x, y, jobs)
    ensures SameResult(PatchAll(x, jobs), PatchAll(y, jobs))
    decreases jobs
  {
    hide Agree, PatchOne, MaskAt;
    if jobs == [] {
      forall k | 0 <= k < |x|
        ensures x[k] == y[k]
      {
        AgreeWhole(x[k], y[k]);
      }
      assert x == y;
    } else {
      AbsorbOne(x, y, jobs);
      if PatchOne(x, jobs[0]).status.Ok? {
        AbsorbAll(PatchOne(x, jobs[0]).image, PatchOne(y, jobs[0]).image, jobs[1..]);
      }
    }
  }

  lemma {:induction false} StatusIgnoresBytes(x: seq<byte>, y: seq<byte>, jobs: seq<Job>)
    requires |x| == |y| && AllOverwriting(jobs)
    ensures PatchAll(x, jobs).status == PatchAll(y, jobs).status
    decreases jobs
  {
    hide PatchOne, Overwriting;
    if jobs != [] {
      if |x| > 0 { PatchOneReplaces(x, y, jobs[0], 0); } else { EmptyImage(x, y, jobs[0]); }
      StatusIgnoresBytes(PatchOne(x, jobs[0]).image, PatchOne(y, jobs[0]).image, jobs[1..]);
    }
  }

  /** A list of overwriting relocations, run to its end or to a failure, changes only bits it covers. */
  lemma {:induction false} ChangesCoveredOnly(x: seq<byte>, jobs: seq<Job>)
    requires AllOverwriting(jobs)
    ensures AgreeOutside(x, PatchAll(x, jobs).image, jobs)
    decreases jobs
  {
    hide Agree, Replaces, PatchOne, Width, MaskBytes, Overwriting;
    if jobs != [] && PatchOne(x, jobs[0]).status.Ok? {
      var r, rest, x', z := jobs[0].rela, jobs[1..], PatchOne(x, jobs[0]).image, PatchAll(x, jobs).image;
      ChangesCoveredOnly(x', rest);
      forall k | 0 <= k < |x|
        ensures Agree(x[k], z[k], Cover(jobs, k))
      {
        PatchOneReplaces(x, x, jobs[0], k);
        if r.offset <= k < r.offset + Width(r.rtype) {
          AgreeReplaced(x[k], x'[k], z[k], MaskAt(r, k), Cover(rest, k));
        } else {
          AgreeWider(x[k], z[k], MaskAt(r, k), Cover(rest, k));
        }
      }
    } else {
      if jobs != [] { FailedJob(x, jobs[0]); }
      AgreeOutsideSelf(x, jobs);
    }
  }

  lemma FailedJob(x: seq<byte>, job: Job)
    ensures PatchOne(x, job).status.Err? ==> PatchOne(x, job).image == x
  {
    hide PatchBytes, Splice;
  }

  lemma AgreeOutsideSelf(x: seq<byte>, jobs: seq<Job>)
    requires AllOverwriting(jobs)
    ensures AgreeOutside(x, x, jobs)
  {}
}
