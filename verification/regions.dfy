/** Byte ranges of a blob, and what a write inside one of them leaves alone. */
module Regions {
  import opened Bytes

  datatype Region = Region(at: nat, size: nat)

  /** In file order, inside the blob, and no byte in two of them. */
  predicate Apart(rs: seq<Region>, total: nat) {
    (forall i :: 0 <= i < |rs| ==> rs[i].at + rs[i].size <= total)
    && forall i, j :: 0 <= i < j < |rs| ==> rs[i].size == 0 || rs[j].size == 0 || rs[i].at + rs[i].size <= rs[j].at
  }

  function Part(blob: seq<byte>, r: Region): (bs: seq<byte>)
    requires r.at + r.size <= |blob|
    ensures |bs| == r.size
  {
    blob[r.at..r.at + r.size]
  }

  predicate Outside(rs: seq<Region>, p: nat) {
    forall i :: 0 <= i < |rs| ==> p < rs[i].at || rs[i].at + rs[i].size <= p
  }

  lemma SpliceAt(s: seq<byte>, at: nat, bs: seq<byte>, p: nat)
    requires at + |bs| <= |s| && p < |s|
    ensures Splice(s, at, bs)[p] == if at <= p < at + |bs| then bs[p - at] else s[p]
  {}

  lemma OneMoreByte(s: seq<byte>, at: nat, bytes: seq<byte>, k: nat)
    requires at + |bytes| <= |s| && k < |bytes|
    ensures Splice(s, at, bytes[..k])[at + k := bytes[k]] == Splice(s, at, bytes[..k + 1])
  {
    hide Splice;
    var more := Splice(s, at, bytes[..k])[at + k := bytes[k]];
    forall p: nat | p < |s| ensures more[p] == Splice(s, at, bytes[..k + 1])[p] {
      SpliceAt(s, at, bytes[..k], p);
      SpliceAt(s, at, bytes[..k + 1], p);
    }
  }

  lemma NoBytes(s: seq<byte>, at: nat)
    requires at <= |s|
    ensures Splice(s, at, []) == s
  {}

  lemma WriteInside(blob: seq<byte>, rs: seq<Region>, r: nat, k: nat, bs: seq<byte>)
    requires Apart(rs, |blob|) && r < |rs| && k + |bs| <= rs[r].size
    ensures Part(Splice(blob, rs[r].at + k, bs), rs[r]) == Splice(Part(blob, rs[r]), k, bs)
    ensures forall q :: 0 <= q < |rs| && q != r ==> Part(Splice(blob, rs[r].at + k, bs), rs[q]) == Part(blob, rs[q])
    ensures forall p: nat :: p < |blob| && Outside(rs, p) ==> Splice(blob, rs[r].at + k, bs)[p] == blob[p]
  {
    hide Splice;
    var after := Splice(blob, rs[r].at + k, bs);
    forall p: nat | p < |blob|
      ensures after[p] == if rs[r].at + k <= p < rs[r].at + k + |bs| then bs[p - rs[r].at - k] else blob[p]
    {
      SpliceAt(blob, rs[r].at + k, bs, p);
    }
    forall p: nat | p < rs[r].size
      ensures Splice(Part(blob, rs[r]), k, bs)[p] == if k <= p < k + |bs| then bs[p - k] else Part(blob, rs[r])[p]
    {
      SpliceAt(Part(blob, rs[r]), k, bs, p);
    }
    assert Part(after, rs[r]) == Splice(Part(blob, rs[r]), k, bs);
  }

  /** What stands in the regions and outside them is all there is. */
  lemma Determined(a: seq<byte>, b: seq<byte>, rs: seq<Region>)
    requires |a| == |b| && Apart(rs, |a|)
    requires forall i :: 0 <= i < |rs| ==> Part(a, rs[i]) == Part(b, rs[i])
    requires forall p: nat :: p < |a| && Outside(rs, p) ==> a[p] == b[p]
    ensures a == b
  {
    forall p: nat | p < |a| ensures a[p] == b[p] {
      if !Outside(rs, p) {
        var i :| 0 <= i < |rs| && rs[i].at <= p < rs[i].at + rs[i].size;
        assert Part(a, rs[i])[p - rs[i].at] == Part(b, rs[i])[p - rs[i].at];
      }
    }
  }
}
