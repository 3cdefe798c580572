/** String tables: NUL-terminated strings one behind the other, found again by their offset. */
module StringTable {
  import opened Bytes
  import opened Options

  predicate NoNul(name: seq<byte>) {
    forall k :: 0 <= k < |name| ==> name[k] != 0
  }

  /** The table after a string was added to it. */
  function Added(data: seq<byte>, name: seq<byte>): seq<byte> {
    if name == [] then data else data + name + [0]
  }

  /** The offset that the string gets; the empty string shares the first byte of the table. */
  function OffsetFor(data: seq<byte>, name: seq<byte>): nat {
    if name == [] then 0 else |data|
  }

  /** The table after the first k of these strings were added. */
  function AllAdded(data: seq<byte>, names: seq<seq<byte>>, k: nat): seq<byte>
    requires k <= |names|
  {
    if k == 0 then data else Added(AllAdded(data, names, k - 1), names[k - 1])
  }

  /** The string that a pointer into the table denotes, when a NUL ends it inside the table. */
  function CString(data: seq<byte>, at: nat): Option<seq<byte>>
    decreases |data| - at
  {
    if at >= |data| then None
    else if data[at] == 0 then Some([])
    else match CString(data, at + 1)
      case None => None
      case Some(rest) => Some([data[at]] + rest)
  }

  /** A name followed by a NUL stands at the offset. */
  predicate Stands(data: seq<byte>, at: nat, name: seq<byte>) {
    at + |name| < |data| && data[at..at + |name|] == name && data[at + |name|] == 0
  }

  lemma {:induction false} StandingIsRead(data: seq<byte>, at: nat, name: seq<byte>)
    requires Stands(data, at, name)
    ensures CString(data, at) == Some(name) <==> NoNul(name)
    decreases |name|
  {
    if name != [] {
      var tail := name[1..];
      assert data[at] == name[0] && data[at + 1..at + 1 + |tail|] == tail;
      StandingIsRead(data, at + 1, tail);
      assert NoNul(name) <==> name[0] != 0 && NoNul(tail) by {
        assert forall k :: 0 <= k < |name| ==> name[k] == if k == 0 then name[0] else tail[k - 1];
        assert forall k :: 0 <= k < |tail| ==> tail[k] == name[k + 1];
      }
      var rest := CString(data, at + 1);
      assert rest.Some? ==> ([data[at]] + rest.value == name <==> rest.value == tail) by {
        assert rest.Some? ==> ([data[at]] + rest.value)[1..] == rest.value;
        assert [data[at]] + tail == name;
      }
    }
  }

  lemma {:induction false} EarlierStringsStay(data: seq<byte>, names: seq<seq<byte>>, j: nat, k: nat)
    requires j <= k <= |names|
    ensures AllAdded(data, names, j) <= AllAdded(data, names, k)
  {
    if j < k {
      EarlierStringsStay(data, names, j, k - 1);
    }
  }

  lemma AddedStep(data: seq<byte>, names: seq<seq<byte>>, j: nat)
    requires j < |names|
    ensures AllAdded(data, names, 0) == data && AllAdded(data, names, j + 1) == Added(AllAdded(data, names, j), names[j])
  {}

  lemma StandsInLongerTable(data: seq<byte>, longer: seq<byte>, at: nat, name: seq<byte>)
    requires Stands(data, at, name) && data <= longer
    ensures Stands(longer, at, name)
  {
    assert longer[at..at + |name|] == data[at..at + |name|];
  }

  lemma AddedStands(data: seq<byte>, name: seq<byte>)
    requires |data| > 0 && data[0] == 0
    ensures Stands(Added(data, name), OffsetFor(data, name), name)
  {}

  /** Whatever was added before and is added after: every string of a table that started with a NUL is read back from
      its offset, exactly if it holds no NUL itself. */
  lemma EveryStringIsRead(data: seq<byte>, names: seq<seq<byte>>, j: nat, n: nat)
    requires |data| > 0 && data[0] == 0 && j < n <= |names|
    ensures CString(AllAdded(data, names, n), OffsetFor(AllAdded(data, names, j), names[j])) == Some(names[j])
      <==> NoNul(names[j])
  {
    hide AllAdded, CString, NoNul, Stands, OffsetFor, Added;
    EarlierStringsStay(data, names, 0, j);
    EarlierStringsStay(data, names, j + 1, n);
    AddedStep(data, names, j);
    var before := AllAdded(data, names, j);
    var at := OffsetFor(before, names[j]);
    AddedStands(before, names[j]);
    StandsInLongerTable(Added(before, names[j]), AllAdded(data, names, n), at, names[j]);
    StandingIsRead(AllAdded(data, names, n), at, names[j]);
  }
}
