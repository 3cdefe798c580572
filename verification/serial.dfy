/** The metadata serializer: elements that refer to the caller's data, written to and read from one buffer. */
module Serial {
  import opened Bytes
  import opened Errors
  import opened ElfFile
  import opened SerialFormat
  import opened SerialReading

  /** One registered member of the caller's structure. */
  class SerialElement {
    const shape: Shape
    var items: seq<seq<byte>>

    constructor (shape: Shape, items: seq<seq<byte>>)
      ensures this.shape == shape && this.items == items
    {
      this.shape, this.items := shape, items;
    }

    function Value(): Element
      reads this
    {
      Element(shape, items)
    }

    method Clear()
      modifies this
      ensures Value() == old(Value()).Cleared()
    {
      items := if shape.isVector then [] else [shape.blank];
    }

    method Resize(count: u64, limit: nat) returns (status: Status)
      requires Value() == Value().Cleared()
      modifies this
      ensures var r := Resized(old(Value()), count, limit);
        status == r.status && items == r.items
    {
      status := Ok;
      if shape.isVector {
        if count * shape.size > limit {
          return Err(OutOfMemory);
        }
        items := seq(count, _ => shape.blank);
      } else if count > 1 {
        return Err(RuntimeError);
      }
    }
  }

  function Values(elements: seq<SerialElement>): (es: seq<Element>)
    reads elements
    ensures |es| == |elements|
  {
    seq(|elements|, k requires 0 <= k < |elements| reads elements => elements[k].Value())
  }

  // ---------- writing ----------

  method WriteAt(buffer: array<byte>, at: nat, bytes: seq<byte>)
    requires at + |bytes| <= buffer.Length
    modifies buffer
    ensures buffer[..] == Splice(old(buffer[..]), at, bytes)
  {
    forall k | 0 <= k < |bytes| {
      buffer[at + k] := bytes[k];
    }
    assert forall k :: 0 <= k < buffer.Length ==>
      buffer[..][k] == if at <= k < at + |bytes| then bytes[k - at] else old(buffer[..])[k];
  }

  class SerialOutputBuffer {
    const buffer: array<byte>
    var offset: nat

    constructor (buffer: array<byte>)
      ensures this.buffer == buffer && offset == 0
    {
      this.buffer, offset := buffer, 0;
    }

    /** Reserves the next `size` bytes at the given alignment. */
    method GetNextBufferSlice(size: nat, alignment: nat) returns (status: Status, at: nat)
      modifies this
      ensures at == AlignUp(old(offset), alignment) && offset == at + size
      ensures status == if at + size <= buffer.Length then Ok else Err(RuntimeError)
    {
      at := AlignUp(offset, alignment);
      offset := at + size;
      status := if offset > buffer.Length then Err(RuntimeError) else Ok;
    }

    /** Writes one element behind the cursor and links the previous descriptor to it. */
    method SerializeElement(hasPrevious: bool, previous: nat, e: SerialElement) returns (status: Status, current: nat)
      requires e.Value().Valid() && offset <= buffer.Length && (hasPrevious ==> previous + DESCRIPTOR_SIZE <= offset)
      requires AlignUp(offset, 8) + BlockSize(e.Value()) < TWO_64
      requires forall k :: AlignUp(offset, 8) <= k < buffer.Length ==> buffer[k] == 0
      requires e.shape.size * |e.items| >= 0
      requires AlignUp(offset, 8) + DESCRIPTOR_SIZE + e.shape.size * |e.items| <= buffer.Length
      modifies this, buffer
      ensures status == Ok && current == AlignUp(old(offset), 8)
      ensures offset == current + DESCRIPTOR_SIZE + e.shape.size * |e.items|
      ensures buffer[..] == WithElement(old(buffer[..]), hasPrevious, previous, e.Value(), current)
    {
      hide EncodeDescriptor, EncodeU64, AlignUp, BlockSize, Flat, Splice;
      ghost var before, v := buffer[..], e.Value();
      status, current := GetNextBufferSlice(DESCRIPTOR_SIZE, 8);
      if status.Ok? {
        if hasPrevious {
          WriteAt(buffer, previous + 8, EncodeU64(current));
        }
        ghost var linked := buffer[..];
        FreshDescriptor(before, linked, hasPrevious, previous, current);
        var count := |e.items|;
        var size := if count == 0 then 0 else e.shape.size;
        CountFits(v);
        SetCount(linked, current, NO_DESCRIPTOR, count);
        SetSize(linked, current, Descriptor(0, 0, count, 0), size);
        WriteAt(buffer, current + 16, EncodeU64(count));
        WriteAt(buffer, current + 24, EncodeU64(size));
        if count != 0 {
          status := SerializeItems(e, current, linked, Descriptor(0, 0, count, size));
        } else {
          EmptyItems(e.items, e.shape.size, EncodeDescriptor(DescriptorOf(v, current, 0)));
        }
      }
    }

    /** The items of an element, one slice after the other; the first tells the descriptor where they are. */
    method SerializeItems(e: SerialElement, current: nat, ghost linked: seq<byte>, ghost d: Descriptor) returns (status: Status)
      requires e.Value().Valid() && e.items != [] && e.shape.size * |e.items| >= 0
      requires offset == current + DESCRIPTOR_SIZE < TWO_64 && offset + e.shape.size * |e.items| <= buffer.Length
      requires |linked| == buffer.Length && buffer[..] == Splice(linked, current, EncodeDescriptor(d)) && d.dataOffset == 0
      modifies this, buffer
      ensures status == Ok && offset == current + DESCRIPTOR_SIZE + e.shape.size * |e.items|
      ensures current + DESCRIPTOR_SIZE + |Flat(e.items)| <= |linked|
      ensures buffer[..] ==
        Splice(linked, current, EncodeDescriptor(d.(dataOffset := current + DESCRIPTOR_SIZE)) + Flat(e.items))
    {
      hide EncodeDescriptor, EncodeU64, AlignUp, Flat, Splice;
      ghost var v := e.Value();
      ghost var flat, head: seq<byte> := [], EncodeDescriptor(d);
      EmptyItems(e.items[..0], e.shape.size, head);
      status := Ok;
      var idx := 0;
      while idx < |e.items| && status.Ok?
        invariant idx <= |e.items| && e.Value() == v && status == Ok && |head| == DESCRIPTOR_SIZE
        invariant head == EncodeDescriptor(if idx == 0 then d else d.(dataOffset := current + DESCRIPTOR_SIZE))
        invariant flat == Flat(e.items[..idx]) && |flat| == e.shape.size * idx && offset == current + DESCRIPTOR_SIZE + |flat|
        invariant offset <= buffer.Length
        invariant buffer[..] == Splice(linked, current, head + flat)
      {
        ItemFits(e.items, e.shape.size, idx);
        NoAlignment(offset);
        ghost var item := e.items[idx];
        var dataAt;
        status, dataAt := GetNextBufferSlice(e.shape.size, 0);
        if idx == 0 {
          assert flat == [];
          WriteAt(buffer, current, EncodeU64(dataAt));
          SetDataOffset(linked, current, d, dataAt);
          head := EncodeDescriptor(d.(dataOffset := dataAt));
        }
        WriteAt(buffer, dataAt, e.items[idx]);
        SpliceTwice(linked, current, head, flat, item);
        flat := flat + item;
        idx := idx + 1;
      }
      assert e.items[..|e.items|] == e.items;
    }
  }

  /** The buffer after one element: the previous descriptor linked, the new descriptor and its data in place. */
  function WithElement(s: seq<byte>, hasPrevious: bool, previous: nat, e: Element, at: nat): seq<byte>
    requires e.Valid() && at + BlockSize(e) < TWO_64 && (hasPrevious ==> previous + DESCRIPTOR_SIZE <= at)
    requires e.shape.size * |e.items| >= 0 && at + DESCRIPTOR_SIZE + e.shape.size * |e.items| <= |s|
  {
    FlatLength(e.items, e.shape.size);
    var linked := if hasPrevious then Splice(s, previous + 8, EncodeU64(at)) else s;
    Splice(linked, at, EncodeDescriptor(DescriptorOf(e, at, 0)) + Flat(e.items))
  }

  lemma EmptyItems(items: seq<seq<byte>>, size: nat, head: seq<byte>)
    requires items == []
    ensures Flat(items) == [] && head + Flat(items) == head && head + [] == head && size * |items| == 0
  {}

  lemma NoAlignment(n: nat)
    ensures AlignUp(n, 0) == n
  {}

  lemma ItemFits(items: seq<seq<byte>>, size: nat, idx: nat)
    requires idx < |items| && forall k :: 0 <= k < |items| ==> |items[k]| == size
    ensures Flat(items[..idx + 1]) == Flat(items[..idx]) + items[idx]
    ensures size * (idx + 1) == size * idx + size && 0 <= size * (idx + 1) <= size * |items|
  {
    assert items[..idx + 1] == items[..idx] + [items[idx]];
    FlatAppend(items[..idx], items[idx]);
    MulMonotone(idx + 1, |items|, size);
  }

  lemma {:induction false} ZeroEncodesAsZeros(k: nat)
    ensures EncodeInt(0, k) == Zeros(k)
  {
    if k > 0 {
      ZeroEncodesAsZeros(k - 1);
      assert Zeros(k) == [0] + Zeros(k - 1);
    }
  }

  /** Untouched bytes already hold an all-zero descriptor. */
  lemma FreshDescriptor(s: seq<byte>, linked: seq<byte>, hasPrevious: bool, previous: nat, at: nat)
    requires at + DESCRIPTOR_SIZE <= |s| && (hasPrevious ==> previous + DESCRIPTOR_SIZE <= at)
    requires forall k :: at <= k < |s| ==> s[k] == 0
    requires at < TWO_64 && linked == if hasPrevious then Splice(s, previous + 8, EncodeU64(at)) else s
    ensures |linked| == |s| && linked == Splice(linked, at, EncodeDescriptor(NO_DESCRIPTOR))
  {
    hide EncodeU64, EncodeDescriptor;
    ZeroDescriptor();
    var d := EncodeDescriptor(NO_DESCRIPTOR);
    assert |d| == DESCRIPTOR_SIZE;
    assert forall k :: at <= k < |s| ==> linked[k] == 0;
    OverwrittenBySame(linked, at, d);
  }

  lemma ZeroDescriptor()
    ensures forall k :: 0 <= k < DESCRIPTOR_SIZE ==> EncodeDescriptor(NO_DESCRIPTOR)[k] == 0
  {
    hide EncodeInt;
    ZeroEncodesAsZeros(8);
  }

  lemma OverwrittenBySame(s: seq<byte>, at: nat, bs: seq<byte>)
    requires at + |bs| <= |s| && forall k :: 0 <= k < |bs| ==> s[at + k] == bs[k]
    ensures s == Splice(s, at, bs)
  {}

  lemma SetCount(s: seq<byte>, at: nat, d: Descriptor, count: u64)
    requires at + DESCRIPTOR_SIZE <= |s|
    ensures Splice(Splice(s, at, EncodeDescriptor(d)), at + 16, EncodeU64(count))
      == Splice(s, at, EncodeDescriptor(d.(count := count)))
  {
    hide EncodeU64;
  }

  lemma SetSize(s: seq<byte>, at: nat, d: Descriptor, size: u64)
    requires at + DESCRIPTOR_SIZE <= |s|
    ensures Splice(Splice(s, at, EncodeDescriptor(d)), at + 24, EncodeU64(size))
      == Splice(s, at, EncodeDescriptor(d.(size := size)))
  {
    hide EncodeU64;
  }

  lemma SetDataOffset(s: seq<byte>, at: nat, d: Descriptor, dataOffset: u64)
    requires at + DESCRIPTOR_SIZE <= |s|
    ensures Splice(Splice(s, at, EncodeDescriptor(d) + []), at, EncodeU64(dataOffset))
      == Splice(s, at, EncodeDescriptor(d.(dataOffset := dataOffset)) + [])
  {
    hide EncodeU64;
  }

  lemma SpliceTwice(s: seq<byte>, at: nat, x: seq<byte>, y: seq<byte>, z: seq<byte>)
    requires at + |x| + |y| + |z| <= |s|
    ensures Splice(Splice(s, at, x + y), at + |x| + |y|, z) == Splice(s, at, x + (y + z))
  {}

  /** One more element behind the image of those before it. */
  lemma ElementAppended(es: seq<Element>, e: Element, room: nat)
    requires AllValid(es) && e.Valid() && TotalSize(es) + BlockSize(e) < TWO_64 && BlockSize(e) <= room
    requires e.shape.size * |e.items| >= 0 && DESCRIPTOR_SIZE + e.shape.size * |e.items| <= BlockSize(e)
    ensures AllValid(es + [e]) && TotalSize(es + [e]) == TotalSize(es) + BlockSize(e)
    ensures WithElement(Image(es, 0) + Zeros(room), es != [], if es == [] then 0 else LastStart(es), e, TotalSize(es))
      == Image(es + [e], 0) + Zeros(room - BlockSize(e))
  {
    hide EncodeDescriptor, Flat, Image, EncodeU64, Linked, Block, BlockSize, DescriptorOf, LastStart, TotalSize, Splice, BlockPad;
    ImageAppend(es, e, 0);
    BlockParts(e, TotalSize(es), 0);
    BlockPadIsZeros(e);
    LinkedWithRoom(es, room);
    FilledRoom(Linked(es, 0), EncodeDescriptor(DescriptorOf(e, TotalSize(es), 0)) + Flat(e.items), BlockPad(e), room);
  }

  /** A buffer of n zeros in which these elements were serialized. */
  function PartialImage(es: seq<Element>, n: nat): (s: seq<byte>)
    requires AllValid(es) && TotalSize(es) <= n < TWO_64
    ensures |s| == n
  {
    Image(es, 0) + Zeros(n - TotalSize(es))
  }

  lemma PartialAppended(es: seq<Element>, e: Element, n: nat)
    requires AllValid(es) && e.Valid() && TotalSize(es) + BlockSize(e) <= n < TWO_64
    requires e.shape.size * |e.items| >= 0 && DESCRIPTOR_SIZE + e.shape.size * |e.items| <= BlockSize(e)
    ensures AllValid(es + [e]) && TotalSize(es + [e]) == TotalSize(es) + BlockSize(e)
    ensures WithElement(PartialImage(es, n), es != [], if es == [] then 0 else LastStart(es), e, TotalSize(es))
      == PartialImage(es + [e], n)
  {
    hide Image, Zeros, TotalSize, BlockSize, LastStart, WithElement, AllValid, Element.Valid;
    TotalSizeAppend(es, e);
    ElementAppended(es, e, n - TotalSize(es));
  }

  lemma BlockPadIsZeros(e: Element)
    requires e.Valid()
    ensures BlockPad(e) == Zeros(|BlockPad(e)|)
  {}

  lemma LinkedWithRoom(es: seq<Element>, room: nat)
    requires AllValid(es) && TotalSize(es) < TWO_64
    ensures Linked(es, 0) + Zeros(room) ==
      if es == [] then Image(es, 0) + Zeros(room)
      else Splice(Image(es, 0) + Zeros(room), LastStart(es) + 8, EncodeU64(TotalSize(es)))
  {
    hide EncodeU64, LastStart, TotalSize, Splice, Image, Linked;
    if es == [] {
      NothingLinked();
    } else {
      LinkedIsSplice(es, 0);
      SpliceBefore(Image(es, 0), Zeros(room), LastStart(es) + 8, EncodeU64(TotalSize(es)));
    }
  }

  lemma NothingLinked()
    ensures Linked([], 0) == Image([], 0)
  {}

  lemma SpliceBefore(s: seq<byte>, rest: seq<byte>, at: nat, bs: seq<byte>)
    requires at + |bs| <= |s|
    ensures Splice(s + rest, at, bs) == Splice(s, at, bs) + rest
  {}

  lemma FilledRoom(head: seq<byte>, content: seq<byte>, pad: seq<byte>, room: nat)
    requires |content| + |pad| <= room && pad == Zeros(|pad|)
    ensures Splice(head + Zeros(room), |head|, content) == head + (content + pad) + Zeros(room - |content| - |pad|)
  {}

  /** Serializes the elements into a buffer of the size computed beforehand, which is always enough; the cursor is where
      writing ended. */
  method Serialize(elements: seq<SerialElement>) returns (status: Status, buffer: array<byte>, ghost cursor: nat)
    requires AllValid(Values(elements)) && TotalSize(Values(elements)) < TWO_64
    ensures fresh(buffer)
    ensures status == if elements == [] then Err(RuntimeError) else Ok
    ensures status.Ok? ==> buffer[..] == Image(Values(elements), 0)
    ensures status.Ok? ==> cursor <= buffer.Length < cursor + 8
  {
    hide Image, BlockSize, LastStart, AlignUp, TotalSize, WithElement, Prefix;
    ghost var es := Values(elements);
    var total := CalculateBufferSize(elements);
    buffer := new byte[total](_ => 0);
    if total == 0 {
      return Err(RuntimeError), buffer, 0;
    }
    var out := new SerialOutputBuffer(buffer);
    status := Ok;
    var previous: nat := 0;
    var k := 0;
    NothingYet(es, total);
    assert buffer[..] == Zeros(total);
    while k < |elements| && status.Ok?
      invariant k <= |elements| && status == Ok && out.buffer == buffer && fresh(out) && fresh(buffer)
      invariant Values(elements) == es && buffer.Length == total
      invariant Prefix(es, k, buffer[..], out.offset, previous)
    {
      NextElement(es, k, buffer[..], out.offset, previous);
      assert elements[k].Value() == es[k];
      ghost var before, offset, previous0 := buffer[..], out.offset, previous;
      status, previous := out.SerializeElement(k > 0, previous, elements[k]);
      ElementSerialized(es, k, before, offset, previous0, buffer[..], out.offset);
      k := k + 1;
    }
    assert es[..k] == es && buffer[..] == Image(es, 0) && out.offset <= buffer.Length < out.offset + 8 by {
      PrefixIsAll(es, buffer[..], out.offset, previous);
    }
    cursor := out.offset;
  }

  /** The first k elements have been serialized. */
  ghost predicate Prefix(es: seq<Element>, k: nat, s: seq<byte>, offset: nat, previous: nat) {
    AllValid(es) && k <= |es| && |s| == TotalSize(es) < TWO_64 && AllValid(es[..k]) && TotalSize(es[..k]) <= |s| &&
    offset <= TotalSize(es[..k]) == AlignUp(offset, 8) &&
    (k > 0 ==> previous == LastStart(es[..k]) && previous + DESCRIPTOR_SIZE <= offset) &&
    s == PartialImage(es[..k], |s|)
  }

  lemma NextElement(es: seq<Element>, k: nat, s: seq<byte>, offset: nat, previous: nat)
    requires Prefix(es, k, s, offset, previous) && k < |es|
    ensures var at, n := AlignUp(offset, 8), es[k].shape.size * |es[k].items|;
      n >= 0 && offset <= |s| && at + BlockSize(es[k]) < TWO_64 && at + DESCRIPTOR_SIZE + n <= |s| &&
      (k > 0 ==> previous + DESCRIPTOR_SIZE <= offset) && forall i :: at <= i < |s| ==> s[i] == 0
  {
    hide Image, BlockSize, LastStart, AlignUp, TotalSize;
    TotalSizePrefix(es, k);
    BlockParts(es[k], 0, 0);
    BlockSizeBounds(es[k]);
  }

  lemma ElementSerialized(es: seq<Element>, k: nat, s: seq<byte>, offset: nat, previous: nat, s': seq<byte>, offset': nat)
    requires Prefix(es, k, s, offset, previous) && k < |es| && es[k].shape.size * |es[k].items| >= 0
    requires AlignUp(offset, 8) + BlockSize(es[k]) < TWO_64
    requires k > 0 ==> previous + DESCRIPTOR_SIZE <= AlignUp(offset, 8)
    requires offset' == AlignUp(offset, 8) + DESCRIPTOR_SIZE + es[k].shape.size * |es[k].items| <= |s|
    requires s' == WithElement(s, k > 0, previous, es[k], AlignUp(offset, 8))
    ensures Prefix(es, k + 1, s', offset', AlignUp(offset, 8))
  {
    hide Image, BlockSize, LastStart, AlignUp, TotalSize, WithElement, AllValid, Element.Valid, Prefix, PartialImage;
    PrefixParts(es, k, s, offset, previous);
    BytesAfter(es, k, s, previous);
    CursorAfter(es, k, offset');
    OneMore(es, k, s', offset', AlignUp(offset, 8));
  }

  lemma BytesAfter(es: seq<Element>, k: nat, s: seq<byte>, previous: nat)
    requires AllValid(es) && k < |es| && AllValid(es[..k]) && es[k].Valid() && |s| == TotalSize(es) < TWO_64
    requires TotalSize(es[..k]) <= |s|
    requires k > 0 ==> previous == LastStart(es[..k]) && previous + DESCRIPTOR_SIZE <= TotalSize(es[..k])
    requires s == PartialImage(es[..k], |s|)
    requires TotalSize(es[..k]) + BlockSize(es[k]) < TWO_64
    requires es[k].shape.size * |es[k].items| >= 0
    requires TotalSize(es[..k]) + DESCRIPTOR_SIZE + es[k].shape.size * |es[k].items| <= |s|
    ensures AllValid(es[..k + 1]) && TotalSize(es[..k + 1]) == TotalSize(es[..k]) + BlockSize(es[k]) <= |s|
    ensures WithElement(s, k > 0, previous, es[k], TotalSize(es[..k]))
      == PartialImage(es[..k + 1], |s|)
  {
    hide Image, BlockSize, LastStart, AlignUp, TotalSize, WithElement, AllValid, Element.Valid, PartialImage;
    var done, e := es[..k], es[k];
    TotalSizePrefix(es, k);
    assert es[..k + 1] == done + [e];
    assert done == [] <==> k == 0;
    BlockParts(e, 0, 0);
    if k == 0 { NoPrevious(s, previous, e, TotalSize(done)); }
    PartialAppended(done, e, |s|);
  }

  lemma CursorAfter(es: seq<Element>, k: nat, offset: nat)
    requires AllValid(es) && k < |es| && AllValid(es[..k]) && es[k].Valid()
    requires TotalSize(es[..k]) + BlockSize(es[k]) < TWO_64 && es[k].shape.size * |es[k].items| >= 0
    requires offset == TotalSize(es[..k]) + DESCRIPTOR_SIZE + es[k].shape.size * |es[k].items|
    ensures AllValid(es[..k + 1]) && offset <= TotalSize(es[..k + 1]) == AlignUp(offset, 8)
    ensures LastStart(es[..k + 1]) == TotalSize(es[..k])
  {
    hide Image, BlockSize, LastStart, AlignUp, TotalSize, WithElement, AllValid, Element.Valid, PartialImage;
    var done, e := es[..k], es[k];
    assert es[..k + 1] == done + [e];
    BlockParts(e, 0, 0);
    BlockSizeBounds(e);
    TotalSizePrefix(es, k);
    CursorAligned(done, e, offset);
    LastStartAppend(done, e);
  }

  lemma PrefixParts(es: seq<Element>, k: nat, s: seq<byte>, offset: nat, previous: nat)
    requires Prefix(es, k, s, offset, previous) && k < |es|
    ensures AllValid(es) && AllValid(es[..k]) && es[k].Valid() && |s| == TotalSize(es) < TWO_64
    ensures offset <= TotalSize(es[..k]) == AlignUp(offset, 8) <= |s|
    ensures k > 0 ==> previous == LastStart(es[..k]) && previous + DESCRIPTOR_SIZE <= offset
    ensures s == PartialImage(es[..k], |s|)
  {
    hide Image, BlockSize, LastStart, AlignUp, TotalSize;
  }

  lemma OneMore(es: seq<Element>, k: nat, s: seq<byte>, offset: nat, previous: nat)
    requires AllValid(es) && k < |es| && |s| == TotalSize(es) < TWO_64
    requires AllValid(es[..k + 1]) && TotalSize(es[..k + 1]) <= |s|
    requires offset <= TotalSize(es[..k + 1]) == AlignUp(offset, 8)
    requires previous == LastStart(es[..k + 1]) && previous + DESCRIPTOR_SIZE <= offset
    requires s == PartialImage(es[..k + 1], |s|)
    ensures Prefix(es, k + 1, s, offset, previous)
  {
    hide Image, BlockSize, LastStart, AlignUp, TotalSize;
  }

  lemma NoPrevious(s: seq<byte>, previous: nat, e: Element, at: nat)
    requires e.Valid() && at + BlockSize(e) < TWO_64
    requires e.shape.size * |e.items| >= 0 && at + DESCRIPTOR_SIZE + e.shape.size * |e.items| <= |s|
    ensures WithElement(s, false, previous, e, at) == WithElement(s, false, 0, e, at)
  {}

  lemma {:induction false} LastStartAppend(es: seq<Element>, e: Element)
    requires AllValid(es) && e.Valid()
    ensures AllValid(es + [e]) && LastStart(es + [e]) == TotalSize(es)
  {
    hide BlockSize;
    if es == [] {
      assert es + [e] == [e];
    } else {
      assert (es + [e])[1..] == es[1..] + [e];
      LastStartAppend(es[1..], e);
    }
  }

  lemma PrefixIsAll(es: seq<Element>, s: seq<byte>, offset: nat, previous: nat)
    requires Prefix(es, |es|, s, offset, previous)
    ensures s == Image(es, 0) && offset <= |s| < offset + 8
  {
    assert es[..|es|] == es;
    assert PartialImage(es, |s|) == Image(es, 0) + Zeros(0) == Image(es, 0);
  }

  /** Behind an element the cursor, once aligned, is where the size formula says the next one starts. */
  lemma CursorAligned(es: seq<Element>, e: Element, offset: nat)
    requires AllValid(es) && e.Valid() && e.shape.size * |e.items| >= 0
    requires offset == TotalSize(es) + DESCRIPTOR_SIZE + e.shape.size * |e.items|
    ensures AlignUp(offset, 8) == TotalSize(es) + BlockSize(e)
  {
    TotalSizeAligned(es);
    AlignUpShift(TotalSize(es), DESCRIPTOR_SIZE + e.shape.size * |e.items|);
  }

  /** So fewer than 8 bytes are left behind the last element of a buffer of the computed size. */
  lemma CursorAtEnd(es: seq<Element>, e: Element, offset: nat)
    requires AllValid(es) && e.Valid() && e.shape.size * |e.items| >= 0
    requires offset == TotalSize(es) + DESCRIPTOR_SIZE + e.shape.size * |e.items|
    ensures AllValid(es + [e]) && offset <= TotalSize(es + [e]) < offset + 8
  {
    hide TotalSize, BlockSize, AlignUp;
    CursorAligned(es, e, offset);
    TotalSizeAppend(es, e);
  }

  lemma AlignUpShift(base: nat, size: nat)
    requires base % 8 == 0 && size > 0
    ensures AlignUp(base + size, 8) == base + AlignUp(size, 8)
  {
    EighthsAdd(base / 8, size + 7);
  }

  lemma EighthsAdd(q: nat, n: nat)
    ensures (8 * q + n) / 8 == q + n / 8
  {}

  lemma NothingYet(es: seq<Element>, total: nat)
    requires AllValid(es) && total == TotalSize(es) < TWO_64
    ensures Prefix(es, 0, Zeros(total), 0, 0)
  {
    assert es[..0] == [] && [] + Zeros(total) == Zeros(total);
  }

  /** The sum of the block sizes. */
  method CalculateBufferSize(elements: seq<SerialElement>) returns (total: nat)
    requires AllValid(Values(elements))
    ensures total == TotalSize(Values(elements))
    ensures total == 0 <==> elements == []
  {
    hide AlignUp;
    ghost var es := Values(elements);
    total := 0;
    var k := 0;
    assert es[..0] == [];
    while k < |elements|
      invariant k <= |elements| && AllValid(es[..k]) && total == TotalSize(es[..k]) && total >= k
    {
      TotalSizePrefix(es, k);
      assert elements[k].Value() == es[k];
      total := total + AlignUp(DESCRIPTOR_SIZE + elements[k].shape.size * |elements[k].items|, 8);
      k := k + 1;
    }
    assert es[..k] == es;
  }

  // ---------- reading ----------

  /** The elements do not share the data they refer to. */
  predicate Distinct(elements: seq<SerialElement>) {
    forall i, j :: 0 <= i < j < |elements| ==> elements[i] != elements[j]
  }

  /** The bytes at a checked address. */
  method GetAddressOfOffset(buf: seq<byte>, base: u64, offset: u64, size: u64) returns (status: Status)
    requires 0 < |buf| < TWO_64 && base + |buf| <= TWO_64
    ensures status == if AddressOk(base, |buf|, offset, size) then Ok else Err(RuntimeError)
  {
    if Wrap(offset + size) > |buf| {
      return Err(RuntimeError);
    }
    var dataStart := Wrap(base + offset);
    var dataEnd := Wrap(dataStart + size + TWO_64 - 1);
    var bufferEnd := base + |buf| - 1;
    if dataStart < base || dataStart > bufferEnd || dataEnd > bufferEnd {
      return Err(RuntimeError);
    }
    status := Ok;
  }

  /** Clears the element and fills it from its descriptor, up to the first read that the checks refuse. */
  method DeserializeElement(buf: seq<byte>, base: u64, limit: nat, d: Descriptor, e: SerialElement)
      returns (status: Status, next: Descriptor)
    requires Readable(buf, base, e.shape)
    modifies e
    ensures var r := ReadOne(buf, base, limit, d, old(e.Value()));
      e.Value() == r.element &&
      if r.status.Err? then status == r.status
      else status == Next(buf, base, d).status && (status.Ok? ==> next == Next(buf, base, d).descriptor)
  {
    hide AddressOk, DecodeDescriptor;
    next := NO_DESCRIPTOR;
    ghost var before := e.Value();
    e.Clear();
    if d.count != 0 {
      status := e.Resize(d.count, limit);
      if status.Err? {
        return;
      }
      status := CopyItemsTo(buf, base, d, e);
      if status.Err? {
        return;
      }
    }
    status := Ok;
    if d.nextOffset != 0 {
      status := GetAddressOfOffset(buf, base, d.nextOffset, DESCRIPTOR_SIZE);
      if status.Ok? {
        AddressExact(base, |buf|, d.nextOffset, DESCRIPTOR_SIZE);
        next := DecodeDescriptor(buf[d.nextOffset..d.nextOffset + DESCRIPTOR_SIZE]);
      }
    }
  }

  method CopyItemsTo(buf: seq<byte>, base: u64, d: Descriptor, e: SerialElement) returns (status: Status)
    requires Readable(buf, base, e.shape) && |e.items| == d.count
    modifies e
    ensures Copied(e.items, status) == CopyItems(buf, base, e.shape, d.dataOffset, d.size, old(e.items), 0)
  {
    hide AddressOk;
    var at: u64 := d.dataOffset;
    var idx := 0;
    while idx < d.count
      invariant idx <= d.count == |e.items|
      invariant CopyItems(buf, base, e.shape, d.dataOffset, d.size, old(e.items), 0)
        == CopyItems(buf, base, e.shape, at, d.size, e.items, idx)
    {
      status := GetAddressOfOffset(buf, base, at, d.size);
      if status.Err? {
        return;
      }
      if d.size != e.shape.size {
        return Err(RuntimeError);
      }
      AddressExact(base, |buf|, at, d.size);
      e.items := e.items[idx := buf[at..at + d.size]];
      at := Wrap(at + d.size);
      idx := idx + 1;
    }
    status := Ok;
  }

  /** One round of the loop over the elements: the check of the whole element, its data, and the next descriptor. */
  method DeserializeAt(elements: seq<SerialElement>, k: nat, buf: seq<byte>, base: u64, limit: nat, d: Descriptor)
      returns (status: Status, next: Descriptor)
    requires Distinct(elements) && k < |elements| && 0 < |buf| && Readable(buf, base, elements[k].shape)
    modifies elements[k]
    ensures var es := old(Values(elements));
      var r := ReadOne(buf, base, limit, d, es[k]);
      if !ElementInBounds(buf, d) then status == Err(RuntimeError) && Values(elements) == es
      else
        Values(elements) == es[k := r.element] &&
        if r.status.Err? then status == r.status
        else status == Next(buf, base, d).status && (status.Ok? ==> next == Next(buf, base, d).descriptor)
  {
    hide ReadOne, Next, Readable;
    ghost var es := Values(elements);
    next := NO_DESCRIPTOR;
    if Wrap(Wrap(d.size * d.count) + d.dataOffset) > |buf| {
      return Err(RuntimeError), next;
    }
    status, next := DeserializeElement(buf, base, limit, d, elements[k]);
    assert Values(elements) == es[k := elements[k].Value()];
  }

  /** Reads bytes of unknown origin into the elements: exactly what following the chain on values gives, each byte
      taken from inside the buffer, whatever the descriptors say. */
  method Deserialize(elements: seq<SerialElement>, buf: seq<byte>, base: u64, limit: nat) returns (status: Status)
    requires Distinct(elements) && AllReadable(buf, base, Values(elements))
    modifies elements
    ensures Walked(Values(elements), status) == Deserialized(buf, base, limit, old(Values(elements)))
  {
    hide DecodeDescriptor, ReadOne, Next, ElementInBounds, Readable, Walk;
    ghost var es := Values(elements);
    if |buf| < DESCRIPTOR_SIZE {
      return Err(RuntimeError);
    }
    var d := DecodeDescriptor(buf[0..DESCRIPTOR_SIZE]);
    ghost var first := d;
    var k := 0;
    WalkedNothing(buf, base, limit, d, es);
    while k < |elements|
      invariant k <= |elements| == |es|
      invariant Values(elements)[k..] == es[k..]
      invariant WalkedSoFar(buf, base, limit, first, es, d, Values(elements), k)
    {
      ghost var now := Values(elements);
      assert elements[k].Value() == now[k] == now[k..][0];
      WalkedStep(buf, base, limit, first, es, d, now, k);
      assert Readable(buf, base, elements[k].shape) by { assert Readable(buf, base, es[k].shape); }
      status, d := DeserializeAt(elements, k, buf, base, limit, d);
      if status.Err? {
        return;
      }
      assert Values(elements)[k + 1..] == now[k + 1..] == now[k..][1..];
      k := k + 1;
    }
    WalkedAll(buf, base, limit, first, es, d, Values(elements));
    status := Ok;
  }

  /** After k elements, what remains to be read follows from the current descriptor. */
  ghost predicate WalkedSoFar(buf: seq<byte>, base: u64, limit: nat, first: Descriptor, es: seq<Element>, d: Descriptor,
                              now: seq<Element>, k: nat)
    requires AllReadable(buf, base, es) && k <= |es| == |now|
  {
    AllReadable(buf, base, es[k..]) &&
    var w, rest := Walk(buf, base, limit, first, es), Walk(buf, base, limit, d, es[k..]);
    w == Walked(now[..k] + rest.elements, rest.status)
  }

  lemma WalkedNothing(buf: seq<byte>, base: u64, limit: nat, d: Descriptor, es: seq<Element>)
    requires AllReadable(buf, base, es)
    ensures WalkedSoFar(buf, base, limit, d, es, d, es, 0) && es[0..] == es
  {
    hide Walk, Readable;
    assert es[0..] == es;
    assert es[..0] + Walk(buf, base, limit, d, es).elements == Walk(buf, base, limit, d, es).elements;
  }

  lemma WalkedAll(buf: seq<byte>, base: u64, limit: nat, first: Descriptor, es: seq<Element>, d: Descriptor, now: seq<Element>)
    requires AllReadable(buf, base, es) && |es| == |now| && WalkedSoFar(buf, base, limit, first, es, d, now, |es|)
    ensures Walk(buf, base, limit, first, es) == Walked(now, Ok)
  {
    assert es[|es|..] == [] && now[..|es|] + [] == now;
    assert Walk(buf, base, limit, d, []) == Walked([], Ok);
  }

  /** What one round does to the walk, in each of its endings. */
  lemma WalkedStep(buf: seq<byte>, base: u64, limit: nat, first: Descriptor, es: seq<Element>, d: Descriptor,
                   now: seq<Element>, k: nat)
    requires AllReadable(buf, base, es) && k < |es| == |now| && now[k..] == es[k..]
    requires WalkedSoFar(buf, base, limit, first, es, d, now, k)
    ensures Readable(buf, base, es[k].shape) && now[k] == es[k]
    ensures var r, w := ReadOne(buf, base, limit, d, es[k]), Walk(buf, base, limit, first, es);
      if !ElementInBounds(buf, d) then w == Walked(now, Err(RuntimeError))
      else if r.status.Err? then w == Walked(now[k := r.element], r.status)
      else
        var next := Next(buf, base, d);
        if next.status.Err? then w == Walked(now[k := r.element], next.status)
        else WalkedSoFar(buf, base, limit, first, es, next.descriptor, now[k := r.element], k + 1)
  {
    hide ReadOne, Next, Readable, ElementInBounds;
    var rest := es[k..];
    assert rest[0] == now[k..][0] && rest[1..] == es[k + 1..];
    var r := ReadOne(buf, base, limit, d, es[k]);
    OneElementNew(now, k, r.element, []);
    assert now[..k] + rest == now && now[k + 1..] == rest[1..];
    var next := Next(buf, base, d);
    if next.status.Ok? {
      OneElementNew(now, k, r.element, Walk(buf, base, limit, next.descriptor, rest[1..]).elements);
    }
  }

  lemma OneElementNew(now: seq<Element>, k: nat, e: Element, tail: seq<Element>)
    requires k < |now|
    ensures now[..k] + ([e] + now[k + 1..]) == now[k := e]
    ensures now[..k] + ([e] + tail) == now[k := e][..k + 1] + tail
  {}
}
