/** Reading serialized metadata back from bytes that nobody vouches for, with the address arithmetic of the original:
    64 bits wide, wrapping around. */
module SerialReading {
  import opened Bytes
  import opened Errors
  import opened SerialFormat

  function Wrap(n: nat): u64 { n % TWO_64 }

  /** The two checks before a read of `size` bytes at `offset` of a buffer of n bytes at address `base`. */
  predicate RangeCheck(n: u64, offset: u64, size: u64) {
    Wrap(offset + size) <= n
  }

  predicate PointerCheck(base: u64, n: u64, offset: u64, size: u64)
    requires 0 < n && base + n <= TWO_64
  {
    var first, last := Wrap(base + offset), base + n - 1;
    base <= first <= last && Wrap(first + size + TWO_64 - 1) <= last
  }

  predicate AddressOk(base: u64, n: u64, offset: u64, size: u64)
    requires 0 < n && base + n <= TWO_64
  {
    RangeCheck(n, offset, size) && PointerCheck(base, n, offset, size)
  }

  /** For a size that a C++ object can have, the checks accept exactly the reads that stay inside the buffer. */
  lemma AddressExact(base: u64, n: u64, offset: u64, size: u64)
    requires 0 < n && base + n <= TWO_64 && 0 < size && n + size < TWO_64
    ensures AddressOk(base, n, offset, size) <==> offset + size <= n
  {
    if base + offset < TWO_64 {
      assert Wrap(base + offset) == base + offset;
    } else {
      assert Wrap(base + offset) == base + offset - TWO_64;
    }
    if offset < n {
      assert Wrap(offset + size) == offset + size;
      assert base + offset + size + TWO_64 - 1 == (base + offset + size - 1) + TWO_64;
    }
  }

  /** Each check is needed: without the range check, without the pointer check, or without the comparison of the
      stored element size with the expected one, some read outside a buffer of 100 bytes would be let through. */
  lemma EveryCheckNeeded()
    ensures exists offset: u64, size: u64 :: PointerCheck(4096, 100, offset, size) && offset + size > 100
                                             && !RangeCheck(100, offset, size)
    ensures exists offset: u64, size: u64 :: RangeCheck(100, offset, size) && 0 < size <= 16 && offset + size > 100
                                             && !PointerCheck(4096, 100, offset, size)
    ensures exists offset: u64, size: u64 :: AddressOk(4096, 100, offset, size) && offset + size > 100
  {
    var big: u64 := TWO_64 - 4000;
    assert PointerCheck(4096, 100, 0, big) && !RangeCheck(100, 0, big);
    var far: u64 := TWO_64 - 8;
    assert RangeCheck(100, far, 16) && !PointerCheck(4096, 100, far, 16);
    var huge: u64 := TWO_64 - 10;
    assert AddressOk(4096, 100, 50, huge);
  }

  // ---------- reading as a function ----------

  datatype Copied = Copied(items: seq<seq<byte>>, status: Status)
  datatype ReadElement = ReadElement(element: Element, status: Status)
  datatype NextDescriptor = NextDescriptor(descriptor: Descriptor, status: Status)
  datatype Walked = Walked(elements: seq<Element>, status: Status)

  /** The buffer lies in the 64-bit address space, with room behind it for the sizes involved. */
  predicate Readable(buf: seq<byte>, base: u64, shape: Shape) {
    0 < |buf| && base + |buf| <= TWO_64 && shape.Valid() && |buf| + shape.size < TWO_64 && |buf| + DESCRIPTOR_SIZE < TWO_64
  }

  /** Items k and following, read one behind the other from `at`. */
  function CopyItems(buf: seq<byte>, base: u64, shape: Shape, at: u64, size: u64, items: seq<seq<byte>>, k: nat): (c: Copied)
    requires Readable(buf, base, shape) && k <= |items|
    ensures |c.items| == |items|
    decreases |items| - k
  {
    if k == |items| then Copied(items, Ok)
    else if !AddressOk(base, |buf|, at, size) || size != shape.size then Copied(items, Err(RuntimeError))
    else
      AddressExact(base, |buf|, at, size);
      CopyItems(buf, base, shape, Wrap(at + size), size, items[k := buf[at..at + size]], k + 1)
  }

  /** The items after clear and resize; limit is what a vector may hold, in bytes. */
  function Resized(e: Element, count: u64, limit: nat): (c: Copied)
    ensures c.status.Ok? && count > 0 && e.shape.Valid() ==> |c.items| == count
  {
    if !e.shape.isVector then
      (if count > 1 then Copied(e.Cleared().items, Err(RuntimeError)) else Copied(e.Cleared().items, Ok))
    else if count * e.shape.size > limit then Copied([], Err(OutOfMemory))
    else Copied(seq(count, _ => e.shape.blank), Ok)
  }

  function ReadOne(buf: seq<byte>, base: u64, limit: nat, d: Descriptor, e: Element): (r: ReadElement)
    requires Readable(buf, base, e.shape)
    ensures r.element.shape == e.shape
  {
    if d.count == 0 then ReadElement(e.Cleared(), Ok)
    else
      var resized := Resized(e, d.count, limit);
      if resized.status.Err? then ReadElement(Element(e.shape, resized.items), resized.status)
      else
        var copied := CopyItems(buf, base, e.shape, d.dataOffset, d.size, resized.items, 0);
        ReadElement(Element(e.shape, copied.items), copied.status)
  }

  const NO_DESCRIPTOR := Descriptor(0, 0, 0, 0)

  function Next(buf: seq<byte>, base: u64, d: Descriptor): NextDescriptor
    requires 0 < |buf| && base + |buf| <= TWO_64 && |buf| + DESCRIPTOR_SIZE < TWO_64
  {
    if d.nextOffset == 0 then NextDescriptor(NO_DESCRIPTOR, Ok)
    else if !AddressOk(base, |buf|, d.nextOffset, DESCRIPTOR_SIZE) then NextDescriptor(NO_DESCRIPTOR, Err(RuntimeError))
    else
      AddressExact(base, |buf|, d.nextOffset, DESCRIPTOR_SIZE);
      NextDescriptor(DecodeDescriptor(buf[d.nextOffset..d.nextOffset + DESCRIPTOR_SIZE]), Ok)
  }

  predicate AllReadable(buf: seq<byte>, base: u64, es: seq<Element>) {
    0 < |buf| && base + |buf| <= TWO_64 && |buf| + DESCRIPTOR_SIZE < TWO_64 &&
    forall k :: 0 <= k < |es| ==> Readable(buf, base, es[k].shape)
  }

  predicate ElementInBounds(buf: seq<byte>, d: Descriptor) {
    Wrap(Wrap(d.size * d.count) + d.dataOffset) <= |buf|
  }

  /** Follows the chain from descriptor d, one descriptor for each element, up to the first failure. */
  function Walk(buf: seq<byte>, base: u64, limit: nat, d: Descriptor, es: seq<Element>): (w: Walked)
    requires AllReadable(buf, base, es)
    ensures |w.elements| == |es|
    decreases es
  {
    if es == [] then Walked([], Ok)
    else if !ElementInBounds(buf, d) then Walked(es, Err(RuntimeError))
    else
      var r := ReadOne(buf, base, limit, d, es[0]);
      if r.status.Err? then Walked([r.element] + es[1..], r.status)
      else
        var next := Next(buf, base, d);
        if next.status.Err? then Walked([r.element] + es[1..], next.status)
        else
          var w := Walk(buf, base, limit, next.descriptor, es[1..]);
          Walked([r.element] + w.elements, w.status)
  }

  function Deserialized(buf: seq<byte>, base: u64, limit: nat, es: seq<Element>): Walked
    requires AllReadable(buf, base, es)
  {
    if |buf| < DESCRIPTOR_SIZE then Walked(es, Err(RuntimeError))
    else Walk(buf, base, limit, DecodeDescriptor(buf[0..DESCRIPTOR_SIZE]), es)
  }

  // ---------- reading what was written ----------

  /** The buffer holds the image of es from `start` to its end. */
  predicate HoldsImage(buf: seq<byte>, start: nat, es: seq<Element>) {
    AllValid(es) && start + TotalSize(es) == |buf| < TWO_64 && buf[start..] == Image(es, start)
  }

  /** The descriptor of e, linking to `next`, and the bytes of e sit at `start`. */
  predicate BlockAt(buf: seq<byte>, start: nat, e: Element, next: nat) {
    e.Valid() && next < TWO_64 && start + BlockSize(e) <= |buf| < TWO_64 &&
    0 <= e.shape.size * |e.items| <= BlockSize(e) - DESCRIPTOR_SIZE &&
    DecodeDescriptor(buf[start..start + DESCRIPTOR_SIZE]) == DescriptorOf(e, start, next) &&
    buf[start + DESCRIPTOR_SIZE..start + DESCRIPTOR_SIZE + e.shape.size * |e.items|] == Flat(e.items)
  }

  /** Where the descriptor of the first element links to. */
  function LinkOf(es: seq<Element>, start: nat): nat
    requires AllValid(es) && es != []
  {
    if |es| == 1 then 0 else start + BlockSize(es[0])
  }

  lemma BlockInPlace(buf: seq<byte>, start: nat, es: seq<Element>)
    requires HoldsImage(buf, start, es) && es != []
    ensures BlockAt(buf, start, es[0], LinkOf(es, start))
  {
    hide Flat, Image, Block, BlockSize, TotalSize, BlockAt;
    ImageSplit(es, start);
    FirstBlock(buf, start, es[0], LinkOf(es, start), Image(es[1..], start + BlockSize(es[0])));
  }

  lemma FirstBlock(buf: seq<byte>, start: nat, e: Element, next: nat, tail: seq<byte>)
    requires e.Valid() && start + BlockSize(e) <= |buf| < TWO_64 && next < TWO_64
    requires buf[start..] == Block(e, start, next) + tail
    ensures BlockAt(buf, start, e, next)
  {
    hide EncodeDescriptor, DecodeDescriptor, DescriptorOf, Flat, Block, BlockSize, BlockPad;
    BlockParts(e, start, next);
    var d := DescriptorOf(e, start, next);
    DecodeEncodeDescriptor(d);
    SliceOf(buf, start, EncodeDescriptor(d), Flat(e.items), BlockPad(e), tail);
  }

  lemma RestInPlace(buf: seq<byte>, start: nat, es: seq<Element>)
    requires HoldsImage(buf, start, es) && es != []
    ensures start + BlockSize(es[0]) <= |buf| && HoldsImage(buf, start + BlockSize(es[0]), es[1..])
  {
    hide Image, Block, BlockSize, TotalSize;
    ImageSplit(es, start);
    var next := if |es| == 1 then 0 else start + BlockSize(es[0]);
    TailOf(buf, start, Block(es[0], start, next), Image(es[1..], start + BlockSize(es[0])));
  }

  lemma ImageSplit(es: seq<Element>, start: nat)
    requires AllValid(es) && es != [] && start + TotalSize(es) < TWO_64
    ensures AllValid(es[1..]) && TotalSize(es) == BlockSize(es[0]) + TotalSize(es[1..])
    ensures Image(es, start) ==
      Block(es[0], start, if |es| == 1 then 0 else start + BlockSize(es[0])) + Image(es[1..], start + BlockSize(es[0]))
  {
    hide Block, BlockSize;
  }

  function BlockPad(e: Element): seq<byte>
    requires e.Valid()
  {
    BlockSizeBounds(e);
    Zeros(BlockSize(e) - DESCRIPTOR_SIZE - e.shape.size * |e.items|)
  }

  lemma BlockParts(e: Element, start: nat, next: nat)
    requires e.Valid() && start + BlockSize(e) < TWO_64 && next < TWO_64
    ensures Block(e, start, next) == EncodeDescriptor(DescriptorOf(e, start, next)) + Flat(e.items) + BlockPad(e)
    ensures |Flat(e.items)| == e.shape.size * |e.items| && DESCRIPTOR_SIZE + e.shape.size * |e.items| <= BlockSize(e)
  {
    FlatLength(e.items, e.shape.size);
    BlockSizeBounds(e);
  }

  lemma TailOf(buf: seq<byte>, start: nat, block: seq<byte>, tail: seq<byte>)
    requires start <= |buf| && buf[start..] == block + tail
    ensures start + |block| + |tail| == |buf| && buf[start + |block|..] == tail
  {
    assert buf[start + |block|..] == buf[start..][|block|..];
  }

  lemma SliceOf(buf: seq<byte>, start: nat, head: seq<byte>, flat: seq<byte>, pad: seq<byte>, tail: seq<byte>)
    requires start <= |buf| && buf[start..] == head + flat + pad + tail
    ensures start + |head| + |flat| + |pad| <= |buf|
    ensures buf[start..start + |head|] == head
    ensures buf[start + |head|..start + |head| + |flat|] == flat
  {
    var rest := buf[start..];
    assert buf[start..start + |head|] == rest[..|head|];
    assert buf[start + |head|..start + |head| + |flat|] == rest[|head|..|head| + |flat|];
  }

  lemma ItemInPlace(buf: seq<byte>, e: Element, at: nat, k: nat)
    requires e.Valid() && k < |e.items|
    requires e.shape.size * |e.items| >= 0 && at + e.shape.size * |e.items| <= |buf|
    requires buf[at..at + e.shape.size * |e.items|] == Flat(e.items)
    ensures 0 <= e.shape.size * k && e.shape.size * (k + 1) == e.shape.size * k + e.shape.size
    ensures at + e.shape.size * k + e.shape.size <= |buf|
    ensures buf[at + e.shape.size * k..at + e.shape.size * k + e.shape.size] == e.items[k]
  {
    hide Flat;
    var size, count := e.shape.size, |e.items|;
    FlatAt(e.items, size, k);
    FlatLength(e.items, size);
    SliceInside(buf, at, size * count, size * k, size);
  }

  lemma SliceInside(buf: seq<byte>, at: nat, len: nat, from: nat, size: nat)
    requires at + len <= |buf| && from + size <= len
    ensures buf[at + from..at + from + size] == buf[at..at + len][from..from + size]
  {
    var part, slice := buf[at..at + len], buf[at + from..at + from + size];
    assert forall k :: 0 <= k < size ==> slice[k] == part[from + k];
  }

  /** The items come back one by one from behind their descriptor. */
  lemma {:induction false} CopyItemsBack(buf: seq<byte>, base: u64, e: Element, at: nat, from: nat, items: seq<seq<byte>>, k: nat)
    requires e.Valid() && Readable(buf, base, e.shape) && |items| == |e.items| && k <= |items|
    requires e.shape.size * |e.items| >= 0 && at + e.shape.size * |e.items| <= |buf| < TWO_64
    requires buf[at..at + e.shape.size * |e.items|] == Flat(e.items)
    requires items[..k] == e.items[..k] && from == at + e.shape.size * k < TWO_64
    ensures CopyItems(buf, base, e.shape, from, e.shape.size, items, k) == Copied(e.items, Ok)
    decreases |items| - k
  {
    hide Flat, AddressOk, CopyItems;
    var size := e.shape.size;
    if k == |items| {
      assert items[..k] == items && e.items[..k] == e.items;
      NothingToCopy(buf, base, e.shape, from, items);
    } else {
      ItemInPlace(buf, e, at, k);
      AddressExact(base, |buf|, from, size);
      CopyOneItem(buf, base, e.shape, from, items, k);
      var items' := items[k := e.items[k]];
      assert items'[..k + 1] == e.items[..k + 1];
      CopyItemsBack(buf, base, e, at, from + size, items', k + 1);
    }
  }

  lemma NothingToCopy(buf: seq<byte>, base: u64, shape: Shape, from: u64, items: seq<seq<byte>>)
    requires Readable(buf, base, shape)
    ensures CopyItems(buf, base, shape, from, shape.size, items, |items|) == Copied(items, Ok)
  {}

  lemma CopyOneItem(buf: seq<byte>, base: u64, shape: Shape, from: u64, items: seq<seq<byte>>, k: nat)
    requires Readable(buf, base, shape) && k < |items| && from + shape.size <= |buf| < TWO_64
    requires AddressOk(base, |buf|, from, shape.size)
    ensures CopyItems(buf, base, shape, from, shape.size, items, k)
      == CopyItems(buf, base, shape, from + shape.size, shape.size, items[k := buf[from..from + shape.size]], k + 1)
  {
    hide AddressOk;
  }

  /** The elements a reader ends up with: stored ones as far as both lists go, cleared ones beyond the stored list. */
  function Merged(stored: seq<Element>, targets: seq<Element>): seq<Element> {
    if targets == [] then []
    else if stored == [] then [targets[0].Cleared()] + Merged([], targets[1..])
    else [stored[0]] + Merged(stored[1..], targets[1..])
  }

  /** As far as both lists go, the reader expects what was stored, and its vectors can hold it. */
  predicate Compatible(stored: seq<Element>, targets: seq<Element>, limit: nat) {
    forall k :: 0 <= k < |stored| && k < |targets| ==>
      targets[k].shape == stored[k].shape && |stored[k].items| * stored[k].shape.size <= limit
  }

  lemma {:induction false} WalkPastTheEnd(buf: seq<byte>, base: u64, limit: nat, targets: seq<Element>)
    requires AllReadable(buf, base, targets)
    ensures Walk(buf, base, limit, NO_DESCRIPTOR, targets) == Walked(Merged([], targets), Ok)
    decreases targets
  {
    if targets != [] {
      assert ElementInBounds(buf, NO_DESCRIPTOR);
      WalkPastTheEnd(buf, base, limit, targets[1..]);
    }
  }

  lemma ReadOneBack(buf: seq<byte>, base: u64, limit: nat, start: nat, stored: seq<Element>, target: Element)
    requires HoldsImage(buf, start, stored) && stored != [] && Readable(buf, base, target.shape)
    requires target.shape == stored[0].shape && |stored[0].items| * stored[0].shape.size <= limit
    ensures var d := DecodeDescriptor(buf[start..start + DESCRIPTOR_SIZE]);
      ElementInBounds(buf, d) && ReadOne(buf, base, limit, d, target) == ReadElement(stored[0], Ok)
  {
    hide DecodeDescriptor, Flat, Image, TotalSize, BlockSize, AddressOk, CopyItems;
    var e := stored[0];
    BlockInPlace(buf, start, stored);
    var d := DecodeDescriptor(buf[start..start + DESCRIPTOR_SIZE]);
    if e.items != [] {
      assert e.shape.size * |e.items| == d.size * d.count;
      assert Wrap(d.size * d.count) == d.size * d.count;
      assert ElementInBounds(buf, d);
      var resized := Resized(target, d.count, limit);
      assert |e.items| * e.shape.size == e.shape.size * |e.items|;
      assert resized.status == Ok;
      assert e.shape.size * 0 == 0;
      CopyItemsBack(buf, base, e, start + DESCRIPTOR_SIZE, start + DESCRIPTOR_SIZE, resized.items, 0);
    }
  }

  /** Reading the image of a list, from any of its descriptors on, into any compatible list. */
  lemma {:induction false} WalkImage(buf: seq<byte>, base: u64, limit: nat, start: nat, stored: seq<Element>, targets: seq<Element>)
    requires HoldsImage(buf, start, stored) && stored != []
    requires AllReadable(buf, base, targets) && Compatible(stored, targets, limit)
    ensures start + DESCRIPTOR_SIZE <= |buf|
    ensures Walk(buf, base, limit, DecodeDescriptor(buf[start..start + DESCRIPTOR_SIZE]), targets)
      == Walked(Merged(stored, targets), Ok)
    decreases stored
  {
    hide DecodeDescriptor, Image, TotalSize, Flat, ReadOne, BlockSize;
    BlockInPlace(buf, start, stored);
    RestInPlace(buf, start, stored);
    if targets != [] {
      var d := DecodeDescriptor(buf[start..start + DESCRIPTOR_SIZE]);
      ReadOneBack(buf, base, limit, start, stored, targets[0]);
      var rest := stored[1..];
      if rest == [] {
        assert Next(buf, base, d) == NextDescriptor(NO_DESCRIPTOR, Ok);
        WalkPastTheEnd(buf, base, limit, targets[1..]);
      } else {
        var next := start + BlockSize(stored[0]);
        BlockInPlace(buf, next, rest);
        AddressExact(base, |buf|, next, DESCRIPTOR_SIZE);
        assert Next(buf, base, d) == NextDescriptor(DecodeDescriptor(buf[next..next + DESCRIPTOR_SIZE]), Ok);
        WalkImage(buf, base, limit, next, rest, targets[1..]);
      }
    }
  }

  /** Reading with a longer or a shorter list of elements than was written: the common prefix comes back. Beyond it every
      vector is empty and every single object holds the bytes of a value-initialized one, whatever the targets held. */
  lemma VersionSkew(stored: seq<Element>, targets: seq<Element>, base: u64, limit: nat)
    requires stored != [] && AllValid(stored) && TotalSize(stored) < TWO_64
    requires AllReadable(Image(stored, 0), base, targets) && Compatible(stored, targets, limit)
    ensures var r := Deserialized(Image(stored, 0), base, limit, targets);
      r.status == Ok && |r.elements| == |targets| &&
      (forall k :: 0 <= k < |stored| && k < |targets| ==> r.elements[k] == stored[k]) &&
      forall k :: |stored| <= k < |targets| ==>
        r.elements[k].shape == targets[k].shape &&
        r.elements[k].items == if targets[k].shape.isVector then [] else [targets[k].shape.blank]
  {
    hide DecodeDescriptor, Block, Image, Deserialized, TotalSize;
    StartOfImage(stored, targets, base, limit);
    MergedAt(stored, targets);
  }

  predicate SameShapes(es: seq<Element>, es': seq<Element>) {
    |es| == |es'| && forall k :: 0 <= k < |es| ==> es[k].shape == es'[k].shape
  }

  /** Two results agree on an element, or reading stopped before it and both targets are as they were. */
  predicate ReadAlike(r: seq<Element>, r': seq<Element>, es: seq<Element>, es': seq<Element>)
    requires |r| == |es| == |r'| == |es'|
  {
    forall k :: 0 <= k < |r| ==> r[k] == r'[k] || (r[k] == es[k] && r'[k] == es'[k])
  }

  lemma ReadsAlike(buf: seq<byte>, base: u64, limit: nat, d: Descriptor, e: Element, e': Element)
    requires Readable(buf, base, e.shape) && e'.shape == e.shape
    ensures ReadOne(buf, base, limit, d, e') == ReadOne(buf, base, limit, d, e)
  {
    hide CopyItems;
  }

  lemma {:induction false} WalksAlike(buf: seq<byte>, base: u64, limit: nat, d: Descriptor, es: seq<Element>, es': seq<Element>)
    requires AllReadable(buf, base, es) && AllReadable(buf, base, es') && SameShapes(es, es')
    ensures var w, w' := Walk(buf, base, limit, d, es), Walk(buf, base, limit, d, es');
      w'.status == w.status && ReadAlike(w.elements, w'.elements, es, es') && (w.status.Ok? ==> w' == w)
    decreases |es|
  {
    hide ReadOne, Next, ElementInBounds;
    if es != [] && ElementInBounds(buf, d) {
      ReadsAlike(buf, base, limit, d, es[0], es'[0]);
      var next := Next(buf, base, d);
      if ReadOne(buf, base, limit, d, es[0]).status.Ok? && next.status.Ok? {
        WalksAlike(buf, base, limit, next.descriptor, es[1..], es'[1..]);
      }
    }
  }

  /** What is read from any buffer, well-formed or not, does not depend on what the targets held: the outcome is the same, and
      so are the elements up to where reading stopped. */
  lemma OldContentsForgotten(buf: seq<byte>, base: u64, limit: nat, targets: seq<Element>, targets': seq<Element>)
    requires AllReadable(buf, base, targets) && AllReadable(buf, base, targets') && SameShapes(targets, targets')
    ensures var r, r' := Deserialized(buf, base, limit, targets), Deserialized(buf, base, limit, targets');
      r'.status == r.status && ReadAlike(r.elements, r'.elements, targets, targets') && (r.status.Ok? ==> r' == r)
  {
    hide DecodeDescriptor, Walk;
    if |buf| >= DESCRIPTOR_SIZE {
      WalksAlike(buf, base, limit, DecodeDescriptor(buf[0..DESCRIPTOR_SIZE]), targets, targets');
    }
  }

  lemma StartOfImage(stored: seq<Element>, targets: seq<Element>, base: u64, limit: nat)
    requires stored != [] && AllValid(stored) && TotalSize(stored) < TWO_64
    requires AllReadable(Image(stored, 0), base, targets) && Compatible(stored, targets, limit)
    ensures Deserialized(Image(stored, 0), base, limit, targets) == Walked(Merged(stored, targets), Ok)
  {
    hide DecodeDescriptor, Block;
    var buf := Image(stored, 0);
    assert buf[0..] == buf;
    WalkImage(buf, base, limit, 0, stored, targets);
  }

  lemma {:induction false} MergedAt(stored: seq<Element>, targets: seq<Element>)
    ensures |Merged(stored, targets)| == |targets|
    ensures forall k :: 0 <= k < |targets| ==>
      Merged(stored, targets)[k] == if k < |stored| then stored[k] else targets[k].Cleared()
  {
    if targets != [] {
      MergedAt(if stored == [] then [] else stored[1..], targets[1..]);
    }
  }

  /** What was written is what is read. */
  lemma RoundTrip(stored: seq<Element>, targets: seq<Element>, base: u64, limit: nat)
    requires stored != [] && AllValid(stored) && TotalSize(stored) < TWO_64 && |targets| == |stored|
    requires AllReadable(Image(stored, 0), base, targets) && Compatible(stored, targets, limit)
    ensures Deserialized(Image(stored, 0), base, limit, targets) == Walked(stored, Ok)
  {
    hide Deserialized, Image;
    VersionSkew(stored, targets, base, limit);
    assert Deserialized(Image(stored, 0), base, limit, targets).elements == stored;
  }

  // ---------- refusals ----------

  /** A descriptor whose data ends behind the buffer, in numbers that do not wrap around, stops reading before any target is
      touched. */
  lemma OutsideIsRefused(buf: seq<byte>, base: u64, limit: nat, d: Descriptor, es: seq<Element>)
    requires AllReadable(buf, base, es) && es != []
    requires |buf| < d.size * d.count + d.dataOffset < TWO_64
    ensures Walk(buf, base, limit, d, es) == Walked(es, Err(RuntimeError))
  {
    assert Wrap(d.size * d.count) == d.size * d.count;
  }

  /** Which descriptors an element refuses: several objects for a single one, more than its vector may hold, or objects of another
      size. The element is cleared then, or resized, and takes no byte. */
  lemma MismatchIsRefused(buf: seq<byte>, base: u64, limit: nat, d: Descriptor, e: Element)
    requires Readable(buf, base, e.shape) && d.count > 0
    ensures !e.shape.isVector && d.count > 1 ==>
      ReadOne(buf, base, limit, d, e) == ReadElement(Element(e.shape, [e.shape.blank]), Err(RuntimeError))
    ensures e.shape.isVector && d.count * e.shape.size > limit ==>
      ReadOne(buf, base, limit, d, e) == ReadElement(Element(e.shape, []), Err(OutOfMemory))
    ensures (if e.shape.isVector then d.count * e.shape.size <= limit else d.count == 1) && d.size != e.shape.size ==>
      ReadOne(buf, base, limit, d, e) ==
        ReadElement(Element(e.shape, seq(d.count, _ => e.shape.blank)), Err(RuntimeError))
  {
    hide AddressOk;
    assert d.count == 1 ==> [e.shape.blank] == seq(d.count, _ => e.shape.blank);
  }

  // ---------- where everything stands ----------

  /** The little-endian integer of 8 bytes at an offset. */
  function U64In(buf: seq<byte>, at: nat): nat
    requires at + 8 <= |buf|
  {
    DecodeInt(buf[at..at + 8])
  }

  lemma {:induction false} SuffixInPlace(buf: seq<byte>, es: seq<Element>, k: nat)
    requires HoldsImage(buf, 0, es) && k < |es|
    ensures AllValid(es[..k]) && HoldsImage(buf, TotalSize(es[..k]), es[k..])
  {
    hide Image, BlockSize, TotalSize;
    if k == 0 {
      assert es[0..] == es && TotalSize(es[..0]) == 0 by { NoBlocks(); }
    } else {
      SuffixInPlace(buf, es, k - 1);
      RestInPlace(buf, TotalSize(es[..k - 1]), es[k - 1..]);
      TotalSizePrefix(es, k - 1);
      assert es[k - 1..][1..] == es[k..];
    }
  }

  lemma NoBlocks()
    ensures TotalSize([]) == 0
  {}

  /** A descriptor holds its four fields 8 bytes apart: where the data is, where the next descriptor is, how many objects there
      are and how large one is. */
  lemma DescriptorLayout(bs: seq<byte>)
    requires |bs| == DESCRIPTOR_SIZE
    ensures var d := DecodeDescriptor(bs);
      d.dataOffset == U64In(bs, 0) && d.nextOffset == U64In(bs, 8) && d.count == U64In(bs, 16) && d.size == U64In(bs, 24)
  {}

  lemma FieldsOfDescriptor(buf: seq<byte>, at: nat)
    requires at + DESCRIPTOR_SIZE <= |buf|
    ensures var d := DecodeDescriptor(buf[at..at + DESCRIPTOR_SIZE]);
      d.dataOffset == U64In(buf, at) && d.nextOffset == U64In(buf, at + 8) && d.count == U64In(buf, at + 16)
      && d.size == U64In(buf, at + 24)
  {
    hide DecodeDescriptor, DecodeInt;
    DescriptorLayout(buf[at..at + DESCRIPTOR_SIZE]);
    SliceInside(buf, at, DESCRIPTOR_SIZE, 0, 8);
    SliceInside(buf, at, DESCRIPTOR_SIZE, 8, 8);
    SliceInside(buf, at, DESCRIPTOR_SIZE, 16, 8);
    SliceInside(buf, at, DESCRIPTOR_SIZE, 24, 8);
  }

  /** Element k in the serialized buffer: its descriptor starts where the blocks before it end and says, at fixed offsets, where
      the data is, where the next descriptor starts (0 for the last), how many objects there are and how large one is; the
      bytes of the objects follow it. An empty vector has no data, no objects and no size. */
  lemma BytesOfElement(es: seq<Element>, k: nat)
    requires AllValid(es) && TotalSize(es) < TWO_64 && k < |es|
    ensures AllValid(es[..k]) && AllValid(es[..k + 1])
    ensures var buf, at, e := Image(es, 0), TotalSize(es[..k]), es[k];
      var data := e.shape.size * |e.items|;
      0 <= data && at + DESCRIPTOR_SIZE + data <= |buf| &&
      U64In(buf, at) == (if e.items == [] then 0 else at + 32) &&
      U64In(buf, at + 8) == (if k + 1 == |es| then 0 else TotalSize(es[..k + 1])) &&
      U64In(buf, at + 16) == |e.items| &&
      U64In(buf, at + 24) == (if e.items == [] then 0 else e.shape.size) &&
      buf[at + 32..at + 32 + data] == Flat(e.items)
  {
    hide Image, BlockSize, TotalSize, Flat, DecodeDescriptor, U64In;
    var buf, at := Image(es, 0), TotalSize(es[..k]);
    assert buf[0..] == buf;
    SuffixInPlace(buf, es, k);
    BlockInPlace(buf, at, es[k..]);
    TotalSizePrefix(es, k);
    FieldsOfDescriptor(buf, at);
  }
}
