/** The format of serialized metadata: a chain of 8-aligned descriptors, each followed by the bytes of its element. */
module SerialFormat {
  import opened Bytes
  import opened ElfFile

  /** What the serializer knows about an element before it sees data: a single object or a vector of objects, the
      size of one object, and the bytes of a value-initialized one. */
  datatype Shape = Shape(isVector: bool, size: nat, blank: seq<byte>) {
    predicate Valid() { 0 < size < TWO_64 && |blank| == size }
  }

  datatype Element = Element(shape: Shape, items: seq<seq<byte>>) {
    predicate Valid() {
      shape.Valid() && (!shape.isVector ==> |items| == 1) && forall k :: 0 <= k < |items| ==> |items[k]| == shape.size
    }

    /** A single object is value-initialized, a vector emptied. */
    function Cleared(): Element {
      Element(shape, if shape.isVector then [] else [shape.blank])
    }
  }

  predicate AllValid(es: seq<Element>) {
    forall k :: 0 <= k < |es| ==> es[k].Valid()
  }

  const DESCRIPTOR_SIZE: nat := 32

  datatype Descriptor = Descriptor(dataOffset: u64, nextOffset: u64, count: u64, size: u64)

  function EncodeU64(n: u64): (bs: seq<byte>)
    ensures |bs| == 8
  {
    EncodeInt(n, 8)
  }

  function DecodeU64(bs: seq<byte>): u64
    requires |bs| == 8
  {
    Pow256Values();
    DecodeInt(bs)
  }

  lemma DecodeEncodeU64(n: u64)
    ensures DecodeU64(EncodeU64(n)) == n
  {
    Pow256Values();
    DecodeEncode(n, 8);
  }

  function EncodeDescriptor(d: Descriptor): (bs: seq<byte>)
    ensures |bs| == DESCRIPTOR_SIZE
  {
    EncodeU64(d.dataOffset) + EncodeU64(d.nextOffset) + EncodeU64(d.count) + EncodeU64(d.size)
  }

  function DecodeDescriptor(bs: seq<byte>): Descriptor
    requires |bs| == DESCRIPTOR_SIZE
  {
    Descriptor(DecodeU64(bs[0..8]), DecodeU64(bs[8..16]), DecodeU64(bs[16..24]), DecodeU64(bs[24..32]))
  }

  lemma DecodeEncodeDescriptor(d: Descriptor)
    ensures DecodeDescriptor(EncodeDescriptor(d)) == d
  {
    hide EncodeU64, DecodeU64;
    var bs := EncodeDescriptor(d);
    assert bs[0..8] == EncodeU64(d.dataOffset) && bs[8..16] == EncodeU64(d.nextOffset);
    assert bs[16..24] == EncodeU64(d.count) && bs[24..32] == EncodeU64(d.size);
    DecodeEncodeU64(d.dataOffset);
    DecodeEncodeU64(d.nextOffset);
    DecodeEncodeU64(d.count);
    DecodeEncodeU64(d.size);
  }

  function Zeros(n: nat): (z: seq<byte>)
    ensures |z| == n
  {
    seq(n, _ => 0)
  }

  function Flat(items: seq<seq<byte>>): seq<byte> {
    if items == [] then [] else items[0] + Flat(items[1..])
  }

  lemma {:induction false} FlatLength(items: seq<seq<byte>>, size: nat)
    requires forall k :: 0 <= k < |items| ==> |items[k]| == size
    ensures |Flat(items)| == size * |items|
  {
    if items != [] {
      FlatLength(items[1..], size);
      assert size * |items| == size + size * (|items| - 1);
    }
  }

  lemma {:induction false} FlatAppend(items: seq<seq<byte>>, item: seq<byte>)
    ensures Flat(items + [item]) == Flat(items) + item
  {
    if items == [] {
      assert [item][1..] == [];
      assert Flat([item]) == item + Flat([]);
      assert items + [item] == [item];
    } else {
      assert (items + [item])[1..] == items[1..] + [item];
      FlatAppend(items[1..], item);
    }
  }

  /** Item k sits at k times the item size. */
  lemma {:induction false} FlatAt(items: seq<seq<byte>>, size: nat, k: nat)
    requires k < |items| && forall n :: 0 <= n < |items| ==> |items[n]| == size
    ensures 0 <= size * k && size * k + size <= |Flat(items)| && Flat(items)[size * k..size * k + size] == items[k]
    decreases k
  {
    FlatLength(items, size);
    if k == 0 {
      FlatLength(items[1..], size);
    } else {
      FlatAt(items[1..], size, k - 1);
      assert size * k == size + size * (k - 1);
      var rest, at := Flat(items[1..]), size * (k - 1);
      assert Flat(items) == items[0] + rest;
      assert (items[0] + rest)[size + at..size + at + size] == rest[at..at + size];
    }
  }

  // ---------- the image of a list of elements ----------

  /** The bytes an element takes up: the formula by which the buffer is sized beforehand. */
  function BlockSize(e: Element): (n: nat)
    requires e.Valid()
    ensures n >= DESCRIPTOR_SIZE
  {
    BlockSizeBounds(e);
    AlignUp(DESCRIPTOR_SIZE + e.shape.size * |e.items|, 8)
  }

  lemma BlockSizeBounds(e: Element)
    requires e.Valid()
    ensures var n := AlignUp(DESCRIPTOR_SIZE + e.shape.size * |e.items|, 8);
      n % 8 == 0 && n - 8 < DESCRIPTOR_SIZE + e.shape.size * |e.items| <= n
    ensures e.shape.size * |e.items| >= 0
  {
    MulMonotone(0, e.shape.size, |e.items|);
  }

  function TotalSize(es: seq<Element>): (n: nat)
    requires AllValid(es)
  {
    if es == [] then 0 else BlockSize(es[0]) + TotalSize(es[1..])
  }

  /** Descriptors are 8-aligned. */
  lemma {:induction false} TotalSizeAligned(es: seq<Element>)
    requires AllValid(es)
    ensures TotalSize(es) % 8 == 0
  {
    if es != [] {
      BlockSizeBounds(es[0]);
      TotalSizeAligned(es[1..]);
      SumAligned(BlockSize(es[0]), TotalSize(es[1..]));
    }
  }

  lemma SumAligned(a: nat, b: nat)
    requires a % 8 == 0 && b % 8 == 0
    ensures (a + b) % 8 == 0
  {}

  /** The descriptor of the element at `start`; an empty vector records no data. */
  function DescriptorOf(e: Element, start: nat, next: nat): Descriptor
    requires e.Valid() && start + BlockSize(e) < TWO_64 && next < TWO_64
  {
    if e.items == [] then Descriptor(0, next, 0, 0)
    else
      CountFits(e);
      Descriptor(start + DESCRIPTOR_SIZE, next, |e.items|, e.shape.size)
  }

  lemma CountFits(e: Element)
    requires e.Valid() && BlockSize(e) < TWO_64
    ensures |e.items| < TWO_64
  {
    BlockSizeBounds(e);
    assert e.shape.size * |e.items| >= |e.items| by { MulMonotone(1, e.shape.size, |e.items|); }
  }

  function Block(e: Element, start: nat, next: nat): (bs: seq<byte>)
    requires e.Valid() && start + BlockSize(e) < TWO_64 && next < TWO_64
    ensures |bs| == BlockSize(e)
  {
    FlatLength(e.items, e.shape.size);
    BlockSizeBounds(e);
    EncodeDescriptor(DescriptorOf(e, start, next)) + Flat(e.items)
      + Zeros(BlockSize(e) - DESCRIPTOR_SIZE - e.shape.size * |e.items|)
  }

  /** The serialized form of a list whose first descriptor is at `start`: every descriptor links to the next. */
  function Image(es: seq<Element>, start: nat): (bs: seq<byte>)
    requires AllValid(es) && start + TotalSize(es) < TWO_64
    ensures |bs| == TotalSize(es)
    decreases es
  {
    if es == [] then []
    else
      var next := start + BlockSize(es[0]);
      Block(es[0], start, if |es| == 1 then 0 else next) + Image(es[1..], next)
  }

  lemma {:induction false} TotalSizeAppend(es: seq<Element>, e: Element)
    requires AllValid(es) && e.Valid()
    ensures AllValid(es + [e]) && TotalSize(es + [e]) == TotalSize(es) + BlockSize(e)
  {
    if es == [] {
      assert [] + [e] == [e];
    } else {
      assert (es + [e])[1..] == es[1..] + [e];
      TotalSizeAppend(es[1..], e);
    }
  }

  lemma {:induction false} TotalSizePrefix(es: seq<Element>, n: nat)
    requires AllValid(es) && n < |es|
    ensures AllValid(es[..n]) && AllValid(es[..n + 1])
    ensures TotalSize(es[..n + 1]) == TotalSize(es[..n]) + BlockSize(es[n]) <= TotalSize(es)
    decreases |es| - n
  {
    hide BlockSize;
    assert es[..n + 1] == es[..n] + [es[n]];
    TotalSizeAppend(es[..n], es[n]);
    if n + 1 < |es| {
      TotalSizePrefix(es, n + 1);
    } else {
      assert es[..n + 1] == es;
    }
  }

  /** Where the last descriptor of a non-empty list sits. */
  function LastStart(es: seq<Element>): (at: nat)
    requires AllValid(es) && es != []
    ensures at + DESCRIPTOR_SIZE <= TotalSize(es)
    decreases es
  {
    if |es| == 1 then 0 else BlockSize(es[0]) + LastStart(es[1..])
  }

  /** The image of a list whose last descriptor links to whatever comes behind the list. */
  function Linked(es: seq<Element>, start: nat): (bs: seq<byte>)
    requires AllValid(es) && start + TotalSize(es) < TWO_64
    ensures |bs| == TotalSize(es)
  {
    if es == [] then [] else Splice(Image(es, start), LastStart(es) + 8, EncodeU64(start + TotalSize(es)))
  }

  /** Linking the last descriptor to a new one is the only change an appended element makes to the bytes before it. */
  lemma {:induction false} ImageAppend(es: seq<Element>, e: Element, start: nat)
    requires AllValid(es) && e.Valid() && start + TotalSize(es) + BlockSize(e) < TWO_64
    ensures AllValid(es + [e]) && TotalSize(es + [e]) == TotalSize(es) + BlockSize(e)
    ensures Image(es + [e], start) == Linked(es, start) + Block(e, start + TotalSize(es), 0)
    decreases es
  {
    hide EncodeU64, Block, BlockSize, AlignUp, TotalSize, Linked, Image;
    TotalSizeAppend(es, e);
    if es == [] {
      assert [] + [e] == [e];
      OneImage(e, start);
    } else {
      assert (es + [e])[1..] == es[1..] + [e];
      var next := start + BlockSize(es[0]);
      TotalTail(es);
      ImageAppend(es[1..], e, next);
      LinkedTail(es, start);
      ImageTail(es + [e], start);
    }
  }

  lemma OneImage(e: Element, start: nat)
    requires e.Valid() && start + BlockSize(e) < TWO_64
    ensures AllValid([e]) && TotalSize([]) == 0 && TotalSize([e]) == BlockSize(e)
    ensures Linked([], start) == [] && Image([e], start) == Block(e, start, 0)
  {
    hide Block, BlockSize;
    assert [e][1..] == [];
    assert TotalSize([e][1..]) == 0;
    assert Image([e][1..], start + BlockSize(e)) == [];
    assert Block(e, start, 0) + [] == Block(e, start, 0);
  }

  lemma TotalTail(es: seq<Element>)
    requires AllValid(es) && es != []
    ensures TotalSize(es) == BlockSize(es[0]) + TotalSize(es[1..])
  {
    hide BlockSize;
  }

  lemma LinkedTail(es: seq<Element>, start: nat)
    requires AllValid(es) && es != [] && start + TotalSize(es) < TWO_64
    ensures Linked(es, start)
      == Block(es[0], start, start + BlockSize(es[0])) + Linked(es[1..], start + BlockSize(es[0]))
  {
    hide EncodeU64, Block, BlockSize, Image, Splice, LastStart, Linked, TotalSize;
    if |es| == 1 {
      OneLinked(es, start);
    } else {
      ManyLinked(es, start);
    }
  }

  lemma ManyLinked(es: seq<Element>, start: nat)
    requires AllValid(es) && |es| > 1 && start + TotalSize(es) < TWO_64
    ensures Linked(es, start)
      == Block(es[0], start, start + BlockSize(es[0])) + Linked(es[1..], start + BlockSize(es[0]))
  {
    hide EncodeU64, Block, BlockSize, Image, Splice, LastStart, Linked, TotalSize, AllValid, Element.Valid;
    TailIsValid(es);
    SizesTail(es);
    var next, rest := start + BlockSize(es[0]), es[1..];
    LinkedIsSplice(rest, next);
    LinkedIsSplice(es, start);
    ImageTail(es, start);
    SpliceBehind(Block(es[0], start, next), Image(rest, next), LastStart(rest) + 8, EncodeU64(next + TotalSize(rest)));
  }

  lemma TailIsValid(es: seq<Element>)
    requires AllValid(es) && es != []
    ensures AllValid(es[1..]) && es[0].Valid()
  {}

  lemma LinkedIsSplice(es: seq<Element>, start: nat)
    requires AllValid(es) && es != [] && start + TotalSize(es) < TWO_64
    ensures Linked(es, start) == Splice(Image(es, start), LastStart(es) + 8, EncodeU64(start + TotalSize(es)))
  {
    hide EncodeU64, Image, Splice, LastStart, TotalSize;
  }

  lemma SizesTail(es: seq<Element>)
    requires AllValid(es) && |es| > 1
    ensures TotalSize(es) == BlockSize(es[0]) + TotalSize(es[1..])
    ensures LastStart(es) == BlockSize(es[0]) + LastStart(es[1..])
  {
    hide BlockSize;
  }

  lemma ImageTail(es: seq<Element>, start: nat)
    requires AllValid(es) && |es| > 1 && start + TotalSize(es) < TWO_64
    ensures Image(es, start) == Block(es[0], start, start + BlockSize(es[0])) + Image(es[1..], start + BlockSize(es[0]))
  {
    hide Block, BlockSize;
  }

  lemma OneLinked(es: seq<Element>, start: nat)
    requires AllValid(es) && |es| == 1 && start + TotalSize(es) < TWO_64
    ensures Linked(es, start)
      == Block(es[0], start, start + BlockSize(es[0])) + Linked(es[1..], start + BlockSize(es[0]))
  {
    hide EncodeU64, Block, BlockSize;
    var next := start + BlockSize(es[0]);
    RelinkBlock(es[0], start, next);
    assert TotalSize(es[1..]) == 0 && Image(es[1..], next) == [] && Linked(es[1..], next) == [];
    assert Image(es, start) == Block(es[0], start, 0) + [];
    assert Block(es[0], start, 0) + [] == Block(es[0], start, 0);
    assert Block(es[0], start, next) + [] == Block(es[0], start, next);
  }

  lemma SpliceBehind(first: seq<byte>, tail: seq<byte>, at: nat, bs: seq<byte>)
    requires at + |bs| <= |tail|
    ensures Splice(first + tail, |first| + at, bs) == first + Splice(tail, at, bs)
  {}

  lemma RelinkBlock(e: Element, start: nat, next: nat)
    requires e.Valid() && start + BlockSize(e) < TWO_64 && next < TWO_64
    ensures Block(e, start, next) == Splice(Block(e, start, 0), 8, EncodeU64(next))
  {
    hide EncodeU64, AlignUp, Flat;
    RelinkDescriptor(DescriptorOf(e, start, 0), next);
    var rest := Flat(e.items) + Zeros(BlockSize(e) - DESCRIPTOR_SIZE - e.shape.size * |e.items|);
    var d := EncodeDescriptor(DescriptorOf(e, start, 0));
    assert Block(e, start, 0) == d + rest;
    assert Splice(d + rest, 8, EncodeU64(next)) == Splice(d, 8, EncodeU64(next)) + rest;
    assert DescriptorOf(e, start, next) == DescriptorOf(e, start, 0).(nextOffset := next);
  }

  lemma RelinkDescriptor(d: Descriptor, next: u64)
    ensures EncodeDescriptor(d.(nextOffset := next)) == Splice(EncodeDescriptor(d), 8, EncodeU64(next))
  {
    hide EncodeU64;
  }
}
