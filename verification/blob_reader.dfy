/** The reader: it parses a blob's headers once and hands out sections by index. */
module BlobReader {
  import opened Bytes
  import opened Errors
  import opened ElfFile
  import opened ElfCodec
  import opened Options
  import opened StringTable

  /** Reading a range of the blob; size_t wraps around in the bounds check. */
  datatype Read = Got(bytes: seq<byte>) | Failed(error: Error)

  function ReadRange(blob: seq<byte>, at: u64, size: u64): (r: Read)
    requires |blob| < TWO_64
    ensures r.Got? <==> at + size <= |blob|
    ensures r.Got? ==> r.bytes == blob[at..at + size]
    ensures r == Failed(Undefined) <==> |blob| < at + size && (at + size) % TWO_64 <= |blob|
    ensures r == Failed(AccessError) <==> |blob| < (at + size) % TWO_64
  {
    if (at + size) % TWO_64 > |blob| then Failed(AccessError)
    else if at + size > |blob| then Failed(Undefined)
    else Got(blob[at..at + size])
  }

  function DecodeHeaders(bs: seq<byte>, n: nat): (hs: seq<SectionHeader>)
    requires |bs| == n * HEADER_SIZE
    ensures |hs| == n
  {
    if n == 0 then []
    else
      var rest := (n - 1) * HEADER_SIZE;
      DecodeHeaders(bs[..rest], n - 1) + [DecodeSectionHeader(bs[rest..])]
  }

  /** A section as the reader hands it out: its header, and its name if that ends inside the names section. */
  datatype ReadSection = ReadSection(header: SectionHeader, name: Option<seq<byte>>)

  /** The section's bytes, or none for the types that have none in the file. */
  datatype Data = NoData | Bytes(bytes: seq<byte>) | Throws(error: Error)

  class Reader {
    const blob: seq<byte>
    var elfHeader: ElfHeader
    var sectionHeaders: seq<SectionHeader>
    var sectionNames: seq<byte>
    var sectionsCache: map<nat, ReadSection>

    predicate Valid()
      reads this
    {
      |blob| < TWO_64 && |sectionHeaders| == elfHeader.shnum
      && forall i :: i in sectionsCache ==> i < |sectionHeaders| && sectionsCache[i] == SectionOf(i)
    }

    function SectionOf(i: nat): ReadSection
      requires i < |sectionHeaders|
      reads this
    {
      ReadSection(sectionHeaders[i], CString(sectionNames, sectionHeaders[i].name))
    }

    constructor (blob: seq<byte>)
      requires |blob| < TWO_64
      ensures this.blob == blob && Valid() && elfHeader.shnum == 0 && sectionsCache == map[] && sectionNames == []
    {
      this.blob := blob;
      elfHeader := ElfHeader(0, 0, 0, 0, 0, 0, 0, 0, 0);
      sectionHeaders := [];
      sectionNames := [];
      sectionsCache := map[];
    }

    /** The part of construction that can throw. */
    method Parse() returns (status: Status)
      requires Valid() && sectionsCache == map[] && sectionNames == []
      modifies this
      ensures status == OutcomeOf(blob)
      ensures status.Ok? ==> Valid() && sectionsCache == map[]
      ensures status.Ok? ==> IsParseOf(blob, elfHeader, sectionHeaders, sectionNames)
    {
      hide DecodeElfHeader, DecodeSectionHeader, DecodeHeaders;
      var read := ReadRange(blob, 0, HEADER_SIZE);
      if read.Failed? {
        return Err(read.error);
      }
      elfHeader := DecodeElfHeader(read.bytes);
      if elfHeader.magic != ELF_MAGIC || elfHeader.shentsize != HEADER_SIZE || elfHeader.shoff < HEADER_SIZE
        || elfHeader.shnum == 0 || elfHeader.shstrndx >= elfHeader.shnum {
        return Err(HeaderError);
      }
      read := ReadRange(blob, elfHeader.shoff, elfHeader.shnum * HEADER_SIZE);
      if read.Failed? {
        return Err(read.error);
      }
      sectionHeaders := DecodeHeaders(read.bytes, elfHeader.shnum);
      if elfHeader.shstrndx != 0 {
        var names := sectionHeaders[elfHeader.shstrndx];
        if (names.offset + names.size) % TWO_64 > |blob| {
          return Err(HeaderError);
        }
        read := ReadRange(blob, names.offset, names.size);
        if read.Failed? {
          return Err(read.error);
        }
        sectionNames := read.bytes;
      }
      return Ok;
    }

    method GetSectionsNum() returns (status: Status, n: nat)
      requires Valid()
      ensures status == if elfHeader.shnum == 0xffff then Err(ArgsError) else Ok
      ensures status.Ok? ==> n == |sectionHeaders|
    {
      if elfHeader.shnum > 0xfffe {
        return Err(ArgsError), 0;
      }
      return Ok, elfHeader.shnum;
    }

    /** Cached or not, a section is what the headers say. */
    method GetSection(i: nat) returns (status: Status, s: ReadSection)
      requires Valid()
      modifies this`sectionsCache
      ensures Valid()
      ensures status == if i < |sectionHeaders| then Ok else Err(RangeError)
      ensures status.Ok? ==> s == SectionOf(i) && i in sectionsCache
    {
      hide CString;
      s := ReadSection(SectionHeader(0, 0, 0, 0, 0, 0, 0, 0, 0, 0), None);
      if i >= elfHeader.shnum {
        return Err(RangeError), s;
      }
      if i in sectionsCache {
        return Ok, sectionsCache[i];
      }
      s := SectionOf(i);
      sectionsCache := sectionsCache[i := s];
      return Ok, s;
    }

    function GetData(s: ReadSection): (r: Data)
      requires |blob| < TWO_64
      ensures r == NoData <==> !s.header.HasMemoryFootprint()
      ensures r.Bytes? ==>
        s.header.offset + s.header.size <= |blob| && r.bytes == blob[s.header.offset..s.header.offset + s.header.size]
      ensures r.Throws? <==> s.header.HasMemoryFootprint() && s.header.offset + s.header.size > |blob|
    {
      DataIn(blob, s.header)
    }
  }

  /** What a table section's size means, when it says how large its entries are. */
  function EntriesNum(h: SectionHeader): (r: Option<nat>)
    ensures r.None? <==> h.entsize == 0
    ensures r.Some? ==> r.value * h.entsize <= h.size < (r.value + 1) * h.entsize
  {
    if h.entsize == 0 then None
    else
      assert h.size == h.size / h.entsize * h.entsize + h.size % h.entsize;
      assert (h.size / h.entsize + 1) * h.entsize == h.size / h.entsize * h.entsize + h.entsize;
      Some(h.size / h.entsize)
  }

  function DataIn(blob: seq<byte>, h: SectionHeader): Data
    requires |blob| < TWO_64
  {
    if !h.HasMemoryFootprint() then NoData
    else match ReadRange(blob, h.offset, h.size)
      case Got(bytes) => Bytes(bytes)
      case Failed(error) => Throws(error)
  }

  // ---------- parsing as a function of the blob ----------

  function HeaderOf(blob: seq<byte>): ElfHeader
    requires |blob| >= HEADER_SIZE
  {
    DecodeElfHeader(blob[..HEADER_SIZE])
  }

  predicate HeaderAccepted(h: ElfHeader) {
    h.magic == ELF_MAGIC && h.shentsize == HEADER_SIZE && h.shoff >= HEADER_SIZE && h.shnum != 0 && h.shstrndx < h.shnum
  }

  predicate TableInside(blob: seq<byte>) {
    |blob| >= HEADER_SIZE && HeaderOf(blob).shoff + HeaderOf(blob).shnum * HEADER_SIZE <= |blob|
  }

  function HeadersIn(blob: seq<byte>): (hs: seq<SectionHeader>)
    requires TableInside(blob)
    ensures |hs| == HeaderOf(blob).shnum
  {
    hide DecodeHeaders, HeaderOf;
    var h := HeaderOf(blob);
    DecodeHeaders(blob[h.shoff..h.shoff + h.shnum * HEADER_SIZE], h.shnum)
  }

  predicate NamesInside(blob: seq<byte>)
    requires TableInside(blob) && HeaderOf(blob).shstrndx < HeaderOf(blob).shnum
  {
    hide HeaderOf;
    var names := HeadersIn(blob)[HeaderOf(blob).shstrndx];
    HeaderOf(blob).shstrndx == 0 || names.offset + names.size <= |blob|
  }

  function NamesIn(blob: seq<byte>): seq<byte>
    requires TableInside(blob) && HeaderOf(blob).shstrndx < HeaderOf(blob).shnum && NamesInside(blob)
  {
    hide HeaderOf, HeadersIn;
    var names := HeadersIn(blob)[HeaderOf(blob).shstrndx];
    if HeaderOf(blob).shstrndx == 0 then [] else blob[names.offset..names.offset + names.size]
  }

  /** These are the ELF header, the section headers and the section names that the blob holds. */
  predicate IsParseOf(blob: seq<byte>, h: ElfHeader, hs: seq<SectionHeader>, names: seq<byte>) {
    hide HeaderOf, HeadersIn;
    TableInside(blob) && h == HeaderOf(blob) && hs == HeadersIn(blob) && h.shstrndx < h.shnum
    && NamesInside(blob) && names == NamesIn(blob)
  }

  /** How parsing ends. A range whose end wraps around passes the bounds checks and is then read outside the blob. */
  function OutcomeOf(blob: seq<byte>): (status: Status)
    requires |blob| < TWO_64
    ensures status.Ok? <==>
      TableInside(blob) && HeaderAccepted(HeaderOf(blob)) && NamesInside(blob)
  {
    hide HeaderOf, HeadersIn;
    if |blob| < HEADER_SIZE then Err(AccessError)
    else
      var h := HeaderOf(blob);
      if !HeaderAccepted(h) then Err(HeaderError)
      else match ReadRange(blob, h.shoff, h.shnum * HEADER_SIZE)
        case Failed(error) => Err(error)
        case Got(_) =>
          var names := HeadersIn(blob)[h.shstrndx];
          if h.shstrndx == 0 || names.offset + names.size <= |blob| then Ok
          else if (names.offset + names.size) % TWO_64 > |blob| then Err(HeaderError)
          else Err(Undefined)
  }

  // ---------- a range that wraps around ----------

  /** A blob of one ELF header, whose header table of two entries starts 64 bytes before the end of the address space. */
  function WrappingBlob(): (blob: seq<byte>)
    ensures |blob| == HEADER_SIZE
  {
    EncodeElfHeader(ElfHeader(ELF_MAGIC, 2, 1, 1, TWO_64 - HEADER_SIZE, HEADER_SIZE, HEADER_SIZE, 2, 1))
  }

  /** All checks let it pass, and the header table is then read from outside the blob. */
  lemma WrappingBlobIsReadOutside()
    ensures |WrappingBlob()| == HEADER_SIZE && WrapsAround(HeaderOf(WrappingBlob()), HEADER_SIZE)
    ensures OutcomeOf(WrappingBlob()) == Err(Undefined)
  {
    hide EncodeElfHeader, DecodeElfHeader;
    var h := ElfHeader(ELF_MAGIC, 2, 1, 1, TWO_64 - HEADER_SIZE, HEADER_SIZE, HEADER_SIZE, 2, 1);
    ElfHeaderRoundTrip(h);
    assert WrappingBlob()[..HEADER_SIZE] == EncodeElfHeader(h);
    hide WrappingBlob, HeaderOf;
    WrappingIsUndefined(WrappingBlob());
  }

  /** The header is accepted, and the end of its table wraps around into a blob of this size. */
  predicate WrapsAround(h: ElfHeader, size: nat) {
    HeaderAccepted(h) && (h.shoff + h.shnum * HEADER_SIZE) % TWO_64 <= size < h.shoff + h.shnum * HEADER_SIZE
  }

  lemma WrappingIsUndefined(blob: seq<byte>)
    requires HEADER_SIZE <= |blob| < TWO_64 && WrapsAround(HeaderOf(blob), |blob|)
    ensures OutcomeOf(blob) == Err(Undefined)
  {
    hide HeaderOf, HeadersIn;
  }
}
