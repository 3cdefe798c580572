/** The two-phase writer: sections are collected and prepared, then streamed into the blob and emitted around it. */
module Writer {
  import opened Bytes
  import opened Errors
  import opened ElfFile
  import opened ElfCodec
  import opened Options
  import opened StringTable
  import opened SymbolTables
  import opened Regions
  import opened WriterModel
  import opened BlobLayout

  class Section {
    const kind: Kind
    const index: nat
    var name: seq<byte>
    var header: SectionHeader
    var data: seq<byte>
    var symbols: seq<NewSymbol>
    var info: u32
    var relocations: seq<NewRelocation>
    var symTab: Option<nat>
    var target: Option<nat>
    // Where the section's bytes are streamed to.
    var storage: array?<byte>
    var start: nat
    var writeOffset: nat

    function View(): WriterModel.View
      reads this
    {
      WriterModel.View(kind, name, header, data, symbols, info, relocations, symTab, target)
    }

    /** The header counts every byte of a string table that holds a string. */
    predicate Counted()
      reads this
    {
      |data| > 0 && (|data| == 1 || header.size == |data| % TWO_64)
    }

    constructor (kind: Kind, index: nat, name: seq<byte>, stype: u32, entsize: u64)
      ensures this.kind == kind && this.index == index && storage == null && writeOffset == 0
      ensures this.name == name && header == SectionHeader(0, stype, 0, 0, 0, 0, 0, 0, 4, entsize)
      ensures data == (if kind == Strings then [0] else []) && relocations == [] && symTab == None && target == None && info == 0
      ensures kind != Symbols ==> symbols == []
      ensures kind == Symbols ==> AsAdded(symbols) && |symbols| == 1 && symbols[0].Binding() == 0 && symbols[0].name == []
    {
      this.kind := kind;
      this.index := index;
      this.name := name;
      header := SectionHeader(0, stype, 0, 0, 0, 0, 0, 0, 4, entsize);
      data := if kind == Strings then [0] else [];
      symbols := if kind == Symbols then [NewSymbol([], 0, 0, None, 0, 0, 0)] else [];
      info := 0;
      relocations := [];
      symTab := None;
      target := None;
      storage := null;
      start := 0;
      writeOffset := 0;
    }

    /** Adds a symbol; the index it returns is never refreshed. */
    method AddSymbolEntry(name: seq<byte>) returns (at: nat)
      requires kind == Symbols && AsAdded(symbols)
      modifies this`symbols
      ensures at == |old(symbols)| && AsAdded(symbols)
      ensures symbols == old(symbols) + [NewSymbol(name, 0, 0, None, 0, 0, at)]
    {
      at := |symbols|;
      symbols := symbols + [NewSymbol(name, 0, 0, None, 0, 0, at)];
    }

    method AddString(s: seq<byte>) returns (at: nat)
      requires kind == Strings && Counted()
      modifies this`data, this`header
      ensures at == OffsetFor(old(data), s) && Counted()
      ensures View() == WithStrings(old(View()), Added(old(data), s))
    {
      if s == [] {
        return 0;
      }
      at := |data|;
      data := data + s + [0];
      header := header.(size := |data| % TWO_64);
    }

    /** Sorts the symbols by binding, interns their names and emits an entry for each. */
    method FinalizeSymbols(names: Section)
      requires kind == Symbols && names.kind == Strings && names.Counted() && names.index == SYMBOL_NAMES
      modifies this`data, this`header, this`symbols, names`data, names`header
      ensures View() == Finalized(old(View()), old(names.data))
      ensures names.Counted()
      ensures var sorted := StableSort(old(symbols));
        names.View() == WithStrings(old(names.View()), AllAdded(old(names.data), NamesOf(sorted), |sorted|))
    {
      hide EncodeSymbol, StableSort, RelocationTable, WithInfoLink, SymbolTable, AllAdded, NamesOf;
      symbols := StableSort(symbols);
      header := header.(info := info, link := names.index);
      EmitSymbols(names);
      header := header.(size := |data| % TWO_64);
    }

    method EmitSymbols(names: Section)
      requires kind == Symbols && names.kind == Strings && names.Counted()
      modifies this`data, names`data, names`header
      ensures data == old(data) + SymbolTable(symbols, old(names.data), |symbols|)
      ensures names.Counted()
      ensures names.View() == WithStrings(old(names.View()), AllAdded(old(names.data), NamesOf(symbols), |symbols|))
    {
      hide EncodeSymbol, EntryOf, Added;
      ghost var before := names.data;
      for k := 0 to |symbols|
        invariant names.Counted()
        invariant names.View() == WithStrings(old(names.View()), AllAdded(before, NamesOf(symbols), k))
        invariant data == old(data) + SymbolTable(symbols, before, k)
      {
        EmitSymbol(names, before, k);
      }
    }

    method EmitSymbol(names: Section, ghost before: seq<byte>, k: nat)
      requires kind == Symbols && names.kind == Strings && names.Counted() && k < |symbols|
      requires names.data == AllAdded(before, NamesOf(symbols), k)
      modifies this`data, names`data, names`header
      ensures data == old(data) + EncodeSymbol(EntryOf(symbols, before, k)) && names.Counted()
      ensures names.data == AllAdded(before, NamesOf(symbols), k + 1)
      ensures names.View() == WithStrings(old(names.View()), names.data) && |names.data| >= |old(names.data)|
    {
      hide EncodeSymbol;
      var s := symbols[k];
      var at := names.AddString(s.name);
      var shndx := if s.related.Some? then s.related.value % TWO_16 else 0;
      data := data + EncodeSymbol(SymbolEntry(at % TWO_32, s.info, s.other, shndx, s.value, s.size));
    }

    /** Sets the links to symbol table and target, and emits an entry for each relocation. */
    method FinalizeRelocations()
      requires kind == Relocs && target.Some?
      modifies this`header, this`data
      ensures View() == Finalized(old(View()), [])
    {
      hide EncodeRela, RelocationOf, WithInfoLink, StableSort, SymbolTable;
      header := header.(info := target.value % TWO_32, flags := WithInfoLink(header.flags));
      if symTab.Some? {
        header := header.(link := symTab.value % TWO_32);
      }
      for k := 0 to |relocations|
        invariant data == old(data) + RelocationTable(relocations, k)
        invariant header == old(header).(info := target.value % TWO_32, flags := WithInfoLink(old(header).flags),
                                         link := if symTab.Some? then symTab.value % TWO_32 else old(header).link)
      {
        var entry := EntryFor(relocations[k]);
        data := data + EncodeRela(entry);
      }
      header := header.(size := |data| % TWO_64);
    }

    method Finalize(names: Section)
      requires names.kind == Strings && names.Counted() && names.index == SYMBOL_NAMES
      requires kind == Relocs ==> target.Some?
      modifies this`data, this`header, this`symbols, names`data, names`header
      ensures kind == Strings ==> View() == old(View())
      ensures kind != Strings ==> View() == Finalized(old(View()), old(names.data))
      ensures names.Counted()
      ensures var sorted := StableSort(old(symbols));
        names.View() == if kind == Symbols then WithStrings(old(names.View()), AllAdded(old(names.data), NamesOf(sorted), |sorted|))
                        else old(names.View())
    {
      if kind == Symbols {
        FinalizeSymbols(names);
      } else if kind == Relocs {
        FinalizeRelocations();
      }
    }

    method SetNameOffset(offset: nat)
      modifies this`header
      ensures View() == Named(old(View()), offset)
    {
      header := header.(name := offset % TWO_32);
    }

    /** Streams bytes to the section's place in the blob, behind those streamed before. */
    method AppendData(bytes: seq<byte>) returns (status: Status)
      requires kind == Binary
      requires storage != null ==> start + header.size <= storage.Length
      modifies this`writeOffset, storage
      ensures status == if storage == null || old(writeOffset) + |bytes| > header.size then Err(RuntimeError) else Ok
      ensures status.Ok? ==> writeOffset == old(writeOffset) + |bytes|
      ensures status.Ok? ==> storage[..] == Splice(old(storage[..]), start + old(writeOffset), bytes)
      ensures status.Err? ==> writeOffset == old(writeOffset) && (storage != null ==> storage[..] == old(storage[..]))
    {
      if storage == null || writeOffset + |bytes| > header.size {
        return Err(RuntimeError);
      }
      CopyInto(storage, start + writeOffset, bytes);
      writeOffset := writeOffset + |bytes|;
      return Ok;
    }
  }

  /** An entry keeps its special symbol unless the relocation names a symbol. */
  method EntryFor(r: NewRelocation) returns (entry: RelaEntry)
    ensures entry == RelocationOf(r)
  {
    RInfoRoundTrip(r.special, r.rtype);
    entry := RelaEntry(r.offset, RInfo(r.special, r.rtype), r.addend);
    if r.symbol.Some? {
      entry := entry.(info := RInfo(r.symbol.value % TWO_32, RType(entry.info)));
    }
  }

  method CopyInto(storage: array<byte>, at: nat, bytes: seq<byte>)
    requires at + |bytes| <= storage.Length
    modifies storage
    ensures storage[..] == Splice(old(storage[..]), at, bytes)
  {
    hide Splice;
    NoBytes(storage[..], at);
    for k := 0 to |bytes|
      invariant storage[..] == Splice(old(storage[..]), at, bytes[..k])
    {
      OneMoreByte(old(storage[..]), at, bytes, k);
      storage[at + k] := bytes[k];
    }
    assert bytes[..|bytes|] == bytes;
  }

  /** Writes bytes into the blob; a write that starts or ends behind its end throws. */
  method WriteRawBytes(storage: array<byte>, size: nat, at: nat, bytes: seq<byte>) returns (status: Status)
    requires size <= storage.Length
    modifies storage
    ensures status == if at < size && at + |bytes| <= size then Ok else Err(RuntimeError)
    ensures storage[..] == if status.Ok? then Splice(old(storage[..]), at, bytes) else old(storage[..])
  {
    if at >= size || at + |bytes| > size {
      return Err(RuntimeError);
    }
    CopyInto(storage, at, bytes);
    return Ok;
  }

  ghost function ViewsOf(ss: seq<Section>): (vs: seq<WriterModel.View>)
    reads ss
    ensures |vs| == |ss|
  {
    seq(|ss|, i requires 0 <= i < |ss| reads ss => ss[i].View())
  }

  lemma HeadersCollected(ss: seq<Section>, hs: seq<SectionHeader>)
    requires |hs| == |ss| && forall j :: 0 <= j < |ss| ==> hs[j] == ss[j].header
    ensures hs == HeadersOf(ViewsOf(ss))
  {}

  lemma FirstViews(none: Section, names: Section, symbolNames: Section)
    requires none.View() == NewView(NullKind, [], SHT_NULL)
    requires names.View() == NewView(Strings, STRTAB, SHT_STRTAB)
    requires symbolNames.View() == NewView(Strings, SYMSTRTAB, SHT_STRTAB)
    ensures ViewsOf([none, names, symbolNames]) == FirstSections()
  {
    hide NewView;
  }

  class Writer {
    var sections: seq<Section>
    var elfHeader: ElfHeader
    var totalBinarySize: nat
    var sectionHeaders: seq<SectionHeader>

    /** The null section and the two string tables come first, and every section knows its own index. */
    ghost predicate Valid()
      reads this`sections, sections
    {
      |sections| >= 3
      && (forall i :: 0 <= i < |sections| ==> sections[i].index == i)
      && sections[SECTION_NAMES].kind == Strings && sections[SECTION_NAMES].Counted()
      && sections[SYMBOL_NAMES].kind == Strings && sections[SYMBOL_NAMES].Counted()
    }

    /** No section has a place to stream to yet. */
    ghost predicate NotStreamed()
      reads this`sections, sections
    {
      forall i :: 0 <= i < |sections| ==> sections[i].storage == null && sections[i].writeOffset == 0
    }

    /** Headers and places are fixed. */
    ghost predicate IsPrepared()
      reads this, sections
    {
      Valid() && |sections| < 0xffff && elfHeader == HeaderFor(|sections|) && sectionHeaders == HeadersOf(Views())
      && Ready(Views(), totalBinarySize)
    }

    ghost function Views(): (vs: seq<WriterModel.View>)
      reads this`sections, sections
      ensures |vs| == |sections|
    {
      ViewsOf(sections)
    }

    constructor ()
      ensures Valid() && fresh(sections) && NotStreamed() && Views() == FirstSections()
      ensures Fresh(Views()) && FitsFields(Views())
      ensures totalBinarySize == 0 && elfHeader.magic != ELF_MAGIC
    {
      hide Fresh, FitsFields;
      var none := new Section(NullKind, 0, [], SHT_NULL, 0);
      var names := new Section(Strings, SECTION_NAMES, STRTAB, SHT_STRTAB, 0);
      var symbolNames := new Section(Strings, SYMBOL_NAMES, SYMSTRTAB, SHT_STRTAB, 0);
      sections := [none, names, symbolNames];
      elfHeader := ElfHeader(0, 0, 0, 0, 0, 0, 0, 0, 0);
      totalBinarySize := 0;
      sectionHeaders := [];
      new;
      FirstViews(none, names, symbolNames);
      NewWriterFits();
    }

    /** Adds a section of a client's kind behind the others. */
    method AddSection(kind: Kind, name: seq<byte>, stype: u32, entsize: u64) returns (s: Section)
      requires Valid() && kind != NullKind && kind != Strings
      modifies this`sections
      ensures Valid() && fresh(s) && sections == old(sections) + [s]
      ensures s.kind == kind && s.name == name && s.header == SectionHeader(0, stype, 0, 0, 0, 0, 0, 0, 4, entsize)
      ensures Views() == old(Views()) + [s.View()]
      ensures old(Fresh(Views())) && kind != Relocs ==> Fresh(Views())
      ensures old(NotStreamed()) ==> NotStreamed()
    {
      hide Fresh;
      ghost var vs := Views();
      s := new Section(kind, |sections|, name, stype, entsize);
      sections := sections + [s];
      assert Views() == vs + [s.View()];
      if Fresh(vs) && kind != Relocs { FreshGrows(vs, s.View()); }
    }

    /** Finalizes and names every section. */
    method FinalizeSections()
      requires Valid() && Fresh(Views())
      modifies sections`data, sections`header, sections`symbols
      ensures Valid() && Views() == AllAfter(old(Views()))
    {
      hide After, Fresh;
      ghost var vs := Views();
      AfterNone(vs);
      for k := 0 to |sections|
        invariant Valid()
        invariant forall j :: 0 <= j < |vs| ==> sections[j].View() == After(vs, k, j)
      {
        FinalizeSection(k, vs);
      }
      assert Views() == AllAfter(vs);
    }

    method FinalizeSection(k: nat, ghost vs: seq<WriterModel.View>)
      requires Valid() && Fresh(vs) && |vs| == |sections| && k < |vs|
      requires forall j :: 0 <= j < |vs| ==> sections[j].View() == After(vs, k, j)
      modifies sections`data, sections`header, sections`symbols
      ensures Valid()
      ensures forall j :: 0 <= j < |vs| ==> sections[j].View() == After(vs, k + 1, j)
    {
      hide After, Finalized, Fresh, StrTab, SymStr, WithStrings, Added, AllAdded, StableSort, OffsetFor;
      AfterOneMore(vs, k, k);
      StringsOneMore(vs, k);
      SymbolNamesOneMore(vs, k);
      var s := sections[k];
      s.Finalize(sections[SYMBOL_NAMES]);
      var at := sections[SECTION_NAMES].AddString(s.name);
      s.SetNameOffset(at);
      forall j | 0 <= j < |vs| ensures sections[j].View() == After(vs, k + 1, j) {
        AfterOneMore(vs, k, j);
      }
    }

    /** The first k sections have their places. */
    ghost predicate LaidOutSoFar(ws: seq<WriterModel.View>, k: nat)
      reads this`sections, this`totalBinarySize, this`sectionHeaders, sections
    {
      k <= |ws| == |sections| && totalBinarySize == End(ws, k) && |sectionHeaders| == k
      && (forall j :: 0 <= j < |ws| ==> sections[j].View() == if j < k then LaidOut(ws, j) else ws[j])
      && (forall j :: 0 <= j < k ==> sectionHeaders[j] == sections[j].header)
    }

    /** Gives every section that carries bytes its aligned place, and adds up the size of the blob. */
    method LayOutSections()
      requires Valid() && |sections| < 0xffff && End(Views(), |sections|) < TWO_64 && NoOverflow(Views())
      modifies this`totalBinarySize, this`sectionHeaders, sections`header
      ensures Valid() && totalBinarySize == End(old(Views()), |sections|)
      ensures forall i :: 0 <= i < |sections| ==> sections[i].View() == LaidOut(old(Views()), i)
      ensures sectionHeaders == HeadersOf(Views())
    {
      hide AlignUp, AlignUp64, End, LaidOut, HeadersOf;
      ghost var ws := Views();
      totalBinarySize := DataStart(|sections|);
      sectionHeaders := [];
      NothingPlaced(ws);
      assert LaidOutSoFar(ws, 0);
      hide LaidOutSoFar, Writer.Valid;
      for k := 0 to |sections|
        invariant Valid() && LaidOutSoFar(ws, k)
      {
        LayOutNext(k, ws);
      }
      AllLaidOut(ws);
      HeadersCollected(sections, sectionHeaders);
    }

    lemma AllLaidOut(ws: seq<WriterModel.View>)
      requires LaidOutSoFar(ws, |sections|)
      ensures totalBinarySize == End(ws, |sections|) && |sectionHeaders| == |sections| == |ws|
      ensures forall j :: 0 <= j < |sections| ==> sections[j].View() == LaidOut(ws, j) && sectionHeaders[j] == sections[j].header
    {}

    method LayOutNext(k: nat, ghost ws: seq<WriterModel.View>)
      requires Valid() && LaidOutSoFar(ws, k) && k < |ws| && End(ws, |ws|) < TWO_64 && NoOverflow(ws)
      modifies this`totalBinarySize, this`sectionHeaders, sections`header
      ensures Valid() && LaidOutSoFar(ws, k + 1)
    {
      hide LaidOut, End;
      LayOutSection(sections[k], k, ws);
    }

    method LayOutSection(s: Section, ghost k: nat, ghost ws: seq<WriterModel.View>)
      requires k < |ws| && End(ws, |ws|) < TWO_64 && totalBinarySize == End(ws, k) && s.View() == ws[k]
      requires End(ws, k) + ws[k].header.addralign <= TWO_64
      modifies this`totalBinarySize, this`sectionHeaders, s`header
      ensures totalBinarySize == End(ws, k + 1) && s.View() == LaidOut(ws, k) && s.header.size == old(s.header.size)
      ensures sectionHeaders == old(sectionHeaders) + [s.header]
    {
      hide AlignUp, AlignUp64;
      EndGrows(ws, k, |ws|);
      AlignUpFits(totalBinarySize, s.header.addralign);
      totalBinarySize := AlignUp64(totalBinarySize, s.header.addralign);
      if s.kind != Empty && s.header.size != 0 {
        s.header := s.header.(offset := totalBinarySize);
        totalBinarySize := totalBinarySize + s.header.size;
      }
      sectionHeaders := sectionHeaders + [s.header];
    }

    /** Fixes every header and place; from here on the blob's size is known. */
    method PrepareWriter()
      requires Valid() && Fresh(Views()) && FitsFields(Views())
      modifies this`elfHeader, this`totalBinarySize, this`sectionHeaders
      modifies sections`data, sections`header, sections`symbols
      ensures Valid()
      ensures Views() == Prepared(old(Views())) && totalBinarySize == TotalSize(old(Views()))
      ensures IsPrepared()
    {
      hide Fresh, FitsFields, After, Ready, End, LaidOut, NoOverflow;
      ghost var vs := Views();
      PreparedIsReady(vs);
      EnoughFields(vs);
      elfHeader := HeaderFor(|sections|);
      FinalizeSections();
      LayOutSections();
      assert Views() == Prepared(vs);
    }

    /** Tells every section where its bytes go. */
    method SetSectionsStartAddr(blob: array?<byte>) returns (status: Status)
      requires Valid()
      modifies sections`storage, sections`start
      ensures Valid() && Views() == old(Views())
      ensures status == if blob == null then Err(ArgsError) else Ok
      ensures status.Ok? ==> forall i :: 0 <= i < |sections| ==>
        sections[i].storage == blob && sections[i].start == sections[i].header.offset
    {
      if blob == null {
        return Err(ArgsError);
      }
      for k := 0 to |sections|
        invariant forall j :: 0 <= j < k ==> sections[j].storage == blob && sections[j].start == sections[j].header.offset
      {
        sections[k].storage := blob;
        sections[k].start := sections[k].header.offset;
      }
      return Ok;
    }

    /** Emits tables and headers into the blob; after preparation this never throws. */
    method GenerateELF(data: array?<byte>) returns (status: Status)
      requires Valid() && (elfHeader.magic == ELF_MAGIC ==> IsPrepared())
      requires data != null && elfHeader.magic == ELF_MAGIC ==> data.Length == totalBinarySize
      modifies data
      ensures status == if data == null then Err(ArgsError) else if elfHeader.magic != ELF_MAGIC then Err(ImplausibleState) else Ok
      ensures status.Ok? ==> data[..] == Generated(Views(), old(data[..]))
      ensures status.Err? && data != null ==> data[..] == old(data[..])
    {
      hide Ready, EncodeElfHeader, EncodeHeaders, Splice, HeadersOf, Places;
      if data == null {
        return Err(ArgsError);
      }
      if elfHeader.magic != ELF_MAGIC {
        return Err(ImplausibleState);
      }
      ghost var ps, blob := Views(), data[..];
      BlobIsLargeEnough(ps, totalBinarySize);
      if totalBinarySize == 0 {
        return Err(RangeError);
      }
      status := Ok;
      var k := 0;
      while k < |sections| && status.Ok?
        invariant k <= |sections| && status.Ok? && data[..] == TablesWritten(ps, blob, k)
      {
        if sections[k].data != [] {
          WritesFit(ps, totalBinarySize, k);
          status := WriteRawBytes(data, totalBinarySize, sections[k].header.offset, sections[k].data);
        }
        k := k + 1;
      }
      if status.Ok? {
        status := WriteRawBytes(data, totalBinarySize, 0, EncodeElfHeader(elfHeader));
      }
      if status.Ok? {
        status := WriteRawBytes(data, totalBinarySize, HEADER_SIZE, EncodeHeaders(sectionHeaders));
      }
    }
  }

  // ---------- the objects and the stream model ----------

  /** The sections stream into this blob, and their cursors and its bytes are those of the stream. */
  ghost predicate Streams(sections: seq<Section>, blob: array<byte>, s: Stream)
    reads sections, blob
  {
    blob[..] == s.blob && |s.appended| == |sections|
    && (forall i :: 0 <= i < |sections| ==>
         sections[i].storage == blob && sections[i].start == sections[i].header.offset
         && sections[i].writeOffset == |s.appended[i]|)
  }

  /** A prepared writer whose sections were told where their bytes go streams into whatever the blob holds. */
  lemma StreamingStarts(sections: seq<Section>, blob: array<byte>)
    requires forall i :: 0 <= i < |sections| ==> sections[i].storage == blob && sections[i].writeOffset == 0
    requires forall i :: 0 <= i < |sections| ==> sections[i].start == sections[i].header.offset
    ensures Streams(sections, blob, Started(ViewsOf(sections), blob[..]))
  {}

  /** One append to a section of a prepared writer is one step of the stream model, whether it fits or throws. */
  method AppendTo(w: Writer, blob: array<byte>, i: nat, bytes: seq<byte>, ghost s: Stream) returns (status: Status)
    requires w.IsPrepared() && blob.Length == w.totalBinarySize && Streams(w.sections, blob, s)
    requires i < |w.sections| && w.sections[i].kind == Binary
    modifies w.sections`writeOffset, blob
    ensures w.IsPrepared() && w.Views() == old(w.Views())
    ensures status == if CanAppend(w.Views(), s, i, bytes) then Ok else Err(RuntimeError)
    ensures Streams(w.sections, blob, Written(w.Views(), s, Append(i, bytes)))
  {
    hide Ready, Splice, HeaderFor, HeadersOf;
    ghost var ps := w.Views();
    SectionInside(ps, blob.Length, i);
    if CanAppend(ps, s, i, bytes) {
      AppendedBytes(ps, s, i, bytes);
    }
    status := w.sections[i].AppendData(bytes);
    assert w.Views() == ps;
  }

  /** Emitting is one step of the stream model, and does not throw. */
  method EmitTo(w: Writer, blob: array<byte>, ghost s: Stream) returns (status: Status)
    requires w.IsPrepared() && blob.Length == w.totalBinarySize && Streams(w.sections, blob, s)
    modifies blob
    ensures w.IsPrepared() && w.Views() == old(w.Views()) && status == Ok
    ensures Streams(w.sections, blob, Written(w.Views(), s, Emit))
  {
    hide Ready, HeadersOf, Generated;
    status := w.GenerateELF(blob);
  }

  /** From here on the sections stream into this blob, whatever it holds. */
  method StartStreams(w: Writer, blob: array<byte>)
    requires w.IsPrepared() && w.NotStreamed()
    modifies w.sections`storage, w.sections`start
    ensures w.IsPrepared() && w.Views() == old(w.Views())
    ensures Streams(w.sections, blob, Started(w.Views(), blob[..]))
  {
    hide Ready, HeadersOf, HeaderFor;
    var status := w.SetSectionsStartAddr(blob);
    StreamingStarts(w.sections, blob);
  }

  method Perform(w: Writer, blob: array<byte>, e: Write, ghost s: Stream) returns (status: Status)
    requires w.IsPrepared() && blob.Length == w.totalBinarySize && Streams(w.sections, blob, s)
    requires e.Append? ==> e.section < |w.sections| && w.sections[e.section].kind == Binary
    modifies w.sections`writeOffset, blob
    ensures w.IsPrepared() && w.Views() == old(w.Views())
    ensures status == if e == Emit || CanAppend(w.Views(), s, e.section, e.bytes) then Ok else Err(RuntimeError)
    ensures Streams(w.sections, blob, Written(w.Views(), s, e))
  {
    hide Ready, HeadersOf, HeaderFor, Written, CanAppend, Streams;
    match e
    case Append(i, bytes) => status := AppendTo(w, blob, i, bytes, s);
    case Emit => status := EmitTo(w, blob, s);
  }

  /** A whole run of a prepared writer, appends that throw included, leaves the blob that the stream model says. */
  method Run(w: Writer, blob: array<byte>, writes: seq<Write>)
    requires w.IsPrepared() && w.NotStreamed() && blob.Length == w.totalBinarySize
    requires forall k :: 0 <= k < |writes| && writes[k].Append? ==>
      writes[k].section < |w.sections| && w.sections[writes[k].section].kind == Binary
    modifies w.sections`storage, w.sections`start, w.sections`writeOffset, blob
    ensures w.IsPrepared() && w.Views() == old(w.Views())
    ensures blob[..] == AllWritten(w.Views(), Started(w.Views(), old(blob[..])), writes).blob
  {
    hide Ready, HeadersOf, Written, Started, AllWritten, HeaderFor, Writer.Valid, Writer.NotStreamed;
    ghost var ps, initial := w.Views(), blob[..];
    StartStreams(w, blob);
    assert writes[..0] == [];
    NothingWritten(ps, Started(ps, initial));
    ghost var s := Started(ps, initial);
    for k := 0 to |writes|
      invariant w.IsPrepared() && w.Views() == ps
      invariant s == AllWritten(ps, Started(ps, initial), writes[..k]) && Streams(w.sections, blob, s)
    {
      OneWritten(ps, Started(ps, initial), writes, k);
      var status := Perform(w, blob, writes[k], s);
      s := Written(ps, s, writes[k]);
    }
    assert writes[..|writes|] == writes;
  }
}
