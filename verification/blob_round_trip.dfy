/** The reader undoes the writer. */
module BlobRoundTrip {
  import opened Bytes
  import opened Errors
  import opened ElfFile
  import opened ElfCodec
  import opened Options
  import opened StringTable
  import opened SymbolTables
  import opened Regions
  import opened WriterModel
  import opened BlobLayout
  import opened BlobReader

  lemma {:induction false} HeadersRoundTrip(hs: seq<SectionHeader>)
    ensures DecodeHeaders(EncodeHeaders(hs), |hs|) == hs
  {
    hide EncodeSectionHeader, DecodeSectionHeader;
    if hs != [] {
      var front, last := hs[..|hs| - 1], hs[|hs| - 1];
      var rest := |front| * HEADER_SIZE;
      assert EncodeHeaders(hs)[..rest] == EncodeHeaders(front);
      assert EncodeHeaders(hs)[rest..] == EncodeSectionHeader(last);
      HeadersRoundTrip(front);
      SectionHeaderRoundTrip(last);
    }
  }

  /** A blob with everything emitted, as the runs of the writer leave it. */
  ghost predicate Complete(ps: seq<View>, initial: seq<byte>, s: Stream) {
    Holds(ps, initial, s) && s.generated
    && forall i :: 0 <= i < |ps| && ps[i].kind == Binary ==> |s.appended[i]| == ps[i].header.size
  }

  lemma TablesAreRead(ps: seq<View>, initial: seq<byte>, s: Stream)
    requires Complete(ps, initial, s)
    ensures TableInside(s.blob) && HeaderOf(s.blob) == HeaderFor(|ps|) && HeadersIn(s.blob) == HeadersOf(ps)
  {
    hide Outside, ProperlyFilled, EncodeElfHeader, DecodeElfHeader, EncodeHeaders, DecodeHeaders, HeadersOf, HeadersIn;
    PlacesFit(ps, |initial|);
    BlobIsLargeEnough(ps, |initial|);
    assert Part(s.blob, Places(ps)[0]) == Expected(ps, initial, s, 0);
    assert s.blob[..DataStart(|ps|)] == HeaderTable(ps);
    var header, table := EncodeElfHeader(HeaderFor(|ps|)), EncodeHeaders(HeadersOf(ps));
    FrontAndBack(s.blob, header, table);
    ElfHeaderRoundTrip(HeaderFor(|ps|));
    HeadersRoundTrip(HeadersOf(ps));
    assert HeadersIn(s.blob) == DecodeHeaders(table, |ps|) by { HeadersFrom(s.blob, table, |ps|); }
  }

  lemma FrontAndBack(blob: seq<byte>, a: seq<byte>, b: seq<byte>)
    requires |a| + |b| <= |blob| && blob[..|a| + |b|] == a + b
    ensures blob[..|a|] == a && blob[|a|..|a| + |b|] == b
  {
    assert blob[..|a|] == blob[..|a| + |b|][..|a|];
    assert blob[|a|..|a| + |b|] == blob[..|a| + |b|][|a|..];
  }

  lemma HeadersFrom(blob: seq<byte>, table: seq<byte>, n: nat)
    requires TableInside(blob) && HeaderOf(blob).shoff == HEADER_SIZE && HeaderOf(blob).shnum == n
    requires |table| == n * HEADER_SIZE && blob[HEADER_SIZE..HEADER_SIZE + |table|] == table
    ensures HeadersIn(blob) == DecodeHeaders(table, n)
  {
    hide DecodeHeaders, HeaderOf;
  }

  /** Every section's bytes come back: what its client appended, or the table that was emitted. */
  lemma BytesAreRead(ps: seq<View>, initial: seq<byte>, s: Stream, i: nat)
    requires Complete(ps, initial, s) && i < |ps| && ps[i].kind != Empty && ps[i].header.HasMemoryFootprint()
    requires ps[i].header.size == 0 ==> ps[i].header.offset == 0
    ensures DataIn(s.blob, ps[i].header)
      == Bytes(if !Occupies(ps[i]) then [] else if ps[i].kind == Binary then s.appended[i] else ps[i].data)
  {
    hide Outside, Ready, HeaderTable, ProperlyFilled, Places, SectionHeader.HasMemoryFootprint;
    PlacesFit(ps, |initial|);
    ReadyTotal(ps, |initial|);
    assert Part(s.blob, Places(ps)[i + 1]) == Expected(ps, initial, s, i + 1);
  }

  lemma ReadyTotal(ps: seq<View>, total: nat)
    requires Ready(ps, total)
    ensures total < TWO_64
  {}

  // ---------- what preparing keeps and sets ----------

  /** The fields a client set are the fields that come back; for tables, preparing fills in the rest. */
  predicate KeepsClientFields(v: View, p: View) {
    var was, now := v.header, p.header;
    now.stype == was.stype && now.addr == was.addr && now.addralign == was.addralign && now.entsize == was.entsize
    && p.kind == v.kind && p.name == v.name
    && (v.kind == Binary || v.kind == Empty ==>
         now.size == was.size && now.flags == was.flags && now.link == was.link && now.info == was.info)
    && (v.kind == Empty || now.size == 0 ==> now.offset == 0)
    && (v.kind == Relocs ==> now.flags / SHF_INFO_LINK % 2 == 1)
  }

  lemma HeaderKept(vs: seq<View>, i: nat)
    requires Fresh(vs) && FitsFields(vs) && i < |vs|
    ensures KeepsClientFields(vs[i], Prepared(vs)[i])
  {
    hide SymbolTable, RelocationTable, StableSort, NamesOf, SectionNames, StrTab, SymStr, End, TotalSize, OffsetFor, Start;
  }

  lemma SymbolsSet(vs: seq<View>, i: nat)
    requires Fresh(vs) && FitsFields(vs) && i < |vs| && vs[i].kind == Symbols
    ensures var now := Prepared(vs)[i];
      now.header.link == SYMBOL_NAMES && now.header.size == |vs[i].symbols| * ENTRY_SIZE && Occupies(now)
      && now.data == SymbolTable(StableSort(vs[i].symbols), SymStr(vs, i), |vs[i].symbols|)
  {
    hide SymbolTable, RelocationTable, StableSort, NamesOf, SectionNames, StrTab, SymStr, End, TotalSize, OffsetFor, Start;
    FinalSize(vs, i);
    assert vs[i].symbols != [] && vs[i].data == [];
  }

  lemma RelocationsSet(vs: seq<View>, i: nat)
    requires Fresh(vs) && FitsFields(vs) && i < |vs| && vs[i].kind == Relocs
    ensures var now := Prepared(vs)[i];
      now.header.info == vs[i].target.value % TWO_32 && now.header.size == |vs[i].relocations| * ENTRY_SIZE
      && (vs[i].symTab.Some? ==> now.header.link == vs[i].symTab.value % TWO_32)
      && now.data == RelocationTable(vs[i].relocations, |vs[i].relocations|)
  {
    hide SymbolTable, RelocationTable, StableSort, NamesOf, SectionNames, StrTab, SymStr, End, TotalSize, OffsetFor, Start;
    FinalSize(vs, i);
    assert vs[i].data == [];
  }

  lemma StringsSet(vs: seq<View>, i: nat)
    requires Fresh(vs) && FitsFields(vs) && i < |vs|
    ensures i == SECTION_NAMES ==> Prepared(vs)[i].data == StrTab(vs, |vs|)
    ensures i == SYMBOL_NAMES ==> Prepared(vs)[i].data == SymStr(vs, |vs|)
  {
    hide Finalized, Named, Fresh, StrTab, SymStr, End, TotalSize, OffsetFor, Start, FitsFields, Occupies;
  }

  // ---------- names ----------

  lemma StringTableOccupies(vs: seq<View>)
    requires Fresh(vs) && FitsFields(vs)
    ensures Occupies(Prepared(vs)[SECTION_NAMES])
  {
    hide LaidOut, Finalized, Added;
    StringTableHasNames(vs);
    FinalSize(vs, SECTION_NAMES);
    PlacedFilled(vs, SECTION_NAMES);
  }

  lemma StringTableHasNames(vs: seq<View>)
    requires Fresh(vs)
    ensures |StrTab(vs, |vs|)| > 1 && After(vs, |vs|, SECTION_NAMES).data == StrTab(vs, |vs|)
  {
    EarlierStringsStay([0], SectionNames(vs), 2, |vs|);
    assert StrTab(vs, 2) == Added(StrTab(vs, 1), vs[1].name);
  }

  lemma ParseSucceeds(blob: seq<byte>, h: ElfHeader, hs: seq<SectionHeader>, names: seq<byte>)
    requires |blob| < TWO_64 && TableInside(blob) && HeaderOf(blob) == h && HeadersIn(blob) == hs
    requires HeaderAccepted(h) && h.shstrndx != 0 && DataIn(blob, hs[h.shstrndx]) == Bytes(names)
    ensures OutcomeOf(blob) == Ok && IsParseOf(blob, h, hs, names)
  {
    hide HeaderOf, HeadersIn;
  }

  lemma NamesAreRead(vs: seq<View>, initial: seq<byte>, s: Stream)
    requires Fresh(vs) && FitsFields(vs) && Complete(Prepared(vs), initial, s)
    ensures |s.blob| < TWO_64 && OutcomeOf(s.blob) == Ok
    ensures IsParseOf(s.blob, HeaderFor(|vs|), HeadersOf(Prepared(vs)), StrTab(vs, |vs|))
  {
    hide FitsFields, Prepared, HeaderOf, HeadersIn, DataIn, StrTab, Ready, Holds, LaidOut, Occupies, OutcomeOf, IsParseOf, Expected;
    var ps := Prepared(vs);
    TablesAreRead(ps, initial, s);
    CompleteIsReady(ps, initial, s);
    StringTableOccupies(vs);
    HeaderKept(vs, SECTION_NAMES);
    StringsSet(vs, SECTION_NAMES);
    BytesAreRead(ps, initial, s, SECTION_NAMES);
    ParseSucceeds(s.blob, HeaderFor(|vs|), HeadersOf(ps), StrTab(vs, |vs|));
  }

  lemma CompleteIsReady(ps: seq<View>, initial: seq<byte>, s: Stream)
    requires Complete(ps, initial, s)
    ensures Ready(ps, |initial|) && |s.blob| == |initial| < TWO_64 && |ps| < 0xffff
  {}

  lemma NameIsFound(vs: seq<View>, i: nat)
    requires Fresh(vs) && FitsFields(vs) && i < |vs|
    ensures CString(StrTab(vs, |vs|), Prepared(vs)[i].header.name) == Some(vs[i].name) <==> NoNul(vs[i].name)
  {
    hide CString, AllAdded, Prepared, OffsetFor, NoNul, Fresh, FitsFields, Stands;
    var names := SectionNames(vs);
    NameSet(vs, i);
    EveryStringIsRead([0], names, i, |vs|);
    EarlierStringsStay([0], names, i, |vs|);
    OffsetInside(StrTab(vs, i), vs[i].name);
  }

  lemma NameSet(vs: seq<View>, i: nat)
    requires Fresh(vs) && FitsFields(vs) && i < |vs|
    ensures Prepared(vs)[i].header.name == OffsetFor(StrTab(vs, i), vs[i].name) % TWO_32 && |StrTab(vs, |vs|)| < TWO_32
  {
    hide StrTab, SymStr, OffsetFor, Finalized, End, TotalSize, Fresh, Occupies, Start;
  }

  lemma OffsetInside(data: seq<byte>, name: seq<byte>)
    ensures OffsetFor(data, name) <= |data|
  {}

  // ---------- the round trip ----------

  /** The client filled every binary section, in any interleaving, and had headers and tables emitted at some point. */
  predicate Filled(ps: seq<View>, writes: seq<Write>) {
    Fitting(ps, writes) && Emit in writes
    && forall i :: 0 <= i < |ps| && ps[i].kind == Binary ==> |OwnBytes(writes, i)| == ps[i].header.size
  }

  function FinalBlob(ps: seq<View>, initial: seq<byte>, writes: seq<Write>): (blob: seq<byte>)
    requires Ready(ps, |initial|)
    ensures |blob| == |initial|
  {
    AllWritten(ps, Started(ps, initial), writes).blob
  }

  lemma FilledIsComplete(ps: seq<View>, initial: seq<byte>, writes: seq<Write>)
    requires Ready(ps, |initial|) && Filled(ps, writes)
    ensures var s := AllWritten(ps, Started(ps, initial), writes);
      Complete(ps, initial, s) && forall i :: 0 <= i < |ps| ==> s.appended[i] == OwnBytes(writes, i)
  {
    hide AllWritten, Started, Ready, Fitting, OwnBytes, Holds;
    RunHolds(ps, initial, writes);
    OwnBytesArrive(ps, initial, writes);
  }

  /** What the reader gets for section i: the prepared header, in which the client's fields are kept, the name, and the
      bytes that the client appended or that were emitted for the section. */
  predicate ComesBack(vs: seq<View>, writes: seq<Write>, i: nat, got: SectionHeader, name: Option<seq<byte>>, data: Data)
    requires Fresh(vs) && i < |vs|
  {
    var p := Prepared(vs)[i];
    got == p.header && KeepsClientFields(vs[i], p) && (name == Some(vs[i].name) <==> NoNul(vs[i].name))
    && BytesComeBack(p, OwnBytes(writes, i), data)
  }

  predicate BytesComeBack(p: View, appended: seq<byte>, data: Data) {
    (!p.header.HasMemoryFootprint() ==> data == NoData)
    && (p.header.HasMemoryFootprint() && p.kind != Empty ==>
         data == Bytes(if !Occupies(p) then [] else if p.kind == Binary then appended else p.data))
  }

  lemma SectionIsRead(vs: seq<View>, initial: seq<byte>, s: Stream, writes: seq<Write>, i: nat)
    requires Fresh(vs) && FitsFields(vs) && Complete(Prepared(vs), initial, s) && i < |vs|
    requires s.appended[i] == OwnBytes(writes, i)
    ensures |s.blob| < TWO_64
    ensures BytesComeBack(Prepared(vs)[i], OwnBytes(writes, i), DataIn(s.blob, Prepared(vs)[i].header))
  {
    hide Fresh, FitsFields, Prepared, LaidOut, Holds, Ready, OwnBytes, ReadRange;
    var ps := Prepared(vs);
    CompleteIsReady(ps, initial, s);
    HeaderKept(vs, i);
    if ps[i].kind != Empty && ps[i].header.HasMemoryFootprint() {
      BytesAreRead(ps, initial, s, i);
    }
  }

  /** The round trip: whatever the blob's memory held before and in whatever order it was filled, parsing it succeeds
      and finds as many sections, and each with its name, its header and its bytes at its index. */
  lemma RoundTrip(vs: seq<View>, initial: seq<byte>, writes: seq<Write>, i: nat)
    requires Fresh(vs) && FitsFields(vs) && |initial| == TotalSize(vs) && Filled(Prepared(vs), writes) && i < |vs|
    ensures Ready(Prepared(vs), |initial|)
    ensures var blob := FinalBlob(Prepared(vs), initial, writes);
      |blob| < TWO_64 && OutcomeOf(blob) == Ok && |HeadersIn(blob)| == |vs|
      && ComesBack(vs, writes, i, HeadersIn(blob)[i],
                   CString(NamesIn(blob), HeadersIn(blob)[i].name), DataIn(blob, HeadersIn(blob)[i]))
  {
    hide Fresh, FitsFields, Prepared, HeaderOf, HeadersIn, NamesIn, DataIn, StrTab, Ready, LaidOut, Fitting,
      AllWritten, Complete, CString, NoNul, SectionHeader.HasMemoryFootprint, OwnBytes, TotalSize, KeepsClientFields, BytesComeBack;
    var ps := Prepared(vs);
    PreparedIsReady(vs);
    FilledIsComplete(ps, initial, writes);
    var s := AllWritten(ps, Started(ps, initial), writes);
    NamesAreRead(vs, initial, s);
    HeaderKept(vs, i);
    NameIsFound(vs, i);
    SectionIsRead(vs, initial, s, writes, i);
  }

  // ---------- linking through the blob ----------

  datatype Link = Link(entry: RelaEntry, symbol: SymbolEntry, names: seq<byte>)

  /** From entry j of relocation section r, by section links and symbol index, to a symbol entry and its names section. */
  function Follow(blob: seq<byte>, r: nat, j: nat): Option<Link>
    requires |blob| < TWO_64
  {
    hide HeadersIn, HeaderOf, DataIn, OutcomeOf, RSym, RelocationAt, SymbolAt, NamesInside;
    if OutcomeOf(blob) != Ok || r >= |HeadersIn(blob)| then None
    else
      var hs := HeadersIn(blob);
      var t := hs[r].link;
      if t >= |hs| || hs[t].link >= |hs| then None
      else match (DataIn(blob, hs[r]), DataIn(blob, hs[t]), DataIn(blob, hs[hs[t].link]))
        case (Bytes(relocations), Bytes(symbols), Bytes(names)) =>
          if j * ENTRY_SIZE + ENTRY_SIZE > |relocations| then None
          else
            var e := RelocationAt(relocations, j);
            if RSym(e.info) * ENTRY_SIZE + ENTRY_SIZE > |symbols| then None
            else Some(Link(e, SymbolAt(symbols, RSym(e.info)), names))
        case _ => None
  }

  lemma FollowFinds(blob: seq<byte>, r: nat, j: nat, relocations: seq<byte>, symbols: seq<byte>, names: seq<byte>)
    requires |blob| < TWO_64 && OutcomeOf(blob) == Ok && r < |HeadersIn(blob)|
    requires var hs := HeadersIn(blob); var t := hs[r].link;
      t < |hs| && hs[t].link < |hs| && DataIn(blob, hs[r]) == Bytes(relocations) && DataIn(blob, hs[t]) == Bytes(symbols)
      && DataIn(blob, hs[hs[t].link]) == Bytes(names)
    requires j * ENTRY_SIZE + ENTRY_SIZE <= |relocations|
    requires RSym(RelocationAt(relocations, j).info) * ENTRY_SIZE + ENTRY_SIZE <= |symbols|
    ensures var e := RelocationAt(relocations, j);
      Follow(blob, r, j) == Some(Link(e, SymbolAt(symbols, RSym(e.info)), names))
  {
    hide HeadersIn, HeaderOf, DataIn, OutcomeOf, RSym, RelocationAt, SymbolAt, NamesInside;
  }

  lemma {:induction false} SymbolNamesGrow(vs: seq<View>, j: nat, k: nat)
    requires j <= k <= |vs|
    ensures SymStr(vs, j) <= SymStr(vs, k)
  {
    hide AllAdded, StableSort;
    if j < k {
      SymbolNamesGrow(vs, j, k - 1);
      if vs[k - 1].kind == Symbols {
        var names := NamesOf(StableSort(vs[k - 1].symbols));
        EarlierStringsStay(SymStr(vs, k - 1), names, 0, |names|);
        NoneAdded(SymStr(vs, k - 1), names);
      }
    }
  }

  lemma NamesForTable(vs: seq<View>, t: nat)
    requires Fresh(vs) && FitsFields(vs) && t < |vs| && vs[t].kind == Symbols
    ensures var before, after := SymStr(vs, t), SymStr(vs, |vs|);
      |before| > 0 && before[0] == 0 && |after| < TWO_32
      && AllAdded(before, NamesOf(StableSort(vs[t].symbols)), |vs[t].symbols|) <= after
  {
    hide AllAdded, StableSort, StrTab, End, After, NamesOf;
    TablesStartEmpty(vs, t);
    SymbolNamesGrow(vs, t + 1, |vs|);
  }

  // ---------- which blobs have symbol names ----------

  predicate SomeNamed(symbols: seq<NewSymbol>) {
    exists i :: 0 <= i < |symbols| && symbols[i].name != []
  }

  /** Some symbol of some table has a name. */
  predicate SomeSymbolNamed(vs: seq<View>, k: nat)
    requires k <= |vs|
  {
    exists t :: 0 <= t < k && vs[t].kind == Symbols && SomeNamed(vs[t].symbols)
  }

  lemma {:induction false} TableGrowsExactly(data: seq<byte>, names: seq<seq<byte>>, k: nat)
    requires k <= |names|
    ensures |AllAdded(data, names, k)| >= |data|
    ensures |AllAdded(data, names, k)| > |data| <==> exists i :: 0 <= i < k && names[i] != []
  {
    if k > 0 {
      TableGrowsExactly(data, names, k - 1);
    }
  }

  lemma SortedNamed(symbols: seq<NewSymbol>)
    ensures SomeNamed(StableSort(symbols)) <==> SomeNamed(symbols)
  {
    var sorted := StableSort(symbols);
    SortKeepsSymbols(symbols);
    forall i | 0 <= i < |symbols| ensures symbols[i] in sorted {
      assert symbols[i] in multiset(sorted);
    }
    forall i | 0 <= i < |sorted| ensures sorted[i] in symbols {
      assert sorted[i] in multiset(symbols);
    }
  }

  /** The symbol-name table is emitted exactly if there is a name to put into it. */
  lemma {:induction false} NamedExactly(vs: seq<View>, k: nat)
    requires k <= |vs|
    ensures |SymStr(vs, k)| >= 1
    ensures |SymStr(vs, k)| > 1 <==> SomeSymbolNamed(vs, k)
  {
    hide AllAdded, StableSort, SomeNamed;
    if k > 0 {
      NamedExactly(vs, k - 1);
      if vs[k - 1].kind == Symbols {
        var sorted := StableSort(vs[k - 1].symbols);
        TableGrowsExactly(SymStr(vs, k - 1), NamesOf(sorted), |sorted|);
        SomeNamedNames(sorted);
        SortedNamed(vs[k - 1].symbols);
      }
      SomeSymbolNamedNext(vs, k);
    }
  }

  lemma SomeNamedNames(symbols: seq<NewSymbol>)
    ensures SomeNamed(symbols) <==> exists i :: 0 <= i < |symbols| && NamesOf(symbols)[i] != []
  {
    if SomeNamed(symbols) {
      var i :| 0 <= i < |symbols| && symbols[i].name != [];
      assert NamesOf(symbols)[i] != [];
    }
  }

  lemma SomeSymbolNamedNext(vs: seq<View>, k: nat)
    requires 0 < k <= |vs|
    ensures SomeSymbolNamed(vs, k)
      <==> SomeSymbolNamed(vs, k - 1) || (vs[k - 1].kind == Symbols && SomeNamed(vs[k - 1].symbols))
  {
    hide SomeNamed;
  }

  lemma SymbolNamesOccupy(vs: seq<View>)
    requires Fresh(vs) && FitsFields(vs) && |SymStr(vs, |vs|)| > 0
    ensures var p := Prepared(vs)[SYMBOL_NAMES];
      (Occupies(p) <==> |SymStr(vs, |vs|)| > 1) && p.data == SymStr(vs, |vs|) && p.kind == Strings
      && p.header.HasMemoryFootprint()
  {
    hide SymStr, StrTab, LaidOut, Finalized, End;
    StringsSet(vs, SYMBOL_NAMES);
    HeaderKept(vs, SYMBOL_NAMES);
    FinalSize(vs, SYMBOL_NAMES);
    PlacedFilled(vs, SYMBOL_NAMES);
  }

  /** What the symbol-name section holds in the blob: nothing at all if it was not emitted. */
  function EmittedNames(vs: seq<View>): seq<byte> {
    if |SymStr(vs, |vs|)| > 1 then SymStr(vs, |vs|) else []
  }

  lemma SymbolNamesRead(vs: seq<View>, initial: seq<byte>, s: Stream)
    requires Fresh(vs) && FitsFields(vs) && Complete(Prepared(vs), initial, s)
    ensures |s.blob| < TWO_64 && DataIn(s.blob, Prepared(vs)[SYMBOL_NAMES].header) == Bytes(EmittedNames(vs))
  {
    hide FitsFields, Prepared, LaidOut, Holds, Ready, DataIn, SymStr, Occupies;
    var ps := Prepared(vs);
    CompleteIsReady(ps, initial, s);
    HeaderKept(vs, SYMBOL_NAMES);
    NamedExactly(vs, |vs|);
    SymbolNamesOccupy(vs);
    BytesAreRead(ps, initial, s, SYMBOL_NAMES);
  }

  /** The tables that a relocation section, its symbol table and the symbol names are in the blob. */
  lemma TablesComeBack(vs: seq<View>, initial: seq<byte>, s: Stream, r: nat, t: nat)
    requires Fresh(vs) && FitsFields(vs) && Complete(Prepared(vs), initial, s)
    requires r < |vs| && vs[r].kind == Relocs && vs[r].symTab == Some(t) && vs[r].relocations != []
    requires t < |vs| && vs[t].kind == Symbols
    requires vs[r].header.HasMemoryFootprint() && vs[t].header.HasMemoryFootprint()
    ensures |s.blob| < TWO_64
    ensures var ps := Prepared(vs);
      ps[r].header.link == t && ps[t].header.link == SYMBOL_NAMES
      && DataIn(s.blob, ps[r].header) == Bytes(RelocationTable(vs[r].relocations, |vs[r].relocations|))
      && DataIn(s.blob, ps[t].header) == Bytes(SymbolTable(StableSort(vs[t].symbols), SymStr(vs, t), |vs[t].symbols|))
  {
    hide Fresh, FitsFields, Prepared, LaidOut, Holds, Ready, DataIn, SymStr, SymbolTable, RelocationTable, StableSort,
      StrTab, OffsetFor;
    var ps := Prepared(vs);
    CompleteIsReady(ps, initial, s);
    RelocationsSet(vs, r);
    SymbolsSet(vs, t);
    HeaderKept(vs, r);
    HeaderKept(vs, t);
    BytesAreRead(ps, initial, s, r);
    BytesAreRead(ps, initial, s, t);
  }

  lemma ParsedHeaders(ps: seq<View>, blob: seq<byte>, names: seq<byte>)
    requires |ps| < 0xffff && IsParseOf(blob, HeaderFor(|ps|), HeadersOf(ps), names)
    ensures TableInside(blob) && HeadersIn(blob) == HeadersOf(ps)
  {}

  /** Linking: if its symbol's index is right, following a relocation through the parsed blob arrives at the entry of
      the symbol it was made for. The name is read there exactly if some symbol of some table has a name: without one,
      the symbol-name section is emitted without a byte, and not even the empty name can be read from it. */
  lemma RelocationsResolve(vs: seq<View>, initial: seq<byte>, writes: seq<Write>, r: nat, t: nat, j: nat, i: nat)
    requires Fresh(vs) && FitsFields(vs) && |initial| == TotalSize(vs) && Filled(Prepared(vs), writes)
    requires r < |vs| && vs[r].kind == Relocs && vs[r].symTab == Some(t) && j < |vs[r].relocations|
    requires t < |vs| && vs[t].kind == Symbols && AsAdded(vs[t].symbols)
    requires vs[r].header.HasMemoryFootprint() && vs[t].header.HasMemoryFootprint()
    requires vs[r].relocations[j].symbol == Some(i) && i < |vs[t].symbols| <= TWO_32 && Rank(vs[t].symbols, i) == i
    requires NoNul(vs[t].symbols[i].name)
    ensures Ready(Prepared(vs), |initial|) && |initial| < TWO_64
    ensures var link := Follow(FinalBlob(Prepared(vs), initial, writes), r, j);
      link.Some? && RType(link.value.entry.info) == vs[r].relocations[j].rtype
      && HasFieldsOf(link.value.symbol, vs[t].symbols[i])
      && (Describes(link.value.symbol, link.value.names, vs[t].symbols[i]) <==> SomeSymbolNamed(vs, |vs|))
  {
    hide Fresh, FitsFields, Prepared, DataIn, SymStr, SymbolTable, RelocationTable, StableSort, AllAdded, NamesOf,
      SectionHeader.HasMemoryFootprint, TotalSize, Ready, Complete, Fitting, AllWritten, OutcomeOf, HeadersIn, HeaderOf,
      Describes, HasFieldsOf, Follow, AsAdded, Rank, NoNul, RType, RSym, RelocationAt, SymbolAt, StrTab, OwnBytes,
      NamesInside, SomeSymbolNamed;
    var ps := Prepared(vs);
    PreparedIsReady(vs);
    FilledIsComplete(ps, initial, writes);
    var s := AllWritten(ps, Started(ps, initial), writes);
    NamesAreRead(vs, initial, s);
    NamesForTable(vs, t);
    TablesComeBack(vs, initial, s, r, t);
    SymbolNamesRead(vs, initial, s);
    LinkingIsCorrect(vs[t].symbols, vs[r].relocations, SymStr(vs, t), SymStr(vs, |vs|), j);
    CompleteIsReady(ps, initial, s);
    ParsedHeaders(ps, s.blob, StrTab(vs, |vs|));
    AtLeastThree(vs);
    var table := SymbolTable(StableSort(vs[t].symbols), SymStr(vs, t), |vs[t].symbols|);
    var relocations := RelocationTable(vs[r].relocations, |vs[r].relocations|);
    FollowFinds(s.blob, r, j, relocations, table, EmittedNames(vs));
    NamedExactly(vs, |vs|);
    DescribedExactly(vs, SymbolAt(table, RSym(RelocationAt(relocations, j).info)), vs[t].symbols[i]);
  }

  lemma DescribedExactly(vs: seq<View>, e: SymbolEntry, s: NewSymbol)
    requires Describes(e, SymStr(vs, |vs|), s)
    ensures HasFieldsOf(e, s)
    ensures Describes(e, EmittedNames(vs), s) <==> |SymStr(vs, |vs|)| > 1
  {
    hide SymStr;
    assert CString([], e.name) == None;
  }

  // ---------- a blob without symbol names ----------

  /** A symbol table with nothing but the null symbol, and a relocation against that. */
  function Nameless(): (vs: seq<View>) {
    var h := SectionHeader(0, SHT_SYMTAB, 0, 0, 0, 0, 0, 0, 4, ENTRY_SIZE);
    FirstSections() + [
      View(Symbols, [], h, [], [NewSymbol([], 0, 0, None, 0, 0, 0)], 0, [], None, None),
      View(Relocs, [], h.(stype := SHT_RELA), [], [], 0, [NewRelocation(0, 0, 0, 0, Some(0))], Some(3), Some(3))]
  }

  lemma NamelessFits()
    ensures Fresh(Nameless()) && FitsFields(Nameless()) && !SomeSymbolNamed(Nameless(), 5)
  {
    hide FitsFields, StrTab, SymStr, SomeSymbolNamed;
    NamelessNames(Nameless());
    FiveSectionsFit(Nameless());
  }

  lemma NamelessNames(vs: seq<View>)
    requires vs == Nameless()
    ensures |StrTab(vs, 5)| <= 86 && |SymStr(vs, 5)| == 1 && !SomeSymbolNamed(vs, 5)
  {
    TableLength([0], SectionNames(vs), 5, 16);
    NamedExactly(vs, 5);
  }

  lemma FiveSectionsFit(vs: seq<View>)
    requires Fresh(vs) && |vs| == 5 && |StrTab(vs, 5)| <= 86 && |SymStr(vs, 5)| == 1
    requires forall i :: 0 <= i < 5 ==> vs[i].header.addralign == 4
    requires vs[3].kind == Symbols && |vs[3].symbols| == 1 && vs[4].kind == Relocs && |vs[4].relocations| == 1
    ensures FitsFields(vs)
  {
    hide StrTab, SymStr, End, Start, After, Fresh;
    var ws := AllAfter(vs);
    forall i | 0 <= i < 5
      ensures |ws[i].data| <= 86 && ws[i].header.addralign == 4 && ws[i].header.size <= 86
    {
      SmallSection(vs, i);
    }
    hide AllAfter;
    SmallSectionsEnd(ws, 5);
  }

  lemma SmallSection(vs: seq<View>, i: nat)
    requires Fresh(vs) && |vs| == 5 && |StrTab(vs, 5)| <= 86 && |SymStr(vs, 5)| == 1 && i < 5
    requires vs[i].header.addralign == 4
    requires vs[3].kind == Symbols && |vs[3].symbols| == 1 && vs[4].kind == Relocs && |vs[4].relocations| == 1
    ensures var w := After(vs, 5, i); |w.data| <= 86 && w.header.addralign == 4 && w.header.size <= 86
  {
    hide StrTab, OffsetFor, SymbolTable, RelocationTable, SymStr, StableSort, WithInfoLink;
    assert vs[i].kind == Strings <==> i == 1 || i == 2;
  }

  lemma {:induction false} SmallSectionsEnd(ws: seq<View>, k: nat)
    requires k <= |ws| && forall i :: 0 <= i < |ws| ==> ws[i].header.addralign == 4 && ws[i].header.size <= 86
    ensures forall j :: 0 <= j <= k ==> End(ws, j) <= DataStart(|ws|) + j * 90
  {
    hide AlignUp, Occupies;
    if k > 0 {
      SmallSectionsEnd(ws, k - 1);
      assert Start(ws, k - 1) < End(ws, k - 1) + 4;
    }
  }

  /** There the relocation arrives at the entry of its symbol, but no name is read. */
  lemma NamelessSymbolIsNotRead(initial: seq<byte>, writes: seq<Write>)
    requires Fresh(Nameless()) && |initial| == TotalSize(Nameless()) && Filled(Prepared(Nameless()), writes)
    ensures Ready(Prepared(Nameless()), |initial|) && |initial| < TWO_64
    ensures var link := Follow(FinalBlob(Prepared(Nameless()), initial, writes), 4, 0);
      link.Some? && !Describes(link.value.symbol, link.value.names, Nameless()[3].symbols[0])
  {
    hide Prepared, TotalSize, Filled, Follow, Describes, FitsFields, SomeSymbolNamed, Ready, FinalBlob, HasFieldsOf, RType;
    NamelessFits();
    RelocationsResolve(Nameless(), initial, writes, 4, 3, 0, 0);
  }
}
