/** The writer as a function: what preparing it makes of its sections, and where their bytes end up in the blob. */
module WriterModel {
  import opened Bytes
  import opened ElfFile
  import opened ElfCodec
  import opened Options
  import opened StringTable
  import opened SymbolTables

  datatype Kind = NullKind | Strings | Symbols | Relocs | Empty | Binary

  /** The fields of a section that the client, or preparing the writer, sets. Other sections are named by index. */
  datatype View = View(
    kind: Kind, name: seq<byte>, header: SectionHeader, data: seq<byte>,
    symbols: seq<NewSymbol>, info: u32, relocations: seq<NewRelocation>, symTab: Option<nat>, target: Option<nat>)

  const SECTION_NAMES: nat := 1
  const SYMBOL_NAMES: nat := 2

  const STRTAB: seq<byte> := [0x2e, 0x73, 0x74, 0x72, 0x74, 0x61, 0x62]  // ".strtab"
  const SYMSTRTAB: seq<byte> := [0x2e, 0x73, 0x79, 0x6d, 0x73, 0x74, 0x72, 0x74, 0x61, 0x62]  // ".symstrtab"

  function NewView(kind: Kind, name: seq<byte>, stype: u32): View {
    View(kind, name, SectionHeader(0, stype, 0, 0, 0, 0, 0, 0, 4, 0), if kind == Strings then [0] else [], [], 0, [], None, None)
  }

  /** The sections of a new writer. */
  function FirstSections(): (vs: seq<View>) {
    [NewView(NullKind, [], SHT_NULL), NewView(Strings, STRTAB, SHT_STRTAB), NewView(Strings, SYMSTRTAB, SHT_STRTAB)]
  }

  /** Sections as the client hands them over: the null section and the two string tables first; no bytes yet. */
  predicate Fresh(vs: seq<View>) {
    |vs| >= 3
    && vs[0].kind == NullKind && vs[0].name == []
    && (forall i :: 0 <= i < |vs| ==> vs[i].header.offset == 0 && (i == 1 || i == 2 <==> vs[i].kind == Strings))
    && (forall i :: 0 <= i < |vs| && vs[i].kind == Strings ==>
         vs[i].data == [0] && vs[i].name != [] && vs[i].header.stype == SHT_STRTAB)
    && (forall i :: 0 <= i < |vs| && vs[i].kind != Strings ==> vs[i].data == [])
    && (forall i :: 0 <= i < |vs| && (vs[i].kind == Strings || vs[i].kind == NullKind) ==> vs[i].header.size == 0)
    && (forall i :: 0 <= i < |vs| && vs[i].kind == Symbols ==> vs[i].symbols != [])
    && (forall i :: 0 <= i < |vs| && vs[i].kind == Relocs ==> vs[i].target.Some?)
  }

  lemma FreshGrows(vs: seq<View>, v: View)
    requires Fresh(vs) && v.kind != NullKind && v.kind != Strings && v.kind != Relocs && v.data == [] && v.header.offset == 0
    requires v.kind == Symbols ==> v.symbols != []
    ensures Fresh(vs + [v])
  {}

  // ---------- phase one: tables and names ----------

  function SectionNames(vs: seq<View>): seq<seq<byte>> {
    seq(|vs|, i requires 0 <= i < |vs| => vs[i].name)
  }

  /** The bytes of .strtab once the first k sections have their names. */
  function StrTab(vs: seq<View>, k: nat): (data: seq<byte>)
    requires k <= |vs|
  {
    AllAdded([0], SectionNames(vs), k)
  }

  /** The bytes of .symstrtab once the first k sections are finalized. */
  function SymStr(vs: seq<View>, k: nat): (data: seq<byte>)
    requires k <= |vs|
  {
    if k == 0 then [0]
    else if vs[k - 1].kind != Symbols then SymStr(vs, k - 1)
    else AllAdded(SymStr(vs, k - 1), NamesOf(StableSort(vs[k - 1].symbols)), |vs[k - 1].symbols|)
  }

  function WithInfoLink(flags: u64): (r: u64)
    ensures r / SHF_INFO_LINK % 2 == 1 && (r == flags || r == flags + SHF_INFO_LINK)
  {
    if flags / SHF_INFO_LINK % 2 == 1 then flags else flags + SHF_INFO_LINK
  }

  /** A section after its own finalize, given what .symstrtab held before. */
  function Finalized(v: View, names: seq<byte>): (r: View)
    requires v.kind == Relocs ==> v.target.Some?
    ensures r.name == v.name && r.kind == v.kind && r.relocations == v.relocations
  {
    match v.kind
      case Symbols =>
        var sorted := StableSort(v.symbols);
        var data := v.data + SymbolTable(sorted, names, |sorted|);
        v.(symbols := sorted, data := data, header := v.header.(info := v.info, link := SYMBOL_NAMES, size := |data| % TWO_64))
      case Relocs =>
        var data := v.data + RelocationTable(v.relocations, |v.relocations|);
        var link := if v.symTab.Some? then v.symTab.value % TWO_32 else v.header.link;
        v.(data := data, header := v.header.(info := v.target.value % TWO_32, flags := WithInfoLink(v.header.flags),
                                             link := link, size := |data| % TWO_64))
      case _ => v
  }

  /** A string table's size is only set when a string is added. */
  function WithStrings(v: View, data: seq<byte>): View {
    v.(data := data, header := v.header.(size := if |data| <= 1 then v.header.size else |data| % TWO_64))
  }

  /** Section j after the first k sections were finalized and named. */
  function After(vs: seq<View>, k: nat, j: nat): View
    requires Fresh(vs) && k <= |vs| && j < |vs|
  {
    var v := if j < k then Named(Finalized(vs[j], SymStr(vs, j)), OffsetFor(StrTab(vs, j), vs[j].name)) else vs[j];
    if j == SECTION_NAMES then WithStrings(v, StrTab(vs, k))
    else if j == SYMBOL_NAMES then WithStrings(v, SymStr(vs, k))
    else v
  }

  function Named(v: View, offset: nat): View {
    v.(header := v.header.(name := offset % TWO_32))
  }

  function AllAfter(vs: seq<View>): (ws: seq<View>)
    requires Fresh(vs)
    ensures |ws| == |vs| && forall j :: 0 <= j < |vs| ==> ws[j] == After(vs, |vs|, j)
  {
    seq(|vs|, j requires 0 <= j < |vs| => After(vs, |vs|, j))
  }

  // ---------- phase two: the layout ----------

  function DataStart(sections: nat): nat { HEADER_SIZE + sections * HEADER_SIZE }

  predicate Occupies(v: View) { v.kind != Empty && v.header.size != 0 }

  /** Where the blob ends when the first k sections have their place. */
  function End(ws: seq<View>, k: nat): nat
    requires k <= |ws|
    decreases k, 0
  {
    if k == 0 then DataStart(|ws|)
    else Start(ws, k - 1) + if Occupies(ws[k - 1]) then ws[k - 1].header.size else 0
  }

  /** Every section asks for its alignment, even one that then takes no bytes. */
  function Start(ws: seq<View>, k: nat): nat
    requires k < |ws|
    decreases k, 1
  {
    AlignUp(End(ws, k), ws[k].header.addralign)
  }

  function LaidOut(ws: seq<View>, i: nat): View
    requires i < |ws|
  {
    if Occupies(ws[i]) then ws[i].(header := ws[i].header.(offset := Start(ws, i) % TWO_64)) else ws[i]
  }

  function Prepared(vs: seq<View>): (ps: seq<View>)
    requires Fresh(vs)
    ensures |ps| == |vs|
  {
    var ws := AllAfter(vs);
    seq(|vs|, i requires 0 <= i < |vs| => LaidOut(ws, i))
  }

  function TotalSize(vs: seq<View>): nat
    requires Fresh(vs)
  {
    End(AllAfter(vs), |vs|)
  }

  /** Nothing is cut off by the widths of the ELF fields or of size_t. */
  predicate FitsFields(vs: seq<View>)
    requires Fresh(vs)
  {
    var ws := AllAfter(vs);
    |vs| < 0xffff && TotalSize(vs) < TWO_64
    && |StrTab(vs, |vs|)| < TWO_32 && |SymStr(vs, |vs|)| < TWO_32
    && (forall i :: 0 <= i < |vs| ==> |ws[i].data| < TWO_64)
    && NoOverflow(ws)
  }

  /** Aligning the running size does not overflow size_t. */
  predicate NoOverflow(ws: seq<View>) {
    forall i :: 0 <= i < |ws| ==> End(ws, i) + ws[i].header.addralign <= TWO_64
  }

  function HeaderFor(sections: nat): ElfHeader
    requires sections < 0xffff
  {
    ElfHeader(ELF_MAGIC, 2, 1, 1, HEADER_SIZE, HEADER_SIZE, HEADER_SIZE, sections, SECTION_NAMES)
  }

  function HeadersOf(ps: seq<View>): (hs: seq<SectionHeader>)
    ensures |hs| == |ps|
  {
    seq(|ps|, i requires 0 <= i < |ps| => ps[i].header)
  }

  function EncodeHeaders(hs: seq<SectionHeader>): (bs: seq<byte>)
    ensures |bs| == |hs| * HEADER_SIZE
  {
    if hs == [] then [] else EncodeHeaders(hs[..|hs| - 1]) + EncodeSectionHeader(hs[|hs| - 1])
  }

  // ---------- one section more ----------

  lemma AfterNone(vs: seq<View>)
    requires Fresh(vs)
    ensures forall j :: 0 <= j < |vs| ==> After(vs, 0, j) == vs[j]
  {}

  /** Which bytes finalizing and naming section k adds to the string tables, and how the sections change. */
  lemma AfterOneMore(vs: seq<View>, k: nat, j: nat)
    requires Fresh(vs) && k < |vs| && j < |vs|
    ensures After(vs, k, SECTION_NAMES).data == StrTab(vs, k) && After(vs, k, SYMBOL_NAMES).data == SymStr(vs, k)
    ensures After(vs, k, k).kind == Relocs ==> After(vs, k, k).target.Some?
    ensures After(vs, k, k).name == vs[k].name && After(vs, k, k).kind == vs[k].kind && After(vs, k, k).symbols == vs[k].symbols
    ensures k == SECTION_NAMES || k == SYMBOL_NAMES <==> vs[k].kind == Strings
    ensures j != k && j != SECTION_NAMES && j != SYMBOL_NAMES ==> After(vs, k + 1, j) == After(vs, k, j)
    ensures j == k && vs[k].kind != Strings ==>
      After(vs, k + 1, j) == Named(Finalized(After(vs, k, k), SymStr(vs, k)), OffsetFor(StrTab(vs, k), vs[k].name))
  {
    hide Finalized, StrTab, SymStr;
  }

  lemma StringsOneMore(vs: seq<View>, k: nat)
    requires Fresh(vs) && k < |vs|
    ensures k != SECTION_NAMES ==>
      After(vs, k + 1, SECTION_NAMES) == WithStrings(After(vs, k, SECTION_NAMES), Added(StrTab(vs, k), vs[k].name))
    ensures k == SECTION_NAMES ==>
      After(vs, k + 1, SECTION_NAMES)
      == Named(WithStrings(After(vs, k, SECTION_NAMES), Added(StrTab(vs, k), vs[k].name)), OffsetFor(StrTab(vs, k), vs[k].name))
  {
    assert SectionNames(vs)[k] == vs[k].name;
    assert StrTab(vs, k + 1) == Added(StrTab(vs, k), vs[k].name);
  }

  lemma SymbolNamesOneMore(vs: seq<View>, k: nat)
    requires Fresh(vs) && k < |vs|
    ensures k != SYMBOL_NAMES && vs[k].kind != Symbols ==> After(vs, k + 1, SYMBOL_NAMES) == After(vs, k, SYMBOL_NAMES)
    ensures k != SYMBOL_NAMES && vs[k].kind == Symbols ==>
      var sorted := StableSort(vs[k].symbols);
      After(vs, k + 1, SYMBOL_NAMES)
      == WithStrings(After(vs, k, SYMBOL_NAMES), AllAdded(SymStr(vs, k), NamesOf(sorted), |sorted|))
    ensures k == SYMBOL_NAMES ==>
      After(vs, k + 1, SYMBOL_NAMES) == Named(After(vs, k, SYMBOL_NAMES), OffsetFor(StrTab(vs, k), vs[k].name))
  {
    hide AllAdded, StrTab, StableSort;
    if vs[k].kind == Symbols {
      var names := NamesOf(StableSort(vs[k].symbols));
      EarlierStringsStay(SymStr(vs, k), names, 0, |names|);
      assert AllAdded(SymStr(vs, k), names, 0) == SymStr(vs, k) by { NoneAdded(SymStr(vs, k), names); }
    }
  }

  lemma NoneAdded(data: seq<byte>, names: seq<seq<byte>>)
    ensures AllAdded(data, names, 0) == data
  {}
}
