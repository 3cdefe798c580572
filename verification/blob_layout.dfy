/** Where the writer puts its bytes: the layout is safe, and emitting tables commutes with streaming data. */
module BlobLayout {
  import opened Bytes
  import opened ElfFile
  import opened ElfCodec
  import opened StringTable
  import opened SymbolTables
  import opened Regions
  import opened WriterModel

  // ---------- layout safety ----------

  lemma {:induction false} EndGrows(ws: seq<View>, i: nat, j: nat)
    requires i <= j <= |ws|
    ensures End(ws, i) <= End(ws, j)
    ensures i < j ==> Start(ws, i) + (if Occupies(ws[i]) then ws[i].header.size else 0) <= End(ws, j)
  {
    hide AlignUp, Occupies;
    if i < j {
      EndGrows(ws, i, j - 1);
      if i == j - 1 {
        assert End(ws, j) == Start(ws, i) + if Occupies(ws[i]) then ws[i].header.size else 0;
      }
    }
  }

  function Place(ws: seq<View>, i: nat): Region
    requires i < |ws|
  {
    if Occupies(ws[i]) then Region(Start(ws, i), ws[i].header.size) else Region(0, 0)
  }

  /** Sections that carry bytes get aligned ranges behind the header table, inside the blob and in file order without
      a common byte. */
  lemma LayoutIsSafe(ws: seq<View>)
    ensures forall i :: 0 <= i < |ws| && Occupies(ws[i]) ==>
      DataStart(|ws|) <= Start(ws, i) && Start(ws, i) + ws[i].header.size <= End(ws, |ws|)
    ensures forall i :: 0 <= i < |ws| && ws[i].header.addralign > 0 ==> Start(ws, i) % ws[i].header.addralign == 0
    ensures forall i, j :: 0 <= i < j < |ws| && Occupies(ws[i]) ==> Start(ws, i) + ws[i].header.size <= Start(ws, j)
    ensures DataStart(|ws|) <= End(ws, |ws|)
  {
    hide AlignUp, Occupies;
    EndGrows(ws, 0, |ws|);
    forall i, j | 0 <= i < j < |ws| && Occupies(ws[i]) ensures Start(ws, i) + ws[i].header.size <= Start(ws, j) {
      EndGrows(ws, i, j);
    }
    forall i | 0 <= i < |ws| && Occupies(ws[i])
      ensures DataStart(|ws|) <= Start(ws, i) && Start(ws, i) + ws[i].header.size <= End(ws, |ws|)
    {
      EndGrows(ws, 0, i);
      EndGrows(ws, i, |ws|);
    }
  }

  /** No more room than the alignments ask for: the first section starts at the least multiple of its alignment behind the header
      table, every other one at the least multiple behind its predecessor, and the blob ends with the last one. */
  lemma LayoutIsTight(ws: seq<View>, k: nat)
    requires k < |ws|
    ensures var from := if k == 0 then 64 + 64 * |ws|
                        else Start(ws, k - 1) + if ws[k - 1].kind != Empty then ws[k - 1].header.size else 0;
      from <= Start(ws, k) &&
      (ws[k].header.addralign == 0 ==> Start(ws, k) == from) &&
      (ws[k].header.addralign > 0 ==>
         forall r: nat :: from <= r && r % ws[k].header.addralign == 0 ==> Start(ws, k) <= r)
    ensures k == |ws| - 1 ==> End(ws, |ws|) == Start(ws, k) + if ws[k].kind != Empty then ws[k].header.size else 0
  {
    var from, alignment := End(ws, k), ws[k].header.addralign;
    EndIsBehind(ws, k);
    LeastStart(ws, k);
    hide End, Start, AlignUp;
    if alignment > 0 {
      forall r: nat | from <= r && r % alignment == 0
        ensures Start(ws, k) <= r
      {
        NoMultipleBetween(Start(ws, k), r, alignment);
      }
    }
  }

  lemma EndIsBehind(ws: seq<View>, k: nat)
    requires k < |ws|
    ensures End(ws, k) == if k == 0 then 64 + 64 * |ws|
                          else Start(ws, k - 1) + if ws[k - 1].kind != Empty then ws[k - 1].header.size else 0
    ensures End(ws, k + 1) == Start(ws, k) + if ws[k].kind != Empty then ws[k].header.size else 0
  {
    hide Start;
  }

  lemma LeastStart(ws: seq<View>, k: nat)
    requires k < |ws|
    ensures var from, alignment := End(ws, k), ws[k].header.addralign;
      from <= Start(ws, k) && (alignment == 0 ==> Start(ws, k) == from) &&
      (alignment > 0 ==> Start(ws, k) % alignment == 0 && Start(ws, k) < from + alignment)
  {
    hide End;
  }

  // ---------- the prepared sections ----------

  /** What streaming and emitting rely on: each section's place, and that tables fill theirs. */
  predicate Ready(ps: seq<View>, total: nat) {
    |ps| >= 3 && |ps| < 0xffff
    && Apart(Places(ps), total)
    && Places(ps)[0].size <= total < TWO_64
    && forall i :: 0 <= i < |ps| ==> ProperlyFilled(ps[i])
  }

  /** Binary sections are filled by their client and keep no bytes; a table has as many bytes as its header says,
      except that an empty string table has one byte that its header does not count. */
  predicate ProperlyFilled(v: View) {
    (v.kind == Binary ==> v.data == [])
    && (v.kind == Empty ==> v.data == [])
    && (Occupies(v) && v.kind != Binary ==> |v.data| == v.header.size)
    && (!Occupies(v) ==> v.header.offset == 0)
    && (!Occupies(v) && v.data != [] ==> v.data == [0] && v.kind == Strings)
  }

  function PlaceOf(p: View): Region {
    if Occupies(p) then Region(p.header.offset, p.header.size) else Region(0, 0)
  }

  /** The header table, then one region for each section. */
  function Places(ps: seq<View>): (rs: seq<Region>)
    ensures |rs| == |ps| + 1
  {
    [Region(0, DataStart(|ps|))]
    + seq(|ps|, i requires 0 <= i < |ps| => PlaceOf(ps[i]))
  }

  lemma FinalSize(vs: seq<View>, i: nat)
    requires Fresh(vs) && FitsFields(vs) && i < |vs|
    ensures var w := After(vs, |vs|, i);
      w.header.offset == 0 && w.kind == vs[i].kind
      && (w.kind == Binary || w.kind == Empty ==> w.data == [])
      && (w.kind == NullKind ==> !Occupies(w) && w.data == [])
      && (w.kind == Symbols || w.kind == Relocs ==> |w.data| == w.header.size)
      && (w.kind == Strings ==> |w.data| > 0 && w.data[0] == 0 && w.header.size == if |w.data| == 1 then 0 else |w.data|)
  {
    hide SymbolTable, RelocationTable, StableSort, NamesOf, SectionNames, StrTab, SymStr, End, TotalSize, OffsetFor, WithInfoLink;
    TablesStartEmpty(vs, |vs|);
    assert i == 1 || i == 2 <==> vs[i].kind == Strings;
    assert |AllAfter(vs)[i].data| < TWO_64;
  }

  lemma {:induction false} TablesStartEmpty(vs: seq<View>, k: nat)
    requires k <= |vs|
    ensures |StrTab(vs, k)| > 0 && StrTab(vs, k)[0] == 0
    ensures |SymStr(vs, k)| > 0 && SymStr(vs, k)[0] == 0
  {
    hide AllAdded, StableSort;
    EarlierStringsStay([0], SectionNames(vs), 0, k);
    assert AllAdded([0], SectionNames(vs), 0) == [0] by { NoneAdded([0], SectionNames(vs)); }
    if k > 0 {
      TablesStartEmpty(vs, k - 1);
      if vs[k - 1].kind == Symbols {
        var names := NamesOf(StableSort(vs[k - 1].symbols));
        EarlierStringsStay(SymStr(vs, k - 1), names, 0, |vs[k - 1].symbols|);
        NoneAdded(SymStr(vs, k - 1), names);
      }
    }
  }

  /** Preparing establishes all of it. */
  lemma PreparedIsReady(vs: seq<View>)
    requires Fresh(vs) && FitsFields(vs)
    ensures Ready(Prepared(vs), TotalSize(vs))
  {
    hide Fresh, FitsFields, After, Start, End, Occupies, Prepared, ProperlyFilled, Places, PlaceOf, Place, Apart;
    var ws, ps := AllAfter(vs), Prepared(vs);
    AtLeastThree(vs);
    EnoughFields(vs);
    forall i | 0 <= i < |vs|
      ensures ProperlyFilled(ps[i]) && PlaceOf(ps[i]) == Place(ws, i)
    {
      PlacedFilled(vs, i);
    }
    LaidOutPlaces(ws, ps);
  }

  lemma LaidOutPlaces(ws: seq<View>, ps: seq<View>)
    requires |ps| == |ws| && forall i :: 0 <= i < |ws| ==> PlaceOf(ps[i]) == Place(ws, i)
    ensures Apart(Places(ps), End(ws, |ws|)) && Places(ps)[0].size <= End(ws, |ws|)
  {
    hide Start, End, Occupies, PlaceOf;
    LayoutIsSafe(ws);
    assert forall i :: 0 < i <= |ws| ==> Places(ps)[i] == Place(ws, i - 1);
  }

  lemma AtLeastThree(vs: seq<View>)
    requires Fresh(vs)
    ensures |vs| >= 3
  {}

  lemma PlacedFilled(vs: seq<View>, i: nat)
    requires Fresh(vs) && FitsFields(vs) && i < |vs|
    ensures var ws, p := AllAfter(vs), Prepared(vs)[i];
      ProperlyFilled(p) && Occupies(p) == Occupies(ws[i]) && PlaceOf(p) == Place(ws, i)
  {
    hide Fresh, After, Start, End;
    var ws := AllAfter(vs);
    FinalSize(vs, i);
    LayoutIsSafe(ws);
  }

  lemma {:induction false} TableLength(data: seq<byte>, names: seq<seq<byte>>, k: nat, longest: nat)
    requires k <= |names| && forall i :: 0 <= i < |names| ==> |names[i]| <= longest
    ensures |AllAdded(data, names, k)| <= |data| + k * (longest + 1)
  {
    if k > 0 {
      TableLength(data, names, k - 1, longest);
      assert k * (longest + 1) == (k - 1) * (longest + 1) + (longest + 1);
    }
  }

  /** A new writer can be prepared as it is. */
  lemma NewWriterFits()
    ensures Fresh(FirstSections()) && FitsFields(FirstSections())
  {
    hide FitsFields;
    ThreeSectionsFit(FirstSections());
  }

  lemma ThreeSectionsFit(vs: seq<View>)
    requires Fresh(vs) && |vs| == 3 && forall i :: 0 <= i < 3 ==> |vs[i].name| <= 16 && vs[i].header.addralign == 4
    ensures FitsFields(vs)
  {
    hide StrTab, AlignUp, OffsetFor;
    var ws := AllAfter(vs);
    StrTabLength(vs);
    assert SymStr(vs, 3) == SymStr(vs, 2) == SymStr(vs, 1) == SymStr(vs, 0) == [0];
    assert ws[0].data == [] && ws[1].data == StrTab(vs, 3) && ws[2].data == [0];
    assert End(ws, 0) == 256;
    assert Start(ws, 0) < 256 + 4 && End(ws, 1) == Start(ws, 0);
    assert Start(ws, 1) < End(ws, 1) + 4 && End(ws, 2) <= Start(ws, 1) + 100;
    assert Start(ws, 2) < End(ws, 2) + 4 && End(ws, 3) == Start(ws, 2);
  }

  lemma StrTabLength(vs: seq<View>)
    requires |vs| == 3 && forall i :: 0 <= i < 3 ==> |vs[i].name| <= 16
    ensures |StrTab(vs, 3)| <= 52
  {
    TableLength([0], SectionNames(vs), 3, 16);
  }

  // ---------- emitting and streaming ----------

  /** Blob bytes, what was appended to each section, and whether headers and tables were emitted. */
  datatype Stream = Stream(blob: seq<byte>, appended: seq<seq<byte>>, generated: bool)

  function HeaderTable(ps: seq<View>): (bs: seq<byte>)
    requires |ps| < 0xffff
    ensures |bs| == DataStart(|ps|)
  {
    EncodeElfHeader(HeaderFor(|ps|)) + EncodeHeaders(HeadersOf(ps))
  }

  function TablesWritten(ps: seq<View>, blob: seq<byte>, k: nat): (r: seq<byte>)
    requires k <= |ps| && Ready(ps, |blob|)
    ensures |r| == |blob|
  {
    if k == 0 then blob
    else
      var b := TablesWritten(ps, blob, k - 1);
      assert Places(ps)[k] == PlaceOf(ps[k - 1]);
      if ps[k - 1].data == [] then b else Splice(b, ps[k - 1].header.offset, ps[k - 1].data)
  }

  /** Emitting: the bytes that sections keep, then the ELF header, then the section headers. */
  function Generated(ps: seq<View>, blob: seq<byte>): (r: seq<byte>)
    requires Ready(ps, |blob|)
    ensures |r| == |blob|
  {
    var b := TablesWritten(ps, blob, |ps|);
    Splice(Splice(b, 0, EncodeElfHeader(HeaderFor(|ps|))), HEADER_SIZE, EncodeHeaders(HeadersOf(ps)))
  }

  /** May this much more be appended to the section? */
  predicate CanAppend(ps: seq<View>, s: Stream, i: nat, bytes: seq<byte>)
    requires |s.appended| == |ps|
  {
    i < |ps| && ps[i].kind == Binary && |s.appended[i]| + |bytes| <= ps[i].header.size
  }

  function Appended(ps: seq<View>, s: Stream, i: nat, bytes: seq<byte>): (r: Stream)
    requires Ready(ps, |s.blob|) && |s.appended| == |ps| && CanAppend(ps, s, i, bytes)
    ensures |r.blob| == |s.blob| && |r.appended| == |s.appended|
  {
    if ps[i].header.size == 0 then s.(appended := s.appended[i := s.appended[i] + bytes])
    else
      assert Places(ps)[i + 1] == PlaceOf(ps[i]);
      Stream(Splice(s.blob, ps[i].header.offset + |s.appended[i]|, bytes), s.appended[i := s.appended[i] + bytes], s.generated)
  }

  /** What region r holds, by what happened so far. */
  function Expected(ps: seq<View>, initial: seq<byte>, s: Stream, r: nat): seq<byte>
    requires Ready(ps, |initial|) && |s.appended| == |ps| && r <= |ps|
  {
    var before := Part(initial, Places(ps)[r]);
    if r == 0 then if s.generated then HeaderTable(ps) else before
    else if !Occupies(ps[r - 1]) then []
    else if ps[r - 1].kind == Binary then
      if |s.appended[r - 1]| <= |before| then s.appended[r - 1] + before[|s.appended[r - 1]|..] else before
    else if s.generated then ps[r - 1].data else before
  }

  /** The blob holds exactly that, and its initial bytes elsewhere. */
  ghost predicate Holds(ps: seq<View>, initial: seq<byte>, s: Stream) {
    Ready(ps, |initial|) && |s.blob| == |initial| && |s.appended| == |ps|
    && (forall i :: 0 <= i < |ps| && ps[i].kind == Binary ==> |s.appended[i]| <= ps[i].header.size)
    && (forall r: nat :: r <= |ps| ==> Part(s.blob, Places(ps)[r]) == Expected(ps, initial, s, r))
    && (forall p: nat :: p < |s.blob| && Outside(Places(ps), p) ==> s.blob[p] == initial[p])
  }

  function Started(ps: seq<View>, initial: seq<byte>): (s: Stream)
    ensures |s.blob| == |initial| && |s.appended| == |ps|
  {
    Stream(initial, seq(|ps|, i => []), false)
  }

  lemma HoldsAtStart(ps: seq<View>, initial: seq<byte>)
    requires Ready(ps, |initial|)
    ensures Holds(ps, initial, Started(ps, initial))
  {
    hide ProperlyFilled;
    var s := Started(ps, initial);
    forall r: nat | r <= |ps| ensures Part(s.blob, Places(ps)[r]) == Expected(ps, initial, s, r) {
      var before := Part(initial, Places(ps)[r]);
      assert [] + before[0..] == before;
    }
  }

  lemma ChangesOwnRegion(ps: seq<View>, blob: seq<byte>, r: nat, k: nat, bs: seq<byte>)
    requires Ready(ps, |blob|) && r <= |ps| && k + |bs| <= Places(ps)[r].size
    ensures Places(ps)[r].at + k + |bs| <= |blob|
    ensures var after := Splice(blob, Places(ps)[r].at + k, bs);
      Part(after, Places(ps)[r]) == Splice(Part(blob, Places(ps)[r]), k, bs)
      && (forall q: nat :: q <= |ps| && q != r ==> Part(after, Places(ps)[q]) == Part(blob, Places(ps)[q]))
      && (forall p: nat :: p < |blob| && Outside(Places(ps), p) ==> after[p] == blob[p])
  {
    hide Splice, Places, ProperlyFilled, Outside;
    WriteInside(blob, Places(ps), r, k, bs);
  }

  lemma PlacesFit(ps: seq<View>, total: nat)
    requires Ready(ps, total)
    ensures forall r: nat :: r <= |ps| ==> Places(ps)[r].at + Places(ps)[r].size <= total
    ensures Places(ps)[0] == Region(0, DataStart(|ps|))
    ensures forall r: nat :: 0 < r <= |ps| ==> Places(ps)[r] == PlaceOf(ps[r - 1])
  {
    hide ProperlyFilled, Occupies;
  }

  lemma AppendHolds(ps: seq<View>, initial: seq<byte>, s: Stream, i: nat, bytes: seq<byte>)
    requires Holds(ps, initial, s) && CanAppend(ps, s, i, bytes)
    ensures Holds(ps, initial, Appended(ps, s, i, bytes))
  {
    hide Outside, Ready, Places, Expected, Splice;
    var t := Appended(ps, s, i, bytes);
    PlacesFit(ps, |initial|);
    if Occupies(ps[i]) {
      ChangesOwnRegion(ps, s.blob, i + 1, |s.appended[i]|, bytes);
    }
    forall r: nat | r <= |ps| ensures Part(t.blob, Places(ps)[r]) == Expected(ps, initial, t, r) {
      assert Part(s.blob, Places(ps)[r]) == Expected(ps, initial, s, r);
      AppendExpected(ps, initial, s, i, bytes, r);
    }
  }

  lemma AppendExpected(ps: seq<View>, initial: seq<byte>, s: Stream, i: nat, bytes: seq<byte>, r: nat)
    requires Ready(ps, |initial|) && |s.blob| == |initial| && |s.appended| == |ps| && CanAppend(ps, s, i, bytes) && r <= |ps|
    ensures Places(ps)[r].at + Places(ps)[r].size <= |initial|
    ensures Occupies(ps[i]) ==> |Expected(ps, initial, s, i + 1)| == ps[i].header.size
    ensures var t := Appended(ps, s, i, bytes);
      Expected(ps, initial, t, r) == if r == i + 1
        && Occupies(ps[i]) then Splice(Expected(ps, initial, s, r), |s.appended[i]|, bytes)
                                     else Expected(ps, initial, s, r)
  {
    hide Ready, Places, HeaderTable, Splice, Expected;
    PlacesFit(ps, |initial|);
    var t := Appended(ps, s, i, bytes);
    if Occupies(ps[i]) {
      var before := Part(initial, Places(ps)[i + 1]);
      BinaryExpected(ps, initial, s, i);
      BinaryExpected(ps, initial, t, i);
      AppendInPart(before, s.appended[i], bytes);
    }
    if !(r == i + 1 && Occupies(ps[i])) {
      OtherExpected(ps, initial, s, t, r);
    }
  }

  lemma BinaryExpected(ps: seq<View>, initial: seq<byte>, s: Stream, i: nat)
    requires Ready(ps, |initial|) && |s.appended| == |ps| && i < |ps| && Occupies(ps[i]) && ps[i].kind == Binary
    requires |s.appended[i]| <= ps[i].header.size
    ensures Places(ps)[i + 1].at + Places(ps)[i + 1].size <= |initial| && Places(ps)[i + 1].size == ps[i].header.size
    ensures Expected(ps, initial, s, i + 1) == s.appended[i] + Part(initial, Places(ps)[i + 1])[|s.appended[i]|..]
  {
    hide Ready, HeaderTable, Places;
    PlacesFit(ps, |initial|);
  }

  lemma OtherExpected(ps: seq<View>, initial: seq<byte>, s: Stream, t: Stream, r: nat)
    requires Ready(ps, |initial|) && |s.appended| == |t.appended| == |ps| && r <= |ps|
    requires r > 0 && Occupies(ps[r - 1]) ==> t.appended[r - 1] == s.appended[r - 1]
    requires t.generated == s.generated
    ensures Expected(ps, initial, t, r) == Expected(ps, initial, s, r)
  {
    hide Ready, HeaderTable, Places;
  }

  lemma AppendInPart(before: seq<byte>, done: seq<byte>, bytes: seq<byte>)
    requires |done| + |bytes| <= |before|
    ensures Splice(done + before[|done|..], |done|, bytes) == done + bytes + before[|done + bytes|..]
  {}

  lemma TablesHold(ps: seq<View>, blob: seq<byte>)
    requires Ready(ps, |blob|)
    ensures forall r: nat :: 0 < r <= |ps| ==> Part(TablesWritten(ps, blob, |ps|), Places(ps)[r]) == WithTables(ps, blob, |ps|, r)
    ensures forall p: nat :: p < |blob| && Outside(Places(ps), p) ==> TablesWritten(ps, blob, |ps|)[p] == blob[p]
  {
    hide Outside, Places, Ready, TablesWritten, WithTables;
    PlacesFit(ps, |blob|);
    forall r: nat | 0 < r <= |ps|
      ensures Part(TablesWritten(ps, blob, |ps|), Places(ps)[r]) == WithTables(ps, blob, |ps|, r)
    {
      TablesPart(ps, blob, |ps|, r);
    }
    forall p: nat | p < |blob| && Outside(Places(ps), p)
      ensures TablesWritten(ps, blob, |ps|)[p] == blob[p]
    {
      TablesOutside(ps, blob, |ps|, p);
    }
  }

  /** What region r holds when the first k tables are written. */
  function WithTables(ps: seq<View>, blob: seq<byte>, k: nat, r: nat): seq<byte>
    requires Ready(ps, |blob|) && k <= |ps| && 0 < r <= |ps|
  {
    PlacesFit(ps, |blob|);
    if r <= k && Occupies(ps[r - 1]) && ps[r - 1].kind != Binary then ps[r - 1].data else Part(blob, Places(ps)[r])
  }

  lemma {:induction false} TablesPart(ps: seq<View>, blob: seq<byte>, k: nat, r: nat)
    requires Ready(ps, |blob|) && k <= |ps| && 0 < r <= |ps|
    ensures Places(ps)[r].at + Places(ps)[r].size <= |blob|
    ensures Part(TablesWritten(ps, blob, k), Places(ps)[r]) == WithTables(ps, blob, k, r)
  {
    hide Splice, Places, ProperlyFilled, Ready;
    PlacesFit(ps, |blob|);
    if k > 0 {
      TablesPart(ps, blob, k - 1, r);
      TablePart(ps, TablesWritten(ps, blob, k - 1), k - 1, r);
    }
  }

  lemma {:induction false} TablesOutside(ps: seq<View>, blob: seq<byte>, k: nat, p: nat)
    requires Ready(ps, |blob|) && k <= |ps| && p < |blob| && Outside(Places(ps), p)
    ensures TablesWritten(ps, blob, k)[p] == blob[p]
  {
    hide Splice, Places, ProperlyFilled, Ready, Outside;
    if k > 0 {
      TablesOutside(ps, blob, k - 1, p);
      if ps[k - 1].data != [] { TableOutside(ps, TablesWritten(ps, blob, k - 1), k - 1, p); }
    }
  }

  /** Where a table is written: to its place, or, if it is empty, over the header. */
  lemma TableRegion(ps: seq<View>, total: nat, k: nat) returns (r: nat)
    requires Ready(ps, total) && k < |ps| && ps[k].data != []
    ensures r <= |ps| && |ps[k].data| <= Places(ps)[r].size && ps[k].header.offset == Places(ps)[r].at
    ensures if Occupies(ps[k]) then r == k + 1 && |ps[k].data| == Places(ps)[r].size && ps[k].kind != Binary else r == 0
  {
    hide Places;
    PlacesFit(ps, total);
    assert ProperlyFilled(ps[k]);
    r := if Occupies(ps[k]) then k + 1 else 0;
  }

  lemma TablePart(ps: seq<View>, b: seq<byte>, k: nat, r: nat)
    requires Ready(ps, |b|) && k < |ps| && 0 < r <= |ps|
    ensures ps[k].data != [] ==> ps[k].header.offset + |ps[k].data| <= |b|
    ensures Places(ps)[r].at + Places(ps)[r].size <= |b|
    ensures var next := if ps[k].data == [] then b else Splice(b, ps[k].header.offset, ps[k].data);
      Part(next, Places(ps)[r])
      == if r == k + 1 && Occupies(ps[k]) && ps[k].kind != Binary then ps[k].data else Part(b, Places(ps)[r])
  {
    hide Splice, Places, ProperlyFilled, Ready;
    PlacesFit(ps, |b|);
    if ps[k].data != [] {
      var at := TableRegion(ps, |b|, k);
      ChangesOwnRegion(ps, b, at, 0, ps[k].data);
      if at == k + 1 { WholeSplice(Part(b, Places(ps)[at]), ps[k].data); }
    } else {
      EmptyIsUnplaced(ps, |b|, k);
    }
  }

  lemma TableOutside(ps: seq<View>, b: seq<byte>, k: nat, p: nat)
    requires Ready(ps, |b|) && k < |ps| && p < |b| && Outside(Places(ps), p) && ps[k].data != []
    ensures ps[k].header.offset + |ps[k].data| <= |b| && Splice(b, ps[k].header.offset, ps[k].data)[p] == b[p]
  {
    hide Splice, Places, ProperlyFilled, Ready, Outside;
    PlacesFit(ps, |b|);
    var at := TableRegion(ps, |b|, k);
    ChangesOwnRegion(ps, b, at, 0, ps[k].data);
  }

  lemma EmptyIsUnplaced(ps: seq<View>, total: nat, k: nat)
    requires Ready(ps, total) && k < |ps| && ps[k].data == []
    ensures !Occupies(ps[k]) || ps[k].kind == Binary
  {
    assert ProperlyFilled(ps[k]);
  }

  lemma WholeSplice(s: seq<byte>, bs: seq<byte>)
    requires |s| == |bs|
    ensures Splice(s, 0, bs) == bs
  {}

  /** Emitting leaves the header table intact, whatever the tables before it wrote, and every streamed byte. */
  lemma EmitHolds(ps: seq<View>, initial: seq<byte>, s: Stream)
    requires Holds(ps, initial, s)
    ensures Holds(ps, initial, Stream(Generated(ps, s.blob), s.appended, true))
  {
    hide Outside, Apart, Splice, HeaderFor, HeadersOf, Places, ProperlyFilled, EncodeElfHeader, EncodeHeaders, TablesWritten;
    var t := Stream(Generated(ps, s.blob), s.appended, true);
    PlacesFit(ps, |initial|);
    var b := TablesWritten(ps, s.blob, |ps|);
    var header, table := EncodeElfHeader(HeaderFor(|ps|)), EncodeHeaders(HeadersOf(ps));
    TablesHold(ps, s.blob);
    ChangesOwnRegion(ps, b, 0, 0, header);
    ChangesOwnRegion(ps, Splice(b, 0, header), 0, HEADER_SIZE, table);
    BothSpliced(Part(b, Places(ps)[0]), header, table);
    forall r: nat | r <= |ps| ensures Part(t.blob, Places(ps)[r]) == Expected(ps, initial, t, r) {
      assert Part(s.blob, Places(ps)[r]) == Expected(ps, initial, s, r);
    }
  }

  lemma BothSpliced(s: seq<byte>, a: seq<byte>, b: seq<byte>)
    requires |s| == |a| + |b|
    ensures Splice(Splice(s, 0, a), |a|, b) == a + b
  {}

  // ---------- runs ----------

  /** A client streams bytes into a section, or has headers and tables emitted. */
  datatype Write = Append(section: nat, bytes: seq<byte>) | Emit

  /** An append that does not fit throws and changes nothing. */
  function Written(ps: seq<View>, s: Stream, w: Write): (t: Stream)
    requires Ready(ps, |s.blob|) && |s.appended| == |ps|
    ensures |t.blob| == |s.blob| && |t.appended| == |s.appended|
  {
    match w
      case Emit => Stream(Generated(ps, s.blob), s.appended, true)
      case Append(i, bytes) => if CanAppend(ps, s, i, bytes) then Appended(ps, s, i, bytes) else s
  }

  function AllWritten(ps: seq<View>, s: Stream, ws: seq<Write>): (t: Stream)
    requires Ready(ps, |s.blob|) && |s.appended| == |ps|
    ensures |t.blob| == |s.blob| && |t.appended| == |s.appended|
  {
    if ws == [] then s else Written(ps, AllWritten(ps, s, ws[..|ws| - 1]), ws[|ws| - 1])
  }

  lemma NothingWritten(ps: seq<View>, s: Stream)
    requires Ready(ps, |s.blob|) && |s.appended| == |ps|
    ensures AllWritten(ps, s, []) == s
  {}

  lemma OneWritten(ps: seq<View>, s: Stream, ws: seq<Write>, k: nat)
    requires Ready(ps, |s.blob|) && |s.appended| == |ps| && k < |ws|
    ensures AllWritten(ps, s, ws[..k + 1]) == Written(ps, AllWritten(ps, s, ws[..k]), ws[k])
  {
    assert ws[..k + 1][..k] == ws[..k];
  }

  /** Over every run, every section holds what was appended to it, and nothing else is disturbed. */
  lemma {:induction false} RunHolds(ps: seq<View>, initial: seq<byte>, ws: seq<Write>)
    requires Ready(ps, |initial|)
    ensures Holds(ps, initial, AllWritten(ps, Started(ps, initial), ws))
  {
    hide Holds, Ready, Appended, Generated;
    if ws == [] {
      HoldsAtStart(ps, initial);
    } else {
      RunHolds(ps, initial, ws[..|ws| - 1]);
      var s, w := AllWritten(ps, Started(ps, initial), ws[..|ws| - 1]), ws[|ws| - 1];
      if w == Emit {
        EmitHolds(ps, initial, s);
      } else if CanAppend(ps, s, w.section, w.bytes) {
        AppendHolds(ps, initial, s, w.section, w.bytes);
      }
    }
  }

  /** The bytes that a client meant for section i, in its order. */
  function OwnBytes(ws: seq<Write>, i: nat): seq<byte> {
    if ws == [] then []
    else OwnBytes(ws[..|ws| - 1], i) + match ws[|ws| - 1]
      case Emit => []
      case Append(j, bytes) => if i == j then bytes else []
  }

  predicate Fitting(ps: seq<View>, ws: seq<Write>) {
    (forall k :: 0 <= k < |ws| && ws[k].Append? ==> ws[k].section < |ps| && ps[ws[k].section].kind == Binary)
    && forall i :: 0 <= i < |ps| && ps[i].kind == Binary ==> |OwnBytes(ws, i)| <= ps[i].header.size
  }

  lemma {:induction false} OwnBytesArrive(ps: seq<View>, initial: seq<byte>, ws: seq<Write>)
    requires Ready(ps, |initial|) && Fitting(ps, ws)
    ensures var s := AllWritten(ps, Started(ps, initial), ws);
      (forall i :: 0 <= i < |ps| ==> s.appended[i] == OwnBytes(ws, i)) && (s.generated <==> Emit in ws)
  {
    hide Ready, Fitting, Written, CanAppend;
    if ws != [] {
      OwnBytesArrive(ps, initial, ws[..|ws| - 1]) by { FittingBefore(ps, ws); }
      OneMore(ps, AllWritten(ps, Started(ps, initial), ws[..|ws| - 1]), ws);
    }
  }

  lemma FittingBefore(ps: seq<View>, ws: seq<Write>)
    requires Fitting(ps, ws) && ws != []
    ensures Fitting(ps, ws[..|ws| - 1])
  {
    forall i | 0 <= i < |ps| && ps[i].kind == Binary ensures |OwnBytes(ws[..|ws| - 1], i)| <= ps[i].header.size {
      assert |OwnBytes(ws[..|ws| - 1], i)| <= |OwnBytes(ws, i)|;
    }
  }

  lemma OneMore(ps: seq<View>, s: Stream, ws: seq<Write>)
    requires Ready(ps, |s.blob|) && |s.appended| == |ps| && Fitting(ps, ws) && ws != []
    requires forall i :: 0 <= i < |ps| ==> s.appended[i] == OwnBytes(ws[..|ws| - 1], i)
    requires s.generated <==> Emit in ws[..|ws| - 1]
    ensures var t := Written(ps, s, ws[|ws| - 1]);
      (forall i :: 0 <= i < |ps| ==> t.appended[i] == OwnBytes(ws, i)) && (t.generated <==> Emit in ws)
  {
    hide *;
    var before, w := ws[..|ws| - 1], ws[|ws| - 1];
    var t := Written(ps, s, w);
    LastOrBefore(ws);
    StepWritten(ps, s, w);
    forall i | 0 <= i < |ps| ensures t.appended[i] == OwnBytes(ws, i) {
      OwnBytesStep(ws, i);
      LastFits(ps, ws);
    }
  }

  lemma LastOrBefore(ws: seq<Write>)
    requires ws != []
    ensures Emit in ws <==> Emit in ws[..|ws| - 1] || ws[|ws| - 1] == Emit
  {
    assert ws == ws[..|ws| - 1] + [ws[|ws| - 1]];
  }

  lemma LastFits(ps: seq<View>, ws: seq<Write>)
    requires Fitting(ps, ws) && ws != []
    ensures var w := ws[|ws| - 1];
      w.Append? ==> w.section < |ps| && ps[w.section].kind == Binary && |OwnBytes(ws, w.section)| <= ps[w.section].header.size
  {}

  lemma OwnBytesStep(ws: seq<Write>, i: nat)
    requires ws != []
    ensures var before, w := ws[..|ws| - 1], ws[|ws| - 1];
      OwnBytes(ws, i) == if w.Append? && w.section == i then OwnBytes(before, i) + w.bytes else OwnBytes(before, i)
  {}

  lemma StepWritten(ps: seq<View>, s: Stream, w: Write)
    requires Ready(ps, |s.blob|) && |s.appended| == |ps|
    ensures var t := Written(ps, s, w);
      (forall i :: 0 <= i < |ps| ==> (t.appended[i] ==
        if w.Append? && w.section == i && ps[i].kind == Binary && |s.appended[i]| + |w.bytes| <= ps[i].header.size
        then s.appended[i] + w.bytes else s.appended[i]))
      && (t.generated <==> s.generated || w == Emit)
  {
    hide Ready, Generated, Splice, Places;
  }

  lemma PlacesApart(ps: seq<View>, total: nat)
    requires Ready(ps, total)
    ensures Apart(Places(ps), total)
  {}

  /** The interleaving does not matter: streams that hand every section the same bytes in the same order leave the same
      blob, whether headers and tables were emitted before, between or after, once or more often. */
  lemma InterleavingDoesNotMatter(ps: seq<View>, initial: seq<byte>, ws: seq<Write>, vs: seq<Write>)
    requires Ready(ps, |initial|) && Fitting(ps, ws) && Fitting(ps, vs)
    requires forall i :: 0 <= i < |ps| ==> OwnBytes(ws, i) == OwnBytes(vs, i)
    requires Emit in ws <==> Emit in vs
    ensures AllWritten(ps, Started(ps, initial), ws) == AllWritten(ps, Started(ps, initial), vs)
  {
    hide AllWritten, OwnBytes, Started, Fitting, Outside, Ready, Places, Expected, Apart;
    var s, t := AllWritten(ps, Started(ps, initial), ws), AllWritten(ps, Started(ps, initial), vs);
    PlacesFit(ps, |initial|);
    PlacesApart(ps, |initial|);
    OwnBytesArrive(ps, initial, ws);
    OwnBytesArrive(ps, initial, vs);
    RunHolds(ps, initial, ws);
    RunHolds(ps, initial, vs);
    assert s.appended == t.appended;
    forall r | 0 <= r < |Places(ps)| ensures Part(s.blob, Places(ps)[r]) == Part(t.blob, Places(ps)[r]) {
      OtherExpected(ps, initial, s, t, r);
      assert Part(s.blob, Places(ps)[r]) == Expected(ps, initial, s, r);
      assert Part(t.blob, Places(ps)[r]) == Expected(ps, initial, t, r);
    }
    Determined(s.blob, t.blob, Places(ps));
  }

  // ---------- facts for the writer's loops ----------

  lemma EnoughFields(vs: seq<View>)
    requires Fresh(vs) && FitsFields(vs)
    ensures |vs| < 0xffff && TotalSize(vs) < TWO_64 && NoOverflow(AllAfter(vs))
  {}

  lemma NothingPlaced(ws: seq<View>)
    ensures End(ws, 0) == DataStart(|ws|)
  {}

  lemma BlobIsLargeEnough(ps: seq<View>, total: nat)
    requires Ready(ps, total)
    ensures total >= DataStart(|ps|) > 0
  {}

  lemma WritesFit(ps: seq<View>, total: nat, k: nat)
    requires Ready(ps, total) && k < |ps| && ps[k].data != []
    ensures ps[k].header.offset < total && ps[k].header.offset + |ps[k].data| <= total
  {
    hide Places;
    PlacesFit(ps, total);
    assert ProperlyFilled(ps[k]);
    assert Places(ps)[k + 1] == PlaceOf(ps[k]);
  }

  /** The bytes of an append, written where the section's cursor stands. */
  lemma AppendedBytes(ps: seq<View>, s: Stream, i: nat, bytes: seq<byte>)
    requires Ready(ps, |s.blob|) && |s.appended| == |ps| && CanAppend(ps, s, i, bytes)
    requires ps[i].header.offset + ps[i].header.size <= |s.blob|
    ensures Appended(ps, s, i, bytes).blob == Splice(s.blob, ps[i].header.offset + |s.appended[i]|, bytes)
  {
    hide Ready, Places;
  }

  lemma SectionInside(ps: seq<View>, total: nat, i: nat)
    requires Ready(ps, total) && i < |ps| && ps[i].kind == Binary
    ensures ps[i].header.offset + ps[i].header.size <= total
  {
    PlacesFit(ps, total);
    assert ProperlyFilled(ps[i]) && Places(ps)[i + 1] == PlaceOf(ps[i]);
  }
}
