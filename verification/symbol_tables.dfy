/** Symbol tables and the relocation entries that refer to them, as the writer emits them. */
module SymbolTables {
  import opened Bytes
  import opened ElfCodec
  import opened Options
  import opened StringTable

  /** A symbol as it was added: its index is the position at which that happened, its related section a section index. */
  datatype NewSymbol = NewSymbol(name: seq<byte>, info: u8, other: u8, related: Option<nat>, value: u64, size: u64, index: nat)
  {
    function Binding(): nat { info / 16 }
  }

  /** Every symbol still carries the position at which it was added. */
  predicate AsAdded(symbols: seq<NewSymbol>) {
    forall i :: 0 <= i < |symbols| ==> symbols[i].index == i
  }

  // ---------- the stable order by binding ----------

  predicate BindingOrdered(symbols: seq<NewSymbol>) {
    forall i, j :: 0 <= i < j < |symbols| ==> symbols[i].Binding() <= symbols[j].Binding()
  }

  function Insert(s: NewSymbol, ordered: seq<NewSymbol>): (r: seq<NewSymbol>)
    ensures |r| == |ordered| + 1
  {
    if ordered == [] || s.Binding() <= ordered[0].Binding() then [s] + ordered
    else [ordered[0]] + Insert(s, ordered[1..])
  }

  function StableSort(symbols: seq<NewSymbol>): (r: seq<NewSymbol>)
    ensures |r| == |symbols|
  {
    if symbols == [] then [] else Insert(symbols[0], StableSort(symbols[1..]))
  }

  /** The symbols of one binding, in their order. */
  function OfBinding(symbols: seq<NewSymbol>, b: nat): seq<NewSymbol> {
    if symbols == [] then []
    else (if symbols[0].Binding() == b then [symbols[0]] else []) + OfBinding(symbols[1..], b)
  }

  /** What a stable sort by binding promises: the order, and for each binding the same symbols in the same order. */
  ghost predicate IsStableOrder(r: seq<NewSymbol>, symbols: seq<NewSymbol>) {
    BindingOrdered(r) && forall b: nat :: OfBinding(r, b) == OfBinding(symbols, b)
  }

  lemma {:induction false} InsertKeepsOrder(s: NewSymbol, ordered: seq<NewSymbol>)
    requires BindingOrdered(ordered)
    ensures BindingOrdered(Insert(s, ordered))
    ensures Insert(s, ordered)[0].Binding() == s.Binding()
      || (ordered != [] && Insert(s, ordered)[0].Binding() == ordered[0].Binding() < s.Binding())
  {
    if !(ordered == [] || s.Binding() <= ordered[0].Binding()) {
      InsertKeepsOrder(s, ordered[1..]);
      var rest := Insert(s, ordered[1..]);
      assert forall k :: 0 <= k < |rest| ==> rest[0].Binding() <= rest[k].Binding();
    }
  }

  lemma {:induction false} InsertKeepsBindings(s: NewSymbol, ordered: seq<NewSymbol>, b: nat)
    ensures OfBinding(Insert(s, ordered), b) == OfBinding([s] + ordered, b)
  {
    assert ([s] + ordered)[1..] == ordered;
    if !(ordered == [] || s.Binding() <= ordered[0].Binding()) {
      InsertKeepsBindings(s, ordered[1..], b);
      assert ([s] + ordered[1..])[1..] == ordered[1..];
      assert Insert(s, ordered)[1..] == Insert(s, ordered[1..]);
    }
  }

  lemma {:induction false} SortIsStable(symbols: seq<NewSymbol>)
    ensures IsStableOrder(StableSort(symbols), symbols)
  {
    if symbols != [] {
      var rest := StableSort(symbols[1..]);
      SortIsStable(symbols[1..]);
      InsertKeepsOrder(symbols[0], rest);
      forall b: nat ensures OfBinding(StableSort(symbols), b) == OfBinding(symbols, b) {
        InsertKeepsBindings(symbols[0], rest, b);
        assert ([symbols[0]] + rest)[1..] == rest;
      }
    }
  }

  lemma {:induction false} SomeOfBinding(symbols: seq<NewSymbol>, b: nat)
    ensures OfBinding(symbols, b) != [] ==> exists i :: 0 <= i < |symbols| && symbols[i].Binding() == b
  {
    if symbols != [] && symbols[0].Binding() != b && OfBinding(symbols, b) != [] {
      SomeOfBinding(symbols[1..], b);
      var i :| 0 <= i < |symbols[1..]| && symbols[1..][i].Binding() == b;
      assert symbols[i + 1].Binding() == b;
    }
  }

  /** Those promises leave one result. */
  lemma {:induction false} StableOrderIsUnique(r: seq<NewSymbol>, t: seq<NewSymbol>)
    requires BindingOrdered(r) && IsStableOrder(t, r)
    ensures r == t
  {
    if r == [] {
      assert t == [] || OfBinding(t, t[0].Binding()) == OfBinding(r, t[0].Binding());
    } else {
      var b := r[0].Binding();
      assert OfBinding(r, b) == OfBinding(t, b) && OfBinding(r, b)[0] == r[0];
      SomeOfBinding(t, b);
      var c := t[0].Binding();
      assert OfBinding(t, c) == OfBinding(r, c) && OfBinding(t, c)[0] == t[0];
      SomeOfBinding(r, c);
      assert b == c && r[0] == t[0];
      forall d: nat ensures OfBinding(t[1..], d) == OfBinding(r[1..], d) {
        var k := if d == b then 1 else 0;
        assert OfBinding(r[1..], d) == OfBinding(r, d)[k..];
        assert OfBinding(t[1..], d) == OfBinding(t, d)[k..];
      }
      StableOrderIsUnique(r[1..], t[1..]);
      assert r == [r[0]] + r[1..] && t == [t[0]] + t[1..];
    }
  }

  /** The emitted order is the order of adding exactly if the bindings were added in non-decreasing order. */
  lemma SortedAlready(symbols: seq<NewSymbol>)
    ensures StableSort(symbols) == symbols <==> BindingOrdered(symbols)
  {
    SortIsStable(symbols);
    if BindingOrdered(symbols) {
      StableOrderIsUnique(symbols, StableSort(symbols));
    }
  }

  /** The null symbol stays first, as local symbols come first and it is the first of them. */
  lemma NullSymbolStaysFirst(symbols: seq<NewSymbol>)
    requires symbols != [] && symbols[0].Binding() == 0
    ensures StableSort(symbols)[0] == symbols[0]
  {
    SortIsStable(symbols);
    var r := StableSort(symbols);
    assert OfBinding(r, 0) == OfBinding(symbols, 0) && OfBinding(symbols, 0)[0] == symbols[0];
    SomeOfBinding(r, 0);
    assert r[0].Binding() == 0 && OfBinding(r, 0)[0] == r[0];
  }

  /** How many symbols have a smaller binding. */
  function CountBelow(symbols: seq<NewSymbol>, b: nat): (n: nat)
    ensures n <= |symbols|
  {
    if symbols == [] then 0 else (if symbols[0].Binding() < b then 1 else 0) + CountBelow(symbols[1..], b)
  }

  /** Where symbol i belongs: behind all of smaller binding and behind the earlier ones of its own. */
  function Rank(symbols: seq<NewSymbol>, i: nat): nat
    requires i < |symbols|
  {
    CountBelow(symbols, symbols[i].Binding()) + |OfBinding(symbols[..i], symbols[i].Binding())|
  }

  lemma {:induction false} NoneBelow(ordered: seq<NewSymbol>, b: nat)
    requires BindingOrdered(ordered) && (ordered != [] ==> b <= ordered[0].Binding())
    ensures CountBelow(ordered, b) == 0
  {
    if ordered != [] {
      NoneBelow(ordered[1..], b);
    }
  }

  lemma {:induction false} InsertAt(s: NewSymbol, ordered: seq<NewSymbol>)
    requires BindingOrdered(ordered)
    ensures var q := CountBelow(ordered, s.Binding());
      Insert(s, ordered) == ordered[..q] + [s] + ordered[q..]
      && (forall k :: 0 <= k < q ==> ordered[k].Binding() < s.Binding())
      && (forall k :: q <= k < |ordered| ==> s.Binding() <= ordered[k].Binding())
  {
    if ordered == [] || s.Binding() <= ordered[0].Binding() {
      NoneBelow(ordered, s.Binding());
      assert ordered[..0] + [s] + ordered[0..] == [s] + ordered;
    } else {
      InsertAt(s, ordered[1..]);
      InsertedBehind(ordered, CountBelow(ordered[1..], s.Binding()), s);
      forall k | 0 < k < |ordered| ensures ordered[k] == ordered[1..][k - 1] {}
    }
  }

  lemma InsertedBehind(ordered: seq<NewSymbol>, q: nat, s: NewSymbol)
    requires ordered != [] && q < |ordered|
    ensures [ordered[0]] + (ordered[1..][..q] + [s] + ordered[1..][q..]) == ordered[..q + 1] + [s] + ordered[q + 1..]
  {}

  lemma {:induction false} CountInserted(s: NewSymbol, ordered: seq<NewSymbol>, b: nat)
    ensures CountBelow(Insert(s, ordered), b) == CountBelow(ordered, b) + if s.Binding() < b then 1 else 0
  {
    if !(ordered == [] || s.Binding() <= ordered[0].Binding()) {
      CountInserted(s, ordered[1..], b);
    }
  }

  lemma {:induction false} CountSorted(symbols: seq<NewSymbol>, b: nat)
    ensures CountBelow(StableSort(symbols), b) == CountBelow(symbols, b)
  {
    if symbols != [] {
      CountSorted(symbols[1..], b);
      CountInserted(symbols[0], StableSort(symbols[1..]), b);
    }
  }

  /** Sorting moves every symbol to its rank. */
  lemma {:induction false} SortedToRank(symbols: seq<NewSymbol>, i: nat)
    requires i < |symbols|
    ensures Rank(symbols, i) < |symbols| && StableSort(symbols)[Rank(symbols, i)] == symbols[i]
    decreases |symbols|
  {
    var s, rest := symbols[0], symbols[1..];
    SortIsStable(rest);
    InsertAt(s, StableSort(rest));
    CountSorted(rest, s.Binding());
    if i > 0 {
      SortedToRank(rest, i - 1);
      RankInRest(symbols, i);
    }
  }

  lemma RankInRest(symbols: seq<NewSymbol>, i: nat)
    requires 0 < i < |symbols|
    ensures Rank(symbols, i) == Rank(symbols[1..], i - 1) + if symbols[0].Binding() <= symbols[i].Binding() then 1 else 0
  {
    assert symbols[..i][1..] == symbols[1..][..i - 1];
  }

  // ---------- the emitted symbol table ----------

  function NamesOf(symbols: seq<NewSymbol>): seq<seq<byte>> {
    seq(|symbols|, i requires 0 <= i < |symbols| => symbols[i].name)
  }

  /** The entry for the symbol at position k, when the names section held these bytes before the first of them. */
  function EntryOf(symbols: seq<NewSymbol>, names: seq<byte>, k: nat): SymbolEntry
    requires k < |symbols|
  {
    var s := symbols[k];
    SymbolEntry(OffsetFor(AllAdded(names, NamesOf(symbols), k), s.name) % TWO_32, s.info, s.other,
                if s.related.Some? then s.related.value % TWO_16 else 0, s.value, s.size)
  }

  function SymbolTable(symbols: seq<NewSymbol>, names: seq<byte>, k: nat): (table: seq<byte>)
    requires k <= |symbols|
    ensures |table| == k * ENTRY_SIZE
  {
    if k == 0 then [] else SymbolTable(symbols, names, k - 1) + EncodeSymbol(EntryOf(symbols, names, k - 1))
  }

  lemma {:induction false} EntryInTable(symbols: seq<NewSymbol>, names: seq<byte>, i: nat, k: nat)
    requires i < k <= |symbols|
    ensures i * ENTRY_SIZE + ENTRY_SIZE <= |SymbolTable(symbols, names, k)|
    ensures SymbolTable(symbols, names, k)[i * ENTRY_SIZE..i * ENTRY_SIZE + ENTRY_SIZE] == EncodeSymbol(EntryOf(symbols, names, i))
  {
    hide EncodeSymbol, EntryOf;
    if i < k - 1 {
      EntryInTable(symbols, names, i, k - 1);
    }
  }

  // ---------- the emitted relocation table ----------

  /** A relocation refers to a symbol by the index at which that was added, or to a special one. */
  datatype NewRelocation = NewRelocation(offset: u64, rtype: u32, special: u32, addend: u64, symbol: Option<nat>)

  function RelocationOf(r: NewRelocation): RelaEntry {
    RelaEntry(r.offset, RInfo(if r.symbol.Some? then r.symbol.value % TWO_32 else r.special, r.rtype), r.addend)
  }

  function RelocationTable(relocations: seq<NewRelocation>, k: nat): (table: seq<byte>)
    requires k <= |relocations|
    ensures |table| == k * ENTRY_SIZE
  {
    if k == 0 then [] else RelocationTable(relocations, k - 1) + EncodeRela(RelocationOf(relocations[k - 1]))
  }

  lemma {:induction false} RelocationInTable(relocations: seq<NewRelocation>, i: nat, k: nat)
    requires i < k <= |relocations|
    ensures i * ENTRY_SIZE + ENTRY_SIZE <= |RelocationTable(relocations, k)|
    ensures RelocationTable(relocations, k)[i * ENTRY_SIZE..i * ENTRY_SIZE + ENTRY_SIZE] == EncodeRela(RelocationOf(relocations[i]))
  {
    hide EncodeRela, RelocationOf;
    if i < k - 1 {
      RelocationInTable(relocations, i, k - 1);
    }
  }

  // ---------- linking ----------

  /** What a consumer of the tables sees: entry j of the relocation table, and the symbol entry it points to. */
  function RelocationAt(table: seq<byte>, j: nat): RelaEntry
    requires j * ENTRY_SIZE + ENTRY_SIZE <= |table|
  {
    DecodeRela(table[j * ENTRY_SIZE..j * ENTRY_SIZE + ENTRY_SIZE])
  }

  function SymbolAt(table: seq<byte>, i: nat): SymbolEntry
    requires i * ENTRY_SIZE + ENTRY_SIZE <= |table|
  {
    DecodeSymbol(table[i * ENTRY_SIZE..i * ENTRY_SIZE + ENTRY_SIZE])
  }

  /** This entry describes the symbol, and its name is read from the names section. */
  predicate Describes(e: SymbolEntry, names: seq<byte>, s: NewSymbol) {
    HasFieldsOf(e, s) && CString(names, e.name) == Some(s.name)
  }

  predicate HasFieldsOf(e: SymbolEntry, s: NewSymbol) {
    e.info == s.info && e.other == s.other && e.value == s.value && e.size == s.size
    && e.shndx == (if s.related.Some? then s.related.value % TWO_16 else 0)
  }

  /** Emitted entries describe their symbols: the names are read back, whatever the names section held before and
      whatever other symbol tables add to it afterwards. */
  lemma EmittedDescribes(symbols: seq<NewSymbol>, before: seq<byte>, after: seq<byte>, i: nat)
    requires |before| > 0 && before[0] == 0 && i < |symbols|
    requires AllAdded(before, NamesOf(symbols), |symbols|) <= after && |after| < TWO_32
    requires NoNul(symbols[i].name)
    ensures i * ENTRY_SIZE + ENTRY_SIZE <= |SymbolTable(symbols, before, |symbols|)|
    ensures Describes(SymbolAt(SymbolTable(symbols, before, |symbols|), i), after, symbols[i])
  {
    hide EncodeSymbol, DecodeSymbol, SymbolTable, CString, Stands, AllAdded, NoNul;
    var names := NamesOf(symbols);
    var at := OffsetFor(AllAdded(before, names, i), names[i]);
    NameStands(symbols, before, after, i);
    StandingIsRead(after, at, names[i]);
    assert |AllAdded(before, names, i)| <= |after| by { EarlierStringsStay(before, names, i, |symbols|); }
    EntryInTable(symbols, before, i, |symbols|);
    SymbolRoundTrip(EntryOf(symbols, before, i));
  }

  lemma NameStands(symbols: seq<NewSymbol>, before: seq<byte>, after: seq<byte>, i: nat)
    requires |before| > 0 && before[0] == 0 && i < |symbols|
    requires AllAdded(before, NamesOf(symbols), |symbols|) <= after
    ensures Stands(after, OffsetFor(AllAdded(before, NamesOf(symbols), i), symbols[i].name), symbols[i].name)
  {
    var names := NamesOf(symbols);
    var b := AllAdded(before, names, i);
    EarlierStringsStay(before, names, 0, i);
    EarlierStringsStay(before, names, i + 1, |symbols|);
    AddedStands(b, names[i]);
    assert AllAdded(before, names, i + 1) == Added(b, names[i]);
    StandsInLongerTable(Added(b, names[i]), after, OffsetFor(b, names[i]), names[i]);
  }

  /** A relocation entry that names a symbol decodes to its own type, offset and addend and to the index at which the
      symbol was added. */
  lemma RelocationDecodes(relocations: seq<NewRelocation>, j: nat)
    requires j < |relocations|
    requires relocations[j].symbol.Some? ==> relocations[j].symbol.value < TWO_32
    ensures j * ENTRY_SIZE + ENTRY_SIZE <= |RelocationTable(relocations, |relocations|)|
    ensures var e := RelocationAt(RelocationTable(relocations, |relocations|), j);
      RType(e.info) == relocations[j].rtype && e.offset == relocations[j].offset && e.addend == relocations[j].addend
      && RSym(e.info) == (if relocations[j].symbol.Some? then relocations[j].symbol.value else relocations[j].special)
  {
    hide EncodeRela, DecodeRela, RelocationTable, RInfo, RSym, RType;
    RelocationInTable(relocations, j, |relocations|);
    RelaRoundTrip(RelocationOf(relocations[j]));
    var r := relocations[j];
    RInfoRoundTrip(if r.symbol.Some? then r.symbol.value % TWO_32 else r.special, r.rtype);
  }

  /** The entry at a symbol's index is the entry emitted for that symbol, for every symbol of the table. */
  predicate IndexesStay(symbols: seq<NewSymbol>) {
    forall i :: 0 <= i < |symbols| ==> StableSort(symbols)[i].index == i
  }

  lemma {:induction false} InsertKeepsSymbols(s: NewSymbol, ordered: seq<NewSymbol>)
    ensures multiset(Insert(s, ordered)) == multiset([s] + ordered)
  {
    if !(ordered == [] || s.Binding() <= ordered[0].Binding()) {
      InsertKeepsSymbols(s, ordered[1..]);
      assert ordered == [ordered[0]] + ordered[1..];
    }
  }

  lemma {:induction false} SortKeepsSymbols(symbols: seq<NewSymbol>)
    ensures multiset(StableSort(symbols)) == multiset(symbols)
  {
    if symbols != [] {
      SortKeepsSymbols(symbols[1..]);
      InsertKeepsSymbols(symbols[0], StableSort(symbols[1..]));
      assert symbols == [symbols[0]] + symbols[1..];
    }
  }

  /** The indexes handed out when symbols are added are not refreshed after sorting. They are right for all symbols
      exactly if the symbols were added in non-decreasing order of binding. */
  lemma IndexesStayExactly(symbols: seq<NewSymbol>)
    requires AsAdded(symbols)
    ensures IndexesStay(symbols) <==> BindingOrdered(symbols)
  {
    var r := StableSort(symbols);
    SortedAlready(symbols);
    SortKeepsSymbols(symbols);
    if IndexesStay(symbols) {
      forall i | 0 <= i < |r| ensures r[i] == symbols[i] {
        assert r[i] in multiset(r);
        assert r[i] in symbols;
      }
      assert r == symbols;
    }
  }

  /** One symbol's index is right exactly if its rank by binding is the position at which it was added. */
  lemma IndexStaysExactly(symbols: seq<NewSymbol>, i: nat)
    requires AsAdded(symbols) && i < |symbols|
    ensures StableSort(symbols)[i] == symbols[i] <==> Rank(symbols, i) == i
  {
    hide Rank, StableSort;
    SortedToRank(symbols, i);
    if Rank(symbols, i) != i && StableSort(symbols)[i] == symbols[i] {
      SortedTwice(symbols, i, Rank(symbols, i));
    }
  }

  lemma SortedTwice(symbols: seq<NewSymbol>, i: nat, j: nat)
    requires AsAdded(symbols) && i < |symbols| && j < |symbols| && i != j
    ensures StableSort(symbols)[i] != StableSort(symbols)[j]
  {
    var r := StableSort(symbols);
    SortKeepsSymbols(symbols);
    if r[i] == r[j] {
      OccursTwice(r, i, j);
      assert multiset(symbols)[r[i]] >= 2;
      OnceOnly(symbols, r[i]);
    }
  }

  lemma OccursTwice(r: seq<NewSymbol>, i: nat, j: nat)
    requires i < |r| && j < |r| && i != j && r[i] == r[j]
    ensures multiset(r)[r[i]] >= 2
  {
    var a, b := if i < j then i else j, if i < j then j else i;
    assert r == r[..a] + [r[a]] + r[a + 1..b] + [r[b]] + r[b + 1..];
  }

  lemma OnceOnly(symbols: seq<NewSymbol>, s: NewSymbol)
    requires AsAdded(symbols)
    ensures multiset(symbols)[s] <= 1
  {
    if s in multiset(symbols) {
      var i :| 0 <= i < |symbols| && symbols[i] == s;
      assert symbols == symbols[..i] + [s] + symbols[i + 1..];
      assert s !in symbols[..i] && s !in symbols[i + 1..];
    }
  }

  /** A global symbol added before a local one: relocations against the first end up at the second. */
  lemma MisplacedSymbol(first: NewSymbol, a: NewSymbol, b: NewSymbol)
    requires first.Binding() == 0 && a.Binding() == 1 && b.Binding() == 0
    requires AsAdded([first, a, b])
    ensures StableSort([first, a, b]) == [first, b, a] && !IndexesStay([first, a, b])
  {
    assert [first, a, b][1..] == [a, b] && [a, b][1..] == [b] && [b][1..] == [];
    assert StableSort([b]) == [b];
    assert Insert(a, [b]) == [b] + Insert(a, []);
    assert StableSort([a, b]) == [b, a];
    assert StableSort([first, a, b])[1] == b;
  }

  /** Linking: if the index of its symbol is right, following a relocation from its emitted entry to the emitted symbol
      table and on to the names section arrives at the symbol it was made for. */
  lemma LinkingIsCorrect(symbols: seq<NewSymbol>, relocations: seq<NewRelocation>, before: seq<byte>, after: seq<byte>, j: nat)
    requires |before| > 0 && before[0] == 0
    requires AllAdded(before, NamesOf(StableSort(symbols)), |symbols|) <= after && |after| < TWO_32
    requires j < |relocations| && relocations[j].symbol.Some? && relocations[j].symbol.value < |symbols| <= TWO_32
    requires AsAdded(symbols) && Rank(symbols, relocations[j].symbol.value) == relocations[j].symbol.value
    requires NoNul(symbols[relocations[j].symbol.value].name)
    ensures j * ENTRY_SIZE + ENTRY_SIZE <= |RelocationTable(relocations, |relocations|)|
    ensures var e := RelocationAt(RelocationTable(relocations, |relocations|), j);
      var table := SymbolTable(StableSort(symbols), before, |symbols|);
      RType(e.info) == relocations[j].rtype && RSym(e.info) * ENTRY_SIZE + ENTRY_SIZE <= |table|
      && Describes(SymbolAt(table, RSym(e.info)), after, symbols[relocations[j].symbol.value])
  {
    hide SymbolTable, RelocationTable, StableSort, RSym, RType, SymbolAt, RelocationAt, Describes, Rank;
    RelocationDecodes(relocations, j);
    IndexStaysExactly(symbols, relocations[j].symbol.value);
    EmittedDescribes(StableSort(symbols), before, after, relocations[j].symbol.value);
  }
}
