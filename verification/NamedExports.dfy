/** Exports of an ELF DLL by name: the list of exported symbols, their names, and the section to look
    them up by. */
module NamedExports {
  import opened Bytes
  import opened Buffers
  import opened ExportNames
  import opened ExportSorting
  import opened LookupSection

  // Writing the section

  lemma SymbolKept(before: seq<Byte>, after: seq<Byte>, at: nat, n: nat, count: nat, wide: bool, i: nat, sym: Sym)
    requires |before| == |after| && SymbolHas(before, count, wide, i, sym)
    requires forall k :: 0 <= k < |before| && !(at <= k < at + n) ==> after[k] == before[k]
    requires Clear(at, n, HEADER_SIZE + 4 * i, 4) && Clear(at, n, EntryAt(NamesAt(count), wide, i), EntrySize(wide))
    requires Clear(at, n, StringsAt(count, wide) + sym.offset, |sym.name| + 1)
    ensures SymbolHas(after, count, wide, i, sym)
  {
    hide LittleEndian, Clear, Has, EntryAt, EntrySize, StringsAt;
    Kept(before, after, at, n, HEADER_SIZE + 4 * i, LittleEndian(4, sym.value));
    Kept(before, after, at, n, EntryAt(NamesAt(count), wide, i), LittleEndian(EntrySize(wide), sym.offset / 4));
    Kept(before, after, at, n, StringsAt(count, wide) + sym.offset, sym.name + [0]);
  }

  /** The parts of symbol `i` are clear of those of another symbol. */
  lemma PartsClear(count: nat, wide: bool, i: nat, sym: Sym, j: nat, other: Sym)
    requires i < count && j < count && i != j && Apart(PlaceOf(sym), PlaceOf(other))
    ensures var addresses, names, strings := HEADER_SIZE + 4 * i, EntryAt(NamesAt(count), wide, i), StringsAt(count, wide) + sym.offset;
            && Clear(addresses, 4, HEADER_SIZE + 4 * j, 4) && Clear(addresses, 4, EntryAt(NamesAt(count), wide, j), EntrySize(wide))
            && Clear(addresses, 4, StringsAt(count, wide) + other.offset, |other.name| + 1)
            && Clear(names, EntrySize(wide), HEADER_SIZE + 4 * j, 4)
            && Clear(names, EntrySize(wide), EntryAt(NamesAt(count), wide, j), EntrySize(wide))
            && Clear(names, EntrySize(wide), StringsAt(count, wide) + other.offset, |other.name| + 1)
            && Clear(strings, |sym.name| + 1, HEADER_SIZE + 4 * j, 4)
            && Clear(strings, |sym.name| + 1, EntryAt(NamesAt(count), wide, j), EntrySize(wide))
            && Clear(strings, |sym.name| + 1, StringsAt(count, wide) + other.offset, |other.name| + 1)
  {
  }

  ghost predicate AllHave(bytes: seq<Byte>, count: nat, wide: bool, syms: seq<Sym>, n: nat)
    requires n <= |syms|
  {
    forall j :: 0 <= j < n ==> SymbolHas(bytes, count, wide, j, syms[j])
  }

  lemma AllKept(before: seq<Byte>, after: seq<Byte>, at: nat, n: nat, count: nat, wide: bool, syms: seq<Sym>, i: nat)
    requires |before| == |after| && i < |syms| <= count && AllHave(before, count, wide, syms, i)
    requires forall k :: 0 <= k < |before| && !(at <= k < at + n) ==> after[k] == before[k]
    requires forall j :: 0 <= j < i ==> Apart(PlaceOf(syms[j]), PlaceOf(syms[i]))
    requires || (at == HEADER_SIZE + 4 * i && n == 4)
             || (at == EntryAt(NamesAt(count), wide, i) && n == EntrySize(wide))
             || (at == StringsAt(count, wide) + syms[i].offset && n == |syms[i].name| + 1)
    ensures AllHave(after, count, wide, syms, i)
  {
    hide SymbolHas, Clear, EntryAt, EntrySize, StringsAt, Apart;
    forall j | 0 <= j < i ensures SymbolHas(after, count, wide, j, syms[j]) {
      ApartEither(PlaceOf(syms[j]), PlaceOf(syms[i]));
      PartsClear(count, wide, i, syms[i], j, syms[j]);
      SymbolKept(before, after, at, n, count, wide, j, syms[j]);
    }
  }

  lemma ApartEither(a: Place, b: Place)
    requires Apart(a, b)
    ensures Apart(b, a)
  {
  }

  /** Where the parts of a symbol are, one after the other and inside the section. */
  lemma PartsInside(count: nat, wide: bool, i: nat, sym: Sym, tableSize: nat, last: nat)
    requires i < count && LaidAt(sym, tableSize, last)
    ensures HEADER_SIZE + 4 * i + 4 <= NamesAt(count) <= EntryAt(NamesAt(count), wide, i)
    ensures EntryAt(NamesAt(count), wide, i) + EntrySize(wide) <= StringsAt(count, wide)
    ensures StringsAt(count, wide) + sym.offset + |sym.name| + 1 <= StringsAt(count, wide) + tableSize
  {
  }

  method WriteSymbol(buff: array<Byte>, count: nat, wide: bool, i: nat, ghost syms: seq<Sym>, value: Word, name: seq<Byte>, offset: nat,
                     ghost tableSize: nat, ghost last: nat)
    requires i < |syms| <= count && syms[i] == Sym(name, value, offset) && Laid(syms, tableSize, last)
    requires StringsAt(count, wide) + tableSize <= buff.Length && AllHave(buff[..], count, wide, syms, i)
    modifies buff
    ensures AllHave(buff[..], count, wide, syms, i + 1)
    ensures forall k :: 0 <= k < buff.Length && !(HEADER_SIZE <= k < StringsAt(count, wide) + tableSize) ==> buff[k] == old(buff[k])
  {
    hide SymbolHas, EntryAt, EntrySize, StringsAt, NamesAt, Has, LittleEndian, Apart;
    ghost var sym := syms[i];
    PartsInside(count, wide, i, sym, tableSize, last);
    ghost var b0 := buff[..];
    Put(buff, HEADER_SIZE + 4 * i, LittleEndian(4, value));
    ghost var b1 := buff[..];
    AllKept(b0, b1, HEADER_SIZE + 4 * i, 4, count, wide, syms, i);
    var entry := EntryAt(NamesAt(count), wide, i);
    Put(buff, entry, LittleEndian(EntrySize(wide), offset / 4));
    ghost var b2 := buff[..];
    AllKept(b1, b2, entry, EntrySize(wide), count, wide, syms, i);
    Kept(b1, b2, entry, EntrySize(wide), HEADER_SIZE + 4 * i, LittleEndian(4, value));
    Put(buff, StringsAt(count, wide) + offset, name + [0]);
    ghost var b3 := buff[..];
    AllKept(b2, b3, StringsAt(count, wide) + offset, |name| + 1, count, wide, syms, i);
    Kept(b2, b3, StringsAt(count, wide) + offset, |name| + 1, HEADER_SIZE + 4 * i, LittleEndian(4, value));
    Kept(b2, b3, StringsAt(count, wide) + offset, |name| + 1, entry, LittleEndian(EntrySize(wide), offset / 4));
    OneMore(b3, count, wide, syms, i);
  }

  lemma OneMore(bytes: seq<Byte>, count: nat, wide: bool, syms: seq<Sym>, i: nat)
    requires i < |syms| && AllHave(bytes, count, wide, syms, i)
    requires Has(bytes, HEADER_SIZE + 4 * i, LittleEndian(4, syms[i].value))
    requires Has(bytes, EntryAt(NamesAt(count), wide, i), LittleEndian(EntrySize(wide), syms[i].offset / 4))
    requires Has(bytes, StringsAt(count, wide) + syms[i].offset, syms[i].name + [0])
    ensures AllHave(bytes, count, wide, syms, i + 1)
  {
  }

  // The list of symbols

  function Values(symbols: Symbols): (r: seq<Word>)
    ensures |r| == |symbols|
    ensures forall i :: 0 <= i < |symbols| ==> r[i] == symbols[i].value
  {
    Map((s: NamedExportSymbol) => s.value, symbols)
  }

  /** The entries of an export table that are not marked absent by the address of the entry point. */
  function Present(entries: seq<Word>, entryPoint: Word): seq<Word> {
    if entries == [] then []
    else
      Present(entries[..|entries| - 1], entryPoint)
      + if entries[|entries| - 1] == entryPoint then [] else [entries[|entries| - 1]]
  }

  /** A symbol has the name and the offset of a place, or no name. */
  ghost predicate IsPlaced(symbol: NamedExportSymbol, place: Option<Place>)
    reads symbol
  {
    match place
    case None => symbol.name == None
    case Some(p) => symbol.name == Some(p.name) && symbol.nameOffset == p.offset
  }

  ghost predicate ArePlaced(symbols: Symbols, places: seq<Option<Place>>)
    reads symbols
  {
    |symbols| == |places| && forall i :: 0 <= i < |symbols| ==> IsPlaced(symbols[i], places[i])
  }

  ghost predicate IsSym(symbol: NamedExportSymbol, sym: Sym)
    reads symbol
  {
    symbol.name == Some(sym.name) && symbol.value == sym.value && symbol.nameOffset == sym.offset
  }

  ghost predicate AreSyms(symbols: Symbols, syms: seq<Sym>)
    reads symbols
  {
    |symbols| == |syms| && forall i :: 0 <= i < |symbols| ==> IsSym(symbols[i], syms[i])
  }

  ghost predicate Ascending(syms: seq<Sym>) {
    forall i, j :: 0 <= i < j < |syms| ==> !StandsBefore(syms[j].name, syms[i].name)
  }

  /** Each symbol has the name of some symbol of the table with its address. */
  ghost predicate NamedFrom(syms: seq<Sym>, table: seq<DynSym>) {
    forall i :: 0 <= i < |syms| ==> NameOf(syms[i], table)
  }

  class ELFDllData {
    var head: NamedExportSymbol?
    var exportCount: nat
    var stringTableSize: nat
    var stringNameOffset: nat
    var header: Header
    ghost var symbols: Symbols

    ghost predicate Valid()
      reads this, symbols
    {
      Linked(head, symbols) && exportCount == |symbols|
    }

    constructor ()
      ensures Valid() && symbols == [] && stringTableSize == stringNameOffset == 0
    {
      head, exportCount, stringTableSize, stringNameOffset, symbols := null, 0, 0, 0, [];
      header := Header(0, 0, 0, 0, 0, 0, 0, 0);
    }

    method Append(prev: NamedExportSymbol?, symbol: NamedExportSymbol)
      requires Valid() && symbol !in symbols && symbol.next == null
      requires prev == if symbols == [] then null else symbols[|symbols| - 1]
      modifies this`head, this`exportCount, this`symbols, symbols
      ensures Valid() && symbols == old(symbols) + [symbol]
      ensures forall s :: s in old(symbols) ==> s.name == old(s.name)
    {
      exportCount := exportCount + 1;
      if prev != null {
        prev.next := symbol;
      } else {
        head := symbol;
      }
      forall i | 0 <= i < |symbols| ensures Joined(symbols, symbol, i) {
        assert old(LeadsOn(symbols, i));
      }
      LinkedOn(symbols, symbol);
      symbols := symbols + [symbol];
    }

    /** A symbol for every entry of the export table that is not absent, in the order of the table. */
    method SetupSymbolValues(entries: seq<Word>, entryPoint: Word)
      requires Valid() && symbols == []
      modifies this`head, this`exportCount, this`symbols
      ensures Valid() && fresh(symbols) && Values(symbols) == Present(entries, entryPoint) && Unnamed(symbols)
    {
      hide Linked, Values, Present;
      var prev: NamedExportSymbol? := null;
      ValuesNext(entries[..0], [], entryPoint);
      for idx := 0 to |entries|
        invariant Valid() && fresh(symbols) && Values(symbols) == Present(entries[..idx], entryPoint) && Unnamed(symbols)
        invariant prev == if symbols == [] then null else symbols[|symbols| - 1]
      {
        PresentNext(entries, idx, entryPoint);
        if entries[idx] != entryPoint {
          var symbol := new NamedExportSymbol(entries[idx]);
          Append(prev, symbol);
          prev := symbol;
        }
      }
      assert entries[..|entries|] == entries;
    }

    method SetName(symbol: NamedExportSymbol, name: seq<Byte>, ghost places: seq<Option<Place>>, ghost i: nat)
      requires Valid() && ArePlaced(symbols, places) && i < |symbols| && symbol == symbols[i]
      modifies this`stringTableSize, this`stringNameOffset, symbol
      ensures Valid() && ArePlaced(symbols, places[i := Some(Place(name, old(stringTableSize)))])
      ensures stringTableSize == Align4(old(stringTableSize) + |name| + 1) && stringNameOffset == old(stringTableSize) / 4
    {
      LinkedOnce(head, symbols);
      symbol.name := Some(name);
      stringNameOffset := stringTableSize / 4;
      symbol.nameOffset := stringTableSize;
      stringTableSize := Align4(stringTableSize + |name| + 1);
      ghost var places' := places[i := Some(Place(name, old(stringTableSize)))];
      forall k | 0 <= k < |symbols| ensures LeadsOn(symbols, k) {
        assert old(LeadsOn(symbols, k));
      }
      forall k | 0 <= k < |symbols| ensures IsPlaced(symbols[k], places'[k]) {
        assert k != i ==> old(IsPlaced(symbols[k], places[k]));
      }
    }

    /** Gives the name of a dynamic symbol to the first export of its address that has none. */
    method NameExport(d: DynSym, ghost p: Places) returns (found: bool)
      requires Valid() && ArePlaced(symbols, p.of) && stringTableSize == p.size && stringNameOffset == p.last && d.defined
      modifies this`stringTableSize, this`stringNameOffset, symbols
      ensures Valid()
      ensures var p' := WithName(Values(symbols), p, d);
              && ArePlaced(symbols, p'.of) && stringTableSize == p'.size && stringNameOffset == p'.last
              && p'.count == if found then p.count + 1 else p.count
    {
      hide Linked, FirstUnnamed, Values, ArePlaced, Align4;
      ghost var values := Values(symbols);
      var symbol := head;
      ghost var i := 0;
      HeadOf(head, symbols);
      PlacedCount(symbols, p.of);
      found := false;
      while symbol != null
        invariant Valid() && ArePlaced(symbols, p.of) && i <= |symbols|
        invariant symbol == (if i < |symbols| then symbols[i] else null)
        invariant stringTableSize == p.size && stringNameOffset == p.last
        invariant FirstUnnamed(values, p.of, d.value, i) == FirstUnnamed(values, p.of, d.value, 0)
        decreases |symbols| - i
      {
        PlacedAt(symbols, p.of, i);
        NextOf(head, symbols, i);
        if symbol.name.None? && d.value == symbol.value {
          SetName(symbol, d.name, p.of, i);
          found := true;
          return;
        }
        symbol := symbol.next;
        i := i + 1;
      }
    }

    /** Names the exports from the dynamic symbol table and sorts them by name. It succeeds exactly if
        no address is exported more often than it is defined. */
    method SetupSymbolNames(table: seq<DynSym>) returns (ok: bool, ghost syms: seq<Sym>)
      requires Valid() && Unnamed(symbols) && stringTableSize == stringNameOffset == 0
      requires forall k :: 0 <= k < |table| ==> 0 !in table[k].name
      modifies this`head, this`symbols, this`stringTableSize, this`stringNameOffset, symbols
      ensures ok <==> Enough(Values(old(symbols)), table)
      ensures ok ==> Valid() && AreSyms(symbols, syms) && Ascending(syms) && NamedFrom(syms, table)
      ensures ok ==> Laid(syms, stringTableSize, stringNameOffset) && stringTableSize % 4 == 0
      ensures ok ==> forall symbol :: symbol in symbols <==> symbol in old(symbols)
      ensures ok ==> 4 * |syms| <= stringTableSize && (|syms| > 0 ==> |syms| - 1 <= stringNameOffset)
    {
      hide Linked, Values, ArePlaced, Enough, PlacesOf, WithName, AreSyms, Ascending, NamedFrom, Laid, Unnamed;
      ghost var values := Values(symbols);
      var count := 0;
      syms := [];
      NonePlaced(symbols, table[..0]);
      for idx := 0 to |table|
        invariant Valid() && symbols == old(symbols)
        invariant var p := PlacesOf(values, table[..idx]);
                  && ArePlaced(symbols, p.of) && stringTableSize == p.size && stringNameOffset == p.last && count == p.count
      {
        PlacesNext(values, table, idx);
        ghost var p := PlacesOf(values, table[..idx]);
        if table[idx].defined {
          var found := NameExport(table[idx], p);
          if found {
            count := count + 1;
          }
        } else {
          NotDefined(values, p, table[idx]);
        }
      }
      assert table[..|table|] == table;
      ok := count == exportCount;
      PlacesAreCounted(values, table);
      AllNamedExactlyIf(values, table);
      if ok {
        syms := SortNames(table, PlacesOf(values, table));
      }
    }

    /** Sorts the symbols by name once all have one. */
    method SortNames(table: seq<DynSym>, ghost p: Places) returns (ghost syms: seq<Sym>)
      requires Valid() && ArePlaced(symbols, p.of) && AllNamed(p) && p == PlacesOf(Values(symbols), table)
      requires forall k :: 0 <= k < |table| ==> 0 !in table[k].name
      modifies this`head, this`symbols, symbols
      ensures Valid() && AreSyms(symbols, syms) && Ascending(syms) && NamedFrom(syms, table) && Laid(syms, p.size, p.last)
      ensures p.size % 4 == 0 && |syms| == |p.of|
      ensures forall symbol :: symbol in symbols <==> symbol in old(symbols)
    {
      hide Linked, Values, ArePlaced, PlacesOf, AreSyms, Ascending, NamedFrom, Laid, Sorted, Good, AllNamed, Distinct;
      EntriesAre(symbols, p);
      ghost var entries := EntriesOf(symbols, p);
      ghost var sorted := entries;
      LinkedOnce(head, symbols);
      PlacesAreGood(symbols, Values(symbols), p, table);
      HeadOf(head, symbols);
      if exportCount > 1 {
        head, sorted := Sort(head, exportCount, entries);
        Rearranged(entries, sorted);
        symbols := Listed(sorted);
        SameSymbols(entries, sorted);
      } else {
        OneIsSorted(entries);
      }
      SortedAreSyms(sorted);
      SortedIsLaid(entries, sorted, p.size, p.last, table);
      syms := SymsOf(sorted);
    }

    method SetExportSymInfo(dlls: nat)
      requires TotalSize(exportCount, stringTableSize, Wide(stringNameOffset), dlls) < 0x1_0000_0000
      modifies this`header
      ensures header == HeaderOf(exportCount, stringTableSize, stringNameOffset, dlls)
    {
      var symTabSize, flags := exportCount * 4, 0;
      if stringNameOffset > 0xFFFF {
        flags := OFFSET_FLAG_32;
        symTabSize := symTabSize + exportCount * 4;
      } else {
        symTabSize := Align4(symTabSize + exportCount * 2);
      }
      var strings := HEADER_SIZE + symTabSize;
      var deps := strings + stringTableSize;
      header := Header(deps + dlls * 4, flags, exportCount % 0x1_0000, HEADER_SIZE, stringTableSize, strings, dlls, deps);
    }

    /** Writes the section into a buffer: the header, the three parts of every symbol in the order of
        the list, and a zero for every dependency. A reader lists the same symbols in the same order
        exactly if there are fewer than 0x10000. */
    method GetSymLookupSection(buff: array<Byte>, dlls: nat, ghost syms: seq<Sym>) returns (size: nat)
      requires Valid() && AreSyms(symbols, syms) && Laid(syms, stringTableSize, stringNameOffset)
      requires TotalSize(exportCount, stringTableSize, Wide(stringNameOffset), dlls) < 0x1_0000_0000
      requires header == HeaderOf(exportCount, stringTableSize, stringNameOffset, dlls) && header.size <= buff.Length
      modifies buff
      ensures size == header.size
      ensures Has(buff[..], 0, HeaderBytes(header)) && AllHave(buff[..], |syms|, Wide(stringNameOffset), syms, |syms|)
      ensures forall k :: header.depDllTableOffset <= k < size ==> buff[k] == 0
      ensures forall k :: size <= k < buff.Length ==> buff[k] == old(buff[k])
      ensures ReadAll(buff[..]) == Some(Listing(syms)) <==> exportCount < 0x1_0000
    {
      hide Linked, AreSyms, Laid, SymbolHas, Has, HeaderBytes, StringsAt, AllHave, LittleEndian, ReadAll, Listing;
      StringsAfter(exportCount, Wide(stringNameOffset));
      SymsCount(symbols, syms);
      Put(buff, 0, HeaderBytes(header));
      ghost var start := buff[..];
      WriteSymbols(buff, header.flags % 2 == 1, syms);
      ghost var written := buff[..];
      WriteDependencies(buff, header.depDllTableOffset, dlls);
      size := header.size;
      SectionKept(start, written, buff[..], header, exportCount, Wide(stringNameOffset), syms, stringTableSize, stringNameOffset);
      AllRead(buff[..], syms, stringTableSize, stringNameOffset, dlls);
    }

    method WriteSymbols(buff: array<Byte>, wide: bool, ghost syms: seq<Sym>)
      requires Valid() && AreSyms(symbols, syms) && Laid(syms, stringTableSize, stringNameOffset)
      requires StringsAt(exportCount, wide) + stringTableSize <= buff.Length
      modifies buff
      ensures |syms| == exportCount && AllHave(buff[..], exportCount, wide, syms, |syms|)
      ensures forall k :: 0 <= k < buff.Length && !(HEADER_SIZE <= k < StringsAt(exportCount, wide) + stringTableSize) ==>
                buff[k] == old(buff[k])
    {
      hide Linked, AreSyms, Laid, SymbolHas, StringsAt, AllHave;
      SymsCount(symbols, syms);
      HeadOf(head, symbols);
      NoneHave(buff[..], exportCount, wide, syms);
      var symbol := head;
      var i := 0;
      while symbol != null
        invariant i <= |symbols| && symbol == if i < |symbols| then symbols[i] else null
        invariant AllHave(buff[..], exportCount, wide, syms, i)
        invariant forall k :: 0 <= k < buff.Length && !(HEADER_SIZE <= k < StringsAt(exportCount, wide) + stringTableSize) ==>
                    buff[k] == old(buff[k])
        decreases |symbols| - i
      {
        SymAt(symbols, syms, i);
        NextOf(head, symbols, i);
        WriteSymbol(buff, exportCount, wide, i, syms, symbol.value, symbol.name.value, symbol.nameOffset, stringTableSize, stringNameOffset);
        symbol := symbol.next;
        i := i + 1;
      }
    }
  }

  method WriteDependencies(buff: array<Byte>, at: nat, dlls: nat)
    requires at + 4 * dlls <= buff.Length
    modifies buff
    ensures forall k :: at <= k < at + 4 * dlls ==> buff[k] == 0
    ensures forall k :: 0 <= k < buff.Length && !(at <= k < at + 4 * dlls) ==> buff[k] == old(buff[k])
  {
    for d := 0 to dlls
      invariant forall k :: 0 <= k < buff.Length && !(at <= k < at + 4 * d) ==> buff[k] == old(buff[k])
      invariant forall k :: at <= k < at + 4 * d ==> buff[k] == 0
    {
      Put(buff, at + 4 * d, [0, 0, 0, 0]);
    }
  }

  lemma SymsCount(symbols: Symbols, syms: seq<Sym>)
    requires AreSyms(symbols, syms)
    ensures |symbols| == |syms|
  {
  }

  lemma SymAt(symbols: Symbols, syms: seq<Sym>, i: nat)
    requires AreSyms(symbols, syms) && i < |symbols|
    ensures |syms| == |symbols| && symbols[i].name.Some?
    ensures syms[i] == Sym(symbols[i].name.value, symbols[i].value, symbols[i].nameOffset)
  {
    assert IsSym(symbols[i], syms[i]);
  }

  lemma NoneHave(bytes: seq<Byte>, count: nat, wide: bool, syms: seq<Sym>)
    ensures AllHave(bytes, count, wide, syms, 0)
  {
  }

  lemma SectionKept(start: seq<Byte>, written: seq<Byte>, bytes: seq<Byte>, h: Header, count: nat, wide: bool, syms: seq<Sym>,
                    tableSize: nat, last: nat)
    requires |start| == |written| == |bytes| && Has(start, 0, HeaderBytes(h)) && h.stringTableOffset == StringsAt(count, wide)
    requires h.depDllTableOffset == h.stringTableOffset + tableSize && |syms| == count && Laid(syms, tableSize, last)
    requires AllHave(written, count, wide, syms, count)
    requires forall k :: 0 <= k < |start| && !(HEADER_SIZE <= k < h.depDllTableOffset) ==> written[k] == start[k]
    requires forall k :: 0 <= k < |start| && !(h.depDllTableOffset <= k < h.size) ==> bytes[k] == written[k]
    ensures Has(bytes, 0, HeaderBytes(h)) && AllHave(bytes, count, wide, syms, count)
  {
    hide LittleEndian, StringsAt, EntryAt, EntrySize, SymbolHas, HeaderBytes;
    assert HEADER_SIZE <= h.depDllTableOffset by {
      StringsAfter(count, wide);
    }
    assert written[0..HEADER_SIZE] == start[0..HEADER_SIZE] && bytes[0..HEADER_SIZE] == written[0..HEADER_SIZE];
    var n := if h.depDllTableOffset <= h.size then h.size - h.depDllTableOffset else 0;
    forall j | 0 <= j < count ensures SymbolHas(bytes, count, wide, j, syms[j]) {
      PartsInside(count, wide, j, syms[j], tableSize, last);
      SymbolKept(written, bytes, h.depDllTableOffset, n, count, wide, j, syms[j]);
    }
  }

  lemma StringsAfter(count: nat, wide: bool)
    ensures HEADER_SIZE <= StringsAt(count, wide)
  {
  }

  /** The reader lists all symbols in order exactly if their number has sixteen bits. */
  lemma AllRead(bytes: seq<Byte>, syms: seq<Sym>, tableSize: nat, last: nat, dlls: nat)
    requires TotalSize(|syms|, tableSize, Wide(last), dlls) < 0x1_0000_0000
    requires Has(bytes, 0, HeaderBytes(HeaderOf(|syms|, tableSize, last, dlls)))
    requires Laid(syms, tableSize, last) && AllHave(bytes, |syms|, Wide(last), syms, |syms|)
    ensures ReadAll(bytes) == Some(Listing(syms)) <==> |syms| < 0x1_0000
  {
    hide ReadSymbol, SymbolHas, Has, HeaderBytes, TotalSize, ReadHeader, ReadSymbols;
    var h := HeaderOf(|syms|, tableSize, last, dlls);
    HeaderRead(bytes, h);
    if |syms| < 0x1_0000 {
      forall i | 0 <= i < |syms| ensures ReadSymbol(bytes, i) == Some((syms[i].value, syms[i].name)) {
        SymbolIsRead(bytes, |syms|, tableSize, last, dlls, i, syms[i]);
      }
      SymbolsAreRead(bytes, syms, |syms|);
      assert syms[..|syms|] == syms;
    }
  }

  lemma SameSymbols(entries: seq<Entry>, sorted: seq<Entry>)
    requires Footprint(sorted) == Footprint(entries)
    ensures forall symbol :: symbol in Listed(sorted) <==> symbol in Listed(entries)
  {
    MembersOf(entries);
    MembersOf(sorted);
  }

  lemma MembersOf(entries: seq<Entry>)
    ensures forall symbol :: symbol in Listed(entries) <==> symbol in Footprint(entries)
  {
    forall symbol | symbol in Listed(entries) ensures symbol in Footprint(entries) {
      var i :| 0 <= i < |entries| && Listed(entries)[i] == symbol;
      assert entries[i] in entries;
    }
    forall symbol | symbol in Footprint(entries) ensures symbol in Listed(entries) {
      var entry :| entry in entries && entry.symbol == symbol;
      var i :| 0 <= i < |entries| && entries[i] == entry;
      assert Listed(entries)[i] == symbol;
    }
  }

  function EntriesOf(symbols: Symbols, p: Places): (r: seq<Entry>)
    requires |symbols| == |p.of| && AllNamed(p)
    ensures |r| == |symbols|
    ensures forall i :: 0 <= i < |r| ==> r[i] == Entry(symbols[i], p.of[i].value.name, p.of[i].value.offset)
  {
    seq(|symbols|, i requires 0 <= i < |symbols| => Entry(symbols[i], p.of[i].value.name, p.of[i].value.offset))
  }

  lemma EntriesAre(symbols: Symbols, p: Places)
    requires ArePlaced(symbols, p.of) && AllNamed(p)
    ensures |symbols| == |p.of| && Are(symbols, EntriesOf(symbols, p)) && Listed(EntriesOf(symbols, p)) == symbols
  {
    forall i | 0 <= i < |symbols| ensures IsAt(symbols[i], EntriesOf(symbols, p), i) {
      assert IsPlaced(symbols[i], p.of[i]);
    }
  }

  function SymOf(entry: Entry): Sym {
    Sym(entry.name, entry.symbol.value, entry.offset)
  }

  function SymsOf(entries: seq<Entry>): (r: seq<Sym>)
    ensures |r| == |entries|
    ensures forall i :: 0 <= i < |r| ==> r[i] == SymOf(entries[i])
  {
    Map(SymOf, entries)
  }

  /** A name of the table with the address of the symbol. */
  ghost predicate NameOf(sym: Sym, table: seq<DynSym>) {
    exists k :: 0 <= k < |table| && table[k].defined && table[k].value == sym.value && table[k].name == sym.name
  }

  /** Entries with names of the table, at places that suit them and do not overlap. */
  ghost predicate Good(entries: seq<Entry>, size: nat, last: nat, table: seq<DynSym>) {
    && (forall x :: x in entries ==> GoodAt(x, size, last, table))
    && (forall x, y :: x in entries && y in entries && x.symbol != y.symbol ==> GoodTogether(x, y))
  }

  ghost predicate GoodAt(x: Entry, size: nat, last: nat, table: seq<DynSym>) {
    LaidAt(SymOf(x), size, last) && NameOf(SymOf(x), table)
  }

  predicate GoodTogether(x: Entry, y: Entry) {
    Apart(PlaceOf(SymOf(x)), PlaceOf(SymOf(y)))
  }

  lemma PlacesAreGood(symbols: Symbols, values: seq<Word>, p: Places, table: seq<DynSym>)
    requires values == Values(symbols) && |p.of| == |symbols| && p == PlacesOf(values, table) && AllNamed(p)
    requires forall k :: 0 <= k < |table| ==> 0 !in table[k].name
    ensures Good(EntriesOf(symbols, p), p.size, p.last, table) && p.size % 4 == 0
  {
    hide PlacesOf, Values, LaidAt, Apart, NameOf, EntriesOf;
    PlacesAreApart(values, table);
    var entries := EntriesOf(symbols, p);
    forall x | x in entries ensures GoodAt(x, p.size, p.last, table) {
      var i :| 0 <= i < |entries| && entries[i] == x;
      PlaceIsGood(values, p, table, i, x);
    }
    forall x, y | x in entries && y in entries && x.symbol != y.symbol ensures GoodTogether(x, y) {
      var i :| 0 <= i < |entries| && entries[i] == x;
      var j :| 0 <= j < |entries| && entries[j] == y;
      PlacesGoodTogether(p, i, j);
    }
  }

  lemma PlaceIsGood(values: seq<Word>, p: Places, table: seq<DynSym>, i: nat, x: Entry)
    requires |p.of| == |values| && i < |values| && p.of[i].Some? && Suits(values, table, p, i)
    requires x.name == p.of[i].value.name && x.offset == p.of[i].value.offset && x.symbol.value == values[i]
    requires forall k :: 0 <= k < |table| ==> 0 !in table[k].name
    ensures GoodAt(x, p.size, p.last, table)
  {
    var k :| 0 <= k < |table| && table[k].defined && table[k].value == values[i] && table[k].name == p.of[i].value.name;
  }

  lemma PlacesGoodTogether(p: Places, i: nat, j: nat)
    requires AllApart(p) && AllNamed(p) && i < |p.of| && j < |p.of| && i != j
    ensures Apart(p.of[i].value, p.of[j].value)
  {
    assert if i < j then Apart(p.of[i].value, p.of[j].value) else Apart(p.of[j].value, p.of[i].value);
  }

  /** Symbols keep their places while they are sorted. */
  lemma SortedIsLaid(entries: seq<Entry>, sorted: seq<Entry>, size: nat, last: nat, table: seq<DynSym>)
    requires Good(entries, size, last, table) && multiset(sorted) == multiset(entries) && Distinct(Listed(sorted)) && Sorted(sorted)
    ensures Laid(SymsOf(sorted), size, last) && NamedFrom(SymsOf(sorted), table) && Ascending(SymsOf(sorted))
  {
    hide StandsBefore, LaidAt, Apart, NameOf;
    var syms := SymsOf(sorted);
    Contained(entries, sorted);
    forall k | 0 <= k < |sorted| ensures LaidAt(syms[k], size, last) && NameOf(syms[k], table) {
      assert GoodAt(sorted[k], size, last, table);
    }
    forall k, l | 0 <= k < l < |sorted| ensures Apart(PlaceOf(syms[k]), PlaceOf(syms[l])) {
      assert Listed(sorted)[k] != Listed(sorted)[l];
      assert GoodTogether(sorted[k], sorted[l]);
    }
  }

  lemma SortedAreSyms(entries: seq<Entry>)
    requires Are(Listed(entries), entries)
    ensures AreSyms(Listed(entries), SymsOf(entries))
  {
    forall k | 0 <= k < |entries| ensures IsSym(Listed(entries)[k], SymsOf(entries)[k]) {
      assert IsAt(Listed(entries)[k], entries, k);
    }
  }

  lemma NonePlaced(symbols: Symbols, table: seq<DynSym>)
    requires Unnamed(symbols) && table == []
    ensures PlacesOf(Values(symbols), table) == NoPlaces(|symbols|) && ArePlaced(symbols, NoPlaces(|symbols|).of)
  {
  }

  lemma NotDefined(values: seq<Word>, p: Places, d: DynSym)
    requires |p.of| == |values| && !d.defined
    ensures WithName(values, p, d) == p
  {
  }

  lemma HeadOf(head: NamedExportSymbol?, symbols: Symbols)
    requires Linked(head, symbols)
    ensures head == if 0 < |symbols| then symbols[0] else null
  {
  }

  lemma PlacedCount(symbols: Symbols, places: seq<Option<Place>>)
    requires ArePlaced(symbols, places)
    ensures |places| == |symbols|
  {
  }

  lemma PlacedAt(symbols: Symbols, places: seq<Option<Place>>, i: nat)
    requires ArePlaced(symbols, places) && i < |symbols|
    ensures |places| == |symbols| && (symbols[i].name == None <==> places[i] == None) && Values(symbols)[i] == symbols[i].value
  {
    assert IsPlaced(symbols[i], places[i]);
  }

  ghost predicate Unnamed(symbols: Symbols)
    reads symbols
  {
    forall i :: 0 <= i < |symbols| ==> symbols[i].name == None
  }

  lemma ValuesNext(entries: seq<Word>, symbols: Symbols, entryPoint: Word)
    requires entries == [] && symbols == []
    ensures Values(symbols) == Present(entries, entryPoint)
  {
  }

  lemma PresentNext(entries: seq<Word>, i: nat, entryPoint: Word)
    requires i < |entries|
    ensures Present(entries[..i + 1], entryPoint) ==
            if entries[i] == entryPoint then Present(entries[..i], entryPoint) else Present(entries[..i], entryPoint) + [entries[i]]
  {
    assert entries[..i + 1][..i] == entries[..i];
  }

  ghost predicate Joined(symbols: Symbols, symbol: NamedExportSymbol, i: nat)
    requires i < |symbols|
    reads symbols[i]
  {
    symbols[i].next == if i + 1 < |symbols| then symbols[i + 1] else symbol
  }

  lemma LinkedOn(symbols: Symbols, symbol: NamedExportSymbol)
    requires Distinct(symbols) && symbol !in symbols && symbol.next == null
    requires forall i :: 0 <= i < |symbols| ==> Joined(symbols, symbol, i)
    ensures Linked(if symbols == [] then symbol else symbols[0], symbols + [symbol])
  {
    var all := symbols + [symbol];
    forall i | 0 <= i < |all| ensures LeadsOn(all, i) {
      if i < |symbols| {
        assert Joined(symbols, symbol, i);
      }
    }
  }
}
