/** The section for looking up exports by name: a header, the addresses, the offsets of the names in
    words, the names themselves and a place for every DLL that is depended on. */
module LookupSection {
  import opened Bytes
  import opened Buffers
  import opened ExportNames

  /** The flag for offsets of 32 bits. */
  const OFFSET_FLAG_32: CodeUnit := 1

  const HEADER_SIZE: nat := 28

  datatype Header = Header(size: Word, flags: CodeUnit, symCount: CodeUnit, symbolTblOffset: Word, stringTableSz: Word,
                           stringTableOffset: Word, dllCount: Word, depDllTableOffset: Word)

  function HeaderBytes(h: Header): (r: seq<Byte>)
    ensures |r| == HEADER_SIZE
  {
    LittleEndian(4, h.size) + LittleEndian(2, h.flags) + LittleEndian(2, h.symCount) + LittleEndian(4, h.symbolTblOffset)
    + LittleEndian(4, h.stringTableSz) + LittleEndian(4, h.stringTableOffset) + LittleEndian(4, h.dllCount)
    + LittleEndian(4, h.depDllTableOffset)
  }

  /** A symbol of the section, with its offset in the string table in bytes. */
  datatype Sym = Sym(name: seq<Byte>, value: Word, offset: nat)

  /** Names at whole words of the string table that do not overlap, none of them with a zero inside. */
  ghost predicate Laid(syms: seq<Sym>, tableSize: nat, last: nat) {
    && (forall i :: 0 <= i < |syms| ==> LaidAt(syms[i], tableSize, last))
    && (forall i, j :: 0 <= i < j < |syms| ==> Apart(PlaceOf(syms[i]), PlaceOf(syms[j])))
  }

  predicate LaidAt(sym: Sym, tableSize: nat, last: nat) {
    sym.offset % 4 == 0 && sym.offset + |sym.name| + 1 <= tableSize && sym.offset / 4 <= last && 0 !in sym.name
  }

  function PlaceOf(sym: Sym): Place {
    Place(sym.name, sym.offset)
  }

  // The layout

  predicate Wide(last: nat) {
    last > 0xFFFF
  }

  function EntrySize(wide: bool): nat {
    if wide then 4 else 2
  }

  function NamesAt(count: nat): nat {
    HEADER_SIZE + 4 * count
  }

  /** The place of the offset of name `i`. */
  function EntryAt(names: nat, wide: bool, i: nat): nat {
    names + if wide then 4 * i else 2 * i
  }

  function StringsAt(count: nat, wide: bool): nat {
    HEADER_SIZE + if wide then 8 * count else Align4(6 * count)
  }

  function TotalSize(count: nat, tableSize: nat, wide: bool, dlls: nat): nat {
    StringsAt(count, wide) + tableSize + 4 * dlls
  }

  /** The header; the count is cut to 16 bits. */
  function HeaderOf(count: nat, tableSize: nat, last: nat, dlls: nat): Header
    requires TotalSize(count, tableSize, Wide(last), dlls) < 0x1_0000_0000
  {
    var wide := Wide(last);
    Header(TotalSize(count, tableSize, wide, dlls), if wide then OFFSET_FLAG_32 else 0, count % 0x1_0000, HEADER_SIZE, tableSize,
           StringsAt(count, wide), dlls, StringsAt(count, wide) + tableSize)
  }

  /** The regions follow one another and fill the section. */
  lemma RegionsFill(count: nat, tableSize: nat, last: nat, dlls: nat)
    requires TotalSize(count, tableSize, Wide(last), dlls) < 0x1_0000_0000 && tableSize % 4 == 0
    ensures var h := HeaderOf(count, tableSize, last, dlls);
            && HEADER_SIZE == h.symbolTblOffset && h.symbolTblOffset + 4 * count == NamesAt(count)
            && h.flags == (if last >= 0x1_0000 then 1 else 0)
            && var names := 28 + 4 * count + (if last >= 0x1_0000 then 4 * count else 2 * count);
            && names <= h.stringTableOffset < names + 4
            && h.stringTableOffset + h.stringTableSz == h.depDllTableOffset
            && h.depDllTableOffset + 4 * h.dllCount == h.size
            && h.stringTableOffset % 4 == 0 && h.depDllTableOffset % 4 == 0
            && (h.symCount == count <==> count < 0x1_0000)
  {
    hide StringsAt, EntryAt, NamesAt;
    StringsPlaced(count, Wide(last));
  }

  lemma StringsPlaced(count: nat, wide: bool)
    ensures StringsAt(count, wide) % 4 == 0 && NamesAt(count) == HEADER_SIZE + 4 * count
    ensures 28 + 4 * count + (if wide then 4 * count else 2 * count) <= StringsAt(count, wide)
    ensures StringsAt(count, wide) < 28 + 4 * count + (if wide then 4 * count else 2 * count) + 4
  {
    hide Align4;
    if wide {
      Words(2 * count);
      AfterHeader(8 * count);
    } else {
      AfterHeader(Align4(6 * count));
    }
  }

  lemma Words(n: nat)
    ensures 4 * n % 4 == 0
  {
  }

  lemma AfterHeader(n: nat)
    requires n % 4 == 0
    ensures (HEADER_SIZE + n) % 4 == 0
  {
  }

  // Reading

  function ReadHeader(bytes: seq<Byte>): Header
    requires |bytes| >= HEADER_SIZE
  {
    Header(WholeAt(bytes, 0), HalfAt(bytes, 4), HalfAt(bytes, 6), WholeAt(bytes, 8), WholeAt(bytes, 12), WholeAt(bytes, 16),
           WholeAt(bytes, 20), WholeAt(bytes, 24))
  }

  /** Symbol `i` as the reader of images finds it: an address, and a name by its offset in words, of 32
      bits or of 16 as the flag says. */
  function ReadSymbol(bytes: seq<Byte>, i: nat): Option<(Word, seq<Byte>)> {
    if |bytes| < HEADER_SIZE then None else ReadWith(bytes, ReadHeader(bytes), i)
  }

  function ReadWith(bytes: seq<Byte>, h: Header, i: nat): Option<(Word, seq<Byte>)> {
    var wide, address := h.flags % 2 == 1, h.symbolTblOffset + 4 * i;
    var entry := h.symbolTblOffset + 4 * h.symCount + if wide then 4 * i else 2 * i;
    if address + 4 > |bytes| || entry + (if wide then 4 else 2) > |bytes| then None
    else
      var offset: nat := 4 * if wide then WholeAt(bytes, entry) else HalfAt(bytes, entry) as int;
      match CString(bytes, h.stringTableOffset + offset)
      case None => None
      case Some(name) => Some((WholeAt(bytes, address), name))
  }

  /** The first `n` symbols. */
  function ReadSymbols(bytes: seq<Byte>, n: nat): (r: Option<seq<(Word, seq<Byte>)>>)
    ensures r.Some? ==> |r.value| == n
  {
    if n == 0 then Some([])
    else
      match ReadSymbols(bytes, n - 1)
      case None => None
      case Some(first) =>
        match ReadSymbol(bytes, n - 1)
        case None => None
        case Some(next) => Some(first + [next])
  }

  /** What the reader of images lists: as many symbols as the header says. */
  function ReadAll(bytes: seq<Byte>): Option<seq<(Word, seq<Byte>)>> {
    if |bytes| < HEADER_SIZE then None else ReadSymbols(bytes, ReadHeader(bytes).symCount)
  }

  /** Addresses and names, in order. */
  function Listing(syms: seq<Sym>): (r: seq<(Word, seq<Byte>)>)
    ensures |r| == |syms|
  {
    Map((sym: Sym) => (sym.value, sym.name), syms)
  }

  lemma {:induction false} SymbolsAreRead(bytes: seq<Byte>, syms: seq<Sym>, n: nat)
    requires n <= |syms| && forall i :: 0 <= i < n ==> ReadSymbol(bytes, i) == Some((syms[i].value, syms[i].name))
    ensures ReadSymbols(bytes, n) == Some(Listing(syms[..n]))
  {
    hide ReadSymbol;
    if n > 0 {
      SymbolsAreRead(bytes, syms, n - 1);
      assert Listing(syms[..n]) == Listing(syms[..n - 1]) + [(syms[n - 1].value, syms[n - 1].name)];
    } else {
      assert Listing(syms[..0]) == [];
    }
  }

  lemma HeaderRead(bytes: seq<Byte>, h: Header)
    requires Has(bytes, 0, HeaderBytes(h))
    ensures |bytes| >= HEADER_SIZE && ReadHeader(bytes) == h
  {
    hide LittleEndian, HalfAt, WholeAt;
    var b := HeaderBytes(h);
    assert b[0..4] == LittleEndian(4, h.size) && b[4..6] == LittleEndian(2, h.flags) && b[6..8] == LittleEndian(2, h.symCount);
    assert b[8..12] == LittleEndian(4, h.symbolTblOffset) && b[12..16] == LittleEndian(4, h.stringTableSz);
    assert b[16..20] == LittleEndian(4, h.stringTableOffset) && b[20..24] == LittleEndian(4, h.dllCount);
    assert b[24..28] == LittleEndian(4, h.depDllTableOffset);
    HeaderPart(bytes, b, 0, 4);
    HeaderPart(bytes, b, 4, 2);
    HeaderPart(bytes, b, 6, 2);
    HeaderPart(bytes, b, 8, 4);
    HeaderPart(bytes, b, 12, 4);
    HeaderPart(bytes, b, 16, 4);
    HeaderPart(bytes, b, 20, 4);
    HeaderPart(bytes, b, 24, 4);
    WholeRead(bytes, 0, h.size);
    HalfRead(bytes, 4, h.flags);
    HalfRead(bytes, 6, h.symCount);
    WholeRead(bytes, 8, h.symbolTblOffset);
    WholeRead(bytes, 12, h.stringTableSz);
    WholeRead(bytes, 16, h.stringTableOffset);
    WholeRead(bytes, 20, h.dllCount);
    WholeRead(bytes, 24, h.depDllTableOffset);
  }

  lemma HeaderPart(bytes: seq<Byte>, b: seq<Byte>, at: nat, n: nat)
    requires |b| == HEADER_SIZE && Has(bytes, 0, b) && at + n <= HEADER_SIZE
    ensures Has(bytes, at, b[at..at + n])
  {
    assert bytes[0..|b|][at..at + n] == bytes[at..at + n];
  }

  /** The three parts of symbol `i`. */
  predicate SymbolHas(bytes: seq<Byte>, count: nat, wide: bool, i: nat, sym: Sym) {
    && Has(bytes, HEADER_SIZE + 4 * i, LittleEndian(4, sym.value))
    && Has(bytes, EntryAt(NamesAt(count), wide, i), LittleEndian(EntrySize(wide), sym.offset / 4))
    && Has(bytes, StringsAt(count, wide) + sym.offset, sym.name + [0])
  }

  /** A symbol that has been written is read back: its own address and its own name. */
  lemma SymbolIsRead(bytes: seq<Byte>, count: nat, tableSize: nat, last: nat, dlls: nat, i: nat, sym: Sym)
    requires TotalSize(count, tableSize, Wide(last), dlls) < 0x1_0000_0000
    requires Has(bytes, 0, HeaderBytes(HeaderOf(count, tableSize, last, dlls))) && i < count < 0x1_0000
    requires SymbolHas(bytes, count, Wide(last), i, sym) && LaidAt(sym, tableSize, last)
    ensures ReadSymbol(bytes, i) == Some((sym.value, sym.name))
  {
    hide LittleEndian, HalfAt, WholeAt, CString, ReadHeader, HeaderBytes, StringsAt, Has;
    var h, wide := HeaderOf(count, tableSize, last, dlls), Wide(last);
    HeaderRead(bytes, h);
    WholeRead(bytes, HEADER_SIZE + 4 * i, sym.value);
    NameRead(bytes, StringsAt(count, wide) + sym.offset, sym.name);
    EntryRead(bytes, EntryAt(NamesAt(count), wide, i), wide, sym.offset / 4);
  }

  lemma EntryRead(bytes: seq<Byte>, at: nat, wide: bool, value: Word)
    requires Has(bytes, at, LittleEndian(EntrySize(wide), value)) && (wide || value < 0x1_0000)
    ensures at + EntrySize(wide) <= |bytes| && value == if wide then WholeAt(bytes, at) else HalfAt(bytes, at)
  {
    hide LittleEndian, HalfAt, WholeAt;
    if wide {
      WholeRead(bytes, at, value);
    } else {
      HalfRead(bytes, at, value);
    }
  }
}
