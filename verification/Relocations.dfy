/** Relocation sections of E32 images: blocks of relocations that share a page of 4 kilobytes. */
module Relocations {
  import opened Bytes

  const PAGE_SIZE: nat := 0x1000
  const WORDS: nat := 0x1_0000_0000

  type Kind = x: int | 0 <= x < 0x10

  /** The address of a word to relocate and, from the top four bits of its entry, how. */
  datatype Reloc = Reloc(offset: Word, kind: Kind)

  function PageOf(r: Reloc): Word {
    r.offset - r.offset % PAGE_SIZE
  }

  function EntryOf(r: Reloc): CodeUnit {
    r.offset % PAGE_SIZE + PAGE_SIZE * r.kind
  }

  // The format

  /** The blocks that are complete, and the page and entries of the one that is not; the page is -1
      before the first relocation. */
  datatype Section = Section(closed: seq<Byte>, page: int, entries: seq<Byte>)

  const NOTHING: Section := Section([], -1, [])

  /** Entries filled up to a multiple of four octets. */
  function Padded(entries: seq<Byte>): seq<Byte> {
    entries + if |entries| % 4 != 0 then [0, 0] else []
  }

  function Block(page: int, base: Word, entries: seq<Byte>): seq<Byte> {
    LittleEndian(4, (page - base) % WORDS) + LittleEndian(4, 8 + |Padded(entries)|) + Padded(entries)
  }

  function Finished(s: Section, base: Word): seq<Byte> {
    if s.page == -1 then [] else s.closed + Block(s.page, base, s.entries)
  }

  function Added(s: Section, r: Reloc, base: Word): Section {
    if s.page == PageOf(r) then s.(entries := s.entries + LittleEndian(2, EntryOf(r)))
    else Section(Finished(s, base), PageOf(r), LittleEndian(2, EntryOf(r)))
  }

  function AllAdded(relocs: seq<Reloc>, base: Word): Section {
    if relocs == [] then NOTHING else Added(AllAdded(relocs[..|relocs| - 1], base), relocs[|relocs| - 1], base)
  }

  /** The octets of a section of relocations, addressed from `base`. */
  function SectionOf(relocs: seq<Reloc>, base: Word): seq<Byte> {
    Finished(AllAdded(relocs, base), base)
  }

  lemma AddedNext(relocs: seq<Reloc>, r: Reloc, base: Word)
    ensures AllAdded(relocs + [r], base) == Added(AllAdded(relocs, base), r, base)
  {
    assert (relocs + [r])[..|relocs|] == relocs;
  }

  // Reading

  /** The entry of a relocation, or none for the padding. */
  function Entries(page: Word, entry: CodeUnit): seq<Reloc> {
    if entry == 0 then [] else [Reloc((page + entry % 0x1000) % 0x1_0000_0000, entry / 0x1000)]
  }

  /** What the loader does: it takes `count` relocations, block after block, and passes over zeros. */
  function Loaded(bytes: seq<Byte>, page: Word, size: int, count: nat): Option<seq<Reloc>>
    decreases |bytes|
  {
    if count == 0 then Some([])
    else if size > 0 then
      if |bytes| < 2 then None
      else
        var found := Entries(page, Half(bytes));
        match Loaded(bytes[2..], page, size - 2, count - |found|)
        case None => None
        case Some(more) => Some(found + more)
    else if |bytes| < 8 then None
    else Loaded(bytes[8..], Whole(bytes), Whole(bytes[4..]) - 8, count)
  }

  /** A reader of whole sections, which refuses a block whose size is not a multiple of four. */
  datatype Scan = Scan(page: Word, left: int, found: seq<Reloc>)

  function Scanned(s: Scan, bytes: seq<Byte>): Option<Scan>
    decreases |bytes|
  {
    if bytes == [] then Some(s)
    else if s.left > 0 then
      if |bytes| < 2 then None
      else Scanned(Scan(s.page, s.left - 2, s.found + Entries(s.page, Half(bytes))), bytes[2..])
    else if |bytes| < 8 || Whole(bytes[4..]) < 8 || Whole(bytes[4..]) % 4 != 0 then None
    else Scanned(Scan(Whole(bytes), Whole(bytes[4..]) - 8, s.found), bytes[8..])
  }

  lemma {:induction false} ScannedTwice(s: Scan, a: seq<Byte>, b: seq<Byte>)
    requires Scanned(s, a).Some?
    ensures Scanned(s, a + b) == Scanned(Scanned(s, a).value, b)
    decreases |a|
  {
    if a == [] {
      assert a + b == b;
    } else if s.left > 0 {
      assert (a + b)[2..] == a[2..] + b;
      ScannedTwice(Scan(s.page, s.left - 2, s.found + Entries(s.page, Half(a))), a[2..], b);
    } else {
      assert (a + b)[8..] == a[8..] + b;
      assert (a + b)[4..] == a[4..] + b;
      ScannedTwice(Scan(Whole(a), Whole(a[4..]) - 8, s.found), a[8..], b);
    }
  }

  lemma ScannedStep(s: Scan, bytes: seq<Byte>)
    requires Scanned(s, bytes).Some?
    ensures bytes == [] ==> Scanned(s, bytes) == Some(s)
    ensures bytes != [] && s.left > 0 ==>
              |bytes| >= 2 && Scanned(s, bytes) == Scanned(Scan(s.page, s.left - 2, s.found + Entries(s.page, Half(bytes))), bytes[2..])
    ensures bytes != [] && s.left <= 0 ==>
              |bytes| >= 8 && Scanned(s, bytes) == Scanned(Scan(Whole(bytes), Whole(bytes[4..]) - 8, s.found), bytes[8..])
  {
    hide Half, Whole, Entries;
  }

  lemma LoadedStep(bytes: seq<Byte>, page: Word, size: int, count: nat)
    requires count > 0
    ensures size > 0 && |bytes| >= 2 ==>
              var found := Entries(page, Half(bytes));
              var more := Loaded(bytes[2..], page, size - 2, count - |found|);
              Loaded(bytes, page, size, count) == if more.None? then None else Some(found + more.value)
    ensures size <= 0 && |bytes| >= 8 ==>
              Loaded(bytes, page, size, count) == Loaded(bytes[8..], Whole(bytes), Whole(bytes[4..]) - 8, count)
  {
    hide Half, Whole;
  }

  lemma LoadedNothing(bytes: seq<Byte>, page: Word, size: int)
    ensures Loaded(bytes, page, size, 0) == Some([])
  {
  }

  /** The loader finds what a reader of the whole section finds. */
  lemma {:induction false} LoadedIsScanned(s: Scan, bytes: seq<Byte>, count: nat)
    requires Scanned(s, bytes).Some? && |Scanned(s, bytes).value.found| == |s.found| + count
    ensures s.found <= Scanned(s, bytes).value.found
    ensures Loaded(bytes, s.page, s.left, count) == Some(Scanned(s, bytes).value.found[|s.found|..])
    decreases |bytes|
  {
    hide Half, Whole, Scanned, Loaded;
    ScannedKeeps(s, bytes);
    ScannedStep(s, bytes);
    var all := Scanned(s, bytes).value.found;
    if count == 0 {
      assert all[|s.found|..] == [];
      LoadedNothing(bytes, s.page, s.left);
    } else {
      LoadedStep(bytes, s.page, s.left, count);
      if s.left > 0 {
        var found := Entries(s.page, Half(bytes));
        ScannedKeeps(Scan(s.page, s.left - 2, s.found + found), bytes[2..]);
        LoadedIsScanned(Scan(s.page, s.left - 2, s.found + found), bytes[2..], count - |found|);
        assert all[|s.found|..] == found + all[|s.found + found|..];
      } else {
        LoadedIsScanned(Scan(Whole(bytes), Whole(bytes[4..]) - 8, s.found), bytes[8..], count);
      }
    }
  }

  lemma {:induction false} ScannedKeeps(s: Scan, bytes: seq<Byte>)
    requires Scanned(s, bytes).Some?
    ensures s.found <= Scanned(s, bytes).value.found
    decreases |bytes|
  {
    hide Half, Whole, Entries;
    if bytes == [] {
    } else if s.left > 0 {
      ScannedKeeps(Scan(s.page, s.left - 2, s.found + Entries(s.page, Half(bytes))), bytes[2..]);
    } else {
      ScannedKeeps(Scan(Whole(bytes), Whole(bytes[4..]) - 8, s.found), bytes[8..]);
    }
  }

  // Writing what is read

  /** Relocations as the loader sees them, by their distance from the base. */
  function Relative(relocs: seq<Reloc>, base: Word): (r: seq<Reloc>)
    ensures |r| == |relocs|
  {
    Map((r: Reloc) => Reloc((r.offset - base) % WORDS, r.kind), relocs)
  }

  function EntryBytes(relocs: seq<Reloc>): (r: seq<Byte>)
    ensures |r| == 2 * |relocs|
  {
    if relocs == [] then [] else LittleEndian(2, EntryOf(relocs[0])) + EntryBytes(relocs[1..])
  }

  lemma {:induction false} EntryBytesNext(relocs: seq<Reloc>, r: Reloc)
    ensures EntryBytes(relocs + [r]) == EntryBytes(relocs) + LittleEndian(2, EntryOf(r))
  {
    if relocs == [] {
      assert [r][1..] == [];
      assert LittleEndian(2, EntryOf(r)) + [] == LittleEndian(2, EntryOf(r));
    } else {
      EntryBytesNext(relocs[1..], r);
      assert (relocs + [r])[1..] == relocs[1..] + [r];
      Associate(LittleEndian(2, EntryOf(relocs[0])), EntryBytes(relocs[1..]), LittleEndian(2, EntryOf(r)));
    }
  }

  /** A relocation whose entry is not taken for padding. */
  predicate Plain(r: Reloc) {
    r.kind != 0 || r.offset % PAGE_SIZE != 0
  }

  lemma EntryRead(r: Reloc, base: Word)
    requires Plain(r)
    ensures Entries((PageOf(r) - base) % WORDS, EntryOf(r)) == [Reloc((r.offset - base) % WORDS, r.kind)]
  {
    assert EntryOf(r) % PAGE_SIZE == r.offset % PAGE_SIZE && EntryOf(r) / PAGE_SIZE == r.kind;
  }

  lemma ScanEntry(s: Scan, entry: CodeUnit, rest: seq<Byte>)
    requires s.left > 0
    ensures Scanned(s, LittleEndian(2, entry) + rest) ==
            Scanned(Scan(s.page, s.left - 2, s.found + Entries(s.page, entry)), rest)
  {
    HalfOf(entry);
    assert (LittleEndian(2, entry) + rest)[2..] == rest;
  }

  lemma ScanHeader(s: Scan, page: Word, size: Word, rest: seq<Byte>)
    requires s.left == 0 && size >= 8 && size % 4 == 0
    ensures Scanned(s, LittleEndian(4, page) + LittleEndian(4, size) + rest) == Scanned(Scan(page, size - 8, s.found), rest)
  {
    hide LittleEndian, Whole;
    var bytes := LittleEndian(4, page) + LittleEndian(4, size) + rest;
    WholeOf(page, LittleEndian(4, size) + rest);
    WholeOf(size, rest);
    Associate(LittleEndian(4, page), LittleEndian(4, size), rest);
    assert bytes[4..] == LittleEndian(4, size) + rest && bytes[8..] == rest;
  }

  lemma RelativeConcat(a: seq<Reloc>, b: seq<Reloc>, base: Word)
    ensures Relative(a + b, base) == Relative(a, base) + Relative(b, base)
  {
  }

  lemma EntryBytesStep(relocs: seq<Reloc>)
    requires relocs != []
    ensures EntryBytes(relocs) == LittleEndian(2, EntryOf(relocs[0])) + EntryBytes(relocs[1..])
  {
  }

  /** Entries of one page are read in order. */
  lemma {:induction false} EntriesRead(relocs: seq<Reloc>, page: Word, base: Word, left: nat, found: seq<Reloc>)
    requires forall i :: 0 <= i < |relocs| ==> Plain(relocs[i]) && PageOf(relocs[i]) == page
    requires left >= 2 * |relocs|
    ensures Scanned(Scan((page - base) % WORDS, left, found), EntryBytes(relocs)) ==
            Some(Scan((page - base) % WORDS, left - 2 * |relocs|, found + Relative(relocs, base)))
  {
    if relocs == [] {
      assert found + [] == found;
    } else {
      hide Scanned, EntryBytes, Entries, LittleEndian, PageOf, EntryOf, Relative;
      var r, s := relocs[0], Scan((page - base) % WORDS, left, found);
      EntryRead(r, base);
      EntryBytesStep(relocs);
      ScanEntry(s, EntryOf(r), EntryBytes(relocs[1..]));
      OneRelative(r, base);
      EntriesRead(relocs[1..], page, base, left - 2, found + Relative([r], base));
      assert [r] + relocs[1..] == relocs;
      RelativeConcat([r], relocs[1..], base);
      Associate(found, Relative([r], base), Relative(relocs[1..], base));
    }
  }

  lemma OneRelative(r: Reloc, base: Word)
    ensures Relative([r], base) == [Reloc((r.offset - base) % WORDS, r.kind)]
  {
  }

  /** A section that is being written: its complete blocks hold `done` and the other one `open`. */
  ghost predicate Holds(s: Section, base: Word, done: seq<Reloc>, open: seq<Reloc>) {
    && open != [] && s.entries == EntryBytes(open) && s.page == PageOf(open[0])
    && (forall i :: 0 <= i < |open| ==> Plain(open[i]) && PageOf(open[i]) == s.page)
    && |s.closed| % 4 == 0 && exists page: Word :: Scanned(Scan(0, 0, []), s.closed) == Some(Scan(page, 0, Relative(done, base)))
  }

  /** A finished section reads as all its relocations. */
  lemma FinishedIsRead(s: Section, base: Word, done: seq<Reloc>, open: seq<Reloc>)
    requires Holds(s, base, done, open) && |open| < 0x1000_0000
    ensures Scanned(Scan(0, 0, []), Finished(s, base)) == Some(Scan((s.page - base) % WORDS, 0, Relative(done + open, base)))
    ensures |Finished(s, base)| % 4 == 0
  {
    hide Scanned, EntryBytes, LittleEndian, PageOf, Relative, Block;
    BlockSize(s.page, base, s.entries);
    var page: Word :| Scanned(Scan(0, 0, []), s.closed) == Some(Scan(page, 0, Relative(done, base)));
    ScannedTwice(Scan(0, 0, []), s.closed, Block(s.page, base, s.entries));
    BlockIsRead(page, open, base, Relative(done, base));
    RelativeConcat(done, open, base);
  }

  lemma BlockIsRead(before: Word, relocs: seq<Reloc>, base: Word, found: seq<Reloc>)
    requires 0 < |relocs| < 0x1000_0000
    requires forall i :: 0 <= i < |relocs| ==> Plain(relocs[i]) && PageOf(relocs[i]) == PageOf(relocs[0])
    ensures var page := PageOf(relocs[0]);
            Scanned(Scan(before, 0, found), Block(page, base, EntryBytes(relocs))) ==
            Some(Scan((page - base) % WORDS, 0, found + Relative(relocs, base)))
  {
    hide Scanned, EntryBytes, LittleEndian, PageOf, Relative;
    var page, entries := PageOf(relocs[0]), EntryBytes(relocs);
    var padded := Padded(entries);
    ScanHeader(Scan(before, 0, found), (page - base) % WORDS, 8 + |padded|, padded);
    EntriesRead(relocs, page, base, |padded|, found);
    ScannedTwice(Scan((page - base) % WORDS, |padded|, found), entries, padded[|entries|..]);
    assert entries + padded[|entries|..] == padded;
    PaddingRead((page - base) % WORDS, |padded| - |entries|, found + Relative(relocs, base), padded[|entries|..]);
  }

  lemma PaddingRead(page: Word, left: nat, found: seq<Reloc>, padding: seq<Byte>)
    requires |padding| == left && (padding == [] || padding == [0, 0])
    ensures Scanned(Scan(page, left, found), padding) == Some(Scan(page, 0, found))
  {
    if padding != [] {
      assert padding[2..] == [] && found + [] == found;
    }
  }

  /** One more relocation, in the same block or in a new one. */
  lemma AddedHolds(s: Section, base: Word, done: seq<Reloc>, open: seq<Reloc>, r: Reloc) returns (done': seq<Reloc>, open': seq<Reloc>)
    requires Plain(r) && |done + open| < 0x1000_0000
    requires if s.page == -1 then s == NOTHING && done == open == [] else Holds(s, base, done, open)
    ensures Holds(Added(s, r, base), base, done', open') && done' + open' == done + open + [r]
  {
    hide Scanned, EntryBytes, LittleEndian, PageOf, Relative;
    if s.page == PageOf(r) {
      done', open' := done, open + [r];
      EntryBytesNext(open, r);
    } else {
      done', open' := done + open, [r];
      EntryBytesNext([], r);
      NoEntries();
      assert [] + [r] == [r] && [] + LittleEndian(2, EntryOf(r)) == LittleEndian(2, EntryOf(r));
      if s.page == -1 {
        NothingScanned(base);
      } else {
        FinishedIsRead(s, base, done, open);
      }
    }
  }

  lemma NoEntries()
    ensures EntryBytes([]) == []
  {
  }

  lemma NothingScanned(base: Word)
    ensures Scanned(Scan(0, 0, []), []) == Some(Scan(0, 0, Relative([], base)))
  {
  }

  ghost predicate AllPlain(relocs: seq<Reloc>) {
    |relocs| < 0x1000_0000 && forall i :: 0 <= i < |relocs| ==> Plain(relocs[i])
  }

  lemma {:induction false} AllAddedHold(relocs: seq<Reloc>, base: Word) returns (done: seq<Reloc>, open: seq<Reloc>)
    requires AllPlain(relocs)
    ensures done + open == relocs
    ensures if relocs == [] then AllAdded(relocs, base) == NOTHING else Holds(AllAdded(relocs, base), base, done, open)
  {
    hide Holds, Added;
    done, open := [], [];
    if relocs != [] {
      var n := |relocs| - 1;
      done, open := AllAddedHold(relocs[..n], base);
      assert relocs[..n] + [relocs[n]] == relocs;
      PageIsKnown(relocs[..n], base, done, open);
      done, open := AddedHolds(AllAdded(relocs[..n], base), base, done, open, relocs[n]);
    }
  }

  lemma PageIsKnown(relocs: seq<Reloc>, base: Word, done: seq<Reloc>, open: seq<Reloc>)
    requires done + open == relocs
    requires if relocs == [] then AllAdded(relocs, base) == NOTHING else Holds(AllAdded(relocs, base), base, done, open)
    ensures AllAdded(relocs, base).page == -1 <==> relocs == []
  {
  }

  /** The round trip: a section is whole blocks of whole words, and what the loader takes from it is
      every relocation in order, by its distance from the base. */
  lemma SectionIsRead(relocs: seq<Reloc>, base: Word)
    requires AllPlain(relocs)
    ensures |SectionOf(relocs, base)| % 4 == 0 && (SectionOf(relocs, base) == [] <==> relocs == [])
    ensures exists page: Word ::
              Scanned(Scan(0, 0, []), SectionOf(relocs, base)) == Some(Scan(page, 0, Relative(relocs, base)))
    ensures Loaded(SectionOf(relocs, base), 0, 0, |relocs|) == Some(Relative(relocs, base))
  {
    hide Scanned, Relative, Holds, AllAdded, Loaded, Block;
    var done, open := AllAddedHold(relocs, base);
    var s := AllAdded(relocs, base);
    if relocs == [] {
      NothingScanned(base);
    } else {
      PageIsKnown(relocs, base, done, open);
      AtMost(s, base, done, open);
      FinishedIsRead(s, base, done, open);
      BlockSize(s.page, base, s.entries);
    }
    LoadedIsScanned(Scan(0, 0, []), SectionOf(relocs, base), |relocs|);
  }

  lemma AtMost(s: Section, base: Word, done: seq<Reloc>, open: seq<Reloc>)
    requires Holds(s, base, done, open)
    ensures 0 <= s.page < WORDS && open != [] && |open| <= |done + open|
  {
  }

  lemma BlockSize(page: int, base: Word, entries: seq<Byte>)
    ensures |Block(page, base, entries)| == 8 + |Padded(entries)|
  {
  }
}
