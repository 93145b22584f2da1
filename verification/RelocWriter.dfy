/** Making relocation sections: their size, worked out beforehand, and their octets, in place. */
module RelocWriter {
  import opened Buffers
  import opened Bytes
  import opened Relocations

  // Sizes

  /** The size so far and the page of the last relocation. */
  datatype Count = Count(bytes: nat, page: int)

  function Counted(c: Count, r: Reloc): Count {
    var p := PageOf(r);
    if c.page != p then Count((if c.bytes % 4 != 0 then c.bytes + 2 else c.bytes) + 8 + 2, p)
    else Count(c.bytes + 2, p)
  }

  /** What has been counted is the size of the section without the last padding. */
  ghost predicate Counts(c: Count, s: Section) {
    && c.page == s.page && |s.closed| % 4 == 0 && |s.entries| % 2 == 0
    && c.bytes == if s.page == -1 then 0 else |s.closed| + 8 + |s.entries|
  }

  lemma CountsOn(c: Count, s: Section, r: Reloc, base: Word)
    requires Counts(c, s)
    ensures Counts(Counted(c, r), Added(s, r, base))
  {
    hide LittleEndian, Finished, Padded, Block;
    FinishedSize(s, base);
    PaddedSize(s.entries);
  }

  lemma CountIsSize(c: Count, s: Section, base: Word)
    requires Counts(c, s)
    ensures |Finished(s, base)| == if c.bytes % 4 != 0 then c.bytes + 2 else c.bytes
  {
    hide LittleEndian;
  }

  // Octets

  class RelocWriter {
    const base: Word
    // whether the octets that come before the first block show its page; ELF images do
    const showsFirstPage: bool
    const section: array<Byte>
    var data: nat
    var startOfBlock: nat
    var page: int
    var pageSize: nat
    ghost var written: Section

    ghost predicate Valid()
      reads this, section
    {
      && page == written.page && -1 <= page < WORDS
      && |Finished(written, base)| <= section.Length
      && |written.closed| % 4 == 0 && |written.entries| % 2 == 0
      && if page == -1 then written == NOTHING && data == startOfBlock == 0 && pageSize == 8
         else
           && pageSize == 8 + |written.entries| && startOfBlock == |written.closed|
           && data == startOfBlock + pageSize <= section.Length
           && section[..startOfBlock] == written.closed
           && section[startOfBlock + 8..data] == written.entries
    }

    constructor (size: nat, base: Word, showsFirstPage: bool)
      ensures Valid() && written == NOTHING && fresh(section) && section.Length == size && this.base == base
    {
      this.base, this.showsFirstPage, section := base, showsFirstPage, new Byte[size];
      data, startOfBlock, page, pageSize, written := 0, 0, -1, 8, NOTHING;
    }

    method PutHalf(at: nat, value: CodeUnit)
      requires at + 2 <= section.Length
      modifies section
      ensures section[at..at + 2] == LittleEndian(2, value)
      ensures section[..at] == old(section[..at]) && section[at + 2..] == old(section[at + 2..])
    {
      Put(section, at, LittleEndian(2, value));
    }

    method PutWord(at: nat, value: Word)
      requires at + 4 <= section.Length
      modifies section
      ensures section[at..at + 4] == LittleEndian(4, value)
      ensures section[..at] == old(section[..at]) && section[at + 4..] == old(section[at + 4..])
    {
      Put(section, at, LittleEndian(4, value));
    }

    /** Fills the entries of a block up to a whole word. */
    method Pad()
      requires Valid()
      modifies this`data, this`pageSize, section
      ensures pageSize == 8 + |Padded(written.entries)|
      ensures page == -1 ==> data == old(data) && section[..] == old(section[..])
      ensures page != -1 ==> data == startOfBlock + pageSize <= section.Length
      ensures page != -1 ==> section[startOfBlock + 8..data] == Padded(written.entries)
      ensures page != -1 ==> section[..startOfBlock] == old(section[..startOfBlock])
    {
      hide LittleEndian, Finished, Padded;
      FinishedSize(written, base);
      PaddedSize(written.entries);
      PaddedIs(written.entries);
      ghost var before := section[..];
      if pageSize % 4 != 0 {
        PutHalf(data, 0);
        data := data + 2;
        pageSize := pageSize + 2;
        if page != -1 {
          Appended(before, section[..], startOfBlock, data);
        }
      }
    }

    method PutHeader(at: nat, page: Word, size: Word)
      requires at + 8 <= section.Length
      modifies section
      ensures section[at..at + 8] == LittleEndian(4, page) + LittleEndian(4, size)
      ensures section[..at] == old(section[..at]) && section[at + 8..] == old(section[at + 8..])
    {
      hide LittleEndian;
      PutWord(at, page);
      PutWord(at + 4, size);
    }

    /** Ends the block that is being written: pads it and goes back to its page and size. Before the
        first block these octets are written too, and later overwritten. */
    method EndBlock(shownPage: Word)
      requires Valid() && pageSize < 0x4000_0000
      requires if page == -1 then section.Length >= 8 else shownPage == (page - base) % WORDS
      modifies this`data, this`pageSize, section
      ensures data == |Finished(written, base)| && section[..data] == Finished(written, base)
    {
      hide LittleEndian, Finished;
      FinishedSize(written, base);
      Pad();
      ghost var before := section[..];
      PutHeader(startOfBlock, shownPage, pageSize);
      if page != -1 {
        Assembled(before, section[..], startOfBlock, data, written.closed, Padded(written.entries));
        FinishedParts(written, base);
      }
    }

    /** Ends the block that is being written and leaves room for the header of the next. */
    method StartBlock(p: Word)
      requires Valid() && page != p && pageSize < 0x4000_0000 && |Finished(written, base)| + 10 <= section.Length
      modifies this`data, this`startOfBlock, this`page, this`pageSize, section
      ensures page == p && pageSize == 8 && startOfBlock == |Finished(written, base)| && data == startOfBlock + 8
      ensures section[..startOfBlock] == Finished(written, base)
    {
      hide Finished;
      EndBlock((if page == -1 && showsFirstPage then p - base else page - base) % WORDS);
      pageSize, page := 8, p;
      startOfBlock := data;
      data := data + 8;
    }

    method PutEntry(entry: CodeUnit, ghost entries: seq<Byte>)
      requires startOfBlock + 8 <= data && data + 2 <= section.Length && section[startOfBlock + 8..data] == entries
      modifies this`data, this`pageSize, section
      ensures data == old(data) + 2 && pageSize == old(pageSize) + 2
      ensures section[..startOfBlock] == old(section[..startOfBlock])
      ensures section[startOfBlock + 8..data] == entries + LittleEndian(2, entry)
    {
      hide LittleEndian;
      ghost var before := section[..];
      PutHalf(data, entry);
      data, pageSize := data + 2, pageSize + 2;
      Appended(before, section[..], startOfBlock, data);
    }

    method Add(r: Reloc)
      requires Valid() && pageSize < 0x4000_0000
      requires |Finished(Added(written, r, base), base)| <= section.Length
      modifies this`data, this`startOfBlock, this`page, this`pageSize, this`written, section
      ensures Valid() && written == Added(old(written), r, base)
      ensures pageSize == if old(page) == PageOf(r) then old(pageSize) + 2 else 10
    {
      hide LittleEndian, Finished, Padded;
      ghost var after := Added(written, r, base);
      FinishedSize(after, base);
      PaddedSize(after.entries);
      AddedSize(written, r, base);
      if page != PageOf(r) {
        StartBlock(PageOf(r));
        PutEntry(EntryOf(r), []);
        NothingBefore(LittleEndian(2, EntryOf(r)));
      } else {
        PutEntry(EntryOf(r), written.entries);
      }
      written := after;
    }

    method Finish()
      requires Valid() && page != -1 && pageSize < 0x4000_0000
      modifies this`data, this`pageSize, section
      ensures section[..|Finished(written, base)|] == Finished(written, base)
    {
      EndBlock((page - base) % WORDS);
    }
  }

  lemma Appended(before: seq<Byte>, after: seq<Byte>, start: nat, end: nat)
    requires start + 8 <= end - 2 <= end <= |before| == |after|
    requires after[..end - 2] == before[..end - 2]
    ensures after[..start] == before[..start]
    ensures after[start + 8..end] == before[start + 8..end - 2] + after[end - 2..end]
  {
    assert after[..start] == after[..end - 2][..start];
    assert after[start + 8..end - 2] == after[..end - 2][start + 8..];
    assert before[start + 8..end - 2] == before[..end - 2][start + 8..];
  }

  lemma NothingBefore(entries: seq<Byte>)
    ensures [] + entries == entries
  {
  }

  lemma PaddedIs(entries: seq<Byte>)
    ensures Padded(entries) == if |entries| % 4 != 0 then entries + LittleEndian(2, 0) else entries
  {
    HalfOf(0);
  }

  lemma PaddedSize(entries: seq<Byte>)
    ensures |Padded(entries)| == |entries| + if |entries| % 4 != 0 then 2 else 0
  {
  }

  /** A new block starts where the one before it ends, on a whole word. */
  lemma AddedSize(s: Section, r: Reloc, base: Word)
    requires |s.closed| % 4 == 0 && |s.entries| % 2 == 0
    ensures |Finished(s, base)| % 4 == 0
    ensures |Added(s, r, base).closed| % 4 == 0 && |Added(s, r, base).entries| % 2 == 0
  {
    hide LittleEndian, Finished, Padded, PageOf, EntryOf;
    FinishedSize(s, base);
    PaddedSize(s.entries);
  }

  /** A block whose header has been put in front of its entries. */
  lemma Assembled(before: seq<Byte>, after: seq<Byte>, at: nat, end: nat, closed: seq<Byte>, entries: seq<Byte>)
    requires at + 8 <= end <= |before| == |after|
    requires before[..at] == closed && before[at + 8..end] == entries
    requires after[..at] == before[..at] && after[at + 8..] == before[at + 8..]
    ensures after[..end] == closed + after[at..at + 8] + entries
  {
    assert after[at + 8..end] == after[at + 8..][..end - at - 8];
  }

  lemma FinishedParts(s: Section, base: Word)
    requires s.page != -1
    ensures Finished(s, base) == s.closed + (LittleEndian(4, (s.page - base) % WORDS) + LittleEndian(4, 8 + |Padded(s.entries)|))
                                 + Padded(s.entries)
  {
    Associate(s.closed, LittleEndian(4, (s.page - base) % WORDS) + LittleEndian(4, 8 + |Padded(s.entries)|), Padded(s.entries));
  }

  lemma FinishedSize(s: Section, base: Word)
    ensures |Finished(s, base)| == if s.page == -1 then 0 else |s.closed| + 8 + |Padded(s.entries)|
  {
  }

  // Sections of ELF images

  /** The header of a section and its octets. */
  datatype RelocSection = RelocSection(count: nat, size: nat, data: seq<Byte>)

  lemma {:induction false} SectionGrows(relocs: seq<Reloc>, n: nat, base: Word)
    requires n <= |relocs|
    ensures |SectionOf(relocs[..n], base)| <= |SectionOf(relocs, base)|
    ensures var s := AllAdded(relocs, base); |s.closed| % 4 == 0 && |s.entries| % 2 == 0
  {
    hide Added, Finished;
    if relocs != [] {
      var before := relocs[..|relocs| - 1];
      SectionGrows(before, if n < |relocs| then n else |before|, base);
      OneGrows(AllAdded(before, base), relocs[|relocs| - 1], base);
      AddedSize(AllAdded(before, base), relocs[|relocs| - 1], base);
      if n < |relocs| {
        assert before[..n] == relocs[..n];
      } else {
        assert relocs[..n] == relocs;
      }
    }
  }

  lemma OneGrows(s: Section, r: Reloc, base: Word)
    ensures |Finished(s, base)| <= |Finished(Added(s, r, base), base)|
  {
    hide LittleEndian;
  }

  lemma AllAddedNext(relocs: seq<Reloc>, i: nat, base: Word)
    requires i < |relocs|
    ensures AllAdded(relocs[..i + 1], base) == Added(AllAdded(relocs[..i], base), relocs[i], base)
  {
    assert relocs[..i + 1][..i] == relocs[..i];
  }

  lemma NoneAdded(relocs: seq<Reloc>, base: Word)
    requires relocs == []
    ensures AllAdded(relocs, base) == NOTHING
  {
  }

  /** The size of a section, whatever its base. */
  method SizeOfRelocs(relocs: seq<Reloc>) returns (bytecount: nat)
    ensures forall base: Word :: |SectionOf(relocs, base)| == bytecount
  {
    hide AllAdded, Counts, Counted, Finished;
    var c := Count(0, -1);
    forall base: Word ensures Counts(c, AllAdded(relocs[..0], base)) {
      NoneAdded(relocs[..0], base);
      NothingCounted();
    }
    for i := 0 to |relocs|
      invariant forall base: Word :: Counts(c, AllAdded(relocs[..i], base))
    {
      var before, upTo := c, relocs[..i + 1];
      c := Counted(c, relocs[i]);
      forall base: Word ensures Counts(c, AllAdded(upTo, base)) {
        AllAddedNext(relocs, i, base);
        CountsOn(before, AllAdded(relocs[..i], base), relocs[i], base);
      }
    }
    bytecount := c.bytes;
    if bytecount % 4 != 0 {
      bytecount := bytecount + 2;
    }
    forall base: Word ensures |SectionOf(relocs, base)| == bytecount {
      assert relocs[..|relocs|] == relocs;
      CountIsSize(c, AllAdded(relocs, base), base);
    }
  }

  lemma NothingCounted()
    ensures Counts(Count(0, -1), NOTHING)
  {
  }

  /** Writes the section of relocations, addressed from the start of their segment, into as many
      octets as have been counted. */
  method CreateRelocs(relocs: seq<Reloc>, base: Word) returns (r: Option<RelocSection>)
    requires |relocs| < 0x1000_0000
    ensures r == if relocs == [] then None
                 else Some(RelocSection(|relocs|, |SectionOf(relocs, base)|, SectionOf(relocs, base)))
  {
    hide AllAdded, Finished, Added;
    var bytecount := SizeOfRelocs(relocs);
    SectionSize(relocs, base);
    if bytecount == 0 {
      return None;
    }
    var writer := new RelocWriter(bytecount, base, true);
    NoneAdded(relocs[..0], base);
    for i := 0 to |relocs|
      invariant writer.Valid() && writer.base == base && writer.section.Length == bytecount && fresh(writer.section)
      invariant writer.written == AllAdded(relocs[..i], base) && writer.pageSize <= 8 + 2 * i
      invariant i > 0 ==> writer.page != -1
    {
      AllAddedNext(relocs, i, base);
      SectionGrows(relocs, i + 1, base);
      AddedPage(AllAdded(relocs[..i], base), relocs[i], base);
      writer.Add(relocs[i]);
    }
    assert relocs[..|relocs|] == relocs;
    writer.Finish();
    assert writer.section[..bytecount] == writer.section[..];
    r := Some(RelocSection(|relocs|, bytecount, writer.section[..]));
  }

  lemma AddedPage(s: Section, r: Reloc, base: Word)
    ensures Added(s, r, base).page == PageOf(r)
  {
  }

  lemma SectionSize(relocs: seq<Reloc>, base: Word)
    ensures SectionOf(relocs, base) == [] <==> relocs == []
  {
    if relocs != [] {
      var s := AllAdded(relocs[..|relocs| - 1], base);
      assert |Finished(Added(s, relocs[|relocs| - 1], base), base)| >= 8 by {
        AddedPage(s, relocs[|relocs| - 1], base);
        FinishedSize(Added(s, relocs[|relocs| - 1], base), base);
      }
    }
  }
}
