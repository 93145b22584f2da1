/** Relocations of PE files: read from their blocks, put in the order of their sections, and written
    as one section for code and one for data. */
module PeRelocations {
  import opened Bytes
  import opened Relocations
  import opened RelocWriter

  const TEXT: Word := 0
  const CONST: Word := 1
  const DATA: Word := 3
  const CRT: Word := 6

  /** An address to relocate and the section of the file that it is in. */
  datatype Placed = Placed(va: Word, section: Word)

  predicate Kept(section: int) {
    section == TEXT || section == CONST || section == DATA || section == CRT
  }

  // Reading blocks

  const HIGHLOW: int := 3

  /** The relocation of an entry, if it has the one type that is taken and a section that is kept. */
  function FoundAt(page: Word, entry: CodeUnit, sectionOf: Word -> int): seq<Placed> {
    var va := (page + entry % PAGE_SIZE) % WORDS;
    if entry / PAGE_SIZE == HIGHLOW && Kept(sectionOf(va)) then [Placed(va, sectionOf(va))] else []
  }

  /** The relocations of the entries of a block. */
  function FoundIn(page: Word, entries: seq<Byte>, sectionOf: Word -> int): seq<Placed> {
    if |entries| < 2 then [] else FoundAt(page, Half(entries), sectionOf) + FoundIn(page, entries[2..], sectionOf)
  }

  /** Blocks that fill `size` octets, or end early with a block of no size. Each has a header and
      whole entries. */
  predicate WellFormed(data: seq<Byte>, size: int)
    decreases |data|
  {
    size <= 0 ||
    (|data| >= 8 &&
     var blockSize := Whole(data[4..]);
     blockSize == 0 ||
     (8 <= blockSize <= |data| && blockSize % 2 == 0 && WellFormed(data[blockSize..], size - blockSize)))
  }

  function Found(data: seq<Byte>, size: int, sectionOf: Word -> int): seq<Placed>
    requires WellFormed(data, size)
    decreases |data|
  {
    if size <= 0 || Whole(data[4..]) == 0 then []
    else
      var blockSize := Whole(data[4..]);
      FoundIn(Whole(data), data[8..blockSize], sectionOf) + Found(data[blockSize..], size - blockSize, sectionOf)
  }

  lemma FoundInNext(page: Word, data: seq<Byte>, at: nat, end: nat, sectionOf: Word -> int)
    requires at + 2 <= end <= |data|
    ensures FoundIn(page, data[at..end], sectionOf) ==
            FoundAt(page, Half(data[at..]), sectionOf) + FoundIn(page, data[at + 2..end], sectionOf)
  {
    assert data[at..end][2..] == data[at + 2..end];
  }

  lemma NextBlock(data: seq<Byte>, at: nat, size: int, sectionOf: Word -> int)
    requires at <= |data| && size > 0 && WellFormed(data[at..], size)
    ensures at + 8 <= |data|
    ensures var blockSize := Whole(data[at + 4..]);
            if blockSize == 0 then Found(data[at..], size, sectionOf) == []
            else
              && 8 <= blockSize && at + blockSize <= |data| && blockSize % 2 == 0
              && WellFormed(data[at + blockSize..], size - blockSize)
              && Found(data[at..], size, sectionOf) ==
                 FoundIn(Whole(data[at..]), data[at + 8..at + blockSize], sectionOf)
                 + Found(data[at + blockSize..], size - blockSize, sectionOf)
  {
    hide FoundIn, Found, WellFormed, Whole;
    FirstBlock(data[at..], size, sectionOf);
    assert data[at..][4..] == data[at + 4..];
    var blockSize := Whole(data[at + 4..]);
    if blockSize != 0 {
      assert data[at..][blockSize..] == data[at + blockSize..];
      assert data[at..][8..blockSize] == data[at + 8..at + blockSize];
    }
  }

  lemma FirstBlock(data: seq<Byte>, size: int, sectionOf: Word -> int)
    requires size > 0 && WellFormed(data, size)
    ensures |data| >= 8
    ensures var blockSize := Whole(data[4..]);
            if blockSize == 0 then Found(data, size, sectionOf) == []
            else
              && 8 <= blockSize <= |data| && blockSize % 2 == 0 && WellFormed(data[blockSize..], size - blockSize)
              && Found(data, size, sectionOf) ==
                 FoundIn(Whole(data), data[8..blockSize], sectionOf) + Found(data[blockSize..], size - blockSize, sectionOf)
  {
    hide Whole, FoundIn;
  }

  method NumberOfRelocs(data: seq<Byte>, virtualSize: int, sectionOf: Word -> int) returns (n: nat)
    requires WellFormed(data, virtualSize)
    ensures n == |Found(data, virtualSize, sectionOf)|
  {
    hide Found, FoundIn, WellFormed, Whole, FoundAt;
    n := 0;
    var relocs: nat, size: int := 0, virtualSize;
    assert data[0..] == data;
    while size > 0
      invariant relocs <= |data| && WellFormed(data[relocs..], size)
      invariant n + |Found(data[relocs..], size, sectionOf)| == |Found(data, virtualSize, sectionOf)|
    {
      NextBlock(data, relocs, size, sectionOf);
      var page, blockSize := Whole(data[relocs..]), Whole(data[relocs + 4..]) as int;
      if blockSize == 0 {
        break;
      }
      size := size - blockSize;
      var found := CountBlock(data, relocs + 8, blockSize - 8, page, sectionOf);
      n := n + found;
      relocs := relocs + blockSize;
    }
    NoneFound(data[relocs..], size, sectionOf);
  }

  /** Counts the relocations of one block. */
  method CountBlock(data: seq<Byte>, at: nat, size: nat, page: Word, sectionOf: Word -> int) returns (n: nat)
    requires at + size <= |data| && size % 2 == 0
    ensures n == |FoundIn(page, data[at..at + size], sectionOf)|
  {
    hide FoundIn, Half;
    var p, blockSize: int := at, size;
    ghost var end := at + size;
    n := 0;
    while blockSize > 0
      invariant 0 <= blockSize && p + blockSize == end && blockSize % 2 == 0 && at <= p
      invariant n + |FoundIn(page, data[p..end], sectionOf)| == |FoundIn(page, data[at..end], sectionOf)|
    {
      FoundInNext(page, data, p, end, sectionOf);
      var entry := Half(data[p..]);
      if entry / PAGE_SIZE == HIGHLOW {
        var section := sectionOf((page + entry % PAGE_SIZE) % WORDS);
        if Kept(section) {
          n := n + 1;
        }
      }
      p := p + 2;
      blockSize := blockSize - 2;
    }
    NoneFoundIn(page, data[p..end], sectionOf);
  }

  lemma NoneFoundIn(page: Word, entries: seq<Byte>, sectionOf: Word -> int)
    requires entries == []
    ensures FoundIn(page, entries, sectionOf) == []
  {
  }

  lemma NoneFound(data: seq<Byte>, size: int, sectionOf: Word -> int)
    requires size <= 0 || (|data| >= 8 && Whole(data[4..]) == 0)
    ensures WellFormed(data, size) && Found(data, size, sectionOf) == []
  {
  }

  // What the blocks of a file mean

  datatype PeBlock = PeBlock(page: Word, entries: seq<CodeUnit>)

  /** The octets of blocks: each has its page, its size with these eight octets, and its entries. */
  function BlockData(blocks: seq<PeBlock>): seq<Byte> {
    if blocks == [] then []
    else
      LittleEndian(4, blocks[0].page) + LittleEndian(4, 8 + 2 * |blocks[0].entries|) + UnitBytes(blocks[0].entries)
      + BlockData(blocks[1..])
  }

  /** Of the entries of a page, those of kind 3 for addresses in the sections 0, 1, 3 and 6. */
  function Taken(page: Word, entries: seq<CodeUnit>, sectionOf: Word -> int): seq<Placed> {
    if entries == [] then []
    else
      var va := (page + entries[0] % 0x1000) % 0x1_0000_0000;
      (if entries[0] / 0x1000 == 3 && sectionOf(va) in {0, 1, 3, 6} then [Placed(va, sectionOf(va))] else [])
      + Taken(page, entries[1..], sectionOf)
  }

  function TakenFrom(blocks: seq<PeBlock>, sectionOf: Word -> int): seq<Placed> {
    if blocks == [] then [] else Taken(blocks[0].page, blocks[0].entries, sectionOf) + TakenFrom(blocks[1..], sectionOf)
  }

  lemma {:induction false} EntriesAreFound(page: Word, entries: seq<CodeUnit>, sectionOf: Word -> int)
    ensures FoundIn(page, UnitBytes(entries), sectionOf) == Taken(page, entries, sectionOf)
  {
    if entries != [] {
      EntriesAreFound(page, entries[1..], sectionOf);
      assert UnitBytes(entries)[2..] == UnitBytes(entries[1..]);
      UnitBytesAt(entries, 0);
    }
  }

  /** Every entry of every block is found by its page, in order, up to the size of all or a block of no size. */
  lemma {:induction false} BlocksAreFound(blocks: seq<PeBlock>, rest: seq<Byte>, size: nat, sectionOf: Word -> int)
    requires forall i :: 0 <= i < |blocks| ==> 8 + 2 * |blocks[i].entries| < 0x1_0000_0000
    requires size == |BlockData(blocks)| || (size > |BlockData(blocks)| && |rest| >= 8 && Whole(rest[4..]) == 0)
    ensures WellFormed(BlockData(blocks) + rest, size)
    ensures Found(BlockData(blocks) + rest, size, sectionOf) == TakenFrom(blocks, sectionOf)
  {
    hide FoundIn, Found, WellFormed, Whole, LittleEndian, UnitBytes, Taken;
    if blocks == [] {
      assert BlockData(blocks) + rest == rest;
      NoneFound(rest, size, sectionOf);
    } else {
      var page, entries, later := blocks[0].page, UnitBytes(blocks[0].entries), BlockData(blocks[1..]) + rest;
      var header := LittleEndian(4, page) + LittleEndian(4, 8 + |entries|);
      BlocksAreFound(blocks[1..], rest, size - (8 + |entries|), sectionOf);
      OneBlockFound(page, entries, later, size, sectionOf);
      EntriesAreFound(page, blocks[0].entries, sectionOf);
      assert BlockData(blocks) + rest == header + entries + later;
    }
  }

  lemma OneBlockFound(page: Word, entries: seq<Byte>, later: seq<Byte>, size: nat, sectionOf: Word -> int)
    requires |entries| % 2 == 0 && 8 + |entries| < 0x1_0000_0000 && 8 + |entries| <= size
    requires WellFormed(later, size - (8 + |entries|))
    ensures var data := LittleEndian(4, page) + LittleEndian(4, 8 + |entries|) + entries + later;
            && WellFormed(data, size)
            && Found(data, size, sectionOf) == FoundIn(page, entries, sectionOf) + Found(later, size - (8 + |entries|), sectionOf)
  {
    hide FoundIn, Found, Whole, LittleEndian;
    var blockSize := 8 + |entries|;
    var data, tail := LittleEndian(4, page) + LittleEndian(4, blockSize) + entries + later, LittleEndian(4, blockSize) + (entries + later);
    assert data == LittleEndian(4, page) + tail;
    WholeOf(page, tail);
    WholeOf(blockSize, entries + later);
    assert data[4..] == tail && data[8..blockSize] == entries && data[blockSize..] == later;
    FirstBlock(data, size, sectionOf);
  }

  /** The addresses and the sections that are in two arrays, from `from` to `to`. */
  function Pairs(vas: seq<Word>, sections: seq<Word>): (r: seq<Placed>)
    requires |vas| == |sections|
    ensures |r| == |vas|
  {
    seq(|vas|, i requires 0 <= i < |vas| => Placed(vas[i], sections[i]))
  }

  /** Fills two arrays, which are as long as `NumberOfRelocs` says. */
  method GetRelocs(data: seq<Byte>, virtualSize: int, sectionOf: Word -> int,
                   relocation: array<Word>, relocSection: array<Word>)
    requires WellFormed(data, virtualSize) && relocation != relocSection
    requires relocation.Length == relocSection.Length == |Found(data, virtualSize, sectionOf)|
    modifies relocation, relocSection
    ensures Pairs(relocation[..], relocSection[..]) == Found(data, virtualSize, sectionOf)
  {
    hide Found, FoundIn, FoundAt, WellFormed;
    var i: nat, relocs: nat, relocSize: int := 0, 0, virtualSize;
    ghost var all := Found(data, virtualSize, sectionOf);
    assert data[0..] == data;
    while relocSize > 0
      invariant relocs <= |data| && WellFormed(data[relocs..], relocSize)
      invariant i <= relocation.Length == relocSection.Length == |all|
      invariant Pairs(relocation[..i], relocSection[..i]) + Found(data[relocs..], relocSize, sectionOf) == all
    {
      NextBlock(data, relocs, relocSize, sectionOf);
      var page, size := Whole(data[relocs..]), Whole(data[relocs + 4..]) as int;
      if size == 0 {
        break;
      }
      relocSize := relocSize - size;
      ghost var end := relocs + size;
      relocs := relocs + 8;
      size := size - 8;
      i, relocs := GetBlock(data, relocs, size, page, sectionOf, relocation, relocSection, i, Found(data[end..], relocSize, sectionOf), all);
    }
    NoneFound(data[relocs..], relocSize, sectionOf);
    assert relocation[..i] == relocation[..] && relocSection[..i] == relocSection[..];
  }

  /** Takes the relocations of one block, of which `all` are to come; `later` are in the blocks after it. */
  method GetBlock(data: seq<Byte>, at: nat, blockSize: nat, page: Word, sectionOf: Word -> int,
                  relocation: array<Word>, relocSection: array<Word>, from: nat, ghost later: seq<Placed>, ghost all: seq<Placed>)
    returns (i: nat, relocs: nat)
    requires at + blockSize <= |data| && blockSize % 2 == 0 && relocation != relocSection
    requires from <= relocation.Length == relocSection.Length == |all|
    requires Pairs(relocation[..from], relocSection[..from]) + (FoundIn(page, data[at..at + blockSize], sectionOf) + later) == all
    modifies relocation, relocSection
    ensures i <= relocation.Length && relocs == at + blockSize
    ensures Pairs(relocation[..i], relocSection[..i]) + later == all
  {
    hide FoundIn, Half, Pairs;
    i, relocs := from, at;
    var size: int := blockSize;
    ghost var end := at + blockSize;
    while size > 0
      invariant 0 <= size && relocs + size == end && size % 2 == 0 && i <= relocation.Length
      invariant Pairs(relocation[..i], relocSection[..i]) + (FoundIn(page, data[relocs..end], sectionOf) + later) == all
    {
      FoundInNext(page, data, relocs, end, sectionOf);
      var offset := Half(data[relocs..]);
      ghost var found := FoundAt(page, offset, sectionOf);
      ghost var rest := FoundIn(page, data[relocs + 2..end], sectionOf) + later;
      Associate(found, FoundIn(page, data[relocs + 2..end], sectionOf), later);
      ghost var before := Pairs(relocation[..i], relocSection[..i]);
      relocs := relocs + 2;
      if offset / PAGE_SIZE == HIGHLOW {
        var va := (page + offset % PAGE_SIZE) % WORDS;
        var section := sectionOf(va);
        if Kept(section) {
          assert |found| == 1;
          relocSection[i] := section;
          relocation[i] := va;
          i := i + 1;
          PairsNext(relocation[..i], relocSection[..i]);
          assert relocation[..i][..i - 1] == relocation[..i - 1] && relocSection[..i][..i - 1] == relocSection[..i - 1];
          Associate(before, found, rest);
        }
      }
      size := size - 2;
    }
    NoneFoundIn(page, data[relocs..end], sectionOf);
    assert [] + later == later;
  }

  lemma PairsNext(vas: seq<Word>, sections: seq<Word>)
    requires |vas| == |sections| > 0
    ensures var n := |vas| - 1; Pairs(vas, sections) == Pairs(vas[..n], sections[..n]) + [Placed(vas[n], sections[n])]
  {
  }

  // The order of sections

  function Only(pairs: seq<Placed>, section: int): seq<Placed> {
    if pairs == [] then []
    else
      var last := pairs[|pairs| - 1];
      Only(pairs[..|pairs| - 1], section) + if last.section == section then [last] else []
  }

  /** The relocations of the sections below `sections`, section by section. */
  function Grouped(pairs: seq<Placed>, sections: nat): seq<Placed> {
    if sections == 0 then [] else Grouped(pairs, sections - 1) + Only(pairs, sections - 1)
  }

  function Reordered(pairs: seq<Placed>): seq<Placed> {
    Grouped(pairs, WORDS)
  }

  lemma OnlyNext(pairs: seq<Placed>, i: nat, section: int)
    requires i < |pairs|
    ensures Only(pairs[..i + 1], section) == Only(pairs[..i], section) + if pairs[i].section == section then [pairs[i]] else []
  {
    assert pairs[..i + 1][..i] == pairs[..i];
  }

  lemma {:induction false} OnlyPrefix(pairs: seq<Placed>, i: nat, section: int)
    requires i <= |pairs|
    ensures |Only(pairs[..i], section)| <= |Only(pairs, section)|
  {
    if i < |pairs| {
      var front := pairs[..|pairs| - 1];
      OnlyPrefix(front, i, section);
      assert front[..i] == pairs[..i];
    } else {
      assert pairs[..i] == pairs;
    }
  }

  function Below(pairs: seq<Placed>, section: int): (n: nat)
    ensures n <= |pairs|
    ensures section >= WORDS ==> n == |pairs|
  {
    if pairs == [] then 0
    else Below(pairs[..|pairs| - 1], section) + if pairs[|pairs| - 1].section < section then 1 else 0
  }

  lemma {:induction false} BelowNext(pairs: seq<Placed>, section: int)
    ensures Below(pairs, section + 1) == Below(pairs, section) + |Only(pairs, section)|
  {
    if pairs != [] {
      BelowNext(pairs[..|pairs| - 1], section);
    }
  }

  lemma {:induction false} GroupedSize(pairs: seq<Placed>, sections: nat)
    ensures |Grouped(pairs, sections)| == Below(pairs, sections)
  {
    hide Only, Below;
    if sections == 0 {
      NoneBelow(pairs);
    } else {
      GroupedSize(pairs, sections - 1);
      BelowNext(pairs, sections - 1);
      GroupedNext(pairs, sections - 1);
    }
  }

  lemma {:induction false} NoneBelow(pairs: seq<Placed>)
    ensures Below(pairs, 0) == 0
  {
    if pairs != [] {
      NoneBelow(pairs[..|pairs| - 1]);
    }
  }

  /** Once all relocations have been taken, further sections add nothing. */
  lemma {:induction false} GroupedAll(pairs: seq<Placed>, sections: nat, more: nat)
    requires |Grouped(pairs, sections)| == |pairs| && sections <= more
    ensures Grouped(pairs, more) == Grouped(pairs, sections)
  {
    if sections < more {
      GroupedAll(pairs, sections, more - 1);
      GroupedSize(pairs, more);
      assert Only(pairs, more - 1) == [];
    }
  }

  method ReorderRelocs(reloc: array<Word>, relocSection: array<Word>)
    requires reloc.Length == relocSection.Length && reloc != relocSection
    modifies reloc, relocSection
    ensures Pairs(reloc[..], relocSection[..]) == Reordered(old(Pairs(reloc[..], relocSection[..])))
  {
    hide Grouped, Only, Pairs;
    ghost var pairs := Pairs(reloc[..], relocSection[..]);
    var n := reloc.Length;
    var temp, tempSection := new Word[n], new Word[n];
    var idx: nat, section: nat := 0, 0;
    GroupedSize(pairs, 0);
    NoneBelow(pairs);
    while idx < n
      invariant idx <= n && 0 <= section
      invariant Pairs(temp[..idx], tempSection[..idx]) == Grouped(pairs, section)
      invariant Pairs(reloc[..], relocSection[..]) == pairs
      decreases WORDS - section
    {
      GroupedSize(pairs, section);
      GroupedSize(pairs, section + 1);
      GroupedNext(pairs, section);
      idx := TakeSection(section, reloc, relocSection, temp, tempSection, idx, pairs);
      section := section + 1;
    }
    if section < WORDS {
      GroupedAll(pairs, section, WORDS);
    } else {
      GroupedSize(pairs, WORDS);
      GroupedAll(pairs, WORDS, section);
    }
    assert temp[..idx] == temp[..] && tempSection[..idx] == tempSection[..];
    ghost var vas, sections := temp[..], tempSection[..];
    forall i | 0 <= i < n {
      reloc[i] := temp[i];
    }
    forall i | 0 <= i < n {
      relocSection[i] := tempSection[i];
    }
    assert reloc[..] == vas && relocSection[..] == sections;
  }

  lemma GroupedNext(pairs: seq<Placed>, section: nat)
    ensures Grouped(pairs, section + 1) == Grouped(pairs, section) + Only(pairs, section)
  {
  }

  method TakeSection(section: nat, reloc: array<Word>, relocSection: array<Word>, temp: array<Word>, tempSection: array<Word>,
                     from: nat, ghost pairs: seq<Placed>)
    returns (idx: nat)
    requires reloc.Length == relocSection.Length == temp.Length == tempSection.Length
    requires temp != tempSection && temp !in {reloc, relocSection} && tempSection !in {reloc, relocSection}
    requires Pairs(reloc[..], relocSection[..]) == pairs && from + |Only(pairs, section)| <= temp.Length
    modifies temp, tempSection
    ensures idx <= temp.Length
    ensures Pairs(temp[..idx], tempSection[..idx]) == old(Pairs(temp[..from], tempSection[..from])) + Only(pairs, section)
  {
    hide Only;
    idx := from;
    ghost var before := Pairs(temp[..from], tempSection[..from]);
    NoneOnly(pairs[..0], section);
    for i := 0 to reloc.Length
      invariant idx == from + |Only(pairs[..i], section)| <= temp.Length
      invariant Pairs(temp[..idx], tempSection[..idx]) == before + Only(pairs[..i], section)
      invariant Pairs(reloc[..], relocSection[..]) == pairs
    {
      OnlyNext(pairs, i, section);
      OnlyPrefix(pairs, i + 1, section);
      assert pairs[i] == Placed(reloc[i], relocSection[i]);
      if relocSection[i] == section {
        temp[idx] := reloc[i];
        tempSection[idx] := relocSection[i];
        idx := idx + 1;
        PairsNext(temp[..idx], tempSection[..idx]);
        assert temp[..idx][..idx - 1] == temp[..idx - 1] && tempSection[..idx][..idx - 1] == tempSection[..idx - 1];
        Associate(before, Only(pairs[..i], section), [pairs[i]]);
      }
    }
    assert pairs[..|pairs|] == pairs;
  }

  lemma NoneOnly(pairs: seq<Placed>, section: int)
    requires pairs == []
    ensures Only(pairs, section) == []
  {
  }

  // What the order is

  lemma {:induction false} OnlyConcat(a: seq<Placed>, b: seq<Placed>, section: int)
    ensures Only(a + b, section) == Only(a, section) + Only(b, section)
  {
    if b == [] {
      assert a + b == a;
    } else {
      var n := |b| - 1;
      assert (a + b)[..|a + b| - 1] == a + b[..n];
      OnlyConcat(a, b[..n], section);
    }
  }

  lemma {:induction false} OnlyOnly(pairs: seq<Placed>, s: int, t: int)
    ensures Only(Only(pairs, s), t) == if s == t then Only(pairs, s) else []
  {
    if pairs != [] {
      var n := |pairs| - 1;
      OnlyOnly(pairs[..n], s, t);
      OnlyConcat(Only(pairs[..n], s), if pairs[n].section == s then [pairs[n]] else [], t);
      OnlyOne(pairs[n], t);
    }
  }

  lemma OnlyOne(p: Placed, t: int)
    ensures Only([p], t) == if p.section == t then [p] else []
  {
    assert [p][..0] == [];
  }

  /** Within a section, relocations keep their order. */
  lemma {:induction false} GroupedIsStable(pairs: seq<Placed>, sections: nat, section: nat)
    ensures Only(Grouped(pairs, sections), section) == if section < sections then Only(pairs, section) else []
  {
    hide Only;
    if sections > 0 {
      GroupedIsStable(pairs, sections - 1, section);
      OnlyConcat(Grouped(pairs, sections - 1), Only(pairs, sections - 1), section);
      OnlyOnly(pairs, sections - 1, section);
    } else {
      NoneOnly(Grouped(pairs, 0), section);
    }
  }

  lemma {:induction false} OnlyCount(pairs: seq<Placed>, p: Placed)
    ensures multiset(pairs)[p] == multiset(Only(pairs, p.section))[p]
  {
    if pairs != [] {
      var n := |pairs| - 1;
      OnlyCount(pairs[..n], p);
      assert pairs == pairs[..n] + [pairs[n]];
    }
  }

  lemma {:induction false} OnlySection(pairs: seq<Placed>, section: int)
    ensures forall i :: 0 <= i < |Only(pairs, section)| ==> Only(pairs, section)[i].section == section
  {
    if pairs != [] {
      OnlySection(pairs[..|pairs| - 1], section);
    }
  }

  predicate Ascending(pairs: seq<Placed>) {
    forall i, j :: 0 <= i < j < |pairs| ==> pairs[i].section <= pairs[j].section
  }

  lemma {:induction false} GroupedAscends(pairs: seq<Placed>, sections: nat)
    ensures Ascending(Grouped(pairs, sections))
    ensures forall i :: 0 <= i < |Grouped(pairs, sections)| ==> Grouped(pairs, sections)[i].section < sections
  {
    if sections > 0 {
      GroupedAscends(pairs, sections - 1);
      OnlySection(pairs, sections - 1);
    }
  }

  /** A stable sort: the same relocations, by section, and in their order within a section. */
  lemma ReorderedIsStableSort(pairs: seq<Placed>)
    ensures Ascending(Reordered(pairs)) && multiset(Reordered(pairs)) == multiset(pairs)
    ensures forall section: Word :: Only(Reordered(pairs), section) == Only(pairs, section)
  {
    hide Only, Grouped;
    GroupedAscends(pairs, WORDS);
    forall section: Word ensures Only(Reordered(pairs), section) == Only(pairs, section) {
      GroupedIsStable(pairs, WORDS, section);
    }
    forall p: Placed ensures multiset(Reordered(pairs))[p] == multiset(pairs)[p] {
      OnlyCount(Reordered(pairs), p);
      OnlyCount(pairs, p);
    }
  }

  // Sections for code and data

  /** A relocation of code is in a section of text, of constants or of initialisers; one of data is in
      that of data. */
  predicate Belongs(section: int, code: bool) {
    if code then section == TEXT || section == CONST || section == CRT else section == DATA
  }

  /** The numbers of the sections that go to code, or to data. */
  function SectionsOf(code: bool): set<int> {
    if code then {0, 1, 6} else {3}
  }

  lemma BelongsExactlyIf(section: int, code: bool)
    ensures Belongs(section, code) <==> section in SectionsOf(code)
  {
  }

  /** The relocations of code, or of data, as a loader has them. */
  function Chosen(pairs: seq<Placed>, code: bool): seq<Reloc> {
    if pairs == [] then []
    else
      var last := pairs[|pairs| - 1];
      Chosen(pairs[..|pairs| - 1], code) + if last.section in SectionsOf(code) then [Reloc(last.va, 3)] else []
  }

  lemma ChosenNext(pairs: seq<Placed>, i: nat, code: bool)
    requires i < |pairs|
    ensures Chosen(pairs[..i + 1], code) ==
            if Belongs(pairs[i].section, code) then Chosen(pairs[..i], code) + [Reloc(pairs[i].va, HIGHLOW)]
            else Chosen(pairs[..i], code)
  {
    BelongsExactlyIf(pairs[i].section, code);
    assert pairs[..i + 1][..i] == pairs[..i];
  }

  lemma {:induction false} ChosenPrefix(pairs: seq<Placed>, i: nat, code: bool)
    requires i <= |pairs|
    ensures Chosen(pairs[..i], code) <= Chosen(pairs, code) && |Chosen(pairs, code)| <= |pairs|
    ensures AllPlain(Chosen(pairs, code)) || |pairs| >= 0x1000_0000
  {
    if pairs != [] {
      var front := pairs[..|pairs| - 1];
      if i < |pairs| {
        ChosenPrefix(front, i, code);
        assert front[..i] == pairs[..i];
      } else {
        ChosenPrefix(front, |front|, code);
        assert pairs[..i] == pairs;
      }
    }
  }

  /** The size of the section for code, or for data. */
  method SizeOfRelocs(relocs: seq<Word>, relocSection: seq<Word>, code: bool) returns (bytecount: nat)
    requires |relocs| == |relocSection|
    ensures bytecount == |SectionOf(Chosen(Pairs(relocs, relocSection), code), 0)|
  {
    hide AllAdded, Counts, Counted, Finished, Chosen;
    ghost var pairs := Pairs(relocs, relocSection);
    var c := Count(0, -1);
    NoneChosen(pairs[..0], code);
    NoneAdded(Chosen(pairs[..0], code), 0);
    NothingCounted();
    for i := 0 to |relocs|
      invariant Counts(c, AllAdded(Chosen(pairs[..i], code), 0))
    {
      ChosenNext(pairs, i, code);
      if Belongs(relocSection[i], code) {
        var r := Reloc(relocs[i], HIGHLOW);
        AddedNext(Chosen(pairs[..i], code), r, 0);
        CountsOn(c, AllAdded(Chosen(pairs[..i], code), 0), r, 0);
        c := Counted(c, r);
      }
    }
    assert pairs[..|pairs|] == pairs;
    CountIsSize(c, AllAdded(Chosen(pairs, code), 0), 0);
    bytecount := c.bytes;
    if bytecount % 4 != 0 {
      bytecount := bytecount + 2;
    }
  }

  lemma NoneChosen(pairs: seq<Placed>, code: bool)
    requires pairs == []
    ensures Chosen(pairs, code) == []
  {
  }

  /** Writes the section of the relocations of code, or of data, and passes over the others. */
  method CreateRelocs(relocs: seq<Word>, relocSection: seq<Word>, code: bool) returns (r: Option<RelocSection>)
    requires |relocs| == |relocSection| < 0x1000_0000
    ensures var chosen := Chosen(Pairs(relocs, relocSection), code);
            r == if chosen == [] then None else Some(RelocSection(|chosen|, |SectionOf(chosen, 0)|, SectionOf(chosen, 0)))
  {
    hide AllAdded, Finished, Added, Chosen, Belongs, AllPlain;
    ghost var pairs := Pairs(relocs, relocSection);
    ghost var chosen := Chosen(pairs, code);
    var bytecount := SizeOfRelocs(relocs, relocSection, code);
    SectionSize(chosen, 0);
    if bytecount == 0 {
      return None;
    }
    var writer := new RelocWriter(bytecount, 0, false);
    var count := 0;
    NoneChosen(pairs[..0], code);
    NoneAdded(Chosen(pairs[..0], code), 0);
    for i := 0 to |relocs|
      invariant writer.Valid() && writer.base == 0 && writer.section.Length == bytecount && fresh(writer.section)
      invariant writer.written == AllAdded(Chosen(pairs[..i], code), 0) && writer.pageSize <= 8 + 2 * i
      invariant count == |Chosen(pairs[..i], code)| && (count > 0 ==> writer.page != -1)
    {
      ChosenNext(pairs, i, code);
      if Belongs(relocSection[i], code) {
        var r := Reloc(relocs[i], HIGHLOW);
        AddedNext(Chosen(pairs[..i], code), r, 0);
        AddedPage(writer.written, r, 0);
        ChosenPrefix(pairs, i + 1, code);
        assert Chosen(pairs[..i + 1], code) == chosen[..|Chosen(pairs[..i + 1], code)|];
        SectionGrows(chosen, |Chosen(pairs[..i + 1], code)|, 0);
        writer.Add(r);
        count := count + 1;
      }
    }
    assert pairs[..|pairs|] == pairs;
    writer.Finish();
    assert writer.section[..bytecount] == writer.section[..];
    r := Some(RelocSection(count, bytecount, writer.section[..]));
  }

  /** What the loader takes from a section, if there is one. */
  function LoadedFrom(r: Option<RelocSection>): Option<seq<Reloc>> {
    match r
    case None => Some([])
    case Some(section) => Loaded(section.data, 0, 0, section.count)
  }

  lemma {:induction false} ChosenConcat(a: seq<Placed>, b: seq<Placed>, code: bool)
    ensures Chosen(a + b, code) == Chosen(a, code) + Chosen(b, code)
  {
    if b == [] {
      assert a + b == a;
    } else {
      var n := |b| - 1;
      assert (a + b)[..|a + b| - 1] == a + b[..n];
      ChosenConcat(a, b[..n], code);
    }
  }

  /** Relocations further on in their image, for a loader. */
  function MovedBy(pairs: seq<Placed>, distance: int): (r: seq<Reloc>)
    ensures |r| == |pairs|
  {
    Map((p: Placed) => Reloc((p.va + distance) % 0x1_0000_0000, 3), pairs)
  }

  lemma MovedLast(pairs: seq<Placed>)
    requires pairs != []
    ensures var n := |pairs| - 1;
            MovedBy(pairs, 0) == MovedBy(pairs[..n], 0) + [Reloc(pairs[n].va, 3)]
  {
  }

  lemma {:induction false} AllChosen(pairs: seq<Placed>, section: int, code: bool)
    requires forall i :: 0 <= i < |pairs| ==> pairs[i].section == section
    ensures Chosen(pairs, code) == if section in SectionsOf(code) then MovedBy(pairs, 0) else []
  {
    hide SectionsOf, MovedBy;
    if pairs != [] {
      AllChosen(pairs[..|pairs| - 1], section, code);
      MovedLast(pairs);
    } else {
      assert MovedBy(pairs, 0) == [];
    }
  }

  lemma {:induction false} ChosenGrouped(pairs: seq<Placed>, sections: nat, code: bool)
    ensures Chosen(Grouped(pairs, sections), code) ==
            if code then
              (if sections > 0 then MovedBy(Only(pairs, 0), 0) else []) + (if sections > 1 then MovedBy(Only(pairs, 1), 0) else [])
              + (if sections > 6 then MovedBy(Only(pairs, 6), 0) else [])
            else if sections > 3 then MovedBy(Only(pairs, 3), 0) else []
  {
    hide Only, Chosen, MovedBy;
    if sections > 0 {
      ChosenGrouped(pairs, sections - 1, code);
      ChosenConcat(Grouped(pairs, sections - 1), Only(pairs, sections - 1), code);
      OnlySection(pairs, sections - 1);
      AllChosen(Only(pairs, sections - 1), sections - 1, code);
    } else {
      NoneChosen(Grouped(pairs, 0), code);
    }
  }

  /** Where the sections of a file start, and where in their image those of constants and initialisers go. */
  datatype Layout = Layout(virtualAddress: Word -> Word, constOffset: Word, crtOffset: Word) {
    /** How far the relocations of a section move. */
    function Shift(section: Word): int {
      var offset := if section == CONST then constOffset else if section == CRT then crtOffset else 0;
      if Kept(section) then offset - virtualAddress(section) else 0
    }
  }

  /** Addresses in the image that their section becomes a part of. */
  function Moved(pairs: seq<Placed>, layout: Layout): (r: seq<Placed>)
    ensures |r| == |pairs|
  {
    Map((p: Placed) => Placed((p.va + layout.Shift(p.section)) % WORDS, p.section), pairs)
  }

  method MoveRelocs(reloc: array<Word>, relocSection: array<Word>, layout: Layout)
    requires reloc.Length == relocSection.Length && reloc != relocSection
    modifies reloc
    ensures Pairs(reloc[..], relocSection[..]) == Moved(old(Pairs(reloc[..], relocSection[..])), layout)
  {
    for i := 0 to reloc.Length
      invariant forall k :: 0 <= k < i ==> reloc[k] == (old(reloc[k]) + layout.Shift(relocSection[k])) % WORDS
      invariant forall k :: i <= k < reloc.Length ==> reloc[k] == old(reloc[k])
    {
      if relocSection[i] == TEXT || relocSection[i] == DATA {
        reloc[i] := (reloc[i] - layout.virtualAddress(relocSection[i])) % WORDS;
      } else if relocSection[i] == CONST {
        reloc[i] := (reloc[i] - layout.virtualAddress(CONST) + layout.constOffset) % WORDS;
      } else if relocSection[i] == CRT {
        reloc[i] := (reloc[i] - layout.virtualAddress(CRT) + layout.crtOffset) % WORDS;
      }
    }
  }

  lemma {:induction false} OnlyMoved(pairs: seq<Placed>, layout: Layout, section: Word)
    ensures Only(Moved(pairs, layout), section) == Moved(Only(pairs, section), layout)
  {
    hide Layout.Shift;
    if pairs != [] {
      var n := |pairs| - 1;
      OnlyMoved(pairs[..n], layout, section);
      assert Moved(pairs, layout)[..n] == Moved(pairs[..n], layout);
    }
  }

  lemma Wrapped(value: int)
    ensures (value % WORDS + 0) % WORDS == value % WORDS
  {
  }

  /** The relocations of one section all move alike. */
  lemma MovedAlike(pairs: seq<Placed>, layout: Layout, section: Word)
    ensures MovedBy(Only(Moved(pairs, layout), section), 0) == MovedBy(Only(pairs, section), layout.Shift(section))
  {
    hide Layout.Shift, Only;
    OnlyMoved(pairs, layout, section);
    OnlySection(pairs, section);
    var only, shift := Only(pairs, section), layout.Shift(section);
    forall i | 0 <= i < |only| ensures MovedBy(Moved(only, layout), 0)[i] == MovedBy(only, shift)[i] {
      Wrapped(only[i].va + shift);
    }
  }

  lemma CreatedIsLoaded(chosen: seq<Reloc>)
    requires AllPlain(chosen)
    ensures LoadedFrom(if chosen == [] then None else Some(RelocSection(|chosen|, |SectionOf(chosen, 0)|, SectionOf(chosen, 0))))
            == Some(chosen)
  {
    hide Loaded, SectionOf;
    SectionIsRead(chosen, 0);
    assert Relative(chosen, 0) == chosen;
  }

  lemma ShiftsAre(layout: Layout)
    ensures layout.Shift(0) == 0 - layout.virtualAddress(0) && layout.Shift(1) == layout.constOffset - layout.virtualAddress(1)
    ensures layout.Shift(6) == layout.crtOffset - layout.virtualAddress(6) && layout.Shift(3) == 0 - layout.virtualAddress(3)
  {
  }

  /** What is chosen, by the sections in which it was found. */
  lemma ChosenAre(found: seq<Placed>, layout: Layout)
    ensures Chosen(Reordered(Moved(found, layout)), true) ==
            MovedBy(Only(found, 0), 0 - layout.virtualAddress(0))
            + MovedBy(Only(found, 1), layout.constOffset - layout.virtualAddress(1))
            + MovedBy(Only(found, 6), layout.crtOffset - layout.virtualAddress(6))
    ensures Chosen(Reordered(Moved(found, layout)), false) == MovedBy(Only(found, 3), 0 - layout.virtualAddress(3))
  {
    hide Chosen, Only, Grouped, Moved, MovedBy, Layout.Shift;
    ShiftsAre(layout);
    MovedAlike(found, layout, 0);
    MovedAlike(found, layout, 1);
    MovedAlike(found, layout, 6);
    MovedAlike(found, layout, 3);
    ChosenGrouped(Moved(found, layout), WORDS, true);
    ChosenGrouped(Moved(found, layout), WORDS, false);
  }

  lemma ReorderedSize(pairs: seq<Placed>)
    ensures |Reordered(pairs)| == |pairs|
  {
    hide Grouped;
    GroupedSize(pairs, WORDS);
  }

  lemma ChosenAreLoaded(pairs: seq<Placed>, code: bool)
    requires |pairs| < 0x1000_0000
    ensures var chosen := Chosen(pairs, code);
            LoadedFrom(if chosen == [] then None else Some(RelocSection(|chosen|, |SectionOf(chosen, 0)|, SectionOf(chosen, 0))))
            == Some(chosen)
  {
    hide Chosen, SectionOf, LoadedFrom, AllPlain;
    ChosenPrefix(pairs, 0, code);
    CreatedIsLoaded(Chosen(pairs, code));
  }

  lemma NothingLoaded()
    ensures LoadedFrom(None) == Some([])
  {
  }

  /** From the blocks of a file to the sections of an image, and what the loader takes from those:
      from the one for code every relocation that was found in section 0, then 1, then 6, and from the
      one for data every relocation that was found in section 3, in order and by its place in the image. */
  method TranslateRelocs(data: seq<Byte>, virtualSize: int, sectionOf: Word -> int, layout: Layout)
    returns (code: Option<RelocSection>, other: Option<RelocSection>)
    requires WellFormed(data, virtualSize) && |Found(data, virtualSize, sectionOf)| < 0x1000_0000
    ensures var found := Found(data, virtualSize, sectionOf);
            && LoadedFrom(code) == Some(MovedBy(Only(found, 0), 0 - layout.virtualAddress(0))
                                        + MovedBy(Only(found, 1), layout.constOffset - layout.virtualAddress(1))
                                        + MovedBy(Only(found, 6), layout.crtOffset - layout.virtualAddress(6)))
            && LoadedFrom(other) == Some(MovedBy(Only(found, 3), 0 - layout.virtualAddress(3)))
  {
    hide Found, WellFormed, Chosen, Only, Pairs, SectionOf, Loaded, Reordered, AllPlain, Moved, MovedBy, LoadedFrom;
    ghost var moved := Moved(Found(data, virtualSize, sectionOf), layout);
    ChosenAre(Found(data, virtualSize, sectionOf), layout);
    ReorderedSize(moved);
    ChosenAreLoaded(Reordered(moved), true);
    ChosenAreLoaded(Reordered(moved), false);
    var n := NumberOfRelocs(data, virtualSize, sectionOf);
    code, other := None, None;
    if n > 0 {
      var relocs, relocSection := new Word[n], new Word[n];
      GetRelocs(data, virtualSize, sectionOf, relocs, relocSection);
      MoveRelocs(relocs, relocSection, layout);
      ReorderRelocs(relocs, relocSection);
      code := CreateRelocs(relocs[..], relocSection[..], true);
      other := CreateRelocs(relocs[..], relocSection[..], false);
    } else {
      NothingLoaded();
      NoneChosen(Reordered(moved), true);
      NoneChosen(Reordered(moved), false);
    }
  }
}
