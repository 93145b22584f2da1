/** Imports of PE files: the section that lists them, made smaller in place, and the import address
    table, copied to the end of the code and referred to from there. */
module PeImports {
  import opened Buffers
  import opened Bytes

  // The import section

  /** The start of block `i`: the offset of a name, a count and as many ordinals. */
  function BlockAt(section: seq<Byte>, i: nat): Option<nat> {
    if i == 0 then Some(4)
    else
      match BlockAt(section, i - 1)
      case None => None
      case Some(at) => if at + 8 > |section| then None else Some(at + 8 + 4 * WholeAt(section, at + 4))
  }

  /** The imports of the first `dlls` blocks. */
  function Imports(section: seq<Byte>, dlls: nat): nat
    requires BlockAt(section, dlls).Some?
  {
    if dlls == 0 then 0
    else Imports(section, dlls - 1) + WholeAt(section, BlockAt(section, dlls - 1).value + 4)
  }

  /** A section of so many octets with blocks for so many DLLs. */
  predicate Blocks(section: seq<Byte>, dlls: nat) {
    |section| >= 4 && WholeAt(section, 0) == |section| && BlockAt(section, dlls).Some? && BlockAt(section, dlls).value <= |section|
  }

  lemma {:induction false} BlocksBefore(section: seq<Byte>, i: nat, dlls: nat)
    requires BlockAt(section, dlls).Some? && i <= dlls
    ensures BlockAt(section, i).Some? && BlockAt(section, i).value == 4 + 8 * i + 4 * Imports(section, i)
    ensures Imports(section, i) <= Imports(section, dlls)
    ensures i < dlls ==> BlockAt(section, i).value + 8 <= |section|
    decreases dlls
  {
    hide WholeAt;
    if i < dlls {
      BlocksBefore(section, i, dlls - 1);
    } else if dlls > 0 {
      BlocksBefore(section, dlls - 1, dlls - 1);
    }
  }

  /** The offset of a name once it has been moved down, as a 32-bit word. */
  function Down(offset: Word, drop: nat): Word {
    (offset - drop) % 0x1_0000_0000
  }

  /** The name offset and the count of each block, without the ordinals. */
  function Heads(section: seq<Byte>, dlls: nat, drop: nat): (r: seq<Byte>)
    requires BlockAt(section, dlls).Some?
    ensures |r| == 8 * dlls
  {
    if dlls == 0 then []
    else
      BlocksBefore(section, dlls - 1, dlls);
      var at := BlockAt(section, dlls - 1).value;
      Heads(section, dlls - 1, drop) + LittleEndian(4, Down(WholeAt(section, at), drop)) + LittleEndian(4, WholeAt(section, at + 4))
  }

  /** A section without ordinals: its size, the heads of its blocks and the names. */
  function Crunched(section: seq<Byte>, dlls: nat): (r: seq<Byte>)
    requires Blocks(section, dlls)
    ensures |r| == |section| - 4 * Imports(section, dlls)
  {
    BlocksBefore(section, dlls, dlls);
    var drop := 4 * Imports(section, dlls);
    assert drop <= |section|;
    LittleEndian(4, |section| - drop) + Heads(section, dlls, drop) + section[BlockAt(section, dlls).value..]
  }

  lemma HeadsNext(section: seq<Byte>, i: nat, dlls: nat, drop: nat)
    requires BlockAt(section, dlls).Some? && i < dlls
    ensures BlockAt(section, i).Some? && BlockAt(section, i + 1).Some? && BlockAt(section, i).value + 8 <= |section|
    ensures var at := BlockAt(section, i).value;
            && BlockAt(section, i + 1).value == at + 8 + 4 * WholeAt(section, at + 4)
            && Heads(section, i + 1, drop) ==
               Heads(section, i, drop) + LittleEndian(4, Down(WholeAt(section, at), drop)) + LittleEndian(4, WholeAt(section, at + 4))
  {
    hide WholeAt, LittleEndian, Down;
    BlocksBefore(section, i, dlls);
    BlocksBefore(section, i + 1, dlls);
  }

  /** Makes a section smaller in place, the heads of its blocks and then the names moving down over
      the ordinals. */
  method CrunchImportSection(section: array<Byte>, dlls: nat, imports: nat) returns (size: nat)
    requires Blocks(section[..], dlls) && Imports(section[..], dlls) == imports
    modifies section
    ensures size == section.Length - 4 * imports
    ensures section[..size] == Crunched(old(section[..]), dlls)
  {
    hide BlockAt, Heads, LittleEndian, WholeAt, Has, Imports, Down, Crunched;
    ghost var was := section[..];
    BlocksBefore(was, dlls, dlls);
    BlocksBefore(was, 0, dlls);
    FirstBlock(was);
    var drop := imports * 4;
    size := section.Length - drop;
    Put(section, 0, LittleEndian(4, size));
    NoHeads(was, drop);
    var dd, ss, i := 4, 4, 0;
    assert section[..4] == section[0..4] && LittleEndian(4, size) + [] == LittleEndian(4, size);
    while i < dlls
      invariant i <= dlls && dd == 4 + 8 * i && BlockAt(was, i) == Some(ss) && dd <= ss <= section.Length
      invariant section[..dd] == LittleEndian(4, size) + Heads(was, i, drop)
      invariant forall k :: ss <= k < section.Length ==> section[k] == was[k]
    {
      BlocksBefore(was, i, dlls);
      BlocksBefore(was, i + 1, dlls);
      HeadsJoined(was, i, dlls, drop, LittleEndian(4, size));
      dd, ss := CrunchBlock(section, was, dd, ss, drop, LittleEndian(4, size) + Heads(was, i, drop));
      i := i + 1;
    }
    assert ss - dd == drop;
    MoveDown(section, dd, ss, was);
    assert section[..size] == section[..dd] + section[dd..size];
    CrunchedIs(was, dlls);
  }

  lemma CrunchedIs(section: seq<Byte>, dlls: nat)
    requires Blocks(section, dlls)
    ensures 4 * Imports(section, dlls) <= |section|
    ensures Crunched(section, dlls) ==
            LittleEndian(4, |section| - 4 * Imports(section, dlls)) + Heads(section, dlls, 4 * Imports(section, dlls))
            + section[BlockAt(section, dlls).value..]
  {
    hide BlockAt, Heads, LittleEndian, WholeAt, Imports;
    BlocksBefore(section, dlls, dlls);
  }

  lemma HeadsJoined(section: seq<Byte>, i: nat, dlls: nat, drop: nat, first: seq<Byte>)
    requires BlockAt(section, dlls).Some? && i < dlls
    ensures BlockAt(section, i).Some? && BlockAt(section, i + 1).Some? && BlockAt(section, i).value + 8 <= |section|
    ensures var at := BlockAt(section, i).value;
            && BlockAt(section, i + 1).value == at + 8 + 4 * WholeAt(section, at + 4)
            && first + Heads(section, i + 1, drop) ==
               first + Heads(section, i, drop) + LittleEndian(4, Down(WholeAt(section, at), drop))
               + LittleEndian(4, WholeAt(section, at + 4))
  {
    hide BlockAt, Heads, LittleEndian, WholeAt, Down;
    HeadsNext(section, i, dlls, drop);
    var at := BlockAt(section, i).value;
    var name, count := LittleEndian(4, Down(WholeAt(section, at), drop)), LittleEndian(4, WholeAt(section, at + 4));
    Associate(first, Heads(section, i, drop), name);
    Associate(first, Heads(section, i, drop) + name, count);
  }

  lemma FirstBlock(section: seq<Byte>)
    ensures BlockAt(section, 0) == Some(4)
  {
  }

  lemma NoHeads(section: seq<Byte>, drop: nat)
    ensures BlockAt(section, 0).Some? && Heads(section, 0, drop) == []
  {
  }

  /** Copies the head of one block down and passes over its ordinals. */
  method CrunchBlock(section: array<Byte>, ghost was: seq<Byte>, to: nat, from: nat, drop: nat, ghost done: seq<Byte>)
    returns (dd: nat, ss: nat)
    requires |was| == section.Length && to <= from && from + 8 <= section.Length && section[..to] == done
    requires forall k :: from <= k < section.Length ==> section[k] == was[k]
    modifies section
    ensures dd == to + 8 && ss == from + 8 + 4 * WholeAt(was, from + 4)
    ensures section[..dd] == done + LittleEndian(4, Down(WholeAt(was, from), drop)) + LittleEndian(4, WholeAt(was, from + 4))
    ensures forall k :: ss <= k < section.Length ==> section[k] == was[k]
  {
    hide LittleEndian, WholeAt;
    SameWord(section[..], was, from);
    SameWord(section[..], was, from + 4);
    Put(section, to, LittleEndian(4, Down(WholeAt(section[..], from), drop)));
    SameWord(section[..], was, from + 4);
    assert section[..to + 4] == section[..to] + section[to..to + 4];
    ghost var first := section[..to + 4];
    var imports: Word := WholeAt(section[..], from + 4);
    Put(section, to + 4, LittleEndian(4, imports));
    assert section[..to + 8] == section[..to + 4] + section[to + 4..to + 8];
    assert section[..to + 4] == first;
    dd, ss := to + 8, from + 8 + 4 * imports as int;
  }

  lemma SameWord(a: seq<Byte>, b: seq<Byte>, at: nat)
    requires |a| == |b| && at + 4 <= |a| && forall k :: at <= k < at + 4 ==> a[k] == b[k]
    ensures WholeAt(a, at) == WholeAt(b, at)
  {
  }

  /** Moves what is left of the section down. */
  method MoveDown(section: array<Byte>, to: nat, from: nat, ghost was: seq<Byte>)
    requires to <= from <= section.Length == |was| && forall k :: from <= k < section.Length ==> section[k] == was[k]
    modifies section
    ensures section[..to] == old(section[..to]) && section[to..section.Length - (from - to)] == was[from..]
  {
    for k := 0 to section.Length - from
      invariant section[..to] == old(section[..to])
      invariant forall j :: to <= j < to + k ==> section[j] == was[j + (from - to)]
      invariant forall j :: from + k <= j < section.Length ==> section[j] == was[j]
    {
      section[to + k] := section[from + k];
    }
  }

  // What a crunched section says

  lemma {:induction false} HeadsAreFirst(section: seq<Byte>, i: nat, dlls: nat, drop: nat)
    requires BlockAt(section, dlls).Some? && i <= dlls
    ensures BlockAt(section, i).Some? && Heads(section, i, drop) <= Heads(section, dlls, drop)
    decreases dlls
  {
    hide WholeAt, LittleEndian;
    BlocksBefore(section, i, dlls);
    if i < dlls {
      HeadsNext(section, dlls - 1, dlls, drop);
      HeadsAreFirst(section, i, dlls - 1, drop);
    }
  }

  lemma {:induction false} CStringMoved(a: seq<Byte>, at: nat, b: seq<Byte>, to: nat)
    requires at <= |a| && to <= |b| && a[at..] == b[to..]
    ensures CString(a, at) == CString(b, to)
    decreases |a| - at
  {
    assert |a[at..]| == |a| - at && |b[to..]| == |b| - to;
    if at < |a| {
      assert a[at] == a[at..][0] && b[to] == b[to..][0];
      assert a[at + 1..] == a[at..][1..] && b[to + 1..] == b[to..][1..];
      CStringMoved(a, at + 1, b, to + 1);
    }
  }

  lemma CrunchedHeads(section: seq<Byte>, dlls: nat, i: nat)
    requires Blocks(section, dlls) && i < dlls
    ensures BlockAt(section, i).Some? && BlockAt(section, i).value + 8 <= |section|
    ensures var c, at := Crunched(section, dlls), BlockAt(section, i).value;
            && Has(c, 4 + 8 * i, LittleEndian(4, Down(WholeAt(section, at), 4 * Imports(section, dlls))))
            && Has(c, 8 + 8 * i, LittleEndian(4, WholeAt(section, at + 4)))
  {
    hide BlockAt, Heads, WholeAt, LittleEndian, Imports;
    var drop, c := 4 * Imports(section, dlls), Crunched(section, dlls);
    HeadsNext(section, i, dlls, drop);
    HeadsAreFirst(section, i + 1, dlls, drop);
    var heads := Heads(section, i + 1, drop);
    assert c[4..4 + |heads|] == heads;
    assert c[4 + 8 * i..8 + 8 * i] == heads[8 * i..8 * i + 4] && c[8 + 8 * i..12 + 8 * i] == heads[8 * i + 4..8 * i + 8];
  }

  /** In a crunched section every DLL has the count that it had, and its name offset, now smaller by
      four octets an import, leads to the string that it led to. */
  lemma CrunchedKeepsNames(section: seq<Byte>, dlls: nat, i: nat)
    requires Blocks(section, dlls) && i < dlls && |section| < 0x1_0000_0000
    ensures BlockAt(section, i).Some? && BlockAt(section, i).value + 8 <= |section|
    ensures var c, at, drop := Crunched(section, dlls), BlockAt(section, i).value, 4 * Imports(section, dlls);
            && WholeAt(c, 0) == |c| == |section| - drop
            && 12 + 8 * i <= |c| && WholeAt(c, 8 + 8 * i) == WholeAt(section, at + 4)
            && var name := WholeAt(section, at);
               BlockAt(section, dlls).value <= name < |section| ==>
                 WholeAt(c, 4 + 8 * i) == name - drop && CString(c, WholeAt(c, 4 + 8 * i)) == CString(section, name)
  {
    hide BlockAt, Heads, WholeAt, LittleEndian, Imports, CString;
    var drop, c := 4 * Imports(section, dlls), Crunched(section, dlls);
    CrunchedHeads(section, dlls, i);
    BlocksBefore(section, dlls, dlls);
    var at := BlockAt(section, i).value;
    WholeRead(c, 4 + 8 * i, Down(WholeAt(section, at), drop));
    WholeRead(c, 8 + 8 * i, WholeAt(section, at + 4));
    assert c[0..4] == LittleEndian(4, |section| - drop);
    WholeRead(c, 0, |section| - drop);
    var name := WholeAt(section, at);
    if BlockAt(section, dlls).value <= name < |section| {
      assert c[name - drop..] == section[name..];
      CStringMoved(c, name - drop, section, name);
    }
  }

  // Sections that are made of blocks

  datatype ImportBlock = ImportBlock(nameOffset: Word, ordinals: seq<Word>)

  function OrdinalData(ordinals: seq<Word>): (r: seq<Byte>)
    ensures |r| == 4 * |ordinals|
  {
    if ordinals == [] then [] else LittleEndian(4, ordinals[0]) + OrdinalData(ordinals[1..])
  }

  /** The offset of a name, the number of ordinals and the ordinals, for each block. */
  function BlockData(blocks: seq<ImportBlock>): seq<Byte>
    requires forall i :: 0 <= i < |blocks| ==> |blocks[i].ordinals| < 0x1_0000_0000
  {
    if blocks == [] then []
    else
      var n := |blocks| - 1;
      BlockData(blocks[..n]) + LittleEndian(4, blocks[n].nameOffset) + LittleEndian(4, |blocks[n].ordinals|)
      + OrdinalData(blocks[n].ordinals)
  }

  /** The same without the ordinals, and with names that are `drop` octets further down. */
  function HeadData(blocks: seq<ImportBlock>, drop: nat): (r: seq<Byte>)
    ensures |r| == 8 * |blocks|
  {
    if blocks == [] then []
    else
      var n := |blocks| - 1;
      HeadData(blocks[..n], drop) + LittleEndian(4, (blocks[n].nameOffset - drop) % 0x1_0000_0000)
      + LittleEndian(4, |blocks[n].ordinals|)
  }

  function OrdinalCount(blocks: seq<ImportBlock>): nat {
    if blocks == [] then 0 else OrdinalCount(blocks[..|blocks| - 1]) + |blocks[|blocks| - 1].ordinals|
  }

  lemma {:induction false} BlockDataSize(blocks: seq<ImportBlock>)
    requires forall i :: 0 <= i < |blocks| ==> |blocks[i].ordinals| < 0x1_0000_0000
    ensures |BlockData(blocks)| == 8 * |blocks| + 4 * OrdinalCount(blocks)
  {
    if blocks != [] {
      BlockDataSize(blocks[..|blocks| - 1]);
    }
  }

  /** Blocks are found where they have been put, behind the size of the section. */
  lemma {:induction false} BlocksAreRead(first: seq<Byte>, blocks: seq<ImportBlock>, rest: seq<Byte>, drop: nat)
    requires |first| == 4 && forall i :: 0 <= i < |blocks| ==> |blocks[i].ordinals| < 0x1_0000_0000
    ensures var section := first + BlockData(blocks) + rest;
            && BlockAt(section, |blocks|) == Some(4 + |BlockData(blocks)|)
            && Imports(section, |blocks|) == OrdinalCount(blocks)
            && Heads(section, |blocks|, drop) == HeadData(blocks, drop)
  {
    hide BlockAt, Imports, Heads, WholeAt, LittleEndian, OrdinalData, BlockData, HeadData, OrdinalCount;
    LastBlock(blocks, drop);
    if blocks == [] {
      NoBlocks(first + BlockData(blocks) + rest, drop);
    } else {
      var n := |blocks| - 1;
      var name, count, ordinals := blocks[n].nameOffset, |blocks[n].ordinals|, OrdinalData(blocks[n].ordinals);
      var before := first + BlockData(blocks[..n]);
      BlocksAreRead(first, blocks[..n], LittleEndian(4, name) + LittleEndian(4, count) + (ordinals + rest), drop);
      Regrouped(first, BlockData(blocks[..n]), LittleEndian(4, name), LittleEndian(4, count), ordinals, rest);
      HeadIsRead(before, name, count, ordinals + rest);
      OneMoreBlock(first + BlockData(blocks) + rest, n, |before|, drop);
    }
  }

  lemma Regrouped(first: seq<Byte>, before: seq<Byte>, a: seq<Byte>, b: seq<Byte>, c: seq<Byte>, rest: seq<Byte>)
    ensures first + (before + a + b + c) + rest == first + before + (a + b + (c + rest)) == first + before + a + b + (c + rest)
  {
  }

  lemma LastBlock(blocks: seq<ImportBlock>, drop: nat)
    requires forall i :: 0 <= i < |blocks| ==> |blocks[i].ordinals| < 0x1_0000_0000
    ensures blocks == [] ==> BlockData(blocks) == HeadData(blocks, drop) == [] && OrdinalCount(blocks) == 0
    ensures var n := |blocks| - 1;
            blocks != [] ==>
              && BlockData(blocks) == BlockData(blocks[..n]) + LittleEndian(4, blocks[n].nameOffset)
                                      + LittleEndian(4, |blocks[n].ordinals|) + OrdinalData(blocks[n].ordinals)
              && HeadData(blocks, drop) == HeadData(blocks[..n], drop) + LittleEndian(4, (blocks[n].nameOffset - drop) % 0x1_0000_0000)
                                           + LittleEndian(4, |blocks[n].ordinals|)
              && OrdinalCount(blocks) == OrdinalCount(blocks[..n]) + |blocks[n].ordinals|
  {
    hide LittleEndian;
  }

  lemma NoBlocks(section: seq<Byte>, drop: nat)
    ensures BlockAt(section, 0) == Some(4) && Imports(section, 0) == 0 && Heads(section, 0, drop) == []
  {
  }

  lemma HeadIsRead(before: seq<Byte>, name: Word, count: Word, rest: seq<Byte>)
    ensures var section := before + LittleEndian(4, name) + LittleEndian(4, count) + rest;
            && |before| + 8 <= |section|
            && WholeAt(section, |before|) == name && WholeAt(section, |before| + 4) == count
  {
    hide WholeAt, LittleEndian;
    var section, at := before + LittleEndian(4, name) + LittleEndian(4, count) + rest, |before|;
    assert section[at..at + 4] == LittleEndian(4, name) && section[at + 4..at + 8] == LittleEndian(4, count);
    WholeRead(section, at, name);
    WholeRead(section, at + 4, count);
  }

  lemma OneMoreBlock(section: seq<Byte>, n: nat, at: nat, drop: nat)
    requires BlockAt(section, n) == Some(at) && at + 8 <= |section|
    ensures BlockAt(section, n + 1) == Some(at + 8 + 4 * WholeAt(section, at + 4))
    ensures Imports(section, n + 1) == Imports(section, n) + WholeAt(section, at + 4)
    ensures Heads(section, n + 1, drop) ==
            Heads(section, n, drop) + LittleEndian(4, (WholeAt(section, at) - drop) % 0x1_0000_0000)
            + LittleEndian(4, WholeAt(section, at + 4))
  {
    hide WholeAt, LittleEndian;
  }

  /** Crunching a section that is made of blocks leaves its smaller size, the heads of the blocks, with
      name offsets less by four octets for every ordinal, and the names as they are. */
  lemma BlocksAreCrunched(blocks: seq<ImportBlock>, names: seq<Byte>)
    requires forall i :: 0 <= i < |blocks| ==> |blocks[i].ordinals| < 0x1_0000_0000
    requires 4 + |BlockData(blocks)| + |names| < 0x1_0000_0000
    ensures var size, drop := 4 + |BlockData(blocks)| + |names|, 4 * OrdinalCount(blocks);
            var section := LittleEndian(4, size) + BlockData(blocks) + names;
            && Blocks(section, |blocks|) && Imports(section, |blocks|) == OrdinalCount(blocks) && drop <= size
            && Crunched(section, |blocks|) == LittleEndian(4, size - drop) + HeadData(blocks, drop) + names
  {
    hide BlockAt, Heads, LittleEndian, WholeAt, Imports, BlockData, HeadData;
    var size, drop := 4 + |BlockData(blocks)| + |names|, 4 * OrdinalCount(blocks);
    var section := LittleEndian(4, size) + BlockData(blocks) + names;
    BlockDataSize(blocks);
    BlocksAreRead(LittleEndian(4, size), blocks, names, drop);
    assert section[0..4] == LittleEndian(4, size);
    WholeRead(section, 0, size);
    CrunchedIs(section, |blocks|);
    assert section[4 + |BlockData(blocks)|..] == names;
  }

  // The import address table

  /** An import by ordinal has its top bit set. */
  predicate ByOrdinal(thunk: Word) {
    thunk >= 0x8000_0000
  }

  function Ordinal(thunk: Word): Word {
    thunk % 0x8000_0000
  }

  /** The thunks from a place up to a zero. */
  function Thunks(section: seq<Byte>, at: nat): Option<seq<Word>>
    decreases |section| - at
  {
    if at + 4 > |section| then None
    else if WholeAt(section, at) == 0 then Some([])
    else
      match Thunks(section, at + 4)
      case None => None
      case Some(rest) => Some([WholeAt(section, at)] + rest)
  }

  /** A table of thunks and where it is. */
  datatype Table = Table(at: Word, thunks: seq<Word>)

  const DESCRIPTOR_SIZE: nat := 20

  /** The place of the table of the descriptor at `src`, from its address in the file. */
  function TableAt(section: seq<Byte>, base: Word, src: nat): Word
    requires src + DESCRIPTOR_SIZE <= |section|
  {
    (WholeAt(section, src + 16) - base) % 0x1_0000_0000
  }

  /** The tables of the descriptors from `src` up to one that starts with zero. */
  function Tables(section: seq<Byte>, base: Word, src: nat): Option<seq<Table>>
    decreases |section| - src
  {
    if src + 4 > |section| then None
    else if WholeAt(section, src) == 0 then Some([])
    else if src + DESCRIPTOR_SIZE > |section| then None
    else
      var at := TableAt(section, base, src);
      match Thunks(section, at)
      case None => None
      case Some(thunks) =>
        match Tables(section, base, src + DESCRIPTOR_SIZE)
        case None => None
        case Some(rest) => Some([Table(at, thunks)] + rest)
  }

  /** The thunks of all tables, in the order of their descriptors. */
  function Slots(tables: seq<Table>): seq<Word> {
    if tables == [] then [] else tables[0].thunks + Slots(tables[1..])
  }

  lemma ThunksStep(section: seq<Byte>, at: nat)
    requires Thunks(section, at).Some?
    ensures at + 4 <= |section|
    ensures if WholeAt(section, at) == 0 then Thunks(section, at).value == []
            else Thunks(section, at + 4).Some? && Thunks(section, at).value == [WholeAt(section, at)] + Thunks(section, at + 4).value
  {
    hide WholeAt;
  }

  lemma TablesStep(section: seq<Byte>, base: Word, src: nat)
    requires Tables(section, base, src).Some?
    ensures src + 4 <= |section|
    ensures if WholeAt(section, src) == 0 then Tables(section, base, src).value == []
            else
              && src + DESCRIPTOR_SIZE <= |section| && Thunks(section, TableAt(section, base, src)).Some?
              && Tables(section, base, src + DESCRIPTOR_SIZE).Some?
              && Tables(section, base, src).value ==
                 [Table(TableAt(section, base, src), Thunks(section, TableAt(section, base, src)).value)]
                 + Tables(section, base, src + DESCRIPTOR_SIZE).value
  {
    hide WholeAt, Thunks;
  }

  ghost predicate AllByOrdinal(thunks: seq<Word>) {
    forall i :: 0 <= i < |thunks| ==> ByOrdinal(thunks[i])
  }

  /** The image's own table: the ordinals of all imports and a zero. It fails exactly if one is by name. */
  method CopyImportAddrTable(out: array<Word>, section: seq<Byte>, base: Word) returns (ok: bool)
    requires Tables(section, base, 0).Some? && out.Length == |Slots(Tables(section, base, 0).value)| + 1
    modifies out
    ensures var slots := Slots(Tables(section, base, 0).value);
            && (ok <==> forall k :: 0 <= k < |slots| ==> slots[k] >= 0x8000_0000)
            && (ok ==> out[|slots|] == 0 && forall k :: 0 <= k < |slots| ==> out[k] == slots[k] - 0x8000_0000)
  {
    hide Tables, Thunks, WholeAt, Slots, ByOrdinal, Ordinal, TableAt, Map, AllByOrdinal;
    ghost var slots := Slots(Tables(section, base, 0).value);
    var ptr: nat, src: nat := 0, 0;
    TablesStep(section, base, 0);
    while WholeAt(section, src) != 0
      invariant src + 4 <= |section| && Tables(section, base, src).Some? && ptr <= |slots|
      invariant slots[ptr..] == Slots(Tables(section, base, src).value)
      invariant forall k :: 0 <= k < ptr ==> ByOrdinal(slots[k]) && out[k] == Ordinal(slots[k])
      decreases |section| - src
    {
      TablesStep(section, base, src);
      ghost var rest := Tables(section, base, src + DESCRIPTOR_SIZE).value;
      SlotsStep(Table(TableAt(section, base, src), Thunks(section, TableAt(section, base, src)).value), rest);
      ok, ptr := CopyTable(out, section, TableAt(section, base, src), ptr, slots, Slots(rest));
      if !ok {
        NotAllByOrdinal(slots);
        return;
      }
      src := src + DESCRIPTOR_SIZE;
      TablesStep(section, base, src);
    }
    TablesStep(section, base, src);
    NoSlots();
    assert ptr == |slots|;
    out[ptr] := 0;
    Ended(out[..], slots);
    ok := true;
  }

  lemma Ended(cells: seq<Word>, slots: seq<Word>)
    requires |cells| == |slots| + 1 && cells[|slots|] == 0
    requires forall k :: 0 <= k < |slots| ==> ByOrdinal(slots[k]) && cells[k] == Ordinal(slots[k])
    ensures forall k :: 0 <= k < |slots| ==> slots[k] >= 0x8000_0000 && cells[k] == slots[k] - 0x8000_0000
  {
    forall k | 0 <= k < |slots| ensures slots[k] >= 0x8000_0000 && cells[k] == slots[k] - 0x8000_0000 {
      assert ByOrdinal(slots[k]) && cells[k] == Ordinal(slots[k]);
    }
  }

  lemma NotAllByOrdinal(slots: seq<Word>)
    requires !AllByOrdinal(slots)
    ensures exists k :: 0 <= k < |slots| && slots[k] < 0x8000_0000
  {
  }

  lemma SlotsStep(table: Table, rest: seq<Table>)
    ensures Slots([table] + rest) == table.thunks + Slots(rest)
  {
    assert ([table] + rest)[1..] == rest;
  }

  lemma NoSlots()
    ensures Slots([]) == []
  {
  }

  lemma NextSlot(slots: seq<Word>, ptr: nat, first: Word, rest: seq<Word>, later: seq<Word>)
    requires ptr <= |slots| && slots[ptr..] == [first] + rest + later
    ensures ptr < |slots| && slots[ptr] == first && slots[ptr + 1..] == rest + later
  {
    assert slots[ptr..][0] == slots[ptr] && slots[ptr + 1..] == slots[ptr..][1..];
  }

  /** Copies one table. */
  method CopyTable(out: array<Word>, section: seq<Byte>, at: nat, from: nat, ghost slots: seq<Word>, ghost later: seq<Word>)
    returns (ok: bool, ptr: nat)
    requires Thunks(section, at).Some? && out.Length == |slots| + 1 && from <= |slots|
    requires slots[from..] == Thunks(section, at).value + later
    requires forall k :: 0 <= k < from ==> ByOrdinal(slots[k]) && out[k] == Ordinal(slots[k])
    modifies out
    ensures !ok ==> !AllByOrdinal(slots)
    ensures ok ==> ptr <= |slots| && slots[ptr..] == later
    ensures ok ==> forall k :: 0 <= k < ptr ==> ByOrdinal(slots[k]) && out[k] == Ordinal(slots[k])
  {
    hide Thunks, WholeAt, Ordinal, ByOrdinal;
    ptr := from;
    var p := at;
    ThunksStep(section, p);
    while WholeAt(section, p) != 0
      invariant p + 4 <= |section| && Thunks(section, p).Some? && ptr <= |slots|
      invariant slots[ptr..] == Thunks(section, p).value + later
      invariant forall k :: 0 <= k < ptr ==> ByOrdinal(slots[k]) && out[k] == Ordinal(slots[k])
      decreases |section| - p
    {
      ThunksStep(section, p);
      NextSlot(slots, ptr, WholeAt(section, p), Thunks(section, p + 4).value, later);
      if !ByOrdinal(WholeAt(section, p)) {
        return false, ptr;
      }
      out[ptr] := Ordinal(WholeAt(section, p));
      ptr, p := ptr + 1, p + 4;
      ThunksStep(section, p);
    }
    ThunksStep(section, p);
    assert [] + later == later;
    ok := true;
  }

  // References to the table

  /** The thunks of the tables before table `d`. */
  function Before(tables: seq<Table>, d: nat): nat
    requires d <= |tables|
  {
    if d == 0 then 0 else Before(tables, d - 1) + |tables[d - 1].thunks|
  }

  /** Thunk `j` of table `d`, or the zero that ends the table. */
  predicate Position(tables: seq<Table>, d: nat, j: nat) {
    d < |tables| && j <= |tables[d].thunks|
  }

  function Place(tables: seq<Table>, d: nat, j: nat): nat
    requires Position(tables, d, j)
  {
    tables[d].at + 4 * j
  }

  /** Tables in the order of their descriptors, each after the end of the one before. */
  ghost predicate Ordered(tables: seq<Table>) {
    forall d :: 0 <= d < |tables| - 1 ==> tables[d].at + 4 * |tables[d].thunks| < tables[d + 1].at
  }

  lemma {:induction false} TablesApart(tables: seq<Table>, d: nat, e: nat)
    requires Ordered(tables) && d < e < |tables|
    ensures tables[d].at + 4 * |tables[d].thunks| < tables[e].at
  {
    if d + 1 < e {
      TablesApart(tables, d, e - 1);
      assert tables[e - 1].at + 4 * |tables[e - 1].thunks| < tables[e].at;
    }
  }

  predicate Earlier(d: nat, j: nat, e: nat, k: nat) {
    d < e || (d == e && j < k)
  }

  lemma EarlierIsLower(tables: seq<Table>, d: nat, j: nat, e: nat, k: nat)
    requires Ordered(tables) && Position(tables, d, j) && Position(tables, e, k) && Earlier(d, j, e, k)
    ensures Place(tables, d, j) < Place(tables, e, k)
  {
    if d < e {
      TablesApart(tables, d, e);
    }
  }

  /** All positions before one are below an address. */
  ghost predicate AllBelow(tables: seq<Table>, d: nat, j: nat, va: nat) {
    forall e, k :: Position(tables, e, k) && Earlier(e, k, d, j) ==> Place(tables, e, k) < va
  }

  lemma NextBelow(tables: seq<Table>, d: nat, j: nat, d': nat, j': nat, va: nat)
    requires Position(tables, d, j) && AllBelow(tables, d, j, va) && Place(tables, d, j) < va
    requires (d' == d && j' == j + 1) || (d' == d + 1 && j' == 0 && j == |tables[d].thunks|)
    ensures AllBelow(tables, d', j', va)
  {
    forall e, k | Position(tables, e, k) && Earlier(e, k, d', j') ensures Place(tables, e, k) < va {
      assert Earlier(e, k, d, j) || (e == d && k == j);
    }
  }

  lemma {:induction false} ThunksAt(section: seq<Byte>, at: nat, j: nat)
    requires Thunks(section, at).Some? && j <= |Thunks(section, at).value|
    ensures Thunks(section, at + 4 * j).Some? && Thunks(section, at + 4 * j).value == Thunks(section, at).value[j..]
    ensures at + 4 * j + 4 <= |section| && (WholeAt(section, at + 4 * j) == 0 <==> j == |Thunks(section, at).value|)
    decreases j
  {
    hide WholeAt;
    ThunksStep(section, at);
    if j > 0 {
      ThunksAt(section, at + 4, j - 1);
    }
  }

  lemma {:induction false} TablesAt(section: seq<Byte>, base: Word, src: nat, d: nat)
    requires Tables(section, base, src).Some? && d < |Tables(section, base, src).value|
    ensures src + DESCRIPTOR_SIZE * d + DESCRIPTOR_SIZE <= |section|
    ensures var at := TableAt(section, base, src + DESCRIPTOR_SIZE * d);
            Thunks(section, at).Some? && Tables(section, base, src).value[d] == Table(at, Thunks(section, at).value)
    decreases d
  {
    hide WholeAt, Thunks;
    TablesStep(section, base, src);
    if d > 0 {
      TablesAt(section, base, src + DESCRIPTOR_SIZE, d - 1);
    }
  }

  /** What tables there are: descriptors of twenty octets up to one that starts with zero, each with the
      address of a table at its last word; and the words of a table up to a zero. */
  lemma TablesAreThese(section: seq<Byte>, base: Word, d: nat, j: nat)
    requires Tables(section, base, 0).Some? && d < |Tables(section, base, 0).value|
    requires j <= |Tables(section, base, 0).value[d].thunks|
    ensures var tables := Tables(section, base, 0).value;
            var at, thunks := tables[d].at, tables[d].thunks;
            && 20 * d + 20 <= |section| && WholeAt(section, 20 * d) != 0
            && (d + 1 == |tables| ==> 20 * d + 24 <= |section| && WholeAt(section, 20 * d + 20) == 0)
            && at == (WholeAt(section, 20 * d + 16) - base) % 0x1_0000_0000
            && at + 4 * j + 4 <= |section| && (WholeAt(section, at + 4 * j) == 0 <==> j == |thunks|)
            && (j < |thunks| ==> thunks[j] == WholeAt(section, at + 4 * j))
  {
    hide Tables, Thunks, WholeAt;
    var table := Tables(section, base, 0).value[d];
    TablesAt(section, base, 0, d);
    DescriptorsAt(section, base, 0, d);
    ThunksAt(section, table.at, j);
    ThunksStep(section, table.at + 4 * j);
    assert j < |table.thunks| ==> table.thunks[j..][0] == table.thunks[j];
  }

  lemma {:induction false} DescriptorsAt(section: seq<Byte>, base: Word, src: nat, d: nat)
    requires Tables(section, base, src).Some? && d < |Tables(section, base, src).value|
    ensures src + 20 * d + 20 <= |section| && WholeAt(section, src + 20 * d) != 0
    ensures d + 1 == |Tables(section, base, src).value| ==>
              src + 20 * d + 24 <= |section| && WholeAt(section, src + 20 * d + 20) == 0
    decreases d
  {
    hide WholeAt, Thunks;
    TablesStep(section, base, src);
    TablesStep(section, base, src + DESCRIPTOR_SIZE);
    if d > 0 {
      DescriptorsAt(section, base, src + DESCRIPTOR_SIZE, d - 1);
    }
  }

  /** The descriptors end with one that gives no table. */
  predicate EndsEmpty(section: seq<Byte>, descriptors: nat) {
    var end := DESCRIPTOR_SIZE * descriptors;
    end + DESCRIPTOR_SIZE <= |section| && WholeAt(section, end + 16) == 0
  }

  /** Where an address in the import section is in the image's own table, which follows the code. It
      fails exactly if the address is not that of a thunk or of the zero that ends a table. */
  method FixImportThunk(section: seq<Byte>, base: Word, va: nat, textSize: nat) returns (r: Option<nat>)
    requires Tables(section, base, 0).Some? && Tables(section, base, 0).value != [] && Ordered(Tables(section, base, 0).value)
    requires EndsEmpty(section, |Tables(section, base, 0).value|) && 0 < base && base + va < 0x1_0000_0000
    ensures var tables := Tables(section, base, 0).value;
            forall d, j :: Position(tables, d, j) && Place(tables, d, j) == va ==>
              r == Some(textSize + 4 * (Before(tables, d) + j))
    ensures var tables := Tables(section, base, 0).value;
            r == None <==> forall d, j :: Position(tables, d, j) ==> Place(tables, d, j) != va
  {
    hide Tables, Thunks, WholeAt, Ordered, AllBelow;
    ghost var tables := Tables(section, base, 0).value;
    var imports, n := 0, 0;
    ghost var d, j := 0, 0;
    TablesAt(section, base, 0, 0);
    NothingBelow(tables, va);
    var iat := TableAt(section, base, 0);
    while iat < va
      invariant imports == DESCRIPTOR_SIZE * d && AllBelow(tables, d, j, va)
      invariant if d == |tables| then j == 0 && iat > va
                else Position(tables, d, j) && iat == Place(tables, d, j) && n == Before(tables, d) + j
      decreases |tables| - d, if d < |tables| then |tables[d].thunks| - j else 0
    {
      TablesAt(section, base, 0, d);
      ThunksAt(section, tables[d].at, j);
      if WholeAt(section, iat) == 0 {
        if d + 1 < |tables| {
          TablesAt(section, base, 0, d + 1);
        }
        NextBelow(tables, d, j, d + 1, 0, va);
        imports := imports + DESCRIPTOR_SIZE;
        iat := TableAt(section, base, imports);
        d, j := d + 1, 0;
      } else {
        NextBelow(tables, d, j, d, j + 1, va);
        n, iat := n + 1, iat + 4;
        j := j + 1;
      }
    }
    if d < |tables| {
      FoundOnce(tables, d, j, va);
    } else {
      NoneFound(tables, va);
    }
    r := if iat > va then None else Some(textSize + n * 4);
  }

  lemma NoneFound(tables: seq<Table>, va: nat)
    requires AllBelow(tables, |tables|, 0, va)
    ensures forall e, k :: Position(tables, e, k) ==> Place(tables, e, k) != va
  {
  }

  lemma NothingBelow(tables: seq<Table>, va: nat)
    ensures AllBelow(tables, 0, 0, va)
  {
  }

  lemma FoundOnce(tables: seq<Table>, d: nat, j: nat, va: nat)
    requires Ordered(tables) && Position(tables, d, j) && AllBelow(tables, d, j, va) && Place(tables, d, j) >= va
    ensures forall e, k :: Position(tables, e, k) && Place(tables, e, k) == va ==> e == d && k == j
    ensures Place(tables, d, j) > va ==> forall e, k :: Position(tables, e, k) ==> Place(tables, e, k) != va
  {
    forall e, k | Position(tables, e, k) && Place(tables, e, k) == va ensures e == d && k == j {
      if Earlier(d, j, e, k) {
        EarlierIsLower(tables, d, j, e, k);
      }
      assert !Earlier(e, k, d, j);
    }
  }

  /** Thunk `j` of table `d` is the slot to which references to it are moved, so the ordinal there in
      the image's table is its own. */
  lemma {:induction false} SlotOfThunk(tables: seq<Table>, d: nat, j: nat)
    requires d < |tables| && j < |tables[d].thunks|
    ensures Before(tables, d) + j < |Slots(tables)| && Slots(tables)[Before(tables, d) + j] == tables[d].thunks[j]
  {
    if d > 0 {
      SlotOfThunk(tables[1..], d - 1, j);
      BeforeFirst(tables, d);
    }
  }

  lemma {:induction false} BeforeFirst(tables: seq<Table>, d: nat)
    requires 0 < d <= |tables|
    ensures Before(tables, d) == |tables[0].thunks| + Before(tables[1..], d - 1)
  {
    if d > 1 {
      BeforeFirst(tables, d - 1);
    }
  }
}
