/** The two-level tries that index character data. A table for a plane of codes has an index, by the
    high bits of a code, and data, by the low bits from the place that the index gives. */
module Trie {
  import opened Bytes

  const PLANE: nat := 0x1_0000

  /** `value | 0x8000` for a two's complement integer. */
  function WithTopBit(value: int): int {
    if value % 0x1_0000 < 0x8000 then value + 0x8000 else value
  }

  /** The sixteen bits that are written of an integer. */
  function Short(value: int): CodeUnit {
    value % 0x1_0000
  }

  /** The entry for a code that has no data. */
  const NO_DATA: int := -1

  /** Either mark that no data can come back as: from a uniform block, and from a mixed one. */
  predicate IsMark(value: int) {
    value == 0x7FFF || value == 0xFFFF
  }

  /** A value gives back an entry: no data by either mark, and all else as it is. */
  predicate Gives(value: int, entry: int) {
    if entry == NO_DATA then IsMark(value) else value == entry
  }

  predicate Uniform(block: seq<int>) {
    forall k :: 0 <= k < |block| ==> block[k] == block[0]
  }

  // Placing blocks

  /** `block` can lie at `at`: it agrees with as much of the data as it covers. */
  predicate Agrees(data: seq<int>, block: seq<int>, at: nat)
    requires at <= |data|
  {
    data[at..at + Min(|data| - at, |block|)] == block[..Min(|data| - at, |block|)]
  }

  /** The first place from `from` on where `block` can lie. */
  function FirstPlace(data: seq<int>, block: seq<int>, from: nat): (at: nat)
    requires from <= |data|
    ensures from <= at <= |data| && Agrees(data, block, at)
    ensures forall k :: from <= k < at ==> !Agrees(data, block, k)
    decreases |data| - from
  {
    if from == |data| || Agrees(data, block, from) then from else FirstPlace(data, block, from + 1)
  }

  /** The data once `block` lies at `at`, partly past the end if need be. */
  function Placed(data: seq<int>, block: seq<int>, at: nat): seq<int>
    requires at <= |data|
  {
    if at + |block| <= |data| then data else data[..at] + block
  }

  /** Placing a block keeps all the data there is and adds no more than the block. */
  lemma PlacedKeeps(data: seq<int>, block: seq<int>, at: nat)
    requires at <= |data| && Agrees(data, block, at)
    ensures var data' := Placed(data, block, at);
            && data <= data' && at + |block| <= |data'| <= |data| + |block|
            && data'[at..at + |block|] == block
            && (|data'| == |data| || |data'| == at + |block|)
  {
    if at + |block| > |data| {
      assert data == data[..at] + data[at..at + Min(|data| - at, |block|)];
    }
  }

  datatype Trie = Trie(index: seq<int>, data: seq<int>)

  function Block(flat: seq<int>, size: nat, b: nat): (r: seq<int>)
    requires b * size + size <= |flat|
    ensures |r| == size
  {
    flat[b * size..b * size + size]
  }

  function WithBlock(t: Trie, block: seq<int>): Trie
    requires block != []
  {
    if Uniform(block) then Trie(t.index + [WithTopBit(block[0])], t.data)
    else
      var at := FirstPlace(t.data, block, 0);
      Trie(t.index + [at], Placed(t.data, block, at))
  }

  /** The trie of the first `blocks` blocks of an array. */
  function Build(flat: seq<int>, size: nat, blocks: nat): (t: Trie)
    requires size > 0 && blocks * size <= |flat|
    ensures |t.index| == blocks
  {
    if blocks == 0 then Trie([], [])
    else
      BlockInside(size, blocks);
      WithBlock(Build(flat, size, blocks - 1), Block(flat, size, blocks - 1))
  }

  lemma BlockInside(size: nat, blocks: nat)
    requires blocks > 0
    ensures (blocks - 1) * size + size == blocks * size
  {
  }

  lemma {:induction false} BlockBefore(size: nat, b: nat, blocks: nat)
    requires b < blocks
    ensures b * size + size <= blocks * size
  {
    BlockInside(size, blocks);
    if b < blocks - 1 {
      BlockBefore(size, b, blocks - 1);
    } else {
      assert b == blocks - 1;
    }
  }

  // What a trie holds

  /** Block `b` is held: by the value of all its entries, or at the place that the index gives. */
  ghost predicate Holds(t: Trie, block: seq<int>, b: nat)
    requires b < |t.index| && block != []
  {
    if Uniform(block) then t.index[b] == WithTopBit(block[0])
    else 0 <= t.index[b] <= |t.data| - |block| && t.data[t.index[b]..t.index[b] + |block|] == block
  }

  /** Later blocks never disturb earlier ones. */
  lemma {:induction false} EveryBlockIsHeld(flat: seq<int>, size: nat, blocks: nat, b: nat)
    requires size > 0 && b < blocks && blocks * size <= |flat|
    ensures b * size + size <= |flat| && Holds(Build(flat, size, blocks), Block(flat, size, b), b)
  {
    hide Holds, WithBlock, Block;
    BlockBefore(size, b, blocks);
    BlockInside(size, blocks);
    var t, block := Build(flat, size, blocks - 1), Block(flat, size, blocks - 1);
    HeldNow(t, block);
    if b < blocks - 1 {
      EveryBlockIsHeld(flat, size, blocks - 1, b);
      HeldOn(t, WithBlock(t, block), Block(flat, size, b), b);
    }
  }

  lemma HeldNow(t: Trie, block: seq<int>)
    requires block != []
    ensures var t' := WithBlock(t, block);
            t.index <= t'.index && |t'.index| == |t.index| + 1 && t.data <= t'.data && Holds(t', block, |t.index|)
  {
    hide Uniform, Agrees, FirstPlace, Placed;
    if !Uniform(block) {
      PlacedKeeps(t.data, block, FirstPlace(t.data, block, 0));
    }
  }

  lemma HeldOn(t: Trie, t': Trie, block: seq<int>, b: nat)
    requires b < |t.index| && block != [] && Holds(t, block, b) && t.data <= t'.data && t.index <= t'.index
    ensures Holds(t', block, b)
  {
    if !Uniform(block) {
      assert t'.data[t.index[b]..t.index[b] + |block|] == t.data[t.index[b]..t.index[b] + |block|];
    }
  }

  /** The blocks that are not uniform. */
  function Mixed(flat: seq<int>, size: nat, blocks: nat): (n: nat)
    requires blocks * size <= |flat|
    ensures n <= blocks
  {
    if blocks == 0 then 0
    else
      BlockInside(size, blocks);
      Mixed(flat, size, blocks - 1) + if Uniform(Block(flat, size, blocks - 1)) then 0 else 1
  }

  /** The data is no longer than the mixed blocks one after the other. */
  lemma {:induction false} DataFits(flat: seq<int>, size: nat, blocks: nat)
    requires size > 0 && blocks * size <= |flat|
    ensures |Build(flat, size, blocks).data| <= Mixed(flat, size, blocks) * size <= blocks * size
  {
    if blocks > 0 {
      BlockInside(size, blocks);
      DataFits(flat, size, blocks - 1);
      var t, block := Build(flat, size, blocks - 1), Block(flat, size, blocks - 1);
      if !Uniform(block) {
        PlacedKeeps(t.data, block, FirstPlace(t.data, block, 0));
        BlockInside(size, Mixed(flat, size, blocks));
      }
    }
    BlockBefore(size, Mixed(flat, size, blocks), blocks + 1);
    BlockInside(size, blocks + 1);
  }

  // Reading

  /** A table as it is written, sixteen bits an entry. */
  datatype Table = Table(index: seq<CodeUnit>, data: seq<CodeUnit>)

  function Written(t: Trie): Table {
    Table(Map(Short, t.index), Map(Short, t.data))
  }

  predicate Inside(table: Table, size: nat, code: nat)
    requires size > 0
  {
    code / size < |table.index| &&
    (table.index[code / size] < 0x8000 ==> table.index[code / size] + code % size < |table.data|)
  }

  /** The value of a code. An index with its top bit set is the value of the whole block. */
  function Lookup(table: Table, size: nat, code: nat): CodeUnit
    requires size > 0 && Inside(table, size, code)
  {
    var i := table.index[code / size];
    if i >= 0x8000 then i - 0x8000 else table.data[i + code % size]
  }

  lemma CodeInBlock(size: nat, b: nat, k: nat)
    requires k < size
    ensures (b * size + k) / size == b && (b * size + k) % size == k
  {
    var code := b * size + k;
    SameBlock(size, b, k, code / size, code % size);
  }

  lemma SameBlock(size: nat, b: nat, k: nat, b': nat, k': nat)
    requires k < size && k' < size && b * size + k == b' * size + k'
    ensures b == b' && k == k'
  {
    if b < b' {
      BlockBefore(size, b, b');
    } else if b' < b {
      BlockBefore(size, b', b);
    }
  }

  /** Block `b` of a trie, read back entry by entry. */
  lemma ReadAt(t: Trie, size: nat, block: seq<int>, b: nat, k: nat, code: nat)
    requires b < |t.index| && |block| == size && k < size && Holds(t, block, b) && |t.data| <= 0x1_0000
    requires code / size == b && code % size == k
    ensures Inside(Written(t), size, code)
    ensures Lookup(Written(t), size, code) ==
            if Uniform(block) then Short(block[0]) % 0x8000
            else if t.index[b] < 0x8000 then Short(block[k])
            else t.index[b] - 0x8000
  {
    hide Uniform, Short, WithTopBit;
    if Uniform(block) {
      TopBit(block[0]);
    } else {
      var at := t.index[b];
      Low(at);
      assert t.data[at..at + size][k] == t.data[at + k] == block[k];
    }
  }

  lemma TopBit(value: int)
    ensures Short(WithTopBit(value)) == Short(value) % 0x8000 + 0x8000
  {
  }

  lemma Low(at: int)
    requires 0 <= at < 0x1_0000
    ensures Short(at) == at
  {
  }

  /** What looking up a code gives, whatever the array holds. */
  lemma Reading(flat: seq<int>, size: nat, blocks: nat, b: nat, k: nat)
    requires size > 0 && b < blocks && k < size && blocks * size <= |flat| && blocks * size <= PLANE
    ensures b * size + k < blocks * size && b * size + size <= |flat|
    ensures var t, block := Build(flat, size, blocks), Block(flat, size, b);
            && Inside(Written(t), size, b * size + k)
            && Lookup(Written(t), size, b * size + k) ==
               if Uniform(block) then Short(block[0]) % 0x8000
               else if t.index[b] < 0x8000 then Short(block[k])
               else t.index[b] - 0x8000
  {
    hide Inside, Lookup, Holds, Build, Uniform, Block, Written;
    EveryBlockIsHeld(flat, size, blocks, b);
    DataFits(flat, size, blocks);
    BlockBefore(size, b, blocks);
    CodeInBlock(size, b, k);
    ReadAt(Build(flat, size, blocks), size, Block(flat, size, b), b, k, b * size + k);
  }

  /** Entry `k` of block `b` is read back. */
  ghost predicate ReadsEntry(flat: seq<int>, size: nat, blocks: nat, b: nat, k: nat)
    requires size > 0 && blocks * size <= |flat|
  {
    var table, code := Written(Build(flat, size, blocks)), b * size + k;
    code < |flat| && Inside(table, size, code) && Gives(Lookup(table, size, code), flat[code])
  }

  ghost predicate ReadsBlock(flat: seq<int>, size: nat, blocks: nat, b: nat)
    requires size > 0 && blocks * size <= |flat|
  {
    forall k :: 0 <= k < size ==> ReadsEntry(flat, size, blocks, b, k)
  }

  /** A block that sixteen bits can carry, no data aside: the value of a uniform block has fifteen. */
  predicate Carried(block: seq<int>) {
    forall k :: 0 <= k < |block| ==> block[k] == NO_DATA || 0 <= block[k] < if Uniform(block) then 0x8000 else 0x1_0000
  }

  /** A block is read back exactly if it can be carried and lies below 0x8000. */
  lemma BlockIsRead(flat: seq<int>, size: nat, blocks: nat, b: nat)
    requires size > 0 && b < blocks && blocks * size <= |flat| && blocks * size <= PLANE
    ensures b * size + size <= |flat|
    ensures ReadsBlock(flat, size, blocks, b) <==>
            var block := Block(flat, size, b);
            Carried(block) && (Uniform(block) || Build(flat, size, blocks).index[b] < 0x8000)
  {
    hide Inside, Lookup, Build, Uniform, Written;
    BlockBefore(size, b, blocks);
    var block, i := Block(flat, size, b), Build(flat, size, blocks).index[b];
    forall k | 0 <= k < size
      ensures ReadsEntry(flat, size, blocks, b, k) <==>
              Gives(if Uniform(block) then Short(block[0]) % 0x8000 else if i < 0x8000 then Short(block[k]) else i - 0x8000,
                    block[k])
    {
      Reading(flat, size, blocks, b, k);
    }
    UniformAt(block);
    if !Uniform(block) && i >= 0x8000 {
      FarIndex(flat, size, blocks, b);
    }
  }

  /** An index that is taken for a value is taken for none of the marks. */
  lemma FarIndex(flat: seq<int>, size: nat, blocks: nat, b: nat)
    requires size > 0 && b < blocks && blocks * size <= |flat| && blocks * size <= PLANE
    ensures b * size + size <= |flat|
    ensures var i := Build(flat, size, blocks).index[b];
            !Uniform(Block(flat, size, b)) ==> size >= 2 && 0 <= i && !IsMark(i - 0x8000)
  {
    hide Build;
    EveryBlockIsHeld(flat, size, blocks, b);
    DataFits(flat, size, blocks);
  }

  lemma UniformAt(block: seq<int>)
    ensures Uniform(block) <==> forall k :: 0 <= k < |block| ==> block[k] == block[0]
  {
  }

  // Whole planes

  /** Every code of an array is read back from its trie, no data by a mark. */
  ghost predicate Faithful(flat: seq<int>, size: nat, blocks: nat)
    requires size > 0 && blocks * size <= |flat|
  {
    forall b :: 0 <= b < blocks ==> ReadsBlock(flat, size, blocks, b)
  }

  ghost predicate AllCarried(flat: seq<int>, size: nat, blocks: nat)
    requires size > 0 && blocks * size <= |flat|
  {
    forall b :: 0 <= b < blocks ==> b * size + size <= |flat| && Carried(Block(flat, size, b))
  }

  /** The data ends with the mixed block that lies furthest. */
  lemma {:induction false} FurthestBlock(flat: seq<int>, size: nat, blocks: nat)
    requires size > 0 && blocks * size <= |flat|
    ensures var t := Build(flat, size, blocks);
            t.data == [] ||
            exists b :: 0 <= b < blocks && b * size + size <= |flat| && !Uniform(Block(flat, size, b))
                        && t.index[b] + size == |t.data|
  {
    if blocks > 0 {
      hide Uniform, Agrees, FirstPlace, Placed, Block;
      BlockInside(size, blocks);
      var t, block := Build(flat, size, blocks - 1), Block(flat, size, blocks - 1);
      FurthestBlock(flat, size, blocks - 1);
      if !Uniform(block) {
        PlacedKeeps(t.data, block, FirstPlace(t.data, block, 0));
      }
    }
  }

  /** Exactly when a trie gives back the array that it was made from: if every block can be carried
      and the data, whose length is part of the size that is returned, is not too long. */
  lemma FaithfulExactlyIf(flat: seq<int>, size: nat, blocks: nat)
    requires size > 0 && blocks * size <= |flat| && blocks * size <= PLANE
    ensures Faithful(flat, size, blocks) <==>
            AllCarried(flat, size, blocks) && |Build(flat, size, blocks).data| < 0x8000 + size
  {
    hide ReadsBlock, Uniform, Carried, Build, Block;
    var t := Build(flat, size, blocks);
    forall b | 0 <= b < blocks
      ensures b * size + size <= |flat|
      ensures Uniform(Block(flat, size, b)) || 0 <= t.index[b] <= |t.data| - size
      ensures ReadsBlock(flat, size, blocks, b) <==>
              Carried(Block(flat, size, b)) && (Uniform(Block(flat, size, b)) || t.index[b] < 0x8000)
    {
      BlockIsRead(flat, size, blocks, b);
      EveryBlockIsHeld(flat, size, blocks, b);
    }
    FurthestBlock(flat, size, blocks);
  }

  /** Where there is no data, -1 comes back as one value from a uniform block and as another from a
      mixed one. */
  lemma NoDataIsAmbiguous(flat: seq<int>, size: nat, blocks: nat, b: nat, k: nat)
    requires size > 0 && b < blocks && k < size && blocks * size <= |flat| && blocks * size <= PLANE
    ensures b * size + k < blocks * size && b * size + size <= |flat|
    ensures Inside(Written(Build(flat, size, blocks)), size, b * size + k)
    ensures flat[b * size + k] == NO_DATA ==>
              Lookup(Written(Build(flat, size, blocks)), size, b * size + k) ==
              if Uniform(Block(flat, size, b)) then 0x7FFF
              else if Build(flat, size, blocks).index[b] < 0x8000 then 0xFFFF
              else Build(flat, size, blocks).index[b] - 0x8000
  {
    hide Inside, Lookup, Build, Written;
    Reading(flat, size, blocks, b, k);
    var block := Block(flat, size, b);
    assert block[k] == flat[b * size + k];
    if Uniform(block) {
      assert block[k] == block[0];
    }
  }

  lemma FaithfulAt(flat: seq<int>, size: nat, blocks: nat, code: nat)
    requires size > 0 && code < blocks * size <= |flat| && Faithful(flat, size, blocks)
    ensures var table := Written(Build(flat, size, blocks));
            Inside(table, size, code) && Gives(Lookup(table, size, code), flat[code])
  {
    hide Inside, Lookup, Build, Written;
    CodeOfBlock(size, blocks, code);
    var b, k := code / size, code % size;
    assert ReadsBlock(flat, size, blocks, b);
    assert ReadsEntry(flat, size, blocks, b, k);
  }

  /** A code is read back. */
  ghost predicate ReadsCode(flat: seq<int>, size: nat, blocks: nat, code: nat)
    requires size > 0 && code < blocks * size <= |flat|
  {
    var table := Written(Build(flat, size, blocks));
    Inside(table, size, code) && Gives(Lookup(table, size, code), flat[code])
  }

  /** Where values stay below the marks, a mark comes back for no data alone, faithful or not. */
  lemma MarkIsNoData(flat: seq<int>, size: nat, blocks: nat, code: nat)
    requires size > 0 && code < blocks * size <= |flat| && blocks * size <= PLANE
    requires NO_DATA <= flat[code] < 0x7FFF
    ensures var table := Written(Build(flat, size, blocks));
            Inside(table, size, code) && (IsMark(Lookup(table, size, code)) ==> flat[code] == NO_DATA)
  {
    hide Inside, Lookup, Build, Written, Uniform, Block, Short;
    CodeOfBlock(size, blocks, code);
    var b, k := code / size, code % size;
    Reading(flat, size, blocks, b, k);
    FarIndex(flat, size, blocks, b);
    EntryAt(flat, size, b, k);
    FifteenBits(flat[code]);
  }

  lemma CodeOfBlock(size: nat, blocks: nat, code: nat)
    requires size > 0 && code < blocks * size
    ensures code / size < blocks && code % size < size && code / size * size + code % size == code
  {
    if code / size >= blocks {
      BlockBefore(size, blocks, code / size + 1);
    }
  }

  lemma EntryAt(flat: seq<int>, size: nat, b: nat, k: nat)
    requires b * size + size <= |flat| && k < size
    ensures var block := Block(flat, size, b);
            block[k] == flat[b * size + k] && (Uniform(block) ==> block[0] == block[k])
  {
  }

  lemma FifteenBits(value: int)
    requires NO_DATA <= value < 0x7FFF
    ensures IsMark(Short(value)) || IsMark(Short(value) % 0x8000) ==> value == NO_DATA
  {
  }

  /** A trie is faithful if it gives back every code. */
  lemma AllRead(flat: seq<int>, size: nat, blocks: nat)
    requires size > 0 && blocks * size <= |flat|
    ensures Faithful(flat, size, blocks) <==>
            forall code :: 0 <= code < blocks * size ==> ReadsCode(flat, size, blocks, code)
  {
    hide Inside, Lookup, Build, Written;
    if Faithful(flat, size, blocks) {
      forall code | 0 <= code < blocks * size ensures ReadsCode(flat, size, blocks, code) {
        FaithfulAt(flat, size, blocks, code);
      }
    } else {
      var b :| 0 <= b < blocks && !ReadsBlock(flat, size, blocks, b);
      var k :| 0 <= k < size && !ReadsEntry(flat, size, blocks, b, k);
      BlockBefore(size, b, blocks);
      assert !ReadsCode(flat, size, blocks, b * size + k);
    }
  }

  // Block sizes

  const FEWEST_BITS: nat := 3
  const MOST_BITS: nat := 13

  lemma Doubling(a: nat, b: nat)
    ensures 2 * a * b == 2 * (a * b)
  {
  }

  lemma {:induction false} PowersOfTwo(m: nat, n: nat)
    ensures Power2(m) * Power2(n) == Power2(m + n)
  {
    if m > 0 {
      PowersOfTwo(m - 1, n);
      Doubling(Power2(m - 1), Power2(n));
      assert Power2(m) == 2 * Power2(m - 1) && Power2(m + n) == 2 * Power2(m + n - 1);
    }
  }

  lemma PlaneOfBlocks(bits: nat)
    requires bits <= 16
    ensures Power2(16 - bits) * Power2(bits) == PLANE
  {
    PowersOfTwo(16 - bits, bits);
    assert Power2(8) == 0x100;
    PowersOfTwo(8, 8);
  }

  /** The trie of a plane with blocks of `Power2(bits)`. */
  function PlaneTrie(flat: seq<int>, bits: nat): Trie
    requires |flat| == PLANE && bits <= 16
  {
    PlaneOfBlocks(bits);
    Build(flat, Power2(bits), Power2(16 - bits))
  }

  function TableSize(entries: nat, entrySize: nat): nat {
    entries * entrySize
  }

  /** Octets that the tables of a plane take. */
  function DataSize(flat: seq<int>, entrySize: nat, bits: nat): nat
    requires |flat| == PLANE && bits <= 16
  {
    TableSize(Power2(16 - bits), 2) + TableSize(|PlaneTrie(flat, bits).data|, entrySize)
  }

  /** The first bits below `end` with the least size. */
  function BestBits(flat: seq<int>, entrySize: nat, end: nat): (bits: nat)
    requires |flat| == PLANE && FEWEST_BITS < end <= MOST_BITS + 1
    ensures FEWEST_BITS <= bits < end
  {
    if end == FEWEST_BITS + 1 then FEWEST_BITS
    else
      var best := BestBits(flat, entrySize, end - 1);
      if DataSize(flat, entrySize, end - 1) < DataSize(flat, entrySize, best) then end - 1 else best
  }

  lemma {:induction false} BestIsSmallest(flat: seq<int>, entrySize: nat, end: nat, bits: nat)
    requires |flat| == PLANE && FEWEST_BITS < end <= MOST_BITS + 1 && FEWEST_BITS <= bits < end
    ensures var best := BestBits(flat, entrySize, end);
            && DataSize(flat, entrySize, best) <= DataSize(flat, entrySize, bits)
            && (bits < best ==> DataSize(flat, entrySize, best) < DataSize(flat, entrySize, bits))
  {
    hide DataSize;
    if end > FEWEST_BITS + 1 {
      BestIsSmallest(flat, entrySize, end - 1, if bits < end - 1 then bits else FEWEST_BITS);
    }
  }

  ghost predicate PlaneFaithful(flat: seq<int>, bits: nat)
    requires |flat| == PLANE && bits <= 16
  {
    PlaneOfBlocks(bits);
    Faithful(flat, Power2(bits), Power2(16 - bits))
  }

  // Changes

  /** The codes below `n` whose value is not that of the code before. */
  function Changes(flat: seq<int>, n: nat): nat
    requires n <= |flat|
  {
    if n <= 1 then 0 else Changes(flat, n - 1) + if flat[n - 1] != flat[n - 2] then 1 else 0
  }

  lemma {:induction false} ChangesGrow(flat: seq<int>, m: nat, n: nat)
    requires m <= n <= |flat|
    ensures Changes(flat, m) <= Changes(flat, n)
  {
    if m < n {
      ChangesGrow(flat, m, n - 1);
    }
  }

  lemma {:induction false} NoChange(flat: seq<int>, m: nat, n: nat, k: nat)
    requires m <= k < n <= |flat| && Changes(flat, n) == Changes(flat, m + 1)
    ensures flat[k] == flat[m]
  {
    if m + 1 < n {
      ChangesGrow(flat, m + 1, n - 1);
      NoChange(flat, m, n - 1, if k < n - 1 then k else k - 1);
    }
  }

  /** Every mixed block has a change inside. */
  lemma {:induction false} MixedBlocksChange(flat: seq<int>, size: nat, blocks: nat)
    requires size > 0 && blocks * size <= |flat|
    ensures Mixed(flat, size, blocks) <= Changes(flat, blocks * size)
  {
    if blocks > 0 {
      BlockInside(size, blocks);
      MixedBlocksChange(flat, size, blocks - 1);
      var start, block := (blocks - 1) * size, Block(flat, size, blocks - 1);
      ChangesGrow(flat, start, start + 1);
      ChangesGrow(flat, start + 1, start + size);
      if Changes(flat, start + size) == Changes(flat, start + 1) {
        forall k | 0 <= k < size ensures block[k] == block[0] {
          NoChange(flat, start, start + size, start + k);
        }
      }
    }
  }

  /** No data and values of fifteen bits can all be carried, so that the length of the data alone decides. */
  lemma FitsExactlyIf(flat: seq<int>, bits: nat)
    requires |flat| == PLANE && bits <= 16
    requires forall c :: 0 <= c < PLANE ==> NO_DATA <= flat[c] < 0x8000
    ensures PlaneFaithful(flat, bits) <==> |PlaneTrie(flat, bits).data| < 0x8000 + Power2(bits)
  {
    hide Build, Faithful, AllCarried, Power2;
    PlaneOfBlocks(bits);
    ValuesAreCarried(flat, Power2(bits), Power2(16 - bits));
    FaithfulExactlyIf(flat, Power2(bits), Power2(16 - bits));
  }

  lemma ValuesAreCarried(flat: seq<int>, size: nat, blocks: nat)
    requires size > 0 && blocks * size <= |flat|
    requires forall c :: 0 <= c < |flat| ==> NO_DATA <= flat[c] < 0x8000
    ensures AllCarried(flat, size, blocks)
  {
    hide Uniform;
    forall b | 0 <= b < blocks ensures b * size + size <= |flat| && Carried(Block(flat, size, b)) {
      BlockBefore(size, b, blocks);
    }
  }

  lemma NoBlocks(flat: seq<int>, size: nat)
    requires size > 0
    ensures Build(flat, size, 0) == Trie([], [])
  {
  }

  lemma BuildStep(flat: seq<int>, size: nat, blocks: nat)
    requires size > 0 && 0 < blocks && blocks * size <= |flat|
    ensures (blocks - 1) * size + size == blocks * size
    ensures Build(flat, size, blocks) == WithBlock(Build(flat, size, blocks - 1), Block(flat, size, blocks - 1))
  {
    BlockInside(size, blocks);
  }

  // Building

  /** Copies a block and reports whether all its entries are the same. */
  method CopyBlock(theIndex: array<int>, start: nat, block: array<int>) returns (allTheSame: bool)
    requires start + block.Length <= theIndex.Length && theIndex != block
    modifies block
    ensures block[..] == theIndex[start..start + block.Length] == old(theIndex[start..start + block.Length])
    ensures allTheSame <==> Uniform(block[..])
  {
    hide Uniform;
    allTheSame := true;
    EmptyIsUniform(block[..0]);
    for code := 0 to block.Length
      invariant forall k :: 0 <= k < code ==> block[k] == theIndex[start + k]
      invariant theIndex[..] == old(theIndex[..])
      invariant allTheSame <==> Uniform(block[..code])
    {
      block[code] := theIndex[start + code];
      assert block[..code + 1][..code] == block[..code];
      UniformNext(block[..code + 1]);
      if block[code] != block[0] {
        allTheSame := false;
      }
    }
    assert block[..block.Length] == block[..];
  }

  lemma EmptyIsUniform(block: seq<int>)
    requires block == []
    ensures Uniform(block)
  {
  }

  lemma UniformNext(block: seq<int>)
    requires block != []
    ensures var n := |block| - 1; Uniform(block) <==> Uniform(block[..n]) && block[n] == block[0]
  {
    var n := |block| - 1;
    if Uniform(block[..n]) && block[n] == block[0] {
      forall k | 0 <= k < |block| ensures block[k] == block[0] {
        assert k < n ==> block[..n][k] == block[..n][0];
      }
    }
  }

  /** Looks for a place for a block in the `n` entries from `base` on. Entries beyond them, left by
      an earlier trie, are never compared. */
  method FindPlace(block: array<int>, trieData: array<int>, base: nat, n: nat) returns (insertAt: nat)
    requires base + n <= trieData.Length
    ensures insertAt == FirstPlace(trieData[base..base + n], block[..], 0)
  {
    hide FirstPlace, Agrees;
    ghost var data, whole := trieData[base..base + n], block[..];
    insertAt := 0;
    while insertAt < n
      invariant insertAt <= n && FirstPlace(data, whole, insertAt) == FirstPlace(data, whole, 0)
    {
      FirstPlaceStep(data, whole, insertAt);
      var entries := n - insertAt;
      if entries > block.Length {
        entries := block.Length;
      }
      Compared(trieData[..], base, n, whole, insertAt, entries);
      if block[..entries] == trieData[base + insertAt..base + insertAt + entries] {
        return;
      }
      insertAt := insertAt + 1;
    }
    FirstPlaceStep(data, whole, insertAt);
  }

  lemma Compared(all: seq<int>, base: nat, n: nat, block: seq<int>, at: nat, entries: nat)
    requires base + n <= |all| && at <= n && entries == Min(n - at, |block|)
    ensures Agrees(all[base..base + n], block, at) <==> block[..entries] == all[base + at..base + at + entries]
  {
    SliceOfSlice(all, base, n, at, entries);
  }

  lemma FirstPlaceStep(data: seq<int>, block: seq<int>, from: nat)
    requires from <= |data|
    ensures FirstPlace(data, block, from) ==
            if from == |data| || Agrees(data, block, from) then from else FirstPlace(data, block, from + 1)
  {
  }

  /** Copies a block over the entries at `insertAt`, of which `n` are in use. */
  method Insert(block: array<int>, trieData: array<int>, base: nat, n: nat, insertAt: nat) returns (n': nat)
    requires insertAt <= n && base + n <= trieData.Length && base + insertAt + block.Length <= trieData.Length
    requires Agrees(trieData[base..base + n], block[..], insertAt) && block != trieData
    modifies trieData
    ensures base + n' <= trieData.Length && n' == if insertAt + block.Length > n then insertAt + block.Length else n
    ensures trieData[base..base + n'] == Placed(old(trieData[base..base + n]), block[..], insertAt)
    ensures forall i :: 0 <= i < trieData.Length && !(base <= i < base + n') ==> trieData[i] == old(trieData[i])
    ensures block[..] == old(block[..])
  {
    PlacedKeeps(trieData[base..base + n], block[..], insertAt);
    forall k | 0 <= k < block.Length {
      trieData[base + insertAt + k] := block[k];
    }
    n' := n;
    if insertAt + block.Length > n {
      n' := insertAt + block.Length;
    }
  }

  /** Writes the data of a block, if it needs any, and gives its entry in the index. */
  method WriteBlock(block: array<int>, allTheSame: bool, trieData: array<int>, base: nat, n: nat, ghost before: Trie)
    returns (entry: int, n': nat)
    requires block.Length > 0 && (allTheSame <==> Uniform(block[..])) && block != trieData
    requires base + n + block.Length <= trieData.Length && trieData[base..base + n] == before.data
    modifies trieData
    ensures n <= n' <= n + block.Length
    ensures Trie(before.index + [entry], trieData[base..base + n']) == WithBlock(before, block[..])
    ensures forall i :: 0 <= i < trieData.Length && !(base <= i < base + n') ==> trieData[i] == old(trieData[i])
    ensures block[..] == old(block[..])
  {
    hide Uniform, FirstPlace, Placed, Agrees;
    n' := n;
    if allTheSame {
      entry := WithTopBit(block[0]);
    } else {
      var insertAt := FindPlace(block, trieData, base, n);
      n' := Insert(block, trieData, base, n, insertAt);
      entry := insertAt;
    }
  }

  /** Makes the trie of the plane of codes at `from`, in the part of `trieData` at `base`. */
  method WriteTrie(entrySize: nat, blockBits: nat, write: bool, theIndex: array<int>, from: nat,
                   trieData: array<int>, base: nat)
    returns (size: nat, table: Table)
    requires blockBits <= 16 && from + PLANE <= theIndex.Length && base + PLANE <= trieData.Length
    requires theIndex != trieData
    modifies trieData
    ensures forall i :: 0 <= i < trieData.Length && !(base <= i < base + PLANE) ==> trieData[i] == old(trieData[i])
    ensures size == DataSize(theIndex[from..from + PLANE], entrySize, blockBits)
    ensures write ==> table == Written(PlaneTrie(theIndex[from..from + PLANE], blockBits))
  {
    hide WithBlock, Uniform, Written, Power2, Build, FirstPlace, Placed, Agrees;
    PlaneOfBlocks(blockBits);
    ghost var flat := theIndex[from..from + PLANE];
    var n, blockSize, blocks := 0, Power2(blockBits), Power2(16 - blockBits);
    var trieIndex, block := new int[blocks], new int[blockSize];
    var b := 0;
    NoBlocks(flat, blockSize);
    while b < blocks
      invariant b <= blocks && n <= b * blockSize <= PLANE
      invariant theIndex[from..from + PLANE] == flat
      invariant Trie(trieIndex[..b], trieData[base..base + n]) == Build(flat, blockSize, b)
      invariant forall i :: 0 <= i < trieData.Length && !(base <= i < base + PLANE) ==> trieData[i] == old(trieData[i])
    {
      BlockBefore(blockSize, b, blocks);
      BlockInside(blockSize, b + 1);
      BuildStep(flat, blockSize, b + 1);
      SliceOfSlice(theIndex[..], from, PLANE, b * blockSize, blockSize);
      ghost var before := Build(flat, blockSize, b);
      var allTheSame := CopyBlock(theIndex, from + b * blockSize, block);
      assert block[..] == Block(flat, blockSize, b);
      var entry;
      entry, n := WriteBlock(block, allTheSame, trieData, base, n, before);
      trieIndex[b] := entry;
      assert trieIndex[..b + 1] == trieIndex[..b] + [trieIndex[b]];
      b := b + 1;
    }
    table := Table([], []);
    if write {
      table := Written(Trie(trieIndex[..], trieData[base..base + n]));
    }
    assert trieIndex[..] == trieIndex[..b];
    size := TableSize(blocks, 2) + TableSize(n, entrySize);
  }

  const PLANE_COUNT: nat := 17

  /** The tables of a plane, with the number of low bits of a code and the masks that part a code. */
  datatype PlaneTables = PlaneTables(bits: nat, maskForBlock: nat, maskForCodePoint: nat, table: Table)

  function PlaneOf(flat: seq<int>, plane: nat): seq<int>
    requires plane < PLANE_COUNT && |flat| == PLANE_COUNT * PLANE
  {
    flat[plane * PLANE..plane * PLANE + PLANE]
  }

  /** The tables of a plane are those of the smallest trie. */
  ghost predicate BestTables(flat: seq<int>, t: PlaneTables)
    requires |flat| == PLANE
  {
    && t.bits == BestBits(flat, 2, MOST_BITS + 1) && t.table == Written(PlaneTrie(flat, t.bits))
    && t.maskForCodePoint == Power2(t.bits) - 1 && t.maskForBlock + t.maskForCodePoint == 0xFFFF
  }

  /** Octets of two tables of sixteen bits an entry. */
  function TableOctets(table: Table): nat {
    2 * |table.index| + 2 * |table.data|
  }

  /** Of the block sizes from 8 to 8192, the one of a plane's tables is the first that makes them smallest. */
  lemma SmallestTables(flat: seq<int>, t: PlaneTables, bits: nat)
    requires |flat| == PLANE && BestTables(flat, t) && 3 <= bits <= 13
    ensures 3 <= t.bits <= 13 && TableOctets(t.table) <= TableOctets(Written(PlaneTrie(flat, bits)))
    ensures bits < t.bits ==> TableOctets(t.table) < TableOctets(Written(PlaneTrie(flat, bits)))
  {
    hide BestBits, Power2, Build;
    BestIsSmallest(flat, 2, MOST_BITS + 1, bits);
    PlaneOctets(flat, bits);
    PlaneOctets(flat, t.bits);
  }

  lemma PlaneOctets(flat: seq<int>, bits: nat)
    requires |flat| == PLANE && bits <= 16
    ensures DataSize(flat, 2, bits) == TableOctets(Written(PlaneTrie(flat, bits)))
  {
    hide Power2, Build;
    PlaneOfBlocks(bits);
  }

  function AllOctets(planes: seq<PlaneTables>): nat {
    if planes == [] then 0 else AllOctets(planes[..|planes| - 1]) + TableOctets(planes[|planes| - 1].table)
  }

  /** Tries every block size, writing each trie over the one before. */
  method FindBestBits(theIndex: array<int>, from: nat, trieData: array<int>, base: nat) returns (bestBits: nat)
    requires from + PLANE <= theIndex.Length && base + PLANE <= trieData.Length && theIndex != trieData
    modifies trieData
    ensures bestBits == BestBits(theIndex[from..from + PLANE], 2, MOST_BITS + 1)
    ensures forall i :: 0 <= i < trieData.Length && !(base <= i < base + PLANE) ==> trieData[i] == old(trieData[i])
  {
    hide DataSize, PlaneTrie, Written;
    ghost var flat := theIndex[from..from + PLANE];
    bestBits := 0;
    var bestDataSize := 0x4000_0000;
    SizeIsModest(flat, FEWEST_BITS);
    for bits := FEWEST_BITS to MOST_BITS + 1
      invariant bits == FEWEST_BITS ==> bestDataSize == 0x4000_0000
      invariant bits > FEWEST_BITS ==> bestBits == BestBits(flat, 2, bits) && bestDataSize == DataSize(flat, 2, bestBits)
      invariant forall i :: 0 <= i < trieData.Length && !(base <= i < base + PLANE) ==> trieData[i] == old(trieData[i])
    {
      var size, _ := WriteTrie(2, bits, false, theIndex, from, trieData, base);
      if size < bestDataSize {
        bestBits, bestDataSize := bits, size;
      }
    }
  }

  lemma SizeIsModest(flat: seq<int>, bits: nat)
    requires |flat| == PLANE && bits <= 16
    ensures DataSize(flat, 2, bits) <= 2 * PLANE + 2 * PLANE
  {
    hide Power2, Build;
    PlaneOfBlocks(bits);
    DataFits(flat, Power2(bits), Power2(16 - bits));
    Power2Grows(16 - bits, 16);
    PlaneOfBlocks(0);
    PowerOfNone();
  }

  lemma PowerOfNone()
    ensures Power2(0) == 1
  {
  }

  /** The smallest trie of each plane, written. */
  method WriteTries(theIndex: array<int>, trieData: array<int>) returns (byteCount: nat, planes: seq<PlaneTables>)
    requires theIndex.Length == trieData.Length == PLANE_COUNT * PLANE && theIndex != trieData
    modifies trieData
    ensures |planes| == PLANE_COUNT && byteCount == AllOctets(planes)
    ensures forall plane :: 0 <= plane < PLANE_COUNT ==> BestTables(PlaneOf(theIndex[..], plane), planes[plane])
  {
    hide DataSize, PlaneTrie, Written, BestBits, Power2;
    byteCount, planes := 0, [];
    for plane := 0 to PLANE_COUNT
      invariant |planes| == plane && byteCount == AllOctets(planes)
      invariant forall p :: 0 <= p < plane ==> BestTables(PlaneOf(theIndex[..], p), planes[p])
    {
      var base := plane * PLANE;
      assert theIndex[base..base + PLANE] == PlaneOf(theIndex[..], plane);
      var bits := FindBestBits(theIndex, base, trieData, base);
      var size, table := WriteTrie(2, bits, true, theIndex, base, trieData, base);
      Power2Grows(bits, 16);
      PlaneOfBlocks(0);
      PowerOfNone();
      PlaneOctets(PlaneOf(theIndex[..], plane), bits);
      var mask := Power2(bits) - 1;
      byteCount, planes := byteCount + size, planes + [PlaneTables(bits, 0xFFFF - mask, mask, table)];
      assert planes[..plane + 1][..plane] == planes[..plane];
    }
  }
}
