/** An array of a plane with 3603 changes, of 997 values, that is not read back from its smallest trie. */
module JaggedPlane {
  import opened Bytes
  import opened Trie

  const START: nat := 0x100
  const END: nat := 0x100 + 130 * 0x100
  const VALUES: nat := 997
  const STEPS: nat := 3603

  /** The changes up to a code. From START to END every second block of eight changes its value at its
      second code, and from the block 1114 on every block does. */
  function Step(code: nat): (n: nat)
    ensures n <= STEPS
  {
    if code <= START then 0
    else
      var m := Min((code - START + 7) / 8, (END - START) / 8);
      if m <= 1114 then (m + 1) / 2 else m - 557
  }

  /** The value after so many changes: laps of all values, each in larger steps than the one before. */
  function Value(step: nat): nat {
    InLap(step / VALUES, step % VALUES)
  }

  function InLap(lap: nat, i: nat): nat {
    if lap == 0 then i
    else if lap == 1 then i * 2 % VALUES
    else if lap == 2 then i * 3 % VALUES
    else i * 4 % VALUES
  }

  predicate Jagged(flat: seq<int>) {
    |flat| == PLANE && forall code :: 0 <= code < PLANE ==> flat[code] == Value(Step(code))
  }

  lemma Whole(flat: seq<int>)
    requires Jagged(flat)
    ensures |flat| == PLANE
  {
  }

  // Where the value changes

  lemma StepsOn(code: nat)
    ensures Step(code) <= Step(code + 1) <= Step(code) + 1
    ensures Step(code + 1) > Step(code) ==> code % 8 == 0 && START <= code < END
    ensures code % 16 == 0 && START <= code < END ==> Step(code + 1) == Step(code) + 1
  {
  }

  lemma {:induction false} StepsRise(code: nat, later: nat)
    requires code <= later
    ensures Step(code) <= Step(later)
    decreases later - code
  {
    if code < later {
      StepsOn(later - 1);
      StepsRise(code, later - 1);
    }
  }

  /** Within a block of eight nothing changes but at its second code. */
  lemma {:induction false} StepWithin(code: nat, more: nat)
    requires code % 8 == 0 && 0 < more < 8
    ensures Step(code + more) == Step(code + 1)
  {
    hide Step;
    if more > 1 {
      StepWithin(code, more - 1);
      StepsOn(code + more - 1);
    }
  }

  // Values

  lemma NextInLap(lap: nat, i: nat)
    requires lap < 4 && i < VALUES
    ensures InLap(lap, i) < VALUES
    ensures (InLap(lap, i) + lap + 1) % VALUES == if i + 1 < VALUES then InLap(lap, i + 1) else 0
  {
    if lap == 1 {
      NextDouble(i);
    } else if lap == 2 {
      NextTriple(i);
    } else if lap == 3 {
      NextQuadruple(i);
    }
  }

  lemma NextDouble(i: nat)
    requires i < VALUES
    ensures (i * 2 % VALUES + 2) % VALUES == if i + 1 < VALUES then (i + 1) * 2 % VALUES else 0
  {
    Added(i * 2, 2);
  }

  lemma NextTriple(i: nat)
    requires i < VALUES
    ensures (i * 3 % VALUES + 3) % VALUES == if i + 1 < VALUES then (i + 1) * 3 % VALUES else 0
  {
    Added(i * 3, 3);
  }

  lemma NextQuadruple(i: nat)
    requires i < VALUES
    ensures (i * 4 % VALUES + 4) % VALUES == if i + 1 < VALUES then (i + 1) * 4 % VALUES else 0
  {
    Added(i * 4, 4);
  }

  lemma Added(a: nat, more: nat)
    requires more < VALUES
    ensures (a % VALUES + more) % VALUES == (a + more) % VALUES
  {
    var q, r := a / VALUES, a % VALUES;
    assert a + more == if r + more < VALUES then q * VALUES + (r + more) else (q + 1) * VALUES + (r + more - VALUES);
  }

  lemma NextValue(step: nat)
    requires step < STEPS
    ensures step / VALUES < 4 && Value(step) < VALUES
    ensures Value(step + 1) == (Value(step) + step / VALUES + 1) % VALUES != Value(step)
  {
    hide InLap;
    var lap, i := step / VALUES, step % VALUES;
    NextInLap(lap, i);
    if i + 1 < VALUES {
      assert (step + 1) / VALUES == lap && (step + 1) % VALUES == i + 1;
    } else {
      assert (step + 1) / VALUES == lap + 1 && (step + 1) % VALUES == 0;
      LapStart(lap + 1);
    }
  }

  lemma LapStart(lap: nat)
    ensures InLap(lap, 0) == 0
  {
  }

  /** No value is followed by the same value twice. */
  lemma PairsOnce(step: nat, other: nat)
    requires step < STEPS && other < STEPS
    requires Value(step) == Value(other) && Value(step + 1) == Value(other + 1)
    ensures step == other
  {
    hide Value;
    NextValue(step);
    NextValue(other);
    SameLap(Value(step), step / VALUES, other / VALUES);
    OncePerLap(step, other);
  }

  lemma SameLap(value: nat, lap: nat, other: nat)
    requires value < VALUES && lap < 4 && other < 4
    requires (value + lap + 1) % VALUES == (value + other + 1) % VALUES
    ensures lap == other
  {
  }

  lemma OncePerLap(step: nat, other: nat)
    requires step / VALUES == other / VALUES < 4 && Value(step) == Value(other)
    ensures step == other
  {
    hide InLap;
    OnceInLap(step / VALUES, step % VALUES, other % VALUES);
  }

  lemma OnceInLap(lap: nat, i: nat, j: nat)
    requires lap < 4 && i < VALUES && j < VALUES && InLap(lap, i) == InLap(lap, j)
    ensures i == j
  {
    if lap == 1 {
      Doubles(i, j);
    } else if lap == 2 {
      Triples(i, j);
    } else if lap == 3 {
      Quadruples(i, j);
    }
  }

  lemma Doubles(i: nat, j: nat)
    requires i < VALUES && j < VALUES && i * 2 % VALUES == j * 2 % VALUES
    ensures i == j
  {
    var e: int := i * 2 / VALUES - j * 2 / VALUES;
    assert e == 2 * (i - j - 498 * e);
  }

  lemma Triples(i: nat, j: nat)
    requires i < VALUES && j < VALUES && i * 3 % VALUES == j * 3 % VALUES
    ensures i == j
  {
    var e: int := i * 3 / VALUES - j * 3 / VALUES;
    assert e == 3 * (i - j - 332 * e);
  }

  lemma Quadruples(i: nat, j: nat)
    requires i < VALUES && j < VALUES && i * 4 % VALUES == j * 4 % VALUES
    ensures i == j
  {
    var e: int := i * 4 / VALUES - j * 4 / VALUES;
    assert e == 4 * (i - j - 249 * e);
  }

  // The data of its tries

  ghost predicate PairBefore(flat: seq<int>, n: nat, x: int, y: int)
    requires n <= |flat|
  {
    exists c :: 0 <= c < n - 1 && flat[c] == x && flat[c + 1] == y
  }

  lemma ChangeIsStep(flat: seq<int>, c: nat)
    requires Jagged(flat) && c + 1 < PLANE
    ensures flat[c + 1] != flat[c] <==> Step(c + 1) == Step(c) + 1
    ensures flat[c + 1] == flat[c] <==> Step(c + 1) == Step(c)
  {
    hide Step, Value;
    StepsOn(c);
    if Step(c) < STEPS {
      NextValue(Step(c));
    }
  }

  lemma SameBefore(flat: seq<int>, n: nat)
    requires Jagged(flat) && 0 < n < PLANE && n % 8 == 0
    ensures flat[n] == flat[n - 1]
  {
    hide Step, Value;
    StepsOn(n - 1);
    ChangeIsStep(flat, n - 1);
  }

  /** A change is like none before it. */
  lemma NewPair(flat: seq<int>, n: nat)
    requires Jagged(flat) && n + 1 < PLANE && flat[n] != flat[n + 1]
    ensures !PairBefore(flat, n + 1, flat[n], flat[n + 1])
  {
    hide Step, Value;
    ChangeIsStep(flat, n);
    if c :| 0 <= c < n && flat[c] == flat[n] && flat[c + 1] == flat[n + 1] {
      ChangeIsStep(flat, c);
      PairsOnce(Step(c), Step(n));
      StepsRise(c + 1, n);
    }
  }

  /** The data ends with the value before code `n`, and its changes are changes before that code. */
  ghost predicate Chained(flat: seq<int>, data: seq<int>, n: nat)
    requires n <= |flat|
  {
    && (data != [] ==> n > 0 && data[|data| - 1] == flat[n - 1])
    && forall i :: 0 <= i < |data| - 1 && data[i] != data[i + 1] ==> PairBefore(flat, n, data[i], data[i + 1])
  }

  /** Such data shares just its last entry with a block that begins with a change. */
  lemma OnlyLastShared(flat: seq<int>, data: seq<int>, n: nat, size: nat)
    requires Jagged(flat) && 0 < n && n % 8 == 0 && 8 <= size && n + size <= PLANE
    requires data != [] && Chained(flat, data, n) && flat[n] != flat[n + 1]
    ensures FirstPlace(data, flat[n..n + size], 0) == |data| - 1
  {
    hide Step, Value, PairBefore, Agrees;
    var block := flat[n..n + size];
    SameBefore(flat, n);
    LastAgrees(data, block);
    assert block[0] == flat[n] == data[|data| - 1] && block[1] == flat[n + 1];
    var at := FirstPlace(data, block, 0);
    if at < |data| - 1 {
      SharedPair(data, block, at);
      assert PairBefore(flat, n, data[at], data[at + 1]);
      MorePairs(flat, n, n + 1, data[at], data[at + 1]);
      NewPair(flat, n);
    }
  }

  lemma SharedPair(data: seq<int>, block: seq<int>, at: nat)
    requires at + 1 < |data| && |block| > 1 && Agrees(data, block, at)
    ensures data[at] == block[0] && data[at + 1] == block[1]
  {
    var m := Min(|data| - at, |block|);
    assert data[at..at + m][0] == block[..m][0] && data[at..at + m][1] == block[..m][1];
  }

  lemma LastAgrees(data: seq<int>, block: seq<int>)
    requires data != [] && block != []
    ensures data[|data| - 1] == block[0] ==> Agrees(data, block, |data| - 1)
  {
    if data[|data| - 1] == block[0] {
      assert data[|data| - 1..] == block[..1];
    }
  }

  lemma MorePairs(flat: seq<int>, n: nat, m: nat, x: int, y: int)
    requires n <= m <= |flat| && PairBefore(flat, n, x, y)
    ensures PairBefore(flat, m, x, y)
  {
  }

  lemma BlockIsChained(flat: seq<int>, t: Trie, n: nat, size: nat)
    requires Jagged(flat) && n % 8 == 0 && 8 <= size && n + size <= PLANE && Chained(flat, t.data, n)
    requires Uniform(flat[n..n + size]) || t.data == [] || flat[n] != flat[n + 1]
    ensures var data := WithBlock(t, flat[n..n + size]).data;
            && Chained(flat, data, n + size)
            && |data| == if Uniform(flat[n..n + size]) then |t.data| else if t.data == [] then size else |t.data| + size - 1
  {
    hide Step, Value, FirstPlace, PairBefore;
    var block := flat[n..n + size];
    var data := WithBlock(t, block).data;
    if Uniform(block) {
      UniformChained(flat, t.data, n, size);
    } else {
      if t.data != [] {
        OnlyLastShared(flat, t.data, n, size);
        assert data == t.data[..|t.data| - 1] + block;
        assert flat[n] == block[0];
        SameBefore(flat, n);
      } else {
        assert data == block;
      }
      ExtendedChained(flat, t.data, data, n, size);
    }
  }

  lemma UniformChained(flat: seq<int>, data: seq<int>, n: nat, size: nat)
    requires Jagged(flat) && n % 8 == 0 && 8 <= size && n + size <= PLANE && Chained(flat, data, n)
    requires Uniform(flat[n..n + size])
    ensures Chained(flat, data, n + size)
  {
    hide Step, Value, PairBefore;
    var block := flat[n..n + size];
    assert block[size - 1] == block[0] && flat[n] == block[0] && flat[n + size - 1] == block[size - 1];
    if n > 0 {
      SameBefore(flat, n);
    }
    forall i | 0 <= i < |data| - 1 && data[i] != data[i + 1] ensures PairBefore(flat, n + size, data[i], data[i + 1]) {
      MorePairs(flat, n, n + size, data[i], data[i + 1]);
    }
  }

  lemma ExtendedChained(flat: seq<int>, before: seq<int>, after: seq<int>, n: nat, size: nat)
    requires 8 <= size && n + size <= |flat| && Chained(flat, before, n)
    requires after == if before == [] then flat[n..n + size] else before[..|before| - 1] + flat[n..n + size]
    requires before != [] ==> flat[n] == before[|before| - 1]
    ensures Chained(flat, after, n + size)
  {
    hide PairBefore;
    var from := if before == [] then 0 else |before| - 1;
    forall i | 0 <= i < |after| - 1 && after[i] != after[i + 1] ensures PairBefore(flat, n + size, after[i], after[i + 1]) {
      if i < from {
        assert after[i] == before[i] && after[i + 1] == before[i + 1];
        MorePairs(flat, n, n + size, before[i], before[i + 1]);
      } else {
        assert after[i] == flat[n + (i - from)] && after[i + 1] == flat[n + (i - from) + 1];
        PairIsBefore(flat, n + size, n + (i - from));
      }
    }
  }

  lemma PairIsBefore(flat: seq<int>, n: nat, c: nat)
    requires c + 1 < n <= |flat|
    ensures PairBefore(flat, n, flat[c], flat[c + 1])
  {
  }

  /** Each block that is not uniform begins with a change, but perhaps the first one. */
  ghost predicate Regular(flat: seq<int>, size: nat, blocks: nat)
    requires blocks * size <= |flat|
  {
    forall b :: 0 < b < blocks ==>
      b * size + size <= |flat| && size > 1 && (Uniform(Block(flat, size, b)) || flat[b * size] != flat[b * size + 1])
  }

  function Length(mixed: nat, size: nat): nat
    requires size > 0
  {
    if mixed == 0 then 0 else mixed * (size - 1) + 1
  }

  lemma OneMoreMixed(mixed: nat, size: nat)
    requires size > 0
    ensures Length(mixed + 1, size) == if mixed == 0 then size else Length(mixed, size) + size - 1
  {
    assert (mixed + 1) * (size - 1) == mixed * (size - 1) + (size - 1);
  }

  /** Its blocks share one entry each and no more. */
  lemma {:induction false} DataLength(flat: seq<int>, size: nat, blocks: nat)
    requires Jagged(flat) && size >= 8 && size % 8 == 0 && blocks * size <= PLANE && Regular(flat, size, blocks)
    ensures var data := Build(flat, size, blocks).data;
            Chained(flat, data, blocks * size) && |data| == Length(Mixed(flat, size, blocks), size)
  {
    hide Jagged, Chained, WithBlock, Uniform, Length, Build, Regular;
    if blocks > 0 {
      var before := blocks - 1;
      Whole(flat);
      BlockInside(size, blocks);
      RegularBefore(flat, size, blocks);
      DataLength(flat, size, before);
      Multiples(before, size);
      BuildStep(flat, size, blocks);
      OneMoreMixed(Mixed(flat, size, before), size);
      LengthOfNone(Mixed(flat, size, before), size);
      if blocks == 1 {
        NoBlocks(flat, size);
      }
      BlockIsChained(flat, Build(flat, size, before), before * size, size);
    } else {
      NoBlocks(flat, size);
      NothingIsChained(flat, size);
    }
  }

  lemma RegularBefore(flat: seq<int>, size: nat, blocks: nat)
    requires 0 < blocks && 8 <= size && blocks * size <= |flat| && Regular(flat, size, blocks)
    ensures (blocks - 1) * size + size == blocks * size && Regular(flat, size, blocks - 1)
    ensures var n := (blocks - 1) * size;
            n == 0 || flat[n] != flat[n + 1] || Uniform(flat[n..n + size])
  {
    BlockInside(size, blocks);
  }

  lemma LengthOfNone(mixed: nat, size: nat)
    requires size > 0
    ensures Length(mixed, size) == 0 <==> mixed == 0
  {
  }

  lemma NothingIsChained(flat: seq<int>, size: nat)
    requires size > 0
    ensures Chained(flat, [], 0) && Length(0, size) == 0
  {
  }

  lemma Multiples(b: nat, size: nat)
    requires size % 8 == 0
    ensures b * size % 8 == 0 && (size % 16 == 0 ==> b * size % 16 == 0)
  {
    var q := if size % 16 == 0 then size / 16 else size / 8;
    Times(b, q, if size % 16 == 0 then 16 else 8);
  }

  lemma Times(b: nat, q: nat, m: nat)
    ensures b * (m * q) == m * (b * q)
  {
  }

  // Which blocks are mixed

  lemma Flat(flat: seq<int>, n: nat, size: nat)
    requires Jagged(flat) && n + size <= PLANE && 0 < size && Step(n) == Step(n + size - 1)
    ensures Uniform(flat[n..n + size])
  {
    hide Step, Value;
    var block := flat[n..n + size];
    forall k | 0 <= k < size ensures block[k] == block[0] {
      StepsRise(n, n + k);
      StepsRise(n + k, n + size - 1);
    }
  }

  lemma NotFlat(flat: seq<int>, n: nat, size: nat, c: nat)
    requires Jagged(flat) && n <= c && c + 1 < n + size <= PLANE && Step(c + 1) == Step(c) + 1
    ensures !Uniform(flat[n..n + size])
  {
    hide Step, Value;
    var block := flat[n..n + size];
    ChangeIsStep(flat, c);
    assert block[c - n] == flat[c] && block[c + 1 - n] == flat[c + 1];
  }

  lemma Ends(code: nat)
    ensures code <= START ==> Step(code) == 0
    ensures END <= code ==> Step(code) == STEPS
  {
  }

  /** A block of eight is mixed if its second code changes the value. */
  lemma SmallBlock(flat: seq<int>, n: nat)
    requires Jagged(flat) && n % 8 == 0 && n + 8 <= PLANE
    ensures Step(n + 8) == Step(n + 1) && Step(n) <= Step(n + 1) <= Step(n) + 1
    ensures Uniform(flat[n..n + 8]) <==> Step(n + 1) == Step(n)
    ensures flat[n + 1] == flat[n] ==> Uniform(flat[n..n + 8])
  {
    hide Step, Value;
    StepsOn(n);
    StepWithin(n, 7);
    StepsOn(n + 7);
    ChangeIsStep(flat, n);
    if Step(n + 1) == Step(n) {
      Flat(flat, n, 8);
    } else {
      NotFlat(flat, n, 8, n);
    }
  }

  lemma {:induction false} SmallBlocks(flat: seq<int>, blocks: nat)
    requires Jagged(flat) && blocks * 8 <= PLANE
    ensures Mixed(flat, 8, blocks) == Step(blocks * 8) && Regular(flat, 8, blocks)
  {
    hide Step, Value, Uniform;
    if blocks > 0 {
      SmallBlocks(flat, blocks - 1);
      SmallBlock(flat, (blocks - 1) * 8);
    } else {
      Ends(0);
    }
  }

  /** Block `lo` is the first that does not end before the changes begin, and `hi` the first that
      begins after they end. */
  predicate Bounds(size: nat, lo: nat, hi: nat) {
    && 0 < size && size % 16 == 0 && lo < hi
    && (lo * size == START || (lo == 0 && START < size))
    && (hi - 1) * size < END <= hi * size
  }

  lemma LargeBlock(flat: seq<int>, size: nat, lo: nat, hi: nat, b: nat)
    requires Jagged(flat) && Bounds(size, lo, hi) && b * size + size <= PLANE
    ensures Uniform(flat[b * size..b * size + size]) <==> !(lo <= b < hi)
    ensures Uniform(flat[b * size..b * size + size]) || b == 0 || flat[b * size] != flat[b * size + 1]
  {
    hide Step, Value, Uniform, Jagged;
    Whole(flat);
    Multiples(b, size);
    if b < lo {
      BlockBefore(size, b, lo);
      OuterBlock(flat, b * size, size);
    } else if hi <= b {
      Ordered(hi, b, size);
      OuterBlock(flat, b * size, size);
    } else {
      Ordered(b, hi - 1, size);
      Ordered(lo, b, size);
      if b > 0 {
        Ordered(1, b, size);
      }
      InnerBlock(flat, b * size, size);
    }
  }

  lemma OuterBlock(flat: seq<int>, n: nat, size: nat)
    requires Jagged(flat) && 0 < size && n + size <= PLANE && (n + size <= START || END <= n)
    ensures Uniform(flat[n..n + size])
  {
    hide Step, Value, Uniform, Jagged;
    Ends(n);
    Ends(n + size - 1);
    Flat(flat, n, size);
  }

  lemma InnerBlock(flat: seq<int>, n: nat, size: nat)
    requires Jagged(flat) && 16 <= size && n % 16 == 0 && n + size <= PLANE && n < END
    requires START <= n || (n == 0 && START + 1 < size)
    ensures !Uniform(flat[n..n + size]) && (n == 0 || flat[n] != flat[n + 1])
  {
    hide Step, Value, Uniform, Jagged;
    Whole(flat);
    var c := if START <= n then n else START;
    StepsOn(c);
    ChangeIsStep(flat, c);
    NotFlat(flat, n, size, c);
  }

  lemma Ordered(a: nat, b: nat, size: nat)
    requires a <= b
    ensures a * size <= b * size
  {
    if a < b {
      BlockBefore(size, a, b);
    }
  }

  lemma RegularNext(flat: seq<int>, size: nat, blocks: nat)
    requires 0 < blocks && 8 <= size && blocks * size <= |flat| && (blocks - 1) * size <= |flat| && Regular(flat, size, blocks - 1)
    requires var n := (blocks - 1) * size;
             n + size <= |flat| && (blocks == 1 || flat[n] != flat[n + 1] || Uniform(flat[n..n + size]))
    ensures Regular(flat, size, blocks)
  {
    hide Uniform;
  }

  lemma {:induction false} LargeBlocks(flat: seq<int>, size: nat, lo: nat, hi: nat, blocks: nat)
    requires Jagged(flat) && lo < hi && 16 <= size && Bounds(size, lo, hi) && blocks * size <= PLANE
    ensures Mixed(flat, size, blocks) == if blocks <= lo then 0 else Min(blocks, hi) - lo
    ensures Regular(flat, size, blocks)
  {
    hide Jagged, Uniform, Bounds, Regular;
    Whole(flat);
    if blocks > 0 {
      BlockInside(size, blocks);
      LargeBlocks(flat, size, lo, hi, blocks - 1);
      LargeBlock(flat, size, lo, hi, blocks - 1);
      RegularNext(flat, size, blocks);
    } else {
      NoneRegular(flat, size);
    }
  }

  lemma NoneRegular(flat: seq<int>, size: nat)
    ensures Regular(flat, size, 0)
  {
  }

  // Its smallest trie

  lemma PlaneLength(flat: seq<int>, bits: nat, size: nat, blocks: nat, lo: nat, hi: nat)
    requires Jagged(flat) && bits <= 16 && Power2(bits) == size && Power2(16 - bits) == blocks
    requires lo < hi <= blocks && 16 <= size && size % 8 == 0 && Bounds(size, lo, hi)
    ensures |flat| == PLANE && |PlaneTrie(flat, bits).data| == Length(hi - lo, size)
  {
    hide Jagged, Bounds, Build, Power2, Length, Chained, Mixed, Regular;
    Whole(flat);
    PlaneOfBlocks(bits);
    LargeBlocks(flat, size, lo, hi, blocks);
    DataLength(flat, size, blocks);
  }

  lemma SmallestLength(flat: seq<int>)
    requires Jagged(flat)
    ensures |flat| == PLANE && |PlaneTrie(flat, 3).data| == Length(STEPS, 8)
  {
    hide Jagged, Build, Power2, Length, Chained, Mixed, Regular, Step;
    Whole(flat);
    Powers();
    PlaneOfBlocks(3);
    SmallBlocks(flat, 0x2000);
    Ends(PLANE);
    DataLength(flat, 8, 0x2000);
  }

  lemma Powers()
    ensures Power2(3) == 8 && Power2(4) == 16 && Power2(5) == 32 && Power2(6) == 64 && Power2(7) == 128 && Power2(8) == 256
    ensures Power2(9) == 512 && Power2(10) == 1024 && Power2(11) == 2048 && Power2(12) == 4096 && Power2(13) == 8192
  {
    assert Power2(5) == 32;
    assert Power2(9) == 512;
  }

  function LengthOf(bits: nat): nat {
    if bits == 3 then 25222 else if bits == 4 then 31201 else if bits == 5 then 32241 else if bits == 6 then 32761
    else if bits == 7 then 33021 else if bits == 8 then 33151 else if bits == 9 then 33727 else if bits == 10 then 33760
    else if bits == 11 then 34800 else if bits == 12 then 36856 else 40956
  }

  /** The number of data entries for each size of blocks. */
  lemma Lengths(flat: seq<int>, bits: nat)
    requires Jagged(flat) && FEWEST_BITS <= bits <= MOST_BITS
    ensures |flat| == PLANE && |PlaneTrie(flat, bits).data| == LengthOf(bits)
  {
    hide Jagged, Power2, Build;
    Powers();
    match bits {
      case 3 => SmallestLength(flat);
      case 4 => PlaneLength(flat, 4, 16, 4096, 16, 2096);
      case 5 => PlaneLength(flat, 5, 32, 2048, 8, 1048);
      case 6 => PlaneLength(flat, 6, 64, 1024, 4, 524);
      case 7 => PlaneLength(flat, 7, 128, 512, 2, 262);
      case 8 => PlaneLength(flat, 8, 256, 256, 1, 131);
      case 9 => PlaneLength(flat, 9, 512, 128, 0, 66);
      case 10 => PlaneLength(flat, 10, 1024, 64, 0, 33);
      case 11 => PlaneLength(flat, 11, 2048, 32, 0, 17);
      case 12 => PlaneLength(flat, 12, 4096, 16, 0, 9);
      case _ => PlaneLength(flat, 13, 8192, 8, 0, 5);
    }
  }

  /** It has 3603 changes. */
  lemma {:induction false} JaggedChanges(flat: seq<int>, n: nat)
    requires Jagged(flat) && 0 < n <= PLANE
    ensures Changes(flat, n) == Step(n - 1)
  {
    hide Step, Value;
    if n > 1 {
      JaggedChanges(flat, n - 1);
      ChangeIsStep(flat, n - 2);
    } else {
      Ends(0);
    }
  }

  /** Blocks of 256 are the smallest here, and their data is too long. */
  lemma JaggedIsNotFaithful(flat: seq<int>)
    requires Jagged(flat)
    ensures |flat| == PLANE && BestBits(flat, 2, MOST_BITS + 1) == 8 && |PlaneTrie(flat, 8).data| == 33151
    ensures !PlaneFaithful(flat, 8)
  {
    hide Jagged, Power2, Build, BestBits, PlaneTrie, PlaneFaithful;
    Whole(flat);
    Powers();
    var best := BestBits(flat, 2, MOST_BITS + 1);
    BestIsSmallest(flat, 2, MOST_BITS + 1, 8);
    Lengths(flat, 8);
    Lengths(flat, best);
    JaggedValues(flat);
    FitsExactlyIf(flat, 8);
  }

  lemma JaggedValues(flat: seq<int>)
    requires Jagged(flat)
    ensures forall code :: 0 <= code < PLANE ==> 0 <= flat[code] < VALUES
  {
    hide Step, Value;
    forall code | 0 <= code < PLANE ensures 0 <= flat[code] < VALUES {
      if Step(code) < STEPS {
        NextValue(Step(code));
      } else {
        LastValue();
      }
    }
  }

  lemma LastValue()
    ensures Value(STEPS) < VALUES
  {
  }
}
