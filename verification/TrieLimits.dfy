/** How many changes of value in a plane the smallest trie can always carry. */
module TrieLimits {
  import opened Bytes
  import opened Trie

  /** The last entry of the data is the value before code `n`. */
  predicate AtValue(flat: seq<int>, data: seq<int>, n: nat)
    requires 0 < n <= |flat|
  {
    data == [] || data[|data| - 1] == flat[n - 1]
  }

  /** The data of blocks of eight grows by at most seven entries for each change. A block that begins
      with the last entry of the data shares it, and where it does not, a change added nothing. */
  ghost predicate Sparing(flat: seq<int>, data: seq<int>, n: nat)
    requires n <= |flat|
  {
    if n == 0 then data == []
    else |data| <= 7 * (Changes(flat, n) - if AtValue(flat, data, n) then 0 else 1) + 1
  }

  lemma BlockChanges(flat: seq<int>, n: nat)
    requires n + 8 <= |flat|
    ensures Changes(flat, n + 8) >= Changes(flat, n + 1) + if Uniform(flat[n..n + 8]) then 0 else 1
    ensures Changes(flat, n + 1) == if n > 0 && flat[n] != flat[n - 1] then Changes(flat, n) + 1 else Changes(flat, n)
  {
    hide Changes;
    ChangesGrow(flat, n + 1, n + 8);
    FirstChange(flat, n);
    if Changes(flat, n + 8) == Changes(flat, n + 1) {
      var block := flat[n..n + 8];
      forall k | 0 <= k < 8 ensures block[k] == block[0] {
        NoChange(flat, n, n + 8, n + k);
      }
    }
  }

  lemma FirstChange(flat: seq<int>, n: nat)
    requires n < |flat|
    ensures Changes(flat, n + 1) == if n > 0 && flat[n] != flat[n - 1] then Changes(flat, n) + 1 else Changes(flat, n)
  {
  }

  lemma SharedEntry(data: seq<int>, block: seq<int>)
    requires data != [] && block != [] && data[|data| - 1] == block[0]
    ensures FirstPlace(data, block, 0) <= |data| - 1
  {
    assert data[|data| - 1..] == block[..1];
    assert Agrees(data, block, |data| - 1);
  }

  lemma PlacedEnd(data: seq<int>, block: seq<int>, at: nat)
    requires at <= |data| && block != []
    ensures var data' := Placed(data, block, at);
            data' == data || (data'[|data'| - 1] == block[|block| - 1] && |data'| == at + |block|)
  {
  }

  lemma BlockIsSparing(flat: seq<int>, t: Trie, n: nat)
    requires n + 8 <= |flat| && Sparing(flat, t.data, n)
    ensures Sparing(flat, WithBlock(t, flat[n..n + 8]).data, n + 8)
  {
    hide Changes, FirstPlace, Placed;
    var block := flat[n..n + 8];
    BlockChanges(flat, n);
    if Uniform(block) {
      assert flat[n + 7] == block[7] == block[0] == flat[n];
    } else {
      var at := FirstPlace(t.data, block, 0);
      PlacedEnd(t.data, block, at);
      assert flat[n + 7] == block[7] && flat[n] == block[0];
      if t.data != [] && t.data[|t.data| - 1] == block[0] {
        SharedEntry(t.data, block);
      }
    }
  }

  lemma {:induction false} SmallBlocksAreSparing(flat: seq<int>, blocks: nat)
    requires blocks * 8 <= |flat|
    ensures Sparing(flat, Build(flat, 8, blocks).data, blocks * 8)
  {
    hide Sparing, WithBlock;
    if blocks > 0 {
      SmallBlocksAreSparing(flat, blocks - 1);
      BlockIsSparing(flat, Build(flat, 8, blocks - 1), (blocks - 1) * 8);
      BuildStep(flat, 8, blocks);
    } else {
      NothingIsSparing(flat);
    }
  }

  lemma NothingIsSparing(flat: seq<int>)
    ensures Sparing(flat, [], 0)
  {
  }

  /** Index and data cannot both be short when the data is too long for its index. */
  lemma LongTables(bits: nat)
    requires FEWEST_BITS <= bits <= MOST_BITS
    ensures Power2(16 - bits) + Power2(bits) >= 0x200
  {
    hide Power2;
    EightAndNine();
    if bits >= 9 {
      Power2Grows(9, bits);
    } else if bits <= 7 {
      Power2Grows(9, 16 - bits);
    }
  }

  lemma EightAndNine()
    ensures Power2(3) == 8 && Power2(8) == 0x100 && Power2(9) == 0x200 && Power2(13) == 0x2000
  {
    assert Power2(4) == 16;
    PowersOfTwo(9, 4);
  }

  /** With no more than 3583 changes in a plane, the smallest of all tries is always faithful. */
  lemma FewChangesSuffice(flat: seq<int>)
    requires |flat| == PLANE && Changes(flat, PLANE) <= 3583
    requires forall c :: 0 <= c < PLANE ==> NO_DATA <= flat[c] < 0x8000
    ensures PlaneFaithful(flat, BestBits(flat, 2, MOST_BITS + 1))
  {
    hide BestBits, Changes, Build, PlaneFaithful, Power2;
    var bits := BestBits(flat, 2, MOST_BITS + 1);
    FitsExactlyIf(flat, bits);
    BestIsSmallest(flat, 2, MOST_BITS + 1, 3);
    EightAndNine();
    SmallBlocksAreSparing(flat, 0x2000);
    LongTables(bits);
    Power2Grows(3, bits);
  }
}
