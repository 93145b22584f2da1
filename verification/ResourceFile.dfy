/** The resource file: a header, the resources one after the other, and an index of their offsets. */
module ResourceFile {
  import opened Bytes
  import opened ResourceLayout
  import opened ResourceItems
  import opened ResourceHeader
  import opened BinaryStream

  // Bit arrays

  /** Flags in an octet, the first in the lowest bit. */
  function BitOctet(flags: seq<bool>): (r: nat)
    ensures r < Power2(|flags|)
  {
    if flags == [] then 0 else (if flags[0] then 1 else 0) + 2 * BitOctet(flags[1..])
  }

  /** The octet of up to eight flags. */
  function FlagOctet(flags: seq<bool>): Byte
    requires |flags| <= 8
  {
    Power2Grows(|flags|, 8);
    BitOctet(flags)
  }

  function BitArray(flags: seq<bool>): (r: seq<Byte>)
    ensures |r| == (|flags| + 7) / 8
  {
    if flags == [] then []
    else if |flags| <= 8 then [FlagOctet(flags)]
    else [FlagOctet(flags[..8])] + BitArray(flags[8..])
  }

  predicate Bit(octet: nat, i: nat) {
    if i == 0 then octet % 2 == 1 else Bit(octet / 2, i - 1)
  }

  /** Bit `i` of an array of octets. */
  predicate BitAt(octets: seq<Byte>, i: nat)
    requires i / 8 < |octets|
  {
    Bit(octets[i / 8], i % 8)
  }

  lemma {:induction false} OctetBit(flags: seq<bool>, i: nat)
    requires i < |flags|
    ensures Bit(BitOctet(flags), i) <==> flags[i]
  {
    if i > 0 {
      OctetBit(flags[1..], i - 1);
    }
  }

  /** One more flag sets the next bit, which was clear. */
  lemma {:induction false} OctetGrows(flags: seq<bool>, flag: bool)
    ensures BitOctet(flags + [flag]) == BitOctet(flags) + if flag then Power2(|flags|) else 0
  {
    if flags != [] {
      OctetGrows(flags[1..], flag);
      assert (flags + [flag])[1..] == flags[1..] + [flag];
    }
  }

  /** Each flag comes back from its bit. */
  lemma {:induction false} BitArrayAt(flags: seq<bool>, i: nat)
    requires i < |flags|
    ensures BitAt(BitArray(flags), i) <==> flags[i]
  {
    if |flags| <= 8 {
      OctetBit(flags, i);
    } else if i < 8 {
      OctetBit(flags[..8], i);
    } else {
      BitArrayAt(flags[8..], i - 8);
      assert i / 8 == (i - 8) / 8 + 1;
    }
  }

  method WriteBitArrayOfResourcesContainingCompressedUnicode(out: RCBinaryStream, flags: seq<bool>)
    requires out.Valid()
    modifies out
    ensures out.Valid() && out.position == old(out.position) + |BitArray(flags)|
    ensures out.bytes == Overwritten(old(out.bytes), old(out.position), BitArray(flags))
  {
    hide Overwritten, BitArray, BitOctet, Power2;
    ghost var written: seq<Byte> := [];
    var bitBuffer, numberOfBitsInBuffer := 0, 0;
    var i := 0;
    NothingWritten(out.bytes, out.position);
    EmptyOctet(flags[0..0]);
    while i < |flags|
      invariant out.Valid() && numberOfBitsInBuffer <= i <= |flags| && numberOfBitsInBuffer < 8
      invariant bitBuffer == BitOctet(flags[i - numberOfBitsInBuffer..i])
      invariant out.position == old(out.position) + |written|
      invariant out.bytes == Overwritten(old(out.bytes), old(out.position), written)
      invariant written + BitArray(flags[i - numberOfBitsInBuffer..]) == BitArray(flags)
    {
      ghost var from := i - numberOfBitsInBuffer;
      OctetGrows(flags[from..i], flags[i]);
      assert flags[from..i + 1] == flags[from..i] + [flags[i]];
      if flags[i] {
        bitBuffer := bitBuffer + Power2(numberOfBitsInBuffer);
      }
      numberOfBitsInBuffer := numberOfBitsInBuffer + 1;
      i := i + 1;
      if numberOfBitsInBuffer == 8 {
        NextOctet(flags[from..]);
        assert flags[from..][..8] == flags[from..i] && flags[from..][8..] == flags[i..];
        Associate(written, [bitBuffer], BitArray(flags[i..]));
        written := WriteOctet(out, bitBuffer, written, old(out.bytes), old(out.position));
        bitBuffer := 0;
        numberOfBitsInBuffer := 0;
        EmptyOctet(flags[i..i]);
      }
    }
    assert flags[i - numberOfBitsInBuffer..] == flags[i - numberOfBitsInBuffer..i];
    LastOctet(flags[i - numberOfBitsInBuffer..i]);
    if numberOfBitsInBuffer > 0 {
      written := WriteOctet(out, bitBuffer, written, old(out.bytes), old(out.position));
    }
    assert written == BitArray(flags);
  }

  /** One more octet after those that have been written since `position`. */
  method WriteOctet(out: RCBinaryStream, octet: Byte, ghost written: seq<Byte>, ghost bytes: seq<Byte>, ghost position: nat)
    returns (ghost written': seq<Byte>)
    requires out.Valid() && position <= |bytes| && out.position == position + |written|
    requires out.bytes == Overwritten(bytes, position, written)
    modifies out
    ensures out.Valid() && written' == written + [octet] && out.position == position + |written'|
    ensures out.bytes == Overwritten(bytes, position, written')
  {
    hide Overwritten;
    OverwrittenTwice(bytes, position, written, [octet]);
    out.Write([octet]);
    written' := written + [octet];
  }

  lemma NothingWritten(bytes: seq<Byte>, position: nat)
    requires position <= |bytes|
    ensures Overwritten(bytes, position, []) == bytes
  {
  }

  lemma EmptyOctet(flags: seq<bool>)
    requires flags == []
    ensures BitOctet(flags) == 0
  {
  }

  lemma LastOctet(flags: seq<bool>)
    requires |flags| < 8
    ensures BitArray(flags) == if flags == [] then [] else [FlagOctet(flags)]
  {
  }

  lemma NextOctet(flags: seq<bool>)
    requires |flags| >= 8
    ensures BitArray(flags) == [FlagOctet(flags[..8])] + BitArray(flags[8..])
  {
    if |flags| == 8 {
      assert flags[..8] == flags;
    }
  }

  // The file

  function SizeOf(root: Node): nat {
    |NodeImage(root, 0, 0)|
  }

  /** The size of the largest of some resources, or 0 for none. */
  ghost predicate IsLargest(size: nat, roots: seq<Node>) {
    && (forall i :: 0 <= i < |roots| ==> |NodeImage(roots[i], 0, 0)| <= size)
    && if roots == [] then size == 0 else exists i :: 0 <= i < |roots| && |NodeImage(roots[i], 0, 0)| == size
  }

  lemma OneMoreSize(size: nat, roots: seq<Node>, i: nat)
    requires i < |roots| && IsLargest(size, roots[..i])
    ensures IsLargest(if size < SizeOf(roots[i]) then SizeOf(roots[i]) else size, roots[..i + 1])
  {
    hide NodeImage;
    var size', upTo := if size < SizeOf(roots[i]) then SizeOf(roots[i]) else size, roots[..i + 1];
    if size < SizeOf(roots[i]) || i == 0 {
      assert |NodeImage(upTo[i], 0, 0)| == size';
    } else {
      var k :| 0 <= k < i && |NodeImage(roots[..i][k], 0, 0)| == size;
      assert |NodeImage(upTo[k], 0, 0)| == size';
    }
    forall k | 0 <= k < |upTo| ensures |NodeImage(upTo[k], 0, 0)| <= size' {
      assert k < i ==> upTo[k] == roots[..i][k];
    }
  }

  /** Resource `i` of a file lies between two offsets and reads as the image of its items. */
  ghost predicate ResourceAt(bytes: seq<Byte>, from: int, to: int, hasRuns: bool, root: Node) {
    0 <= from <= to <= |bytes| && ReadsAs(bytes[from..to], hasRuns, NodeImage(root, 0, 0))
  }

  ghost predicate ResourcesAt(bytes: seq<Byte>, offsets: seq<nat>, flags: seq<bool>, roots: seq<Node>, n: nat)
    requires n <= |roots|
  {
    && |offsets| == n + 1 && |flags| == n
    && (forall i :: 0 <= i < n ==> ResourceAt(bytes, offsets[i], offsets[i + 1], flags[i], roots[i]))
  }

  /** Streams the resources out one after the other. `offsets` are their starts and the end of the last. */
  method WriteBinaryResourceData(out: RCBinaryStream, roots: seq<Node>)
    returns (ok: bool, offsets: seq<nat>, flags: seq<bool>, largest: nat)
    requires out.Valid() && out.position == |out.bytes|
    modifies out
    ensures ok ==>
              && out.Valid() && out.position == |out.bytes| && |old(out.bytes)| <= |out.bytes|
              && out.bytes[..|old(out.bytes)|] == old(out.bytes)
              && ResourcesAt(out.bytes, offsets, flags, roots, |roots|)
              && offsets[0] == |old(out.bytes)| && offsets[|roots|] == |out.bytes|
              && (forall i :: 0 <= i < |roots| ==> offsets[i] <= 0xFFFF)
              && IsLargest(largest, roots)
    ensures ok ==> |out.bytes| <= |old(out.bytes)| + Room(roots)
    ensures Modest(roots) && |old(out.bytes)| + Room(roots) <= 0xFFFF ==> ok
  {
    hide ReadsAs, NodeImage, NodeFits, IsLargest;
    offsets, flags, largest := [|out.bytes|], [], 0;
    var i := 0;
    NoSize(roots[..0]);
    assert roots[..0] == [] && out.bytes[..|out.bytes|] == out.bytes;
    while i < |roots|
      invariant i <= |roots| && out.Valid() && out.position == |out.bytes| && |old(out.bytes)| <= |out.bytes|
      invariant out.bytes[..|old(out.bytes)|] == old(out.bytes)
      invariant ResourcesAt(out.bytes, offsets, flags, roots, i)
      invariant offsets[0] == |old(out.bytes)| && offsets[i] == |out.bytes|
      invariant forall k :: 0 <= k < i ==> offsets[k] <= 0xFFFF
      invariant IsLargest(largest, roots[..i])
      invariant |out.bytes| <= |old(out.bytes)| + Room(roots[..i])
    {
      RoomGrows(roots, i);
      OneMoreSize(largest, roots, i);
      assert roots[..i + 1][..i] == roots[..i];
      if out.position > 0xFFFF {
        return false, [], [], 0;
      }
      ghost var before := out.bytes;
      var result := StreamOutResource(out, roots[i]);
      match result {
        case Stopped =>
          return false, [], [], 0;
        case Written(containsRuns, size, _) =>
          OneMoreResource(before, out.bytes, offsets, flags, roots, i, containsRuns);
          offsets, flags := offsets + [out.position], flags + [containsRuns];
          if largest < size {
            largest := size;
          }
      }
      i := i + 1;
    }
    assert roots[..|roots|] == roots;
    ok := true;
  }

  lemma NoSize(roots: seq<Node>)
    requires roots == []
    ensures IsLargest(0, roots)
  {
  }

  lemma OneMoreResource(before: seq<Byte>, after: seq<Byte>, offsets: seq<nat>, flags: seq<bool>, roots: seq<Node>, i: nat, hasRuns: bool)
    requires i < |roots| && ResourcesAt(before, offsets, flags, roots, i) && offsets[i] == |before|
    requires |before| <= |after| && after[..|before|] == before
    requires ReadsAs(after[|before|..], hasRuns, NodeImage(roots[i], 0, 0))
    ensures ResourcesAt(after, offsets + [|after|], flags + [hasRuns], roots, i + 1)
  {
    hide ReadsAs, NodeImage;
    var offsets', flags' := offsets + [|after|], flags + [hasRuns];
    forall k | 0 <= k < i + 1 ensures ResourceAt(after, offsets'[k], offsets'[k + 1], flags'[k], roots[k]) {
      if k < i {
        assert ResourceAt(before, offsets[k], offsets[k + 1], flags[k], roots[k]);
        SliceOfPrefix(after, |before|, offsets[k], offsets[k + 1]);
      } else {
        assert after[|before|..|after|] == after[|before|..];
      }
    }
  }

  lemma SliceOfPrefix(s: seq<Byte>, n: nat, from: nat, to: nat)
    requires from <= to <= n <= |s|
    ensures s[..n][from..to] == s[from..to]
  {
  }

  /** The most bytes that resources can take. */
  function Room(roots: seq<Node>): nat {
    if roots == [] then 0 else SizeOf(roots[0]) + 2 + Room(roots[1..])
  }

  lemma {:induction false} RoomGrows(roots: seq<Node>, i: nat)
    requires i < |roots|
    ensures Room(roots[..i + 1]) == Room(roots[..i]) + SizeOf(roots[i]) + 2
    ensures Room(roots[..i + 1]) <= Room(roots)
  {
    hide SizeOf;
    if i > 0 {
      RoomGrows(roots[1..], i - 1);
      assert roots[..i + 1][1..] == roots[1..][..i] && roots[..i][1..] == roots[1..][..i - 1];
    } else {
      assert roots[..1][1..] == [];
    }
  }

  /** Resources that fit their length prefixes and run lengths. */
  ghost predicate Modest(roots: seq<Node>) {
    forall i :: 0 <= i < |roots| ==> NodeFits(roots[i], 0, 0) && SizeOf(roots[i]) <= LONGEST_RUN
  }

  function Words(values: seq<nat>): (r: seq<Byte>)
    ensures |r| == 2 * |values|
  {
    if values == [] then [] else Words(values[..|values| - 1]) + LittleEndian(2, values[|values| - 1])
  }

  lemma {:induction false} WordsAt(values: seq<nat>, i: nat)
    requires i < |values| && forall k :: 0 <= k < |values| ==> values[k] < 0x1_0000
    ensures HalfAt(Words(values), 2 * i) == values[i]
  {
    var n := |values| - 1;
    HalfOf(values[n]);
    if i < n {
      WordsAt(values[..n], i);
      assert Words(values)[2 * i] == Words(values[..n])[2 * i] && Words(values)[2 * i + 1] == Words(values[..n])[2 * i + 1];
    }
  }

  /** The index: an offset for each resource and then its own, or nothing for a file of none. */
  method WriteIndex(out: RCBinaryStream, offsets: seq<nat>)
    requires out.Valid() && out.position == |out.bytes| && offsets != []
    modifies out
    ensures out.Valid() && out.position == |out.bytes|
    ensures out.bytes == old(out.bytes) + if |offsets| == 1 then [] else Words(offsets)
  {
    hide Words, LittleEndian;
    if |offsets| == 1 {
      assert out.bytes + [] == out.bytes;
      return;
    }
    var i := 0;
    assert out.bytes + [] == out.bytes;
    while i < |offsets|
      invariant i <= |offsets| && out.Valid() && out.position == |out.bytes|
      invariant out.bytes == old(out.bytes) + Words(offsets[..i])
    {
      NextWord(offsets, i);
      Associate(old(out.bytes), Words(offsets[..i]), LittleEndian(2, offsets[i]));
      out.Write(LittleEndian(2, offsets[i]));
      i := i + 1;
    }
    assert offsets[..|offsets|] == offsets;
  }

  lemma NextWord(values: seq<nat>, i: nat)
    requires i < |values|
    ensures Words(values[..i + 1]) == Words(values[..i]) + LittleEndian(2, values[i])
  {
    assert values[..i + 1][..i] == values[..i];
  }

  /** The flags octet, the size of the largest resource, and a bit for each resource. */
  ghost predicate HeaderReads(bytes: seq<Byte>, start: nat, flag: Byte, flags: seq<bool>, roots: seq<Node>) {
    && start + 3 + (|flags| + 7) / 8 <= |bytes|
    && bytes[start] == flag && IsLargest(HalfAt(bytes, start + 1), roots)
    && forall i :: 0 <= i < |flags| ==> BitAt(bytes[start + 3..start + 3 + (|flags| + 7) / 8], i) == flags[i]
  }

  /** The index is at the end and ends with its own offset; the offsets before it delimit the
      resources, from the end of the header on. */
  ghost predicate IndexReads(bytes: seq<Byte>, header: nat, flags: seq<bool>, roots: seq<Node>)
    requires |flags| == |roots|
  {
    roots != [] ==>
      && |bytes| >= 2
      && var index := HalfAt(bytes, |bytes| - 2);
      && index + 2 * |roots| + 2 == |bytes|
      && HalfAt(bytes, index) == header
      && forall i :: 0 <= i < |roots| ==>
           ResourceAt(bytes, HalfAt(bytes, index + 2 * i), HalfAt(bytes, index + 2 * i + 2), flags[i], roots[i])
  }

  /** A file that starts at `start` can be read: header, index and resources. */
  ghost predicate FileReads(bytes: seq<Byte>, start: nat, thirdUidIsOffset: bool, roots: seq<Node>) {
    exists flags: seq<bool> ::
      && |flags| == |roots|
      && HeaderReads(bytes, start, if thirdUidIsOffset then 1 else 0, flags, roots)
      && IndexReads(bytes, start + 3 + (|roots| + 7) / 8, flags, roots)
  }

  /** The bytes of a file before its header is overwritten: `head` is a place for the size and the
      bits, `data` the resources, and the index comes last. */
  lemma FileIsReadable(start: nat, prefix: seq<Byte>, flag: Byte, head: seq<Byte>, data: seq<Byte>,
                       largest: nat, offsets: seq<nat>, flags: seq<bool>, roots: seq<Node>)
    requires |prefix| == start && |head| == 2 + (|roots| + 7) / 8
    requires var bytes := prefix + [flag] + head + data;
             && ResourcesAt(bytes, offsets, flags, roots, |roots|)
             && offsets[0] == start + 1 + |head| && offsets[|roots|] == |bytes| <= 0xFFFF
             && (forall i :: 0 <= i < |roots| ==> offsets[i] <= 0xFFFF)
    requires IsLargest(largest, roots) && largest <= 0xFFFF && (flag == 0 || flag == 1)
    ensures FileReads(prefix + [flag] + (LittleEndian(2, largest) + BitArray(flags)) + data
                      + (if roots == [] then [] else Words(offsets)),
                      start, flag == 1, roots)
  {
    hide ReadsAs, NodeImage, BitArray, LittleEndian, Words, IsLargest, HeaderReads, IndexReads, ResourcesAt;
    OffsetsCount(prefix + [flag] + head + data, offsets, flags, roots);
    var words := if roots == [] then [] else Words(offsets);
    var front, head' := prefix + [flag], LittleEndian(2, largest) + BitArray(flags);
    HeaderIsReadable(prefix, flag, largest, flags, roots, data + words);
    Associate(front + head', data, words);
    IndexIsReadable(front, head, head', data, offsets, flags, roots);
    assert HeaderReads(front + head' + data + words, start, flag, flags, roots);
  }

  lemma HeaderIsReadable(prefix: seq<Byte>, flag: Byte, size: nat, flags: seq<bool>, roots: seq<Node>, back: seq<Byte>)
    requires size < 0x1_0000 && IsLargest(size, roots)
    ensures HeaderReads(prefix + [flag] + (LittleEndian(2, size) + BitArray(flags)) + back, |prefix|, flag, flags, roots)
  {
    hide BitArray, LittleEndian, BitAt, HalfAt, IsLargest;
    FileHeader(prefix, flag, size, BitArray(flags), back);
    forall i | 0 <= i < |flags| ensures BitAt(BitArray(flags), i) == flags[i] {
      BitArrayAt(flags, i);
    }
  }

  lemma IndexIsReadable(front: seq<Byte>, head: seq<Byte>, head': seq<Byte>, data: seq<Byte>,
                        offsets: seq<nat>, flags: seq<bool>, roots: seq<Node>)
    requires |head| == |head'|
    requires var bytes := front + head + data;
             && ResourcesAt(bytes, offsets, flags, roots, |roots|)
             && offsets[0] == |front| + |head| && offsets[|roots|] == |bytes| <= 0xFFFF
             && (forall i :: 0 <= i < |roots| ==> offsets[i] <= 0xFFFF)
    ensures IndexReads(front + head' + data + (if roots == [] then [] else Words(offsets)), |front| + |head|, flags, roots)
  {
    hide ReadsAs, NodeImage, Words, ResourceAt, HalfAt;
    if roots != [] {
      var words := Words(offsets);
      var file, index, n := front + head' + data + words, |front| + |head| + |data|, |roots|;
      IndexRead(front + head' + data, offsets);
      assert HalfAt(file, index + 2 * n) == index;
      assert HalfAt(file, index + 2 * 0) == |front| + |head|;
      forall i | 0 <= i < n
        ensures ResourceAt(file, HalfAt(file, index + 2 * i), HalfAt(file, index + 2 * i + 2), flags[i], roots[i])
      {
        assert HalfAt(file, index + 2 * (i + 1)) == offsets[i + 1];
        ResourceMoved(front, head, head', data, words, offsets, flags, roots, i);
      }
    }
  }

  lemma FileHeader(prefix: seq<Byte>, flag: Byte, size: nat, bits: seq<Byte>, back: seq<Byte>)
    requires size < 0x1_0000
    ensures var file, start := prefix + [flag] + (LittleEndian(2, size) + bits) + back, |prefix|;
            && |file| == start + 3 + |bits| + |back|
            && file[start] == flag && HalfAt(file, start + 1) == size && file[start + 3..start + 3 + |bits|] == bits
  {
    HalfOf(size);
  }

  /** The index after `front` is read back word by word. */
  lemma IndexRead(front: seq<Byte>, offsets: seq<nat>)
    requires forall k :: 0 <= k < |offsets| ==> offsets[k] < 0x1_0000
    ensures |front + Words(offsets)| == |front| + 2 * |offsets|
    ensures forall i :: 0 <= i < |offsets| ==> HalfAt(front + Words(offsets), |front| + 2 * i) == offsets[i]
  {
    hide Words;
    forall i | 0 <= i < |offsets| ensures HalfAt(front + Words(offsets), |front| + 2 * i) == offsets[i] {
      WordsAt(offsets, i);
    }
  }

  lemma ResourceMoved(front: seq<Byte>, head: seq<Byte>, head': seq<Byte>, data: seq<Byte>, words: seq<Byte>,
                      offsets: seq<nat>, flags: seq<bool>, roots: seq<Node>, i: nat)
    requires |head| == |head'| && i < |roots|
    requires ResourcesAt(front + head + data, offsets, flags, roots, |roots|) && offsets[0] == |front| + |head|
    ensures ResourceAt(front + head' + data + words, offsets[i], offsets[i + 1], flags[i], roots[i])
  {
    hide ReadsAs, NodeImage;
    OffsetsAscend(front + head + data, offsets, flags, roots, i);
    assert ResourceAt(front + head + data, offsets[i], offsets[i + 1], flags[i], roots[i]);
    SameData(front, head, head', data, words, offsets[i], offsets[i + 1]);
  }

  lemma SameData(front: seq<Byte>, head: seq<Byte>, head': seq<Byte>, data: seq<Byte>, words: seq<Byte>, from: nat, to: nat)
    requires |head| == |head'| && |front| + |head| <= from <= to <= |front| + |head| + |data|
    ensures (front + head' + data + words)[from..to] == (front + head + data)[from..to]
  {
  }

  lemma {:induction false} OffsetsAscend(bytes: seq<Byte>, offsets: seq<nat>, flags: seq<bool>, roots: seq<Node>, i: nat)
    requires ResourcesAt(bytes, offsets, flags, roots, |roots|) && i <= |roots|
    ensures offsets[0] <= offsets[i]
  {
    hide ReadsAs, NodeImage;
    if i > 0 {
      OffsetsAscend(bytes, offsets, flags, roots, i - 1);
      assert ResourceAt(bytes, offsets[i - 1], offsets[i], flags[i - 1], roots[i - 1]);
    }
  }

  /** Writes the whole file: places for the size and the bits, the resources and the index, and then
      the size and the bits themselves, over exactly the bytes that were kept for them. */
  method WriteResourceFile(out: RCBinaryStream, roots: seq<Node>, thirdUidIsOffset: bool) returns (ok: bool)
    requires out.Valid() && out.position == |out.bytes|
    modifies out
    ensures ok ==>
              && |old(out.bytes)| <= |out.bytes| && out.bytes[..|old(out.bytes)|] == old(out.bytes)
              && FileReads(out.bytes, |old(out.bytes)|, thirdUidIsOffset, roots)
    ensures Modest(roots) && |old(out.bytes)| + 3 + (|roots| + 7) / 8 + Room(roots) <= 0xFFFF ==> ok
  {
    hide ReadsAs, NodeImage, BitArray, LittleEndian, Words, IsLargest, ResourcesAt, FileReads, Room, Modest, Overwritten;
    ghost var prefix := out.bytes;
    var flag: Byte := if thirdUidIsOffset then 1 else 0;
    out.Write([flag]);
    var positionToOverwriteFrom := out.GetPosition();
    out.Write(LittleEndian(2, 0));
    var noFlags := seq(|roots|, _ => false);
    WriteBitArrayOfResourcesContainingCompressedUnicode(out, noFlags);
    ghost var head := LittleEndian(2, 0) + BitArray(noFlags);
    ghost var before := out.bytes;
    assert before == prefix + [flag] + head;
    var offsets: seq<nat>, flags: seq<bool>, largest: nat;
    ok, offsets, flags, largest := WriteBinaryResourceData(out, roots);
    if !ok {
      return;
    }
    ghost var data := out.bytes[|before|..];
    assert out.bytes == before + data;
    var indexPosition := out.GetPosition();
    if indexPosition > 0xFFFF {
      return false;
    }
    OffsetsCount(out.bytes, offsets, flags, roots);
    WriteIndex(out, offsets);
    LargestFits(largest, roots);
    if largest > 0xFFFF {
      return false;
    }
    ghost var words := if roots == [] then [] else Words(offsets);
    FileIsReadable(|prefix|, prefix, flag, head, data, largest, offsets, flags, roots);
    Associate(prefix + [flag] + head, data, words);
    Associate(prefix + [flag] + (LittleEndian(2, largest) + BitArray(flags)), data, words);
    OverwriteHeader(out, positionToOverwriteFrom, largest, flags, prefix + [flag], head, data + words);
    PrefixKept(prefix, [flag], LittleEndian(2, largest) + BitArray(flags), data + words);
    ok := true;
  }

  /** Goes back and writes the size and the bits over the bytes `head` that were kept for them. */
  method OverwriteHeader(out: RCBinaryStream, position: nat, largest: nat, flags: seq<bool>,
                         ghost front: seq<Byte>, ghost head: seq<Byte>, ghost back: seq<Byte>)
    requires out.Valid() && out.bytes == front + head + back
    requires position == |front| <= out.position && |head| == 2 + (|flags| + 7) / 8
    modifies out
    ensures out.Valid() && out.bytes == front + (LittleEndian(2, largest) + BitArray(flags)) + back
  {
    hide BitArray, LittleEndian, Overwritten;
    out.SetPosition(position);
    HeadReplaced(front, head, back, LittleEndian(2, largest), BitArray(flags));
    out.Write(LittleEndian(2, largest));
    WriteBitArrayOfResourcesContainingCompressedUnicode(out, flags);
  }

  lemma PrefixKept(prefix: seq<Byte>, a: seq<Byte>, b: seq<Byte>, c: seq<Byte>)
    ensures (prefix + a + b + c)[..|prefix|] == prefix
  {
  }

  /** Writing as many bytes as were kept replaces them and nothing else. */
  lemma HeadReplaced(front: seq<Byte>, head: seq<Byte>, back: seq<Byte>, a: seq<Byte>, b: seq<Byte>)
    requires |head| == |a| + |b|
    ensures Overwritten(Overwritten(front + head + back, |front|, a), |front| + |a|, b) == front + (a + b) + back
  {
    OverwrittenTwice(front + head + back, |front|, a, b);
  }

  lemma OffsetsCount(bytes: seq<Byte>, offsets: seq<nat>, flags: seq<bool>, roots: seq<Node>)
    requires ResourcesAt(bytes, offsets, flags, roots, |roots|)
    ensures |offsets| == |roots| + 1 && |flags| == |roots|
  {
  }

  lemma LargestFits(largest: nat, roots: seq<Node>)
    requires IsLargest(largest, roots)
    ensures Modest(roots) ==> largest <= LONGEST_RUN
  {
    hide NodeImage, NodeFits;
  }
}
