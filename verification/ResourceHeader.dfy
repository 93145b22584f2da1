/** Streaming a whole resource out: from its items to bytes that a reader expands to their image. */
module ResourceHeader {
  import opened Bytes
  import opened ScsuEncoder
  import opened UnicodeCompressor
  import opened ResourceImage
  import opened ResourceMarks
  import opened ResourceLayout
  import opened ResourceSettling
  import opened ResourceBuilding
  import opened ResourceScripts
  import opened ResourceGrowth
  import opened ResourceDataStream
  import opened ResourceItems
  import opened BinaryStream

  /** A stream that its caller may add items to: it is what the script makes, and no alignment point
      stands before the first byte. */
  ghost predicate Ready(stream: ResourceDataStream)
    reads stream, stream.buffer
  {
    stream.Valid() && stream.progress == Between && stream.Value() == StreamOf(stream.script) && Started(stream.Value())
  }

  lemma CompressedNotEmpty(units: seq<CodeUnit>)
    requires units != []
    ensures Compressed(units) != []
  {
    RoundTrip(units);
  }

  /** Wide text goes out compressed when that makes it shorter. */
  method StreamOutCompressingIfReducesSize(stream: ResourceDataStream, units: seq<CodeUnit>)
    requires Ready(stream)
    modifies stream, stream.buffer
    ensures Ready(stream) && (stream.buffer == old(stream.buffer) || fresh(stream.buffer))
    ensures stream.script == old(stream.script) + TextScript(units) && stream.Nesting() == old(stream.Nesting())
    ensures PutsIn(stream.script[|old(stream.script)|..], units)
  {
    hide PutsIn, Compressed, Octets, Growing, Depth, Script, HasRuns, UnitBytes, D.Decompress, StreamOf;
    TextPutIn(units);
    var uncompressedSize := 2 * |units|;
    var compressedBuffer := new Byte[uncompressedSize];
    var compressedSize := CompressUnicode(compressedBuffer, uncompressedSize, units);
    if compressedSize < uncompressedSize {
      CompressedNotEmpty(units);
      stream.StartOfCompressedUnicodeRun(UnitBytes(units));
      stream.StreamIn(compressedBuffer[..compressedSize]);
      assert stream.progress.compressed == Compressed(units);
      stream.EndOfCompressedUnicodeRun();
      StreamOfNext(old(stream.script), Run(Compressed(units), UnitBytes(units)));
      assert |stream.Value().buffer| > 0;
    } else if uncompressedSize > 0 {
      stream.TwoByteAlignmentPoint();
      stream.StreamIn(UnitBytes(units));
      StreamOfNext(old(stream.script), Align);
      StreamOfOctets(old(stream.script) + [Align], UnitBytes(units));
      assert |stream.Value().buffer| > 0;
      Associate(old(stream.script), [Align], Octets(UnitBytes(units)));
    } else {
      assert old(stream.script) + [] == old(stream.script);
    }
  }

  /** Streams out one item. */
  method StreamOutNode(stream: ResourceDataStream, node: Node, level: nat)
    requires Ready(stream) && stream.Nesting() >= 0
    modifies stream, stream.buffer
    ensures Ready(stream) && (stream.buffer == old(stream.buffer) || fresh(stream.buffer))
    ensures stream.script == old(stream.script) + NodeScript(node, level) && stream.Nesting() == old(stream.Nesting())
    decreases node, 1
  {
    hide Octets, Growing, Depth, Script, HasRuns, TextScript, NodesScript, StreamOf;
    match node {
      case Data(octets) =>
        stream.StreamIn(octets);
        StreamOfOctets(old(stream.script), octets);
        assert |stream.Value().buffer| >= |old(stream.Value()).buffer|;
      case Text(units) =>
        StreamOutCompressingIfReducesSize(stream, units);
      case Structure(prefix, items) =>
        StreamOutStructure(stream, prefix, items, level);
    }
  }

  /** Streams out the items of a structure, behind a length prefix when it is not the outermost one. */
  method StreamOutStructure(stream: ResourceDataStream, prefix: Option<Width>, items: seq<Node>, level: nat)
    requires Ready(stream) && stream.Nesting() >= 0
    modifies stream, stream.buffer
    ensures Ready(stream) && (stream.buffer == old(stream.buffer) || fresh(stream.buffer))
    ensures stream.script == old(stream.script) + NodeScript(Structure(prefix, items), level)
    ensures stream.Nesting() == old(stream.Nesting())
    decreases items, 1
  {
    hide Octets, Growing, Depth, Script, HasRuns, NodesScript, StreamOf;
    if items == [] {
      NoItems(level + 1);
      assert old(stream.script) + [] == old(stream.script);
      return;
    }
    var outputSize := prefix.Some? && level > 0;
    if outputSize {
      stream.StartOfBlockWithSizePrefix(prefix.value);
      StreamOfNext(old(stream.script), Open(prefix.value));
    }
    StreamOutNodes(stream, items, level + 1);
    if outputSize {
      StreamOfNext(stream.script, Close);
      stream.EndOfBlockWithSizePrefix();
      assert stream.script == old(stream.script) + ([Open(prefix.value)] + NodesScript(items, level + 1) + [Close]);
    }
  }

  method StreamOutNodes(stream: ResourceDataStream, items: seq<Node>, level: nat)
    requires Ready(stream) && stream.Nesting() >= 0
    modifies stream, stream.buffer
    ensures Ready(stream) && (stream.buffer == old(stream.buffer) || fresh(stream.buffer))
    ensures stream.script == old(stream.script) + NodesScript(items, level) && stream.Nesting() == old(stream.Nesting())
    decreases items, 0
  {
    hide Octets, Growing, Depth, Script, HasRuns, NodeScript, StreamOf;
    if items == [] {
      assert old(stream.script) + [] == old(stream.script);
    } else {
      StreamOutNode(stream, items[0], level);
      StreamOutNodes(stream, items[1..], level);
      Associate(old(stream.script), NodeScript(items[0], level), NodesScript(items[1..], level));
    }
  }

  lemma NoItems(level: nat)
    ensures NodesScript([], level) == []
  {
  }

  // Every compressed run that an item streams out expands to its text

  ghost predicate ScriptUnpacks(script: seq<Item>) {
    forall i :: 0 <= i < |script| && script[i].Run? ==> Expand(script[i].compressed) == Some(script[i].text)
  }

  lemma {:induction false} NodeUnpacks(node: Node, level: nat)
    ensures ScriptUnpacks(NodeScript(node, level))
    decreases node, 1
  {
    hide Octets, Compressed, UnitBytes;
    match node {
      case Data(octets) => OnlyOctets(octets);
      case Text(units) => RoundTrip(units); OnlyOctets(UnitBytes(units));
      case Structure(prefix, items) => NodesUnpack(items, level + 1);
    }
  }

  lemma {:induction false} NodesUnpack(items: seq<Node>, level: nat)
    ensures ScriptUnpacks(NodesScript(items, level))
    decreases items, 0
  {
    hide Expand;
    if items != [] {
      NodeUnpacks(items[0], level);
      NodesUnpack(items[1..], level);
    }
  }

  lemma {:induction false} RunIsItem(d: Doc, i: nat, from: nat) returns (k: nat)
    requires Sorted(d) && from <= i < |d.marks| && d.marks[i].kind.StartOfRun?
    ensures k < |ItemsFrom(d, from)| && ItemsFrom(d, from)[k] == Run(Gap(d, i), d.marks[i].kind.text)
    decreases i - from
  {
    hide Gap, Octets, Sorted, MarkItems, ItemsFrom;
    ItemsStep(d, from);
    if from == i {
      RunItemFirst(d, i);
      k := 0;
    } else {
      k := RunIsItem(d, i, from + 1);
      k := k + |MarkItems(d, from)|;
    }
  }

  lemma RunItemFirst(d: Doc, i: nat)
    requires Sorted(d) && i < |d.marks| && d.marks[i].kind.StartOfRun?
    ensures MarkItems(d, i) != [] && MarkItems(d, i)[0] == Run(Gap(d, i), d.marks[i].kind.text)
  {
    hide Gap, Octets, Sorted;
  }

  lemma EmptyExpands()
    ensures Expand([]) == Some([])
  {
  }

  lemma UnpacksFromScript(d: Doc)
    requires Sorted(d) && ScriptUnpacks(Script(d))
    ensures Unpacks(d)
  {
    hide Gap, Octets, Sorted, Expand, ItemsFrom;
    EmptyExpands();
    forall i | 0 <= i < |d.marks| && d.marks[i].kind.StartOfRun?
      ensures Expand(Gap(d, i)) == Some(d.marks[i].kind.text)
    {
      var k := RunIsItem(d, i, 0);
      k := k + |Octets(Gap(d, -1))|;
      assert Items(d)[k] == Run(Gap(d, i), d.marks[i].kind.text);
      if Script(d) != Items(d) && k > 0 {
        assert Script(d)[k - 1] == Items(d)[k];
      }
    }
  }

  // What an item streams out makes a stream that can be written

  lemma TextBuilt(script: seq<Item>, units: seq<CodeUnit>, depth: int)
    requires Built(script, depth)
    ensures Built(script + TextScript(units), depth)
  {
    hide Built, Compressed, Octets;
    if |Compressed(units)| < 2 * |units| {
      CompressedNotEmpty(units);
      RunBuilt(script, Compressed(units), UnitBytes(units), depth);
    } else if units == [] {
      assert script + [] == script;
    } else {
      AlignedBuilt(script, UnitBytes(units), depth);
    }
  }

  lemma {:induction false} NodeBuilt(script: seq<Item>, node: Node, level: nat, depth: int)
    requires Built(script, depth)
    ensures Built(script + NodeScript(node, level), depth)
    decreases node, 1
  {
    hide Built, TextScript, Octets, StreamOf;
    match node {
      case Data(octets) => OctetsBuilt(script, octets, depth);
      case Text(units) => TextBuilt(script, units, depth);
      case Structure(prefix, items) =>
        if prefix.None? || level == 0 || items == [] {
          NodesBuilt(script, items, level + 1, depth);
        } else {
          var body := NodesScript(items, level + 1);
          MarkBuilt(script, StartOfBlock(prefix.value), Open(prefix.value), depth);
          NodesBuilt(script + [Open(prefix.value)], items, level + 1, depth + 1);
          NotNegative(script, depth);
          MarkBuilt(script + [Open(prefix.value)] + body, EndOfBlock, Close, depth + 1);
          assert script + [Open(prefix.value)] + body + [Close] == script + ([Open(prefix.value)] + body + [Close]);
        }
    }
  }

  lemma NotNegative(script: seq<Item>, depth: int)
    requires Built(script, depth)
    ensures depth >= 0
  {
  }

  lemma {:induction false} NodesBuilt(script: seq<Item>, items: seq<Node>, level: nat, depth: int)
    requires Built(script, depth)
    ensures Built(script + NodesScript(items, level), depth)
    decreases items, 0
  {
    hide Built;
    if items == [] {
      assert script + [] == script;
    } else {
      NodeBuilt(script, items[0], level, depth);
      NodesBuilt(script + NodeScript(items[0], level), items[1..], level, depth);
      Associate(script, NodeScript(items[0], level), NodesScript(items[1..], level));
    }
  }

  /** The stream of a resource. */
  ghost function StreamFor(root: Node): (d: Doc)
    ensures ResourceMarks.Valid(d) && Script(d) == NodeScript(root, 0)
  {
    ResourceBuilt(root);
    BuiltIsValid(NodeScript(root, 0));
    StreamOf(NodeScript(root, 0))
  }

  lemma ResourceBuilt(root: Node)
    ensures Built(NodeScript(root, 0), 0)
  {
    NothingBuilt();
    NodeBuilt([], root, 0, 0);
    assert [] + NodeScript(root, 0) == NodeScript(root, 0);
  }

  /** How much longer than its image a resource that is not refused is written, in terms of its items:
      at most by two bytes; at all exactly if the first of the runs that are left loses more than the
      later ones save; and not at all if its script has no runs, or if it begins with a run that is
      the only one or pays for itself. */
  lemma ItemsGrowth(root: Node)
    requires Settle(StreamFor(root)).Settled?
    ensures Growth(StreamFor(root)) <= 2
    ensures var s := Settle(StreamFor(root)).doc;
            && ResourceMarks.Valid(s)
            && (Growth(StreamFor(root)) > 0 <==>
                  && HasRuns(s)
                  && var first := NextRun(s.marks, 0);
                  first + 1 < |s.marks| && Loss(s, first) > -Balance(s, NextRun(s.marks, first + 2)))
    ensures Harmless(NodeScript(root, 0)) ==> Growth(StreamFor(root)) <= 0
  {
    hide Built, StreamOf, Settle, NodeScript, Harmless, Growth;
    ResourceBuilt(root);
    GrowsExactlyIf(StreamFor(root));
    if Harmless(NodeScript(root, 0)) {
      HarmlessNeverGrows(NodeScript(root, 0));
    }
  }

  lemma {:induction false} NodesScriptConcat(a: seq<Node>, b: seq<Node>, level: nat)
    ensures NodesScript(a + b, level) == NodesScript(a, level) + NodesScript(b, level)
  {
    hide NodeScript;
    if a == [] {
      assert a + b == b;
    } else {
      NodesScriptConcat(a[1..], b, level);
      assert (a + b)[1..] == a[1..] + b;
      Associate(NodeScript(a[0], level), NodesScript(a[1..], level), NodesScript(b, level));
    }
  }

  lemma ImageEnd(script: seq<Item>, image: seq<Cell>, fits: bool)
    requires Denotes(script, 0, image, fits)
    ensures End(script, 0) == |image|
  {
    hide End, Cells, CloseAt, Fits;
    assert DenotesBefore(script, [], 0, image, fits) && script + [] == script;
    NothingEnds(|image|);
  }

  lemma NothingEnds(pos: nat)
    ensures End([], pos) == pos
  {
  }

  /** The only text of a resource that goes out compressed, behind other items, makes the resource
      longer exactly if the image that it gives is more than the run costs, but not by the run lengths
      that have to go before it. */
  lemma OnlyTextGrowsExactlyIf(root: Node, before: seq<Node>, units: seq<CodeUnit>, after: seq<Node>)
    requires root == Structure(None, before + [Text(units)] + after) && |Compressed(units)| < 2 * |units|
    requires !AnyRun(NodesScript(before, 1)) && Behind(NodesScript(before, 1)) && !AnyRun(NodesScript(after, 1))
    requires Settle(StreamFor(root)).Settled?
    ensures var start := |NodesImage(before, 0, 1)|;
            var worth := start % 2 + 2 * |units|;
            var rest := |NodeImage(root, 0, 0)| - (start + worth);
            && rest >= 0
            && var cost := CostOf(|Compressed(units)|, rest);
            Growth(StreamFor(root)) > 0 <==> cost < worth < cost + 1 + SizeOfCompressedInteger(start)
  {
    hide Built, StreamOf, Settle, Growth, Compressed, UnitBytes, Denotes, AnyRun, Behind, NodesImage, NodeImage, End,
         NodesScript, NodeScript, NodeFits, NodesFit, CostOf;
    var script := NodesScript(before, 1);
    OnlyTextScript(root, before, units, after);
    NothingBuilt();
    NodesBuilt([], before, 1, 0);
    assert [] + script == script;
    ResourceBuilt(root);
    NodesDenote(before, 0, 1);
    ImageEnd(script, NodesImage(before, 0, 1), NodesFit(before, 0, 1));
    NodeDenotes(root, 0, 0);
    ImageEnd(NodeScript(root, 0), NodeImage(root, 0, 0), NodeFits(root, 0, 0));
    OnlyRunGrowsExactlyIf(script, Compressed(units), UnitBytes(units), NodesScript(after, 1), 0);
  }

  lemma OnlyTextScript(root: Node, before: seq<Node>, units: seq<CodeUnit>, after: seq<Node>)
    requires root == Structure(None, before + [Text(units)] + after) && |Compressed(units)| < 2 * |units|
    ensures NodeScript(root, 0) ==
            NodesScript(before, 1) + [Run(Compressed(units), UnitBytes(units))] + NodesScript(after, 1)
  {
    hide Compressed, UnitBytes, NodesScript, NodeScript, TextScript;
    StructureScript(before + [Text(units)] + after);
    NodesScriptConcat(before + [Text(units)], after, 1);
    NodesScriptConcat(before, [Text(units)], 1);
    OneText(units);
  }

  lemma StructureScript(items: seq<Node>)
    ensures NodeScript(Structure(None, items), 0) == NodesScript(items, 1)
  {
    hide NodesScript;
  }

  lemma OneText(units: seq<CodeUnit>)
    requires |Compressed(units)| < 2 * |units|
    ensures NodesScript([Text(units)], 1) == [Run(Compressed(units), UnitBytes(units))]
  {
    hide Compressed, UnitBytes;
    assert [Text(units)][1..] == [];
  }

  // The longest

  /** 128 octets and the text "AB". */
  function LongerResource(): Node {
    Structure(None, [Data(seq(128, _ => 0)), Text([0x41, 0x42])])
  }

  /** This resource is written two bytes longer than its image. */
  lemma LongerResourceGrows()
    ensures Settle(StreamFor(LongerResource())).Settled? && Growth(StreamFor(LongerResource())) == 2
  {
    hide Growth, Emission, Settle, Compressed;
    var text: seq<CodeUnit>, zeros: seq<Byte> := [0x41, 0x42], seq(128, _ => 0);
    AsciiBytes(text);
    assert Compressed(text) == [0x41, 0x42];
    assert UnitBytes(text) == [0x41, 0, 0x42, 0] by {
      assert UnitBytes(text[1..]) == [0x42, 0] + UnitBytes(text[1..][1..]);
    }
    var items := [Data(zeros), Text(text)];
    assert NodesScript(items[1..][1..], 1) == [];
    assert NodesScript(items[1..], 1) == TextScript(text) + [];
    assert NodesScript(items, 1) == Octets(zeros) + (TextScript(text) + []);
    assert NodeScript(LongerResource(), 0) == LongerScript();
    LongerIsMade();
    GrowthReached();
    GrowthOfSettled(Longer());
  }

  lemma GrowthOfSettled(d: Doc)
    requires ResourceMarks.Valid(d) && Settle(d) == Settled(d)
    ensures Growth(d) == |Emission(d)| - Size(d)
  {
  }

  /** A reader of `data` finds the image, whatever octet it pads with. */
  ghost predicate ReadsAs(data: seq<Byte>, hasRuns: bool, image: seq<Cell>) {
    forall padding: Byte ::
      ReadResource(data, hasRuns, padding).Some? && Matches(ReadResource(data, hasRuns, padding).value, image)
  }

  /** What a stream with an item's script is settled to. */
  lemma ResourceSettled(d: Doc, root: Node)
    requires ResourceMarks.Valid(d) && Script(d) == NodeScript(root, 0)
    ensures var image := NodeImage(root, 0, 0);
            && (!NodeFits(root, 0, 0) ==> Settle(d).Refused?)
            && (NodeFits(root, 0, 0) && |image| <= LONGEST_RUN ==> Settle(d).Settled?)
            && (Settle(d).Settled? ==>
                  var s := Settle(d).doc;
                  && Sorted(s) && Size(s) == |image|
                  && ReadsAs(Emission(s), HasRuns(s), image)
                  && |Emission(s)| <= |image| + if HasRuns(s) then 2 else 0)
  {
    hide Cells, Fits, CloseAt, End, Items, Script, NodeScript, NodeImage, NodeFits, Emission, Pos, HasRuns, Image,
         ReadResource, Matches, Unpacks, Settle, Sorted, RunsOk, RunsLead;
    NodeDenotes(root, 0, 0);
    NodeUnpacks(root, 0);
    UnpacksFromScript(d);
    ScriptImage(d);
    assert DenotesBefore(NodeScript(root, 0), [], 0, NodeImage(root, 0, 0), NodeFits(root, 0, 0));
    assert NodeScript(root, 0) + [] == NodeScript(root, 0);
    NothingDenoted(|NodeImage(root, 0, 0)|);
    assert NodeImage(root, 0, 0) + [] == NodeImage(root, 0, 0);
    ImageSize(d);
    RefusedForPrefix(d);
    if Size(d) <= LONGEST_RUN {
      SmallIsSettled(d);
    }
    if Settle(d).Settled? {
      SettledStream(d);
      GrowthBound(Settle(d).doc);
      forall padding: Byte
        ensures var s := Settle(d).doc;
                && ReadResource(Emission(s), HasRuns(s), padding).Some?
                && Matches(ReadResource(Emission(s), HasRuns(s), padding).value, Image(d))
      {
        SettledReadBack(d, padding);
      }
    }
  }

  lemma NothingDenoted(pos: nat)
    ensures Cells([], pos) == [] && Fits([], pos)
  {
  }

  lemma RefusedForPrefix(d: Doc)
    requires ResourceMarks.Valid(d)
    ensures !Fits(Items(d), 0) ==> Settle(d).Refused?
  {
    hide Fits, Items;
    PrefixesFitScript(d);
  }

  /** Streams a resource out. When it is not refused, the bytes that are added to the file expand to
      the image that the items have by their structure, and they are as many more as its growth says, at
      most two. A resource is refused when a structure does not fit its length prefix; one of up to 32767 bytes
      for no other reason. */
  method StreamOutResource(out: RCBinaryStream, root: Node) returns (result: Result)
    requires out.Valid() && out.position == |out.bytes|
    modifies out
    ensures result.Written? <==> Settle(StreamFor(root)).Settled?
    ensures result.Written? ==> |out.bytes| - |old(out.bytes)| == result.size + Growth(StreamFor(root))
    ensures !NodeFits(root, 0, 0) ==> result.Stopped?
    ensures NodeFits(root, 0, 0) && |NodeImage(root, 0, 0)| <= LONGEST_RUN ==> result.Written?
    ensures result.Written? ==>
              && out.Valid() && out.position == |out.bytes| && |old(out.bytes)| <= |out.bytes|
              && out.bytes[..|old(out.bytes)|] == old(out.bytes)
              && result.size == |NodeImage(root, 0, 0)|
              && ReadsAs(out.bytes[|old(out.bytes)|..], result.containsRuns, NodeImage(root, 0, 0))
              && |out.bytes| - |old(out.bytes)| <= result.size + if result.containsRuns then 2 else 0
  {
    hide Octets, Growing, Script, HasRuns, NodeScript, NodeImage, NodeFits, ReadsAs, Emission, EnquiriesTo, Settle, StreamOf;
    var stream := new ResourceDataStream();
    StreamOfNothing();
    StreamOutNode(stream, root, 0);
    assert [] + NodeScript(root, 0) == NodeScript(root, 0);
    GrownIsValid(stream.Value());
    ghost var d := stream.Value();
    ResourceSettled(d, root);
    SettledSize(d);
    result := stream.StreamOutReturningWhetherContainsCompressedUnicode(out);
  }

  lemma SettledSize(d: Doc)
    requires ResourceMarks.Valid(d)
    ensures Settle(d).Settled? ==> Sorted(Settle(d).doc) && Size(Settle(d).doc) == Size(d)
  {
    if Settle(d).Settled? {
      SettledStream(d);
    }
  }

  lemma GrownIsValid(d: Doc)
    requires Growing(d) && Depth(d.marks, |d.marks|) == 0
    ensures ResourceMarks.Valid(d)
  {
  }
}
