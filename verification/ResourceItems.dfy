/** The items of a resource, as the compiler streams them out, and the image they stand for. */
module ResourceItems {
  import opened Bytes
  import opened ScsuEncoder
  import D = ScsuDecoder
  import opened ResourceImage
  import opened ResourceMarks
  import opened ResourceLayout

  /** What one item streams out: octets of numbers, counts and narrow text; wide text; or the items
      of a structure, which may have a length prefix. */
  datatype Node =
    | Data(octets: seq<Byte>)
    | Text(units: seq<CodeUnit>)
    | Structure(prefix: Option<Width>, items: seq<Node>)

  // The image, by structure

  /** Two octets for every unit, the low one first. */
  function TextCells(units: seq<CodeUnit>): (r: seq<Cell>)
    ensures |r| == 2 * |units|
  {
    seq(2 * |units|, k requires 0 <= k < 2 * |units| =>
      if k % 2 == 0 then Fixed(units[k / 2] % 0x100) else Fixed(units[k / 2] / 0x100))
  }

  /** Text stands at an even position. */
  function TextImage(units: seq<CodeUnit>, pos: nat): seq<Cell> {
    if units == [] then []
    else (if pos % 2 == 1 then [Padding] else []) + TextCells(units)
  }

  /** The uncompressed image of an item: a length prefix is the size of what it precedes. Neither the
      outermost structure nor an empty one has a prefix. */
  function NodeImage(node: Node, pos: nat, level: nat): (r: seq<Cell>)
    decreases node, 1
  {
    match node
    case Data(octets) => FixedCells(octets)
    case Text(units) => TextImage(units, pos)
    case Structure(prefix, items) =>
      if prefix.None? || level == 0 || items == [] then NodesImage(items, pos, level + 1)
      else
        var body := NodesImage(items, pos + prefix.value, level + 1);
        FixedCells(LittleEndian(prefix.value, |body|)) + body
  }

  function NodesImage(items: seq<Node>, pos: nat, level: nat): seq<Cell>
    decreases items, 0
  {
    if items == [] then []
    else
      var first := NodeImage(items[0], pos, level);
      first + NodesImage(items[1..], pos + |first|, level)
  }

  /** Every structure fits its length prefix. */
  predicate NodeFits(node: Node, pos: nat, level: nat)
    decreases node, 1
  {
    node.Structure? ==>
      if node.prefix.None? || level == 0 || node.items == [] then NodesFit(node.items, pos, level + 1)
      else
        && |NodesImage(node.items, pos + node.prefix.value, level + 1)| < Capacity(node.prefix.value)
        && NodesFit(node.items, pos + node.prefix.value, level + 1)
  }

  predicate NodesFit(items: seq<Node>, pos: nat, level: nat)
    decreases items, 0
  {
    items != [] ==>
      && NodeFits(items[0], pos, level)
      && NodesFit(items[1..], pos + |NodeImage(items[0], pos, level)|, level)
  }

  // The script

  /** Text goes out compressed when that is shorter, and else behind an alignment point. */
  function TextScript(units: seq<CodeUnit>): seq<Item> {
    if |Compressed(units)| < 2 * |units| then [Run(Compressed(units), UnitBytes(units))]
    else if units == [] then []
    else [Align] + Octets(UnitBytes(units))
  }

  function NodeScript(node: Node, level: nat): seq<Item>
    decreases node, 1
  {
    match node
    case Data(octets) => Octets(octets)
    case Text(units) => TextScript(units)
    case Structure(prefix, items) =>
      var body := NodesScript(items, level + 1);
      if prefix.None? || level == 0 || items == [] then body else [Open(prefix.value)] + body + [Close]
  }

  function NodesScript(items: seq<Node>, level: nat): seq<Item>
    decreases items, 0
  {
    if items == [] then [] else NodeScript(items[0], level) + NodesScript(items[1..], level)
  }

  /** Before `rest`, a script denotes a part of an image. */
  ghost predicate DenotesBefore(script: seq<Item>, rest: seq<Item>, pos: nat, image: seq<Cell>, fits: bool) {
    && End(script + rest, pos) == End(rest, pos + |image|)
    && (forall depth: nat :: CloseAt(script + rest, pos, depth) == CloseAt(rest, pos + |image|, depth))
    && Cells(script + rest, pos) == image + Cells(rest, pos + |image|)
    && (Fits(script + rest, pos) <==> fits && Fits(rest, pos + |image|))
  }

  /** Whatever follows, a script denotes a part of an image. */
  ghost predicate Denotes(script: seq<Item>, pos: nat, image: seq<Cell>, fits: bool) {
    forall rest: seq<Item> :: DenotesBefore(script, rest, pos, image, fits)
  }

  lemma DenotesConcat(a: seq<Item>, pos: nat, x: seq<Cell>, f: bool, b: seq<Item>, y: seq<Cell>, g: bool)
    requires Denotes(a, pos, x, f) && Denotes(b, pos + |x|, y, g)
    ensures Denotes(a + b, pos, x + y, f && g)
  {
    hide End, CloseAt, Cells, Fits;
    var script, cells, fits := a + b, x + y, f && g;
    forall rest: seq<Item> ensures DenotesBefore(script, rest, pos, cells, fits) {
      Associate(a, b, rest);
      Associate(x, y, Cells(rest, pos + |x + y|));
      assert DenotesBefore(a, b + rest, pos, x, f);
      assert DenotesBefore(b, rest, pos + |x|, y, g);
    }
  }

  lemma OctetsDenote(data: seq<Byte>, pos: nat)
    ensures Denotes(Octets(data), pos, FixedCells(data), true)
  {
    hide End, CloseAt, Cells, Fits, Octets, FixedCells;
    forall rest: seq<Item> ensures DenotesBefore(Octets(data), rest, pos, FixedCells(data), true) {
      EndAfterOctets(data, rest, pos);
      forall depth: nat ensures CloseAt(Octets(data) + rest, pos, depth) == CloseAt(rest, pos + |data|, depth) {
        CloseAfterOctets(data, rest, pos, depth);
      }
      CellsAfterOctets(data, rest, pos);
      FitsAfterOctets(data, rest, pos);
    }
  }

  /** An item that neither opens nor closes a block. */
  lemma ItemDenotes(item: Item, pos: nat)
    requires !item.Open? && !item.Close?
    ensures Denotes([item], pos, ItemCells(item, pos, []), true)
  {
    hide End, CloseAt, Cells, Fits, FixedCells;
    forall rest: seq<Item> ensures DenotesBefore([item], rest, pos, ItemCells(item, pos, []), true) {
      ConsImage(item, rest, pos, 0);
      forall depth: nat ensures CloseAt([item] + rest, pos, depth) == CloseAt(rest, After(item, pos), depth) {
        ConsImage(item, rest, pos, depth);
      }
    }
  }

  lemma TextBytesAre(units: seq<CodeUnit>)
    ensures FixedCells(UnitBytes(units)) == TextCells(units)
  {
    hide UnitBytes;
    forall k | 0 <= k < 2 * |units| ensures FixedCells(UnitBytes(units))[k] == TextCells(units)[k] {
      UnitBytesAt(units, k / 2);
    }
  }

  /** What is put in for a text: a run that is shorter than the text and gives it back, or an alignment
      point and the octets of its units, the low one first. */
  ghost predicate PutsIn(added: seq<Item>, units: seq<CodeUnit>) {
    if units == [] then added == []
    else if |Compressed(units)| < 2 * |units| then
      && |added| == 1 && added[0].Run?
      && |added[0].compressed| < 2 * |units| == |added[0].text| && D.Decompress(added[0].compressed) == Some(units)
      && forall i :: 0 <= i < |units| ==>
           added[0].text[2 * i] == units[i] % 0x100 && added[0].text[2 * i + 1] == units[i] / 0x100
    else
      && |added| == 1 + 2 * |units| && added[0] == Align
      && forall i :: 0 <= i < |units| ==>
           added[1 + 2 * i] == Octet(units[i] % 0x100) && added[2 + 2 * i] == Octet(units[i] / 0x100)
  }

  lemma TextPutIn(units: seq<CodeUnit>)
    ensures PutsIn(TextScript(units), units)
  {
    hide Compressed, D.Decompress, Octets, UnitBytes;
    RoundTrip(units);
    var text := UnitBytes(units);
    forall i | 0 <= i < |units|
      ensures text[2 * i] == units[i] % 0x100 && text[2 * i + 1] == units[i] / 0x100
    {
      UnitBytesAt(units, i);
    }
    forall i | 0 <= i < 2 * |units| ensures Octets(text)[i] == Octet(text[i]) {
      OctetAt(text, i);
    }
  }

  lemma {:induction false} OctetAt(data: seq<Byte>, i: nat)
    requires i < |data|
    ensures Octets(data)[i] == Octet(data[i])
  {
    if i > 0 {
      OctetAt(data[1..], i - 1);
    }
  }

  /** Octets that agree with an image hold every text of it, unit by unit. */
  lemma TextIsRead(data: seq<Byte>, before: seq<Cell>, units: seq<CodeUnit>, after: seq<Cell>, i: nat)
    requires Matches(data, before + TextImage(units, |before|) + after) && i < |units|
    ensures var at := |before| + |before| % 2 + 2 * i; at + 1 < |data| && data[at] as int + 0x100 * data[at + 1] as int == units[i]
  {
    var at, image := |before| + |before| % 2 + 2 * i, before + TextImage(units, |before|) + after;
    assert image[at] == TextCells(units)[2 * i] && image[at + 1] == TextCells(units)[2 * i + 1];
  }

  lemma TextDenotes(units: seq<CodeUnit>, pos: nat)
    ensures Denotes(TextScript(units), pos, TextImage(units, pos), true)
  {
    hide Denotes, Compressed, FixedCells, Octets, TextCells;
    TextBytesAre(units);
    if |Compressed(units)| < 2 * |units| {
      ItemDenotes(Run(Compressed(units), UnitBytes(units)), pos);
    } else if units == [] {
      OctetsDenote([], pos);
      NoOctets();
    } else {
      ItemDenotes(Align, pos);
      OctetsDenote(UnitBytes(units), pos + pos % 2);
      DenotesConcat([Align], pos, Pad(pos), true, Octets(UnitBytes(units)), FixedCells(UnitBytes(units)), true);
    }
  }

  /** A block around a body, seen from any depth. */
  lemma BlockClose(width: Width, body: seq<Item>, rest: seq<Item>, pos: nat, image: seq<Cell>, fits: bool, depth: nat)
    requires DenotesBefore(body, [Close] + rest, pos + width, image, fits)
    ensures var block, end := [Open(width)] + (body + ([Close] + rest)), pos + width + |image|;
            && CloseAt(block, pos, depth) == CloseAt(rest, end, depth)
            && CloseAt(body + ([Close] + rest), pos + width, 0) == end
  {
    hide CloseAt, Cells, End, Fits;
    var tail, end := [Close] + rest, pos + width + |image|;
    ConsImage(Open(width), body + tail, pos, depth);
    ConsImage(Close, rest, end, depth + 1);
    ConsImage(Close, rest, end, 0);
  }

  lemma BlockImage(width: Width, body: seq<Item>, rest: seq<Item>, pos: nat, image: seq<Cell>, fits: bool)
    requires DenotesBefore(body, [Close] + rest, pos + width, image, fits)
    ensures var block, end := [Open(width)] + (body + ([Close] + rest)), pos + width + |image|;
            && End(block, pos) == End(rest, end)
            && Cells(block, pos) == FixedCells(LittleEndian(width, |image|)) + (image + Cells(rest, end))
            && (Fits(block, pos) <==> fits && |image| < Capacity(width) && Fits(rest, end))
  {
    hide CloseAt, Cells, End, Fits, FixedCells, LittleEndian, Capacity, DenotesBefore, ItemCells, After;
    var tail, end := [Close] + rest, pos + width + |image|;
    BlockClose(width, body, rest, pos, image, fits, 0);
    Whole(body, tail, pos + width, image, fits);
    ConsImage(Open(width), body + tail, pos, 0);
    OpenCells(width, body + tail, pos, |image|);
    ConsImage(Close, rest, end, 0);
    CloseCells(rest, end);
    BlockCells(image, Cells(rest, end));
  }

  /** What a script denotes, apart from where blocks close. */
  lemma Whole(script: seq<Item>, rest: seq<Item>, pos: nat, image: seq<Cell>, fits: bool)
    requires DenotesBefore(script, rest, pos, image, fits)
    ensures End(script + rest, pos) == End(rest, pos + |image|)
    ensures Cells(script + rest, pos) == image + Cells(rest, pos + |image|)
    ensures Fits(script + rest, pos) <==> fits && Fits(rest, pos + |image|)
  {
    hide CloseAt, Cells, End, Fits;
  }

  lemma OpenCells(width: Width, rest: seq<Item>, pos: nat, size: nat)
    ensures After(Open(width), pos) == pos + width
    ensures CloseAt(rest, pos + width, 0) == pos + width + size ==>
              ItemCells(Open(width), pos, rest) == FixedCells(LittleEndian(width, size))
  {
    hide CloseAt, FixedCells, LittleEndian;
  }

  lemma CloseCells(rest: seq<Item>, pos: nat)
    ensures After(Close, pos) == pos && ItemCells(Close, pos, rest) == []
  {
  }

  lemma BlockBefore(width: Width, body: seq<Item>, rest: seq<Item>, pos: nat, image: seq<Cell>, fits: bool)
    requires DenotesBefore(body, [Close] + rest, pos + width, image, fits)
    ensures DenotesBefore([Open(width)] + body + [Close], rest, pos,
                          FixedCells(LittleEndian(width, |image|)) + image, fits && |image| < Capacity(width))
  {
    hide CloseAt, Cells, End, Fits, FixedCells, LittleEndian, Capacity;
    var block, end := [Open(width)] + (body + ([Close] + rest)), pos + width + |image|;
    var image', fits' := FixedCells(LittleEndian(width, |image|)) + image, fits && |image| < Capacity(width);
    BlockImage(width, body, rest, pos, image, fits);
    forall depth: nat ensures CloseAt(block, pos, depth) == CloseAt(rest, end, depth) {
      BlockClose(width, body, rest, pos, image, fits, depth);
    }
    Associate(FixedCells(LittleEndian(width, |image|)), image, Cells(rest, end));
    Wholly([Open(width)] + body + [Close], rest, block, pos, image', fits', end);
  }

  lemma Wholly(script: seq<Item>, rest: seq<Item>, all: seq<Item>, pos: nat, image: seq<Cell>, fits: bool, end: nat)
    requires script + rest == all && end == pos + |image| && End(all, pos) == End(rest, end)
    requires forall depth: nat :: CloseAt(all, pos, depth) == CloseAt(rest, end, depth)
    requires Cells(all, pos) == image + Cells(rest, end) && (Fits(all, pos) <==> fits && Fits(rest, end))
    ensures DenotesBefore(script, rest, pos, image, fits)
  {
    hide CloseAt, Cells, End, Fits;
  }

  lemma BlockCells(image: seq<Cell>, later: seq<Cell>)
    ensures image + ([] + later) == image + later
  {
    assert [] + later == later;
  }

  lemma BlockDenotes(width: Width, body: seq<Item>, pos: nat, image: seq<Cell>, fits: bool)
    requires Denotes(body, pos + width, image, fits)
    ensures Denotes([Open(width)] + body + [Close], pos,
                    FixedCells(LittleEndian(width, |image|)) + image, fits && |image| < Capacity(width))
  {
    hide DenotesBefore, FixedCells, LittleEndian;
    var script, cells := [Open(width)] + body + [Close], FixedCells(LittleEndian(width, |image|)) + image;
    var ok := fits && |image| < Capacity(width);
    forall rest: seq<Item> ensures DenotesBefore(script, rest, pos, cells, ok) {
      assert DenotesBefore(body, [Close] + rest, pos + width, image, fits);
      BlockBefore(width, body, rest, pos, image, fits);
    }
  }

  /** What an item streams out denotes the image that its structure gives. */
  lemma {:induction false} NodeDenotes(node: Node, pos: nat, level: nat)
    ensures Denotes(NodeScript(node, level), pos, NodeImage(node, pos, level), NodeFits(node, pos, level))
    decreases node, 1
  {
    hide Denotes, FixedCells, Octets, TextScript, TextImage, LittleEndian;
    match node {
      case Data(octets) => OctetsDenote(octets, pos);
      case Text(units) => TextDenotes(units, pos);
      case Structure(prefix, items) =>
        if prefix.None? || level == 0 || items == [] {
          NodesDenote(items, pos, level + 1);
        } else {
          NodesDenote(items, pos + prefix.value, level + 1);
          BlockDenotes(prefix.value, NodesScript(items, level + 1), pos,
                       NodesImage(items, pos + prefix.value, level + 1), NodesFit(items, pos + prefix.value, level + 1));
        }
    }
  }

  lemma {:induction false} NodesDenote(items: seq<Node>, pos: nat, level: nat)
    ensures Denotes(NodesScript(items, level), pos, NodesImage(items, pos, level), NodesFit(items, pos, level))
    decreases items, 0
  {
    hide Denotes, NodeScript, NodeImage, NodeFits;
    if items == [] {
      OctetsDenote([], pos);
      NoOctets();
    } else {
      var first := NodeImage(items[0], pos, level);
      NodeDenotes(items[0], pos, level);
      NodesDenote(items[1..], pos + |first|, level);
      DenotesConcat(NodeScript(items[0], level), pos, first, NodeFits(items[0], pos, level),
                    NodesScript(items[1..], level), NodesImage(items[1..], pos + |first|, level),
                    NodesFit(items[1..], pos + |first|, level));
    }
  }
}
