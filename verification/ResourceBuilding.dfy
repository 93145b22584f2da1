/** What each operation of a caller adds to a stream and to its script. */
module ResourceBuilding {
  import opened Bytes
  import opened ResourceImage
  import opened ResourceMarks
  import opened ResourceLayout

  /** A stream under construction: as a finished one, but blocks may still be open. */
  ghost predicate Growing(d: Doc) {
    Sorted(d) && RunsOk(d) && RunsLead(d) && forall k :: 0 <= k <= |d.marks| ==> Depth(d.marks, k) >= 0
  }

  function WithBytes(d: Doc, data: seq<Byte>): Doc {
    Doc(d.marks, d.buffer + data)
  }

  function WithMark(d: Doc, kind: Kind): Doc {
    Doc(d.marks + [Mark(|d.buffer|, kind)], d.buffer)
  }

  function WithRun(d: Doc, compressed: seq<Byte>, text: seq<Byte>): Doc {
    WithMark(WithBytes(WithMark(d, StartOfRun(text)), compressed), EndOfRun)
  }

  /** The stream with an empty compressed run put at its start. */
  function WithLead(d: Doc): Doc {
    Doc([Mark(0, StartOfRun([])), Mark(0, EndOfRun)] + d.marks, d.buffer)
  }

  /** The stream as it stands when a compressed run begins. */
  function Led(d: Doc): Doc {
    if HasRuns(d) || (d.buffer == [] && forall k :: 0 <= k < |d.marks| ==> !d.marks[k].kind.StartOfBlock?) then d
    else WithLead(d)
  }

  /** The script of the caller's operations: an empty run at the start is the stream's own. */
  function Script(d: Doc): seq<Item>
    requires Sorted(d)
  {
    WithoutLead(Items(d))
  }

  function WithoutLead(items: seq<Item>): seq<Item> {
    if items != [] && items[0] == Run([], []) then items[1..] else items
  }

  lemma ScriptGrows(items: seq<Item>, more: seq<Item>)
    requires Run([], []) !in more
    ensures WithoutLead(items + more) == WithoutLead(items) + more
  {
    if items == [] {
      assert items + more == more;
    } else {
      assert (items + more)[1..] == items[1..] + more;
    }
  }

  /** The empty run at the start denotes nothing. */
  lemma ScriptImage(d: Doc)
    requires Sorted(d)
    ensures Image(d) == Cells(Script(d), 0) && Fits(Items(d), 0) == Fits(Script(d), 0)
  {
    hide Cells, Fits, CloseAt, End, Items, FixedCells;
    var items := Items(d);
    if items != [] && items[0] == Run([], []) {
      assert items == [Run([], [])] + items[1..];
      ConsImage(Run([], []), items[1..], 0, 0);
      NoOctets();
      assert [] + Cells(items[1..], 0) == Cells(items[1..], 0);
    }
  }

  lemma {:induction false} NoRunsInItems(d: Doc, i: nat)
    requires Sorted(d) && i <= |d.marks| && NextRun(d.marks, i) == |d.marks|
    ensures forall k :: 0 <= k < |ItemsFrom(d, i)| ==> !ItemsFrom(d, i)[k].Run?
    decreases |d.marks| - i
  {
    hide Gap, Octets;
    if i < |d.marks| {
      NoRunsInItems(d, i + 1);
      OnlyOctets(Gap(d, i));
    }
  }

  lemma {:induction false} OnlyOctets(data: seq<Byte>)
    ensures forall k :: 0 <= k < |data| ==> Octets(data)[k].Octet?
  {
    if data != [] {
      OnlyOctets(data[1..]);
    }
  }

  /** A stream without runs is all script. */
  lemma ScriptWithoutRuns(d: Doc)
    requires Sorted(d) && !HasRuns(d)
    ensures Script(d) == Items(d) && WithoutLead([Run([], [])] + Items(d)) == Items(d)
    ensures Run([], []) !in Items(d)
  {
    hide Gap, Octets, ItemsFrom;
    NoRunsInItems(d, 0);
    OnlyOctets(Gap(d, -1));
    assert ([Run([], [])] + Items(d))[1..] == Items(d);
  }

  // Appending bytes

  lemma BytesSorted(d: Doc, data: seq<Byte>)
    requires Sorted(d)
    ensures Sorted(WithBytes(d, data))
  {
    var d' := WithBytes(d, data);
    forall i {:trigger NextPosition(d', i)} | -1 <= i < |d'.marks|
      ensures MarkPosition(d', i) <= NextPosition(d', i) <= |d'.buffer|
    {
      assert MarkPosition(d, i) <= NextPosition(d, i) <= |d.buffer|;
    }
  }

  lemma BytesGap(d: Doc, data: seq<Byte>, i: int)
    requires Sorted(d) && -1 <= i < |d.marks| && Sorted(WithBytes(d, data))
    ensures Gap(WithBytes(d, data), i) == Gap(d, i) + if i == |d.marks| - 1 then data else []
  {
    assert MarkPosition(d, i) <= NextPosition(d, i) <= |d.buffer|;
  }

  lemma MoreItems(d: Doc, d': Doc, i: nat, data: seq<Byte>)
    requires Sorted(d) && Sorted(d') && i < |d.marks| && i < |d'.marks|
    requires d'.marks[i].kind == d.marks[i].kind && !d.marks[i].kind.StartOfRun? && Gap(d', i) == Gap(d, i) + data
    ensures MarkItems(d', i) == MarkItems(d, i) + Octets(data)
  {
    hide Gap, Octets, Sorted;
    OctetsConcat(Gap(d, i), data);
  }

  lemma {:induction false} BytesItems(d: Doc, data: seq<Byte>, i: nat)
    requires Sorted(d) && Sorted(WithBytes(d, data)) && i < |d.marks| && !d.marks[|d.marks| - 1].kind.StartOfRun?
    ensures ItemsFrom(WithBytes(d, data), i) == ItemsFrom(d, i) + Octets(data)
    decreases |d.marks| - i
  {
    hide Gap, Octets, Sorted, MarkItems;
    var d' := WithBytes(d, data);
    BytesGap(d, data, i);
    if i == |d.marks| - 1 {
      MoreItems(d, d', i, data);
      assert ItemsFrom(d, i) == MarkItems(d, i) + [];
      assert ItemsFrom(d', i) == MarkItems(d', i) + [];
    } else {
      BytesItems(d, data, i + 1);
      assert Gap(d, i) + [] == Gap(d, i);
      SameMarkItems(d, i, d', i);
      Associate(MarkItems(d, i), ItemsFrom(d, i + 1), Octets(data));
    }
  }

  lemma BytesGrow(d: Doc, data: seq<Byte>)
    requires Growing(d)
    ensures Growing(WithBytes(d, data)) && Items(WithBytes(d, data)) == Items(d) + Octets(data)
  {
    hide Gap, Octets;
    var d', n := WithBytes(d, data), |d.marks|;
    BytesSorted(d, data);
    BytesGap(d, data, -1);
    if n > 0 {
      assert RunOk(d, n - 1);
      BytesItems(d, data, 0);
      assert Gap(d, -1) + [] == Gap(d, -1);
      Associate(Octets(Gap(d, -1)), ItemsFrom(d, 0), Octets(data));
    } else {
      OctetsConcat(Gap(d, -1), data);
      assert Octets(Gap(d, -1)) + [] == Octets(Gap(d, -1));
      assert Octets(Gap(d', -1)) + [] == Octets(Gap(d', -1));
    }
    forall i | 0 <= i < n ensures RunOk(d', i) {
      assert RunOk(d, i);
      BytesGap(d, data, i);
      assert Gap(d, i) + [] == Gap(d, i);
    }
  }

  // Appending a mark

  lemma MarkSorted(d: Doc, kind: Kind)
    requires Sorted(d)
    ensures Sorted(WithMark(d, kind))
  {
    var d' := WithMark(d, kind);
    forall i {:trigger NextPosition(d', i)} | -1 <= i < |d'.marks|
      ensures MarkPosition(d', i) <= NextPosition(d', i) <= |d'.buffer|
    {
      if i < |d.marks| {
        assert MarkPosition(d, i) <= NextPosition(d, i) <= |d.buffer|;
      }
    }
  }

  lemma MarkGap(d: Doc, kind: Kind, i: int)
    requires Sorted(d) && -1 <= i <= |d.marks| && Sorted(WithMark(d, kind))
    ensures Gap(WithMark(d, kind), i) == if i < |d.marks| then Gap(d, i) else []
  {
    if i < |d.marks| {
      assert NextPosition(WithMark(d, kind), i) == NextPosition(d, i);
    }
  }

  lemma {:induction false} MarkItemsGrow(d: Doc, kind: Kind, i: nat)
    requires Sorted(d) && Sorted(WithMark(d, kind)) && i <= |d.marks|
    ensures ItemsFrom(WithMark(d, kind), i) == ItemsFrom(d, i) + MarkItems(WithMark(d, kind), |d.marks|)
    decreases |d.marks| - i
  {
    hide Gap, Octets, Sorted, MarkItems;
    var d' := WithMark(d, kind);
    if i == |d.marks| {
      assert ItemsFrom(d', i + 1) == [];
      assert MarkItems(d', i) + [] == MarkItems(d', i);
    } else {
      MarkItemsGrow(d, kind, i + 1);
      MarkGap(d, kind, i);
      SameMarkItems(d, i, d', i);
      Associate(MarkItems(d, i), ItemsFrom(d, i + 1), MarkItems(d', |d.marks|));
    }
  }

  lemma {:induction false} MarkDepth(marks: seq<Mark>, mark: Mark, k: nat)
    requires k <= |marks|
    ensures Depth(marks + [mark], k) == Depth(marks, k)
  {
    if k > 0 {
      MarkDepth(marks, mark, k - 1);
    }
  }

  lemma {:induction false} MarkRun(marks: seq<Mark>, mark: Mark)
    ensures NextRun(marks, 0) < |marks| ==> NextRun(marks + [mark], 0) == NextRun(marks, 0)
    ensures NextRun(marks, 0) == |marks| ==>
              NextRun(marks + [mark], 0) == if mark.kind.StartOfRun? then |marks| else |marks| + 1
  {
    var marks', first := marks + [mark], NextRun(marks, 0);
    if first < |marks| {
      NextRunIs(marks', 0, first);
    } else {
      NextRunIs(marks', 0, if mark.kind.StartOfRun? then |marks| else |marks| + 1);
    }
  }

  function KindItems(kind: Kind): seq<Item> {
    match kind
    case StartOfBlock(w) => [Open(w)]
    case EndOfBlock => [Close]
    case TwoByteAlignment => [Align]
    case Enquiry(slot) => [Enquire(slot)]
    case StartOfRun(text) => [Run([], text)]
    case EndOfRun => []
  }

  lemma MarkAppended(d: Doc, kind: Kind)
    requires Sorted(d)
    ensures Sorted(WithMark(d, kind)) && Items(WithMark(d, kind)) == Items(d) + KindItems(kind)
  {
    hide Gap, Octets;
    MarkSorted(d, kind);
    MarkGap(d, kind, -1);
    MarkGap(d, kind, |d.marks|);
    MarkItemsGrow(d, kind, 0);
    NoOctets();
    Associate(Octets(Gap(d, -1)), ItemsFrom(d, 0), KindItems(kind));
    match kind {
      case StartOfBlock(w) => assert [Open(w)] + [] == [Open(w)];
      case EndOfBlock => assert [Close] + [] == [Close];
      case TwoByteAlignment => assert [Align] + [] == [Align];
      case Enquiry(slot) => assert [Enquire(slot)] + [] == [Enquire(slot)];
      case StartOfRun(text) =>
      case EndOfRun =>
    }
  }

  lemma MarkGrows(d: Doc, kind: Kind)
    requires Growing(d) && !kind.StartOfRun? && !kind.EndOfRun?
    requires kind.EndOfBlock? ==> Depth(d.marks, |d.marks|) > 0
    ensures Growing(WithMark(d, kind)) && Items(WithMark(d, kind)) == Items(d) + KindItems(kind)
    ensures HasRuns(WithMark(d, kind)) == HasRuns(d)
    ensures Depth(WithMark(d, kind).marks, |d.marks| + 1) ==
            Depth(d.marks, |d.marks|) + if kind.StartOfBlock? then 1 else if kind.EndOfBlock? then -1 else 0
  {
    hide Gap, Octets, Items;
    var d' := WithMark(d, kind);
    MarkAppended(d, kind);
    MarkRun(d.marks, Mark(|d.buffer|, kind));
    forall i | 0 <= i < |d'.marks| ensures RunOk(d', i) {
      MarkGap(d, kind, i);
      if i < |d.marks| {
        assert RunOk(d, i);
      }
    }
    forall k | 0 <= k <= |d.marks| ensures Depth(d'.marks, k) == Depth(d.marks, k) {
      MarkDepth(d.marks, Mark(|d.buffer|, kind), k);
    }
    assert Depth(d'.marks, |d.marks| + 1) >= 0;
    assert Sorted(d') && RunsOk(d');
    assert RunsLead(d');
  }

  // Appending a run

  lemma RunShape(d: Doc, compressed: seq<Byte>, text: seq<Byte>)
    requires Sorted(d)
    ensures var d', n := WithRun(d, compressed, text), |d.marks|;
            && d'.buffer == d.buffer + compressed
            && d'.marks == d.marks + [Mark(|d.buffer|, StartOfRun(text)), Mark(|d'.buffer|, EndOfRun)]
            && Sorted(d')
  {
    MarkSorted(d, StartOfRun(text));
    BytesSorted(WithMark(d, StartOfRun(text)), compressed);
    MarkSorted(WithBytes(WithMark(d, StartOfRun(text)), compressed), EndOfRun);
  }

  lemma RunGap(d: Doc, compressed: seq<Byte>, text: seq<Byte>, i: int)
    requires Sorted(d) && Sorted(WithRun(d, compressed, text)) && -1 <= i < |d.marks| + 2
    ensures |WithRun(d, compressed, text).marks| == |d.marks| + 2
    ensures Gap(WithRun(d, compressed, text), i) ==
            if i < |d.marks| then Gap(d, i) else if i == |d.marks| then compressed else []
  {
    RunShape(d, compressed, text);
    if i < |d.marks| {
      assert MarkPosition(d, i) <= NextPosition(d, i) <= |d.buffer|;
    }
  }

  lemma {:induction false} RunItems(d: Doc, compressed: seq<Byte>, text: seq<Byte>, i: nat)
    requires Sorted(d) && Sorted(WithRun(d, compressed, text)) && i <= |d.marks|
    requires |WithRun(d, compressed, text).marks| == |d.marks| + 2
    ensures ItemsFrom(WithRun(d, compressed, text), i) == ItemsFrom(d, i) + [Run(compressed, text)]
    decreases |d.marks| - i
  {
    hide Gap, Octets, Sorted, WithRun, ItemsFrom;
    var d', n := WithRun(d, compressed, text), |d.marks|;
    RunShape(d, compressed, text);
    RunGap(d, compressed, text, i);
    ItemsStep(d', i);
    if i == n {
      RunGap(d, compressed, text, n + 1);
      NoOctets();
      ItemsStep(d', n + 1);
      NoItems(d');
      NoItems(d);
    } else {
      ItemsStep(d, i);
      RunItems(d, compressed, text, i + 1);
      SameMarkItems(d, i, d', i);
      Associate(MarkItems(d, i), ItemsFrom(d, i + 1), [Run(compressed, text)]);
    }
  }

  lemma RunDepth(d: Doc, start: Mark, end: Mark)
    requires start.kind.StartOfRun? && end.kind.EndOfRun?
    requires forall k :: 0 <= k <= |d.marks| ==> Depth(d.marks, k) >= 0
    ensures var marks := d.marks + [start, end];
            && (forall k :: 0 <= k <= |marks| ==> Depth(marks, k) >= 0)
            && Depth(marks, |marks|) == Depth(d.marks, |d.marks|)
  {
    var marks, n := d.marks + [start] + [end], |d.marks|;
    assert marks == d.marks + [start, end];
    forall k | 0 <= k <= n ensures Depth(marks, k) == Depth(d.marks, k) {
      MarkDepth(d.marks, start, k);
      MarkDepth(d.marks + [start], end, k);
    }
    assert Depth(marks, n + 1) == Depth(d.marks, n);
    assert Depth(marks, n + 2) == Depth(d.marks, n);
  }

  lemma RunLeads(d: Doc, compressed: seq<Byte>, text: seq<Byte>)
    requires RunsLead(d)
    requires HasRuns(d) || (d.buffer == [] && forall k :: 0 <= k < |d.marks| ==> d.marks[k].kind.Enquiry?)
    ensures RunsLead(WithRun(d, compressed, text)) && HasRuns(WithRun(d, compressed, text))
  {
    var start := Mark(|d.buffer|, StartOfRun(text));
    MarkRun(d.marks, start);
    MarkRun(d.marks + [start], Mark(|d.buffer + compressed|, EndOfRun));
  }

  lemma RunGrows(d: Doc, compressed: seq<Byte>, text: seq<Byte>)
    requires Growing(d) && 0 < |compressed| < |text|
    requires HasRuns(d) || (d.buffer == [] && forall k :: 0 <= k < |d.marks| ==> d.marks[k].kind.Enquiry?)
    ensures var d' := WithRun(d, compressed, text);
            && Growing(d') && HasRuns(d') && |d'.marks| == |d.marks| + 2
            && Items(d') == Items(d) + [Run(compressed, text)]
            && Depth(d'.marks, |d.marks| + 2) == Depth(d.marks, |d.marks|)
  {
    hide Gap, Octets, WithRun, ItemsFrom, RunsLead, HasRuns, NextRun;
    var d', n := WithRun(d, compressed, text), |d.marks|;
    RunShape(d, compressed, text);
    RunLeads(d, compressed, text);
    RunDepth(d, d'.marks[n], d'.marks[n + 1]);
    forall i | 0 <= i < n + 2 ensures RunOk(d', i) {
      RunGap(d, compressed, text, i);
      if i < n {
        assert RunOk(d, i);
      }
    }
    RunGap(d, compressed, text, -1);
    RunItems(d, compressed, text, 0);
    Associate(Octets(Gap(d, -1)), ItemsFrom(d, 0), [Run(compressed, text)]);
  }

  // Putting an empty run at the start

  lemma LeadShape(d: Doc, i: int)
    requires Sorted(d) && -1 <= i < |d.marks| + 2
    ensures var d' := WithLead(d);
            && MarkPosition(d', i) <= NextPosition(d', i) <= |d'.buffer|
            && (Sorted(d') ==> Gap(d', i) == if i < 1 then [] else Gap(d, i - 2))
            && (i < 1 ==> NextPosition(d', i) == 0)
  {
    if i >= 1 {
      assert MarkPosition(d, i - 2) <= NextPosition(d, i - 2) <= |d.buffer|;
    }
  }

  lemma {:induction false} LeadDepth(d: Doc, k: nat)
    requires k <= |d.marks|
    ensures Depth(WithLead(d).marks, k + 2) == Depth(d.marks, k)
  {
    var marks := WithLead(d).marks;
    if k == 0 {
      assert marks[0].kind.StartOfRun? && marks[1].kind.EndOfRun?;
      assert Depth(marks, 1) == 0;
    } else {
      LeadDepth(d, k - 1);
    }
  }

  lemma LeadGrows(d: Doc)
    requires Growing(d) && !HasRuns(d)
    ensures var d' := WithLead(d);
            && Growing(d') && HasRuns(d') && Items(d') == [Run([], [])] + Items(d)
            && Depth(d'.marks, |d'.marks|) == Depth(d.marks, |d.marks|)
  {
    hide Gap, Items;
    var d' := WithLead(d);
    assert Sorted(d') by {
      forall i {:trigger NextPosition(d', i)} | -1 <= i < |d'.marks|
        ensures MarkPosition(d', i) <= NextPosition(d', i) <= |d'.buffer|
      {
        LeadShape(d, i);
      }
    }
    forall i | 0 <= i < |d'.marks| ensures RunOk(d', i) {
      LeadShape(d, i);
      if i >= 2 {
        assert RunOk(d, i - 2);
      }
    }
    forall k | 0 <= k <= |d'.marks| ensures Depth(d'.marks, k) >= 0 {
      if k >= 2 {
        LeadDepth(d, k - 2);
      }
    }
    LeadDepth(d, |d.marks|);
    LeadShape(d, 0);
    DroppedLeadItems(d');
    assert Converted(d', 0) == d by {
      assert d'.marks[2..] == d.marks;
    }
  }

  /** Blocks that are closed were opened before. */
  lemma {:induction false} CloseAfterOpen(marks: seq<Mark>, k: nat)
    requires k <= |marks| && forall i :: 0 <= i < k ==> !marks[i].kind.StartOfBlock?
    requires forall i :: 0 <= i <= |marks| ==> Depth(marks, i) >= 0
    ensures Depth(marks, k) == 0 && forall i :: 0 <= i < k ==> !marks[i].kind.EndOfBlock?
  {
    if k > 0 {
      CloseAfterOpen(marks, k - 1);
      assert Depth(marks, k) >= 0;
    }
  }

  lemma SameRuns(d: Doc, data: seq<Byte>)
    ensures HasRuns(WithBytes(d, data)) == HasRuns(d)
  {
  }

  lemma OnlyEnquiries(d: Doc)
    requires Growing(d) && !HasRuns(d)
    requires forall k :: 0 <= k < |d.marks| ==> !d.marks[k].kind.StartOfBlock? && !d.marks[k].kind.TwoByteAlignment?
    ensures forall k :: 0 <= k < |d.marks| ==> d.marks[k].kind.Enquiry?
  {
    hide Gap;
    CloseAfterOpen(d.marks, |d.marks|);
    forall k | 0 <= k < |d.marks| ensures d.marks[k].kind.Enquiry? {
      assert RunOk(d, k);
    }
  }
}
