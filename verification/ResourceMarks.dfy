/** The stream's representation, a buffer and a list of marks, as a value: what it denotes, the
    positions the layout passes compute, and the step that drops a compressed run. */
module ResourceMarks {
  import opened Bytes
  import opened ResourceImage

  datatype Kind =
    | StartOfBlock(width: Width)
    | EndOfBlock
    | StartOfRun(text: seq<Byte>)
    | EndOfRun
    | TwoByteAlignment
    | Enquiry(slot: nat)

  datatype Mark = Mark(position: nat, kind: Kind)

  datatype Doc = Doc(marks: seq<Mark>, buffer: seq<Byte>)

  /** Where the bytes after mark `i` begin, with -1 for the start of the buffer. */
  function MarkPosition(d: Doc, i: int): nat
    requires -1 <= i < |d.marks|
  {
    if i < 0 then 0 else d.marks[i].position
  }

  function NextPosition(d: Doc, i: int): nat
    requires -1 <= i < |d.marks|
  {
    if i + 1 < |d.marks| then d.marks[i + 1].position else |d.buffer|
  }

  ghost predicate Sorted(d: Doc) {
    forall i {:trigger NextPosition(d, i)} :: -1 <= i < |d.marks| ==> MarkPosition(d, i) <= NextPosition(d, i) <= |d.buffer|
  }

  /** The bytes between mark `i` and the next one. */
  function Gap(d: Doc, i: int): (r: seq<Byte>)
    requires Sorted(d) && -1 <= i < |d.marks|
    ensures |r| == NextPosition(d, i) - MarkPosition(d, i)
  {
    var next := NextPosition(d, i);
    d.buffer[MarkPosition(d, i)..next]
  }

  ghost predicate StartsRun(d: Doc, i: int) {
    0 <= i < |d.marks| && d.marks[i].kind.StartOfRun?
  }

  /** A run is a start mark and then an end mark, and is shorter than its text. Only a run that
      stands at the very start may be empty. */
  ghost predicate RunOk(d: Doc, i: nat)
    requires Sorted(d) && i < |d.marks|
  {
    && (d.marks[i].kind.EndOfRun? ==> i > 0 && d.marks[i - 1].kind.StartOfRun?)
    && (d.marks[i].kind.StartOfRun? ==>
          && i + 1 < |d.marks| && d.marks[i + 1].kind.EndOfRun?
          && (0 < |Gap(d, i)| < |d.marks[i].kind.text| || (i == 0 && d.marks[0].position == 0 && Gap(d, 0) == d.marks[0].kind.text == [])))
  }

  ghost predicate RunsOk(d: Doc)
    requires Sorted(d)
  {
    forall i {:trigger RunOk(d, i)} :: 0 <= i < |d.marks| ==> RunOk(d, i)
  }

  // Nesting

  function Depth(marks: seq<Mark>, k: nat): int
    requires k <= |marks|
  {
    if k == 0 then 0
    else Depth(marks, k - 1) + match marks[k - 1].kind
                               case StartOfBlock(_) => 1
                               case EndOfBlock => -1
                               case _ => 0
  }

  ghost predicate Balanced(marks: seq<Mark>) {
    Depth(marks, |marks|) == 0 && forall k :: 0 <= k <= |marks| ==> Depth(marks, k) >= 0
  }

  /** The mark that ends the block `depth` levels up from mark `j`. */
  function CloseMark(marks: seq<Mark>, j: nat, depth: nat): (r: nat)
    requires j <= |marks|
    ensures j <= r <= |marks|
    decreases |marks| - j
  {
    if j == |marks| then j
    else match marks[j].kind
      case StartOfBlock(_) => CloseMark(marks, j + 1, depth + 1)
      case EndOfBlock => if depth == 0 then j else CloseMark(marks, j + 1, depth - 1)
      case _ => CloseMark(marks, j + 1, depth)
  }

  // Runs

  function NextRun(marks: seq<Mark>, j: nat): (r: nat)
    requires j <= |marks|
    ensures j <= r <= |marks|
    ensures r < |marks| ==> marks[r].kind.StartOfRun?
    ensures forall k :: j <= k < r ==> !marks[k].kind.StartOfRun?
    decreases |marks| - j
  {
    if j == |marks| || marks[j].kind.StartOfRun? then j else NextRun(marks, j + 1)
  }

  lemma {:induction false} NextRunIs(marks: seq<Mark>, j: nat, r: nat)
    requires j <= r <= |marks| && (r < |marks| ==> marks[r].kind.StartOfRun?)
    requires forall k :: j <= k < r ==> !marks[k].kind.StartOfRun?
    ensures NextRun(marks, j) == r
    decreases r - j
  {
    if j < r {
      NextRunIs(marks, j + 1, r);
    }
  }

  function RunCount(marks: seq<Mark>): nat {
    if marks == [] then 0 else (if marks[0].kind.StartOfRun? then 1 else 0) + RunCount(marks[1..])
  }

  lemma {:induction false} RunCountConcat(a: seq<Mark>, b: seq<Mark>)
    ensures RunCount(a + b) == RunCount(a) + RunCount(b)
  {
    if a == [] {
      assert a + b == b;
    } else {
      assert (a + b)[1..] == a[1..] + b;
      RunCountConcat(a[1..], b);
    }
  }

  lemma {:induction false} RunCountSame(a: seq<Mark>, b: seq<Mark>)
    requires |a| == |b| && forall k :: 0 <= k < |a| ==> a[k].kind == b[k].kind
    ensures RunCount(a) == RunCount(b)
  {
    if a != [] {
      RunCountSame(a[1..], b[1..]);
    }
  }

  /** Nothing that is written comes before the first run. */
  ghost predicate RunsLead(d: Doc) {
    var first := NextRun(d.marks, 0);
    first < |d.marks| ==>
      && d.marks[first].position == 0
      && forall k :: 0 <= k < first ==> d.marks[k].kind.Enquiry?
  }

  ghost predicate Valid(d: Doc) {
    Sorted(d) && RunsOk(d) && Balanced(d.marks) && RunsLead(d)
  }

  // Meaning

  function MarkItems(d: Doc, i: nat): seq<Item>
    requires Sorted(d) && i < |d.marks|
  {
    match d.marks[i].kind
    case StartOfBlock(w) => [Open(w)] + Octets(Gap(d, i))
    case EndOfBlock => [Close] + Octets(Gap(d, i))
    case StartOfRun(text) => [Run(Gap(d, i), text)]
    case EndOfRun => Octets(Gap(d, i))
    case TwoByteAlignment => [Align] + Octets(Gap(d, i))
    case Enquiry(slot) => [Enquire(slot)] + Octets(Gap(d, i))
  }

  function ItemsFrom(d: Doc, i: nat): seq<Item>
    requires Sorted(d) && i <= |d.marks|
    decreases |d.marks| - i
  {
    if i == |d.marks| then [] else MarkItems(d, i) + ItemsFrom(d, i + 1)
  }

  /** The script that a stream stands for. */
  function Items(d: Doc): seq<Item>
    requires Sorted(d)
  {
    Octets(Gap(d, -1)) + ItemsFrom(d, 0)
  }

  /** The uncompressed position just before mark `k`. */
  function Pos(d: Doc, k: nat): nat
    requires Sorted(d) && k <= |d.marks|
  {
    if k == 0 then |Gap(d, -1)| else AfterMark(d, k - 1, Pos(d, k - 1))
  }

  function AfterMark(d: Doc, i: nat, pos: nat): nat
    requires Sorted(d) && i < |d.marks|
  {
    match d.marks[i].kind
    case StartOfBlock(w) => pos + w + |Gap(d, i)|
    case StartOfRun(text) => pos + pos % 2 + |text|
    case TwoByteAlignment => pos + pos % 2 + |Gap(d, i)|
    case EndOfBlock => pos + |Gap(d, i)|
    case EndOfRun => pos + |Gap(d, i)|
    case Enquiry(_) => pos + |Gap(d, i)|
  }

  function Size(d: Doc): nat
    requires Sorted(d)
  {
    Pos(d, |d.marks|)
  }

  lemma {:induction false} PosGrows(d: Doc, i: nat, j: nat)
    requires Sorted(d) && i <= j <= |d.marks|
    ensures Pos(d, i) <= Pos(d, j)
  {
    if i < j {
      PosGrows(d, i, j - 1);
    }
  }

  /** The value of the size prefix at mark `i`: the uncompressed span of its block. */
  function Span(d: Doc, i: nat): nat
    requires Sorted(d) && i < |d.marks| && d.marks[i].kind.StartOfBlock?
  {
    PosGrows(d, i + 1, CloseMark(d.marks, i + 1, 0));
    Pos(d, CloseMark(d.marks, i + 1, 0)) - (Pos(d, i) + d.marks[i].kind.width)
  }

  /** The length of the other-stuff run that begins at the end mark `i`. */
  function Other(d: Doc, i: nat): nat
    requires Sorted(d) && i < |d.marks|
  {
    PosGrows(d, i, NextRun(d.marks, i + 1));
    Pos(d, NextRun(d.marks, i + 1)) - Pos(d, i)
  }

  // The marks and the script agree

  lemma MarkImage(d: Doc, i: nat, rest: seq<Item>, pos: nat, depth: nat)
    requires Sorted(d) && i < |d.marks|
    ensures End(MarkItems(d, i) + rest, pos) == End(rest, AfterMark(d, i, pos))
    ensures CloseAt(MarkItems(d, i) + rest, pos, depth) ==
            if d.marks[i].kind.EndOfBlock? && depth == 0 then pos
            else CloseAt(rest, AfterMark(d, i, pos),
                         if d.marks[i].kind.StartOfBlock? then depth + 1
                         else if d.marks[i].kind.EndOfBlock? then depth - 1 else depth)
  {
    hide Cells, CloseAt, End, Fits, Octets, Gap;
    var gap := Gap(d, i);
    if d.marks[i].kind.EndOfRun? {
      EndAfterOctets(gap, rest, pos);
      CloseAfterOctets(gap, rest, pos, depth);
    } else {
      var item := MarkItems(d, i)[0];
      var later := MarkItems(d, i)[1..] + rest;
      assert MarkItems(d, i) + rest == [item] + later;
      ConsImage(item, later, pos, depth);
      var depth' := if item.Open? then depth + 1 else if item.Close? && depth > 0 then depth - 1 else depth;
      if item.Run? {
        assert later == rest;
      } else {
        assert later == Octets(gap) + rest;
        EndAfterOctets(gap, rest, After(item, pos));
        CloseAfterOctets(gap, rest, After(item, pos), depth');
      }
    }
  }

  /** Walking the marks and walking the script meet at the same positions. */
  lemma {:induction false} CloseMarkAgrees(d: Doc, j: nat, depth: nat)
    requires Sorted(d) && j <= |d.marks|
    ensures CloseAt(ItemsFrom(d, j), Pos(d, j), depth) == Pos(d, CloseMark(d.marks, j, depth))
    ensures End(ItemsFrom(d, j), Pos(d, j)) == Size(d)
    decreases |d.marks| - j
  {
    hide MarkItems, Gap;
    if j < |d.marks| {
      MarkImage(d, j, ItemsFrom(d, j + 1), Pos(d, j), depth);
      CloseMarkAgrees(d, j + 1, if d.marks[j].kind.StartOfBlock? then depth + 1
                                else if d.marks[j].kind.EndOfBlock? && depth > 0 then depth - 1 else depth);
    }
  }

  // Dropping a run

  /** A mark of a buffer that has grown before it. */
  function Moved(mark: Mark, extra: nat): Mark {
    Mark(mark.position + extra, mark.kind)
  }

  /** The stream with the run at mark `r` written out: an alignment point and the text itself, or
      nothing at all for the empty run at the start. */
  function Converted(d: Doc, r: nat): (d': Doc)
    requires Sorted(d) && RunsOk(d) && StartsRun(d, r)
  {
    assert RunOk(d, r);
    if Gap(d, r) == [] then Doc(d.marks[2..], d.buffer)
    else
      var text := d.marks[r].kind.text;
      var start, end := MarkPosition(d, r), NextPosition(d, r);
      var extra := |text| - |Gap(d, r)|;
      Doc(d.marks[..r] + [Mark(start, TwoByteAlignment)] + Map(m => Moved(m, extra), d.marks[r + 2..]),
          d.buffer[..start] + text + d.buffer[end..])
  }

  lemma {:induction false} SortedBefore(d: Doc, i: int, j: int)
    requires Sorted(d) && -1 <= i <= j < |d.marks|
    ensures MarkPosition(d, i) <= MarkPosition(d, j) <= |d.buffer|
    decreases j - i
  {
    assert MarkPosition(d, j) <= NextPosition(d, j);
    if i < j {
      assert MarkPosition(d, i) <= NextPosition(d, i);
      SortedBefore(d, i + 1, j);
    }
  }

  /** Mark by mark, what dropping a non-empty run does: the end mark goes, and what follows moves up. */
  lemma ConvertedMarks(d: Doc, r: nat)
    requires Sorted(d) && RunsOk(d) && StartsRun(d, r) && Gap(d, r) != []
    ensures r + 1 < |d.marks|
    ensures var d', extra := Converted(d, r), |d.marks[r].kind.text| - |Gap(d, r)|;
            && |d'.marks| == |d.marks| - 1 && |d'.buffer| == |d.buffer| + extra && extra > 0
            && (forall k :: 0 <= k < r ==> d'.marks[k] == d.marks[k])
            && d'.marks[r] == Mark(d.marks[r].position, TwoByteAlignment)
            && (forall k :: r < k < |d'.marks| ==> d'.marks[k] == Moved(d.marks[k + 1], extra))
  {
    assert RunOk(d, r);
    assert MarkPosition(d, r) <= NextPosition(d, r);
  }

  lemma ConvertedPositions(d: Doc, r: nat, k: int)
    requires Sorted(d) && RunsOk(d) && StartsRun(d, r) && Gap(d, r) != []
    requires -1 <= k < |Converted(d, r).marks|
    ensures k + 1 < |d.marks|
    ensures var d', extra := Converted(d, r), |d.marks[r].kind.text| - |Gap(d, r)|;
            && MarkPosition(d', k) == (if k <= r then MarkPosition(d, k) else MarkPosition(d, k + 1) + extra)
            && NextPosition(d', k) == (if k < r then NextPosition(d, k) else NextPosition(d, k + 1) + extra)
            && MarkPosition(d', k) <= NextPosition(d', k) <= |d'.buffer|
  {
    hide Converted, Gap;
    ConvertedMarks(d, r);
    assert MarkPosition(d, k) <= NextPosition(d, k) <= |d.buffer|;
    assert MarkPosition(d, k + 1) <= NextPosition(d, k + 1) <= |d.buffer|;
  }

  lemma SpliceSlices(buffer: seq<Byte>, start: nat, text: seq<Byte>, end: nat, low: nat, high: nat)
    requires start <= end <= |buffer| && low <= high <= |buffer|
    ensures var spliced, extra := buffer[..start] + text + buffer[end..], |text| - (end - start);
            && (high <= start ==> spliced[low..high] == buffer[low..high])
            && (end <= low ==> spliced[low + extra..high + extra] == buffer[low..high])
            && (low == end ==> spliced[start..high + extra] == text + buffer[low..high])
  {
  }

  lemma ConvertedSorted(d: Doc, r: nat)
    requires Sorted(d) && RunsOk(d) && StartsRun(d, r) && Gap(d, r) != []
    ensures Sorted(Converted(d, r))
  {
    hide Converted, Gap;
    var d' := Converted(d, r);
    forall i {:trigger NextPosition(d', i)} | -1 <= i < |d'.marks|
      ensures MarkPosition(d', i) <= NextPosition(d', i) <= |d'.buffer|
    {
      ConvertedPositions(d, r, i);
    }
  }

  lemma RunBounds(d: Doc, r: nat)
    requires Sorted(d) && RunsOk(d) && StartsRun(d, r) && r + 1 < |d.marks|
    ensures d.marks[r].position <= d.marks[r + 1].position <= |d.buffer|
    ensures |Gap(d, r)| == d.marks[r + 1].position - d.marks[r].position <= |d.marks[r].kind.text|
    ensures Gap(d, r) == [] ==> r == 0 && d.marks[r].kind.text == []
    ensures Gap(d, r) != [] ==> |Gap(d, r)| < |d.marks[r].kind.text|
  {
    assert RunOk(d, r);
    assert MarkPosition(d, r) <= NextPosition(d, r) <= |d.buffer|;
  }

  lemma ConvertedIs(d: Doc, r: nat)
    requires Sorted(d) && RunsOk(d) && StartsRun(d, r) && r + 1 < |d.marks|
    requires d.marks[r].position <= d.marks[r + 1].position <= |d.buffer|
    requires d.marks[r + 1].position - d.marks[r].position <= |d.marks[r].kind.text|
    ensures var text, start, end := d.marks[r].kind.text, d.marks[r].position, d.marks[r + 1].position;
            Converted(d, r) ==
            if start == end then Doc(d.marks[2..], d.buffer)
            else Doc(d.marks[..r] + [Mark(start, TwoByteAlignment)] + Map(m => Moved(m, |text| - (end - start)), d.marks[r + 2..]),
                     d.buffer[..start] + text + d.buffer[end..])
  {
    hide RunsOk, Sorted;
    assert |Gap(d, r)| == d.marks[r + 1].position - d.marks[r].position;
  }

  lemma GapIs(d: Doc, i: int)
    requires Sorted(d) && -1 <= i < |d.marks|
    ensures MarkPosition(d, i) <= NextPosition(d, i) <= |d.buffer|
    ensures Gap(d, i) == d.buffer[MarkPosition(d, i)..NextPosition(d, i)]
  {
  }

  /** Between the marks, the same bytes, except that the text of the run precedes what followed it. */
  lemma ConvertedGap(d: Doc, r: nat, k: int)
    requires Sorted(d) && RunsOk(d) && StartsRun(d, r) && Gap(d, r) != []
    requires -1 <= k < |Converted(d, r).marks|
    ensures Sorted(Converted(d, r)) && k + 1 < |d.marks|
    ensures Gap(Converted(d, r), k) ==
            if k < r then Gap(d, k) else if k == r then d.marks[r].kind.text + Gap(d, r + 1) else Gap(d, k + 1)
  {
    hide MarkPosition, NextPosition, RunOk, RunsOk, Converted, Sorted, Gap;
    ConvertedSorted(d, r);
    ConvertedPositions(d, r, k);
    ConvertedBuffer(d, r);
    var text, start, end := d.marks[r].kind.text, MarkPosition(d, r), NextPosition(d, r);
    var from := if k < r then k else k + 1;
    GapIs(d, r);
    GapIs(d, from);
    GapIs(Converted(d, r), k);
    if k < r {
      NextThenMark(d, k, r);
    } else {
      NextThenMark(d, r, k + 1);
      assert k == r ==> MarkPosition(d, r + 1) == end by {
        NextIsMark(d, r);
      }
    }
    SpliceSlices(d.buffer, start, text, end, MarkPosition(d, from), NextPosition(d, from));
  }

  lemma ConvertedBuffer(d: Doc, r: nat)
    requires Sorted(d) && RunsOk(d) && StartsRun(d, r) && Gap(d, r) != []
    ensures MarkPosition(d, r) <= NextPosition(d, r) <= |d.buffer|
    ensures Converted(d, r).buffer == d.buffer[..MarkPosition(d, r)] + d.marks[r].kind.text + d.buffer[NextPosition(d, r)..]
  {
    hide MarkPosition, NextPosition, RunOk, RunsOk, Sorted;
    GapIs(d, r);
  }

  lemma NextIsMark(d: Doc, i: int)
    requires -1 <= i < |d.marks| - 1
    ensures NextPosition(d, i) == MarkPosition(d, i + 1)
  {
  }

  lemma NextThenMark(d: Doc, i: int, j: int)
    requires Sorted(d) && -1 <= i < j < |d.marks|
    ensures NextPosition(d, i) <= MarkPosition(d, j)
  {
    SortedBefore(d, i + 1, j);
  }

  // Dropping a run changes nothing of the image

  lemma SameMarkItems(a: Doc, i: nat, b: Doc, j: nat)
    requires Sorted(a) && i < |a.marks| && Sorted(b) && j < |b.marks|
    requires a.marks[i].kind == b.marks[j].kind && Gap(a, i) == Gap(b, j)
    ensures MarkItems(a, i) == MarkItems(b, j)
  {
  }

  lemma {:induction false} ItemsAfterDrop(d: Doc, r: nat, k: nat)
    requires Sorted(d) && RunsOk(d) && StartsRun(d, r) && Gap(d, r) != []
    requires r < k <= |Converted(d, r).marks| && Sorted(Converted(d, r)) && |Converted(d, r).marks| == |d.marks| - 1
    ensures ItemsFrom(Converted(d, r), k) == ItemsFrom(d, k + 1)
    decreases |Converted(d, r).marks| - k
  {
    hide Converted, Gap, Octets, MarkPosition, NextPosition, RunOk;
    if k < |Converted(d, r).marks| {
      ItemsAfterDrop(d, r, k + 1);
      ConvertedMarks(d, r);
      ConvertedGap(d, r, k);
      SameMarkItems(Converted(d, r), k, d, k + 1);
    }
  }

  lemma {:induction false} ImageBeforeDrop(d: Doc, r: nat, k: nat)
    requires Sorted(d) && RunsOk(d) && StartsRun(d, r) && Gap(d, r) != []
    requires k <= r && Sorted(Converted(d, r)) && |Converted(d, r).marks| == |d.marks| - 1
    ensures SameImage(ItemsFrom(d, k), ItemsFrom(Converted(d, r), k))
    decreases r - k
  {
    hide Converted, Gap, SameImage, MarkPosition, NextPosition, Octets, Sorted;
    var d' := Converted(d, r);
    ConvertedMarks(d, r);
    ConvertedGap(d, r, k);
    if k < r {
      ImageBeforeDrop(d, r, k + 1);
      SameMarkItems(d, k, d', k);
      SameImageConcat(MarkItems(d, k), ItemsFrom(d, k + 1), ItemsFrom(d', k + 1));
    } else {
      ImageAtDrop(d, r);
    }
  }

  lemma ItemsStep(d: Doc, i: nat)
    requires Sorted(d) && i < |d.marks|
    ensures ItemsFrom(d, i) == MarkItems(d, i) + ItemsFrom(d, i + 1)
  {
  }

  lemma ImageAtDrop(d: Doc, r: nat)
    requires Sorted(d) && RunsOk(d) && StartsRun(d, r) && Gap(d, r) != []
    requires Sorted(Converted(d, r)) && |Converted(d, r).marks| == |d.marks| - 1
    ensures SameImage(ItemsFrom(d, r), ItemsFrom(Converted(d, r), r))
  {
    hide Converted, Gap, SameImage, MarkPosition, NextPosition, Octets, Sorted, ItemsFrom;
    assert RunOk(d, r);
    ItemsStep(d, r);
    ItemsStep(d, r + 1);
    ItemsStep(Converted(d, r), r);
    ConvertedMarks(d, r);
    ConvertedGap(d, r, r);
    ItemsAfterDrop(d, r, r + 1);
    var text, after := d.marks[r].kind.text, Octets(Gap(d, r + 1)) + ItemsFrom(d, r + 2);
    DroppedRun(Gap(d, r), text, after);
    assert ItemsFrom(d, r) == [Run(Gap(d, r), text)] + after;
    OctetsConcat(text, Gap(d, r + 1));
    Associate([Align], Octets(text), Octets(Gap(d, r + 1)));
    Associate([Align] + Octets(text), Octets(Gap(d, r + 1)), ItemsFrom(d, r + 2));
    Associate([Align], Octets(text), after);
    assert ItemsFrom(Converted(d, r), r) == [Align] + (Octets(text) + after);
  }

  function Image(d: Doc): seq<Cell>
    requires Sorted(d)
  {
    Cells(Items(d), 0)
  }

  /** The empty run at the start denotes nothing. */
  lemma LeadGaps(d: Doc, k: int)
    requires Sorted(d) && RunsOk(d) && StartsRun(d, 0) && Gap(d, 0) == [] && -1 <= k < |d.marks| - 2
    ensures var d' := Converted(d, 0);
            && |d'.marks| == |d.marks| - 2
            && MarkPosition(d', k) <= NextPosition(d', k) <= |d'.buffer|
            && (Sorted(d') ==> Gap(d', k) == Gap(d, k + 2))
            && (k >= 0 ==> d'.marks[k] == d.marks[k + 2])
  {
    assert RunOk(d, 0);
    assert MarkPosition(d, 0) <= NextPosition(d, 0);
    if k == -1 {
      assert MarkPosition(d, 1) <= NextPosition(d, 1) <= |d.buffer|;
    }
    assert MarkPosition(d, k + 2) <= NextPosition(d, k + 2) <= |d.buffer|;
  }

  lemma LeadItems(d: Doc, k: nat)
    requires Sorted(d) && RunsOk(d) && StartsRun(d, 0) && Gap(d, 0) == [] && k < |d.marks| - 2
    requires Sorted(Converted(d, 0)) && |Converted(d, 0).marks| == |d.marks| - 2
    ensures MarkItems(Converted(d, 0), k) == MarkItems(d, k + 2)
  {
    hide Converted, Gap, Octets;
    LeadGaps(d, k);
  }

  lemma NoItems(d: Doc)
    requires Sorted(d)
    ensures ItemsFrom(d, |d.marks|) == []
  {
  }

  lemma {:induction false} ItemsAfterLead(d: Doc, k: nat)
    requires Sorted(d) && RunsOk(d) && StartsRun(d, 0) && Gap(d, 0) == [] && k <= |d.marks| - 2
    requires Sorted(Converted(d, 0)) && |Converted(d, 0).marks| == |d.marks| - 2
    ensures ItemsFrom(Converted(d, 0), k) == ItemsFrom(d, k + 2)
    decreases |d.marks| - k
  {
    hide Converted, Gap, Octets, MarkItems, ItemsFrom, RunsOk, Sorted;
    if k < |d.marks| - 2 {
      ItemsAfterLead(d, k + 1);
      LeadGaps(d, k);
      ItemsStep(d, k + 2);
      ItemsStep(Converted(d, 0), k);
      LeadItems(d, k);
    } else {
      NoItems(d);
      NoItems(Converted(d, 0));
    }
  }

  lemma DroppedLeadItems(d: Doc)
    requires Sorted(d) && RunsOk(d) && StartsRun(d, 0) && Gap(d, 0) == []
    ensures Sorted(Converted(d, 0))
    ensures Items(d) == [Run([], [])] + Items(Converted(d, 0)) && d.marks[0].kind.text == []
  {
    hide Converted, Gap, Octets, ItemsFrom;
    assert RunOk(d, 0);
    var d' := Converted(d, 0);
    LeadGapsCount(d);
    assert Sorted(d') by {
      forall k {:trigger NextPosition(d', k)} | -1 <= k < |d'.marks|
        ensures MarkPosition(d', k) <= NextPosition(d', k) <= |d'.buffer|
      {
        LeadGaps(d, k);
      }
    }
    LeadGaps(d, -1);
    ItemsAfterLead(d, 0);
    assert Gap(d, -1) == [];
    NoOctets();
    ItemsStep(d, 0);
    ItemsStep(d, 1);
    assert MarkItems(d, 0) == [Run([], [])] && MarkItems(d, 1) == Octets(Gap(d, 1));
    assert [] + ItemsFrom(d, 0) == ItemsFrom(d, 0);
  }

  lemma NoOctets()
    ensures Octets([]) == [] && FixedCells([]) == []
  {
  }

  lemma LeadGapsCount(d: Doc)
    requires Sorted(d) && RunsOk(d) && StartsRun(d, 0) && Gap(d, 0) == []
    ensures |Converted(d, 0).marks| == |d.marks| - 2
  {
    assert RunOk(d, 0);
  }

  lemma DroppedLeadImage(d: Doc)
    requires Sorted(d) && RunsOk(d) && StartsRun(d, 0) && Gap(d, 0) == []
    ensures Sorted(Converted(d, 0)) && Image(Converted(d, 0)) == Image(d)
    ensures Fits(Items(Converted(d, 0)), 0) == Fits(Items(d), 0)
  {
    hide Converted, Gap, Cells, Items, FixedCells;
    DroppedLeadItems(d);
    NoOctets();
    var after := Items(Converted(d, 0));
    ConsImage(Run([], []), after, 0, 0);
    assert [] + Cells(after, 0) == Cells(after, 0);
  }

  /** Writing out a compressed run leaves the uncompressed image as it was. */
  lemma ConvertedImage(d: Doc, r: nat)
    requires Sorted(d) && RunsOk(d) && StartsRun(d, r)
    ensures Sorted(Converted(d, r)) && Image(Converted(d, r)) == Image(d)
    ensures Fits(Items(Converted(d, r)), 0) == Fits(Items(d), 0)
  {
    assert RunOk(d, r);
    if Gap(d, r) == [] {
      DroppedLeadImage(d);
    } else {
      hide Converted, Gap, Cells;
      ConvertedMarks(d, r);
      ConvertedGap(d, r, -1);
      ImageBeforeDrop(d, r, 0);
      SameImageConcat(Octets(Gap(d, -1)), ItemsFrom(d, 0), ItemsFrom(Converted(d, r), 0));
    }
  }

  // Dropping a run keeps the stream well formed

  lemma {:induction false} DepthAfterDrop(d: Doc, r: nat, k: nat)
    requires Sorted(d) && RunsOk(d) && StartsRun(d, r) && Gap(d, r) != []
    requires k <= |Converted(d, r).marks| && |Converted(d, r).marks| == |d.marks| - 1
    ensures Depth(Converted(d, r).marks, k) == Depth(d.marks, if k <= r then k else k + 1)
  {
    hide Converted, Gap;
    assert RunOk(d, r);
    ConvertedMarks(d, r);
    if k > 0 {
      DepthAfterDrop(d, r, k - 1);
    }
  }

  lemma RunOkAfterDrop(d: Doc, r: nat, i: nat)
    requires Sorted(d) && RunsOk(d) && StartsRun(d, r) && Gap(d, r) != [] && Sorted(Converted(d, r))
    requires i < |Converted(d, r).marks|
    ensures RunOk(Converted(d, r), i)
  {
    hide Converted, Gap;
    assert RunOk(d, r);
    ConvertedMarks(d, r);
    ConvertedGap(d, r, i);
    if i < r {
      assert RunOk(d, i);
    } else if i > r {
      assert RunOk(d, i + 1);
      assert d.marks[r + 1].kind.EndOfRun?;
    }
  }

  lemma RunsAfterDrop(d: Doc, r: nat)
    requires Sorted(d) && RunsOk(d) && StartsRun(d, r) && Gap(d, r) != [] && RunsLead(d)
    requires NextRun(d.marks, 0) != r || NextRun(d.marks, r + 1) == |d.marks|
    ensures Sorted(Converted(d, r)) && RunsLead(Converted(d, r))
    ensures RunCount(Converted(d, r).marks) == RunCount(d.marks) - 1
  {
    hide Converted, Gap;
    assert RunOk(d, r);
    var d', first := Converted(d, r), NextRun(d.marks, 0);
    ConvertedMarks(d, r);
    ConvertedSorted(d, r);
    if first == r {
      NextRunIs(d'.marks, 0, |d'.marks|);
    } else {
      NextRunIs(d'.marks, 0, first);
    }
    RunCountAfterDrop(d, r);
  }

  lemma RunCountAfterDrop(d: Doc, r: nat)
    requires Sorted(d) && RunsOk(d) && StartsRun(d, r) && Gap(d, r) != []
    ensures RunCount(Converted(d, r).marks) == RunCount(d.marks) - 1
  {
    hide Converted, Gap, Moved, RunCount, Sorted;
    assert RunOk(d, r);
    ConvertedMarks(d, r);
    var before, after := d.marks, Converted(d, r).marks;
    RunCountSame(after[..r], before[..r]);
    KindsAfterDrop(d, r);
    RunCountSame(after[r + 1..], before[r + 2..]);
    RunCountAt(before, r);
    RunCountAt(before, r + 1);
    RunCountAt(after, r);
    RunCountConcat(before[..r], before[r..]);
    RunCountConcat(after[..r], after[r..]);
    assert before == before[..r] + before[r..] && after == after[..r] + after[r..];
  }

  lemma RunCountAt(marks: seq<Mark>, r: nat)
    requires r < |marks|
    ensures RunCount(marks[r..]) == (if marks[r].kind.StartOfRun? then 1 else 0) + RunCount(marks[r + 1..])
  {
    assert marks[r..][1..] == marks[r + 1..];
  }

  lemma KindsAfterDrop(d: Doc, r: nat)
    requires Sorted(d) && RunsOk(d) && StartsRun(d, r) && Gap(d, r) != []
    ensures var after := Converted(d, r).marks;
            |after| == |d.marks| - 1 && forall k :: r < k < |after| ==> after[k].kind == d.marks[k + 1].kind
  {
    ConvertedMarks(d, r);
  }

  lemma {:induction false} DepthAfterLead(d: Doc, k: nat)
    requires Sorted(d) && RunsOk(d) && StartsRun(d, 0) && Gap(d, 0) == [] && k <= |d.marks| - 2
    ensures Depth(d.marks[2..], k) == Depth(d.marks, k + 2)
  {
    assert RunOk(d, 0);
    assert d.marks[0].kind.StartOfRun? && d.marks[1].kind.EndOfRun?;
    assert Depth(d.marks, 1) == 0;
    assert Depth(d.marks, 2) == 0;
    if k > 0 {
      DepthAfterLead(d, k - 1);
    }
  }

  lemma LeadDropValid(d: Doc)
    requires Valid(d) && StartsRun(d, 0) && Gap(d, 0) == [] && NextRun(d.marks, 1) == |d.marks|
    ensures Valid(Converted(d, 0)) && RunCount(Converted(d, 0).marks) == RunCount(d.marks) - 1
  {
    hide Gap, Image, Items, Fits;
    assert RunOk(d, 0);
    DroppedLeadImage(d);
    var d' := Converted(d, 0);
    forall k | 0 <= k <= |d'.marks| ensures Depth(d'.marks, k) == Depth(d.marks, k + 2) {
      DepthAfterLead(d, k);
    }
    forall i | 0 <= i < |d'.marks| ensures RunOk(d', i) {
      assert RunOk(d, i + 2);
      LeadGaps(d, i);
    }
    NextRunIs(d'.marks, 0, |d'.marks|);
    assert d.marks[1..][1..] == d'.marks;
  }

  /** A run that may be dropped (any but the first, or the only one) leaves a well-formed stream
      with one run fewer, the same image and the same size. */
  lemma ConvertedValid(d: Doc, r: nat)
    requires Valid(d) && StartsRun(d, r)
    requires NextRun(d.marks, 0) != r || NextRun(d.marks, r + 1) == |d.marks|
    ensures Valid(Converted(d, r))
    ensures RunCount(Converted(d, r).marks) == RunCount(d.marks) - 1
    ensures |Converted(d, r).marks| < |d.marks|
    ensures Image(Converted(d, r)) == Image(d) && Size(Converted(d, r)) == Size(d)
    ensures Fits(Items(Converted(d, r)), 0) == Fits(Items(d), 0)
  {
    hide Converted, Gap, Cells, Fits, Items, Pos;
    assert RunOk(d, r);
    ConvertedImage(d, r);
    ImageSize(d);
    ImageSize(Converted(d, r));
    if Gap(d, r) == [] {
      LeadDropValid(d);
      LeadGapsCount(d);
    } else {
      var d' := Converted(d, r);
      ConvertedMarks(d, r);
      RunsAfterDrop(d, r);
      forall k | 0 <= k <= |d'.marks| ensures Depth(d'.marks, k) == Depth(d.marks, if k <= r then k else k + 1) {
        DepthAfterDrop(d, r, k);
      }
      forall i | 0 <= i < |d'.marks| ensures RunOk(d', i) {
        RunOkAfterDrop(d, r, i);
      }
    }
  }

  /** The size the passes compute is the size of the image. */
  lemma ImageSize(d: Doc)
    requires Sorted(d)
    ensures |Image(d)| == Size(d)
  {
    hide Gap;
    CellsSize(Items(d), 0);
    EndAfterOctets(Gap(d, -1), ItemsFrom(d, 0), 0);
    CloseMarkAgrees(d, 0, 0);
  }
}
