/** The state of the first layout pass, which computes the size prefixes, the lengths of the
    other-stuff runs and the padding in one walk over the marks, and what that walk keeps. */
module ResourcePasses {
  import opened ResourceImage
  import opened ResourceMarks
  import opened ResourceLayout
  import opened ResourceSettling

  /** An open block: its mark and the uncompressed position after its prefix. */
  datatype OpenBlock = OpenBlock(mark: nat, start: nat)

  /** `notes` holds what the pass stores with each mark; `address` is the end mark whose run length
      is still to be stored, or -1. */
  datatype Measuring = Measuring(notes: seq<nat>, stack: seq<OpenBlock>, address: int, runLength: nat, size: nat)

  ghost predicate NoteOk(d: Doc, notes: seq<nat>, k: nat)
    requires Sorted(d) && k < |d.marks| == |notes|
  {
    match d.marks[k].kind
    case StartOfBlock(_) => notes[k] == Span(d, k)
    case EndOfRun => notes[k] == Other(d, k)
    case TwoByteAlignment => notes[k] == Pos(d, k) % 2
    case _ => true
  }

  ghost predicate Opened(d: Doc, i: nat, b: OpenBlock, depth: nat)
    requires Sorted(d) && i <= |d.marks|
  {
    && b.mark < i && d.marks[b.mark].kind.StartOfBlock?
    && b.start == Pos(d, b.mark) + d.marks[b.mark].kind.width
    && CloseMark(d.marks, b.mark + 1, 0) == CloseMark(d.marks, i, depth)
  }

  ghost predicate StackOk(d: Doc, i: nat, stack: seq<OpenBlock>)
    requires Sorted(d) && i <= |d.marks|
  {
    |stack| == Depth(d.marks, i) && forall h :: 0 <= h < |stack| ==> Opened(d, i, stack[h], |stack| - 1 - h)
  }

  ghost predicate BlockDone(d: Doc, notes: seq<nat>, k: nat)
    requires Sorted(d) && k < |d.marks| == |notes| && d.marks[k].kind.StartOfBlock?
  {
    notes[k] == Span(d, k) && Span(d, k) < Capacity(d.marks[k].kind.width)
  }

  ghost predicate BlocksOk(d: Doc, i: nat, notes: seq<nat>, stack: seq<OpenBlock>)
    requires Sorted(d) && i <= |d.marks| == |notes|
  {
    forall k {:trigger d.marks[k]} :: 0 <= k < i && d.marks[k].kind.StartOfBlock? ==>
      (exists h :: 0 <= h < |stack| && stack[h].mark == k) || BlockDone(d, notes, k)
  }

  ghost predicate OthersOk(d: Doc, i: nat, m: Measuring)
    requires Sorted(d) && i <= |d.marks| == |m.notes|
  {
    && (m.address < 0 ==> m.address == -1 && forall k :: 0 <= k < i ==> !d.marks[k].kind.StartOfRun?)
    && (m.address >= 0 ==>
          && m.address < i && d.marks[m.address].kind.EndOfRun?
          && NextRun(d.marks, m.address + 1) >= i
          && m.runLength == Pos(d, i) - Pos(d, m.address))
    && forall k :: 0 <= k < i && k != m.address && d.marks[k].kind.EndOfRun? ==> m.notes[k] == Other(d, k)
  }

  ghost predicate PaddingOk(d: Doc, i: nat, notes: seq<nat>)
    requires Sorted(d) && i <= |d.marks| == |notes|
  {
    forall k :: 0 <= k < i && d.marks[k].kind.TwoByteAlignment? ==> notes[k] == Pos(d, k) % 2
  }

  ghost predicate Measured(d: Doc, i: nat, m: Measuring)
    requires Sorted(d) && i <= |d.marks|
  {
    && |m.notes| == |d.marks|
    && m.size == Pos(d, i)
    && StackOk(d, i, m.stack)
    && BlocksOk(d, i, m.notes, m.stack)
    && OthersOk(d, i, m)
    && PaddingOk(d, i, m.notes)
  }

  lemma StackSkips(d: Doc, i: nat, stack: seq<OpenBlock>)
    requires Sorted(d) && i < |d.marks| && !d.marks[i].kind.StartOfBlock? && !d.marks[i].kind.EndOfBlock?
    requires StackOk(d, i, stack)
    ensures StackOk(d, i + 1, stack)
  {
    hide Pos, Sorted;
    forall h | 0 <= h < |stack| ensures Opened(d, i + 1, stack[h], |stack| - 1 - h) {
      assert Opened(d, i, stack[h], |stack| - 1 - h);
    }
  }

  lemma StackPushed(d: Doc, i: nat, stack: seq<OpenBlock>)
    requires Sorted(d) && i < |d.marks| && d.marks[i].kind.StartOfBlock? && StackOk(d, i, stack)
    ensures StackOk(d, i + 1, stack + [OpenBlock(i, Pos(d, i) + d.marks[i].kind.width)])
  {
    hide Pos, Sorted;
    var stack' := stack + [OpenBlock(i, Pos(d, i) + d.marks[i].kind.width)];
    forall h | 0 <= h < |stack'| ensures Opened(d, i + 1, stack'[h], |stack'| - 1 - h) {
      if h < |stack| {
        assert Opened(d, i, stack[h], |stack| - 1 - h);
      }
    }
  }

  /** The block on top of the stack is the one that a closing mark closes. */
  lemma StackPopped(d: Doc, i: nat, stack: seq<OpenBlock>)
    requires Sorted(d) && Balanced(d.marks) && i < |d.marks| && d.marks[i].kind.EndOfBlock? && StackOk(d, i, stack)
    ensures stack != [] && StackOk(d, i + 1, stack[..|stack| - 1])
    ensures var top := stack[|stack| - 1];
            top.mark < i && d.marks[top.mark].kind.StartOfBlock? && Pos(d, i) == top.start + Span(d, top.mark)
  {
    hide Pos, Sorted;
    assert Depth(d.marks, i + 1) >= 0;
    var last := |stack| - 1;
    assert Opened(d, i, stack[last], 0);
    assert CloseMark(d.marks, i, 0) == i;
    forall h | 0 <= h < last ensures Opened(d, i + 1, stack[..last][h], last - 1 - h) {
      assert Opened(d, i, stack[h], |stack| - 1 - h);
    }
  }

  /** A mark that is not of a run and not a block: the walk goes on over its padding and its bytes. */
  lemma OthersSkip(d: Doc, i: nat, m: Measuring, m': Measuring)
    requires Sorted(d) && RunsOk(d) && i < |d.marks| == |m.notes| == |m'.notes| && OthersOk(d, i, m)
    requires !d.marks[i].kind.StartOfRun? && !d.marks[i].kind.EndOfRun?
    requires m'.address == m.address
    requires forall k :: 0 <= k < |d.marks| && d.marks[k].kind.EndOfRun? ==> m'.notes[k] == m.notes[k]
    requires m.address >= 0 ==> m'.runLength - m.runLength == Pos(d, i + 1) - Pos(d, i)
    ensures OthersOk(d, i + 1, m')
  {
    hide Pos, Sorted, RunsOk, Other;
  }

  lemma OthersRun(d: Doc, i: nat, m: Measuring, m': Measuring)
    requires Sorted(d) && RunsOk(d) && i + 1 < |d.marks| == |m.notes| == |m'.notes| && OthersOk(d, i, m)
    requires d.marks[i].kind.StartOfRun? && d.marks[i + 1].kind.EndOfRun?
    requires m'.notes == if m.address >= 0 then m.notes[m.address := m.runLength] else m.notes
    requires m'.address == i + 1 && m'.runLength == Pos(d, i + 2) - Pos(d, i + 1)
    ensures OthersOk(d, i + 2, m')
  {
    hide Pos, Sorted;
    forall k | 0 <= k < i + 2 && k != m'.address && d.marks[k].kind.EndOfRun? ensures m'.notes[k] == Other(d, k) {
      assert RunOk(d, k);
      assert k < i;
    }
  }

  /** What the walk leaves when it ends: every note right and every block closed, so that the sizes
      have all been checked against their prefixes. */
  lemma MeasuredAll(d: Doc, m: Measuring)
    requires Sorted(d) && RunsOk(d) && Balanced(d.marks) && Measured(d, |d.marks|, m)
    ensures var notes := if m.address >= 0 then m.notes[m.address := m.runLength] else m.notes;
            && |notes| == |d.marks| && (forall k :: 0 <= k < |d.marks| ==> NoteOk(d, notes, k))
            && PrefixesFit(d) && m.size == Size(d)
            && (m.address >= 0 <==> HasRuns(d))
            && (m.address >= 0 ==> d.marks[m.address].kind.EndOfRun? && NextRun(d.marks, m.address + 1) == |d.marks|)
  {
    hide Pos, Sorted;
    var notes := if m.address >= 0 then m.notes[m.address := m.runLength] else m.notes;
    assert m.stack == [];
    forall k | 0 <= k < |d.marks| ensures NoteOk(d, notes, k) {
      if d.marks[k].kind.StartOfBlock? {
        assert BlockDone(d, m.notes, k);
      }
    }
    if m.address >= 0 {
      assert RunOk(d, m.address);
    } else {
      NextRunIs(d.marks, 0, |d.marks|);
    }
  }

  // The steps of the walk

  function Advanced(m: Measuring, count: nat): Measuring {
    m.(runLength := m.runLength + count, size := m.size + count)
  }

  lemma BlocksSkip(d: Doc, i: nat, notes: seq<nat>, notes': seq<nat>, stack: seq<OpenBlock>)
    requires Sorted(d) && i < |d.marks| == |notes| == |notes'| && !d.marks[i].kind.StartOfBlock?
    requires BlocksOk(d, i, notes, stack)
    requires forall k :: 0 <= k < |d.marks| && d.marks[k].kind.StartOfBlock? ==> notes'[k] == notes[k]
    ensures BlocksOk(d, i + 1, notes', stack)
  {
    hide Pos, Sorted, Span;
    forall k {:trigger d.marks[k]} | 0 <= k < i + 1 && d.marks[k].kind.StartOfBlock?
      ensures (exists h :: 0 <= h < |stack| && stack[h].mark == k) || BlockDone(d, notes', k)
    {
      assert (exists h :: 0 <= h < |stack| && stack[h].mark == k) || BlockDone(d, notes, k);
    }
  }

  /** A closed block: its note holds its span, and the blocks still open are those below it on the stack. */
  lemma BlocksClosed(d: Doc, i: nat, notes: seq<nat>, stack: seq<OpenBlock>)
    requires Sorted(d) && i < |d.marks| == |notes| && d.marks[i].kind.EndOfBlock? && stack != []
    requires BlocksOk(d, i, notes, stack)
    requires var k := stack[|stack| - 1].mark;
             k < |d.marks| && d.marks[k].kind.StartOfBlock? && Span(d, k) < Capacity(d.marks[k].kind.width)
    ensures var k := stack[|stack| - 1].mark;
            BlocksOk(d, i + 1, notes[k := Span(d, k)], stack[..|stack| - 1])
  {
    hide Pos, Sorted, Span;
    var last := |stack| - 1;
    var top := stack[last].mark;
    var notes' := notes[top := Span(d, top)];
    forall k {:trigger d.marks[k]} | 0 <= k < i + 1 && d.marks[k].kind.StartOfBlock?
      ensures (exists h :: 0 <= h < last && stack[..last][h].mark == k) || BlockDone(d, notes', k)
    {
      if k == top {
        assert BlockDone(d, notes', k);
      } else if h :| 0 <= h < |stack| && stack[h].mark == k {
        assert stack[..last][h].mark == k;
      } else {
        assert BlockDone(d, notes, k);
      }
    }
  }

  lemma MeasureOpen(d: Doc, i: nat, m: Measuring)
    requires Sorted(d) && RunsOk(d) && i < |d.marks| && d.marks[i].kind.StartOfBlock? && Measured(d, i, m)
    ensures var w := d.marks[i].kind.width;
            Measured(d, i + 1, Advanced(m, w + |Gap(d, i)|).(stack := m.stack + [OpenBlock(i, m.size + w)]))
  {
    hide Pos, Sorted, Gap, Span, BlockDone, StackOk, RunsOk, NextRun, Other;
    var w := d.marks[i].kind.width;
    var m' := Advanced(m, w + |Gap(d, i)|).(stack := m.stack + [OpenBlock(i, m.size + w)]);
    PosStep(d, i);
    StackPushed(d, i, m.stack);
    OthersSkip(d, i, m, m');
    forall k {:trigger d.marks[k]} | 0 <= k < i + 1 && d.marks[k].kind.StartOfBlock?
      ensures (exists h :: 0 <= h < |m'.stack| && m'.stack[h].mark == k) || BlockDone(d, m'.notes, k)
    {
      if k == i {
        assert m'.stack[|m.stack|].mark == k;
      } else if h :| 0 <= h < |m.stack| && m.stack[h].mark == k {
        assert m'.stack[h].mark == k;
      }
    }
  }

  /** Closing a block stores its span; a span that its prefix cannot hold ends the walk. */
  lemma MeasureClose(d: Doc, i: nat, m: Measuring)
    requires Sorted(d) && RunsOk(d) && Balanced(d.marks) && i < |d.marks| && d.marks[i].kind.EndOfBlock? && Measured(d, i, m)
    ensures m.stack != []
    ensures var top := m.stack[|m.stack| - 1];
            && top.mark < |d.marks| && d.marks[top.mark].kind.StartOfBlock?
            && m.size >= top.start && m.size - top.start == Span(d, top.mark)
            && (m.size - top.start < Capacity(d.marks[top.mark].kind.width) ==>
                  Measured(d, i + 1, Advanced(m, |Gap(d, i)|).(notes := m.notes[top.mark := m.size - top.start],
                                                               stack := m.stack[..|m.stack| - 1])))
  {
    hide Pos, Sorted, Gap, Span, StackOk, BlocksOk, RunsOk, Balanced, NextRun, Other, OthersOk;
    StackPopped(d, i, m.stack);
    var last := |m.stack| - 1;
    var top := m.stack[last];
    if m.size - top.start < Capacity(d.marks[top.mark].kind.width) {
      var m' := Advanced(m, |Gap(d, i)|).(notes := m.notes[top.mark := m.size - top.start], stack := m.stack[..last]);
      PosStep(d, i);
      OthersSkip(d, i, m, m');
      BlocksClosed(d, i, m.notes, m.stack);
    }
  }

  lemma MeasureAlign(d: Doc, i: nat, m: Measuring)
    requires Sorted(d) && RunsOk(d) && i < |d.marks| && d.marks[i].kind.TwoByteAlignment? && Measured(d, i, m)
    ensures Measured(d, i + 1, Advanced(m, m.size % 2 + |Gap(d, i)|).(notes := m.notes[i := m.size % 2]))
  {
    hide Pos, Sorted, Gap, Span, StackOk, BlocksOk, RunsOk, NextRun, Other;
    var m' := Advanced(m, m.size % 2 + |Gap(d, i)|).(notes := m.notes[i := m.size % 2]);
    PosStep(d, i);
    StackSkips(d, i, m.stack);
    BlocksSkip(d, i, m.notes, m'.notes, m.stack);
    OthersSkip(d, i, m, m');
  }

  lemma MeasureEnquiry(d: Doc, i: nat, m: Measuring)
    requires Sorted(d) && RunsOk(d) && i < |d.marks| && d.marks[i].kind.Enquiry? && Measured(d, i, m)
    ensures Measured(d, i + 1, Advanced(m, |Gap(d, i)|))
  {
    hide Pos, Sorted, Gap, Span, StackOk, BlocksOk, RunsOk, NextRun, Other;
    PosStep(d, i);
    StackSkips(d, i, m.stack);
    BlocksSkip(d, i, m.notes, m.notes, m.stack);
    OthersSkip(d, i, m, Advanced(m, |Gap(d, i)|));
  }

  /** Storing a run length touches no other note. */
  lemma RunLengthStored(d: Doc, i: nat, m: Measuring)
    requires Sorted(d) && i <= |d.marks| && Measured(d, i, m) && m.address >= 0
    ensures m.address < |d.marks| && d.marks[m.address].kind.EndOfRun?
  {
  }

  /** A run ends the count of the other-stuff run before it and begins the next one. */
  lemma MeasureRun(d: Doc, i: nat, m: Measuring)
    requires Sorted(d) && RunsOk(d) && i < |d.marks| && d.marks[i].kind.StartOfRun? && Measured(d, i, m)
    ensures i + 1 < |d.marks| && d.marks[i + 1].kind.EndOfRun? && m.address < |d.marks|
    ensures var gap, padded := |Gap(d, i + 1)|, |d.marks[i].kind.text| + m.size % 2;
            var notes := if m.address >= 0 then m.notes[m.address := m.runLength] else m.notes;
            Measured(d, i + 2, Measuring(notes, m.stack, i + 1, gap, m.size + padded + gap))
  {
    hide Pos, Sorted, Gap, Span, StackOk, BlocksOk, OthersOk, RunsOk, NextRun, Other, ItemsFrom, MarkItems;
    RunMarksPaired(d, i);
    if m.address >= 0 {
      RunLengthStored(d, i, m);
    }
    var gap, padded := |Gap(d, i + 1)|, |d.marks[i].kind.text| + m.size % 2;
    var notes := if m.address >= 0 then m.notes[m.address := m.runLength] else m.notes;
    PosStep(d, i);
    PosStep(d, i + 1);
    StackSkips(d, i, m.stack);
    StackSkips(d, i + 1, m.stack);
    BlocksSkip(d, i, m.notes, notes, m.stack);
    BlocksSkip(d, i + 1, notes, notes, m.stack);
    OthersRun(d, i, m, Measuring(notes, m.stack, i + 1, gap, m.size + padded + gap));
  }

  lemma RunMarksPaired(d: Doc, i: nat)
    requires Sorted(d) && RunsOk(d) && StartsRun(d, i)
    ensures i + 1 < |d.marks| && d.marks[i + 1].kind.EndOfRun?
  {
    assert RunOk(d, i);
  }

  lemma MeasureStart(d: Doc)
    requires Sorted(d)
    ensures Measured(d, 0, Measuring(seq(|d.marks|, _ => 0), [], -1, |Gap(d, -1)|, |Gap(d, -1)|))
  {
  }

  /** After a run's end mark the next mark does not end a run. */
  lemma NoStrayEnd(d: Doc, i: nat)
    requires Sorted(d) && RunsOk(d) && i < |d.marks| && (i > 0 ==> !d.marks[i - 1].kind.StartOfRun?)
    ensures !d.marks[i].kind.EndOfRun?
  {
    assert RunOk(d, i);
  }
}
