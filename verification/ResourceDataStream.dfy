/** The resource stream: a caller puts in bytes and marks, and the passes write them out. */
module ResourceDataStream {
  import opened Bytes
  import opened ResourceImage
  import opened ResourceMarks
  import opened ResourceLayout
  import opened ResourceSettling
  import opened ResourceBuilding
  import opened ResourcePasses
  import opened BinaryStream

  /** The run that a caller is in the middle of: the stream before it, its text and what has been
      put in of its compressed form. */
  datatype Progress = Between | Within(before: Doc, text: seq<Byte>, compressed: seq<Byte>)

  datatype Result = Stopped | Written(containsRuns: bool, size: nat, positions: map<nat, int>)

  class ResourceDataStream {
    ghost var progress: Progress
    // The caller's operations so far.
    ghost var script: seq<Item>

    var buffer: array<Byte>
    var numberOfBytesUsed: nat
    var arrayOfMarks: seq<Mark>
    var containsCompressedUnicode: bool

    ghost function Value(): Doc
      requires numberOfBytesUsed <= buffer.Length
      reads this, buffer
    {
      Doc(arrayOfMarks, buffer[..numberOfBytesUsed])
    }

    /** How many blocks are open. */
    ghost function Nesting(): int
      reads this
    {
      Depth(arrayOfMarks, |arrayOfMarks|)
    }

    ghost predicate Valid()
      reads this, buffer
    {
      && numberOfBytesUsed <= buffer.Length
      && match progress
         case Between =>
           && Growing(Value()) && (containsCompressedUnicode <==> HasRuns(Value()))
           && script == Script(Value())
         case Within(before, text, compressed) =>
           && Growing(before) && containsCompressedUnicode && script == Script(before)
           && (HasRuns(before) || (before.buffer == [] && forall k :: 0 <= k < |before.marks| ==> before.marks[k].kind.Enquiry?))
           && Value() == WithBytes(WithMark(before, StartOfRun(text)), compressed)
    }

    constructor ()
      ensures Valid() && progress == Between && script == [] && Value() == Doc([], []) && fresh(buffer)
    {
      progress, script := Between, [];
      buffer := new Byte[0];
      numberOfBytesUsed := 0;
      arrayOfMarks := [];
      containsCompressedUnicode := false;
    }

    method EnsureEnoughSpareBytes(numberOfBytes: nat)
      requires numberOfBytesUsed <= buffer.Length
      modifies this`buffer
      ensures numberOfBytesUsed + numberOfBytes <= buffer.Length
      ensures buffer[..numberOfBytesUsed] == old(buffer[..numberOfBytesUsed])
      ensures buffer == old(buffer) || fresh(buffer)
    {
      var numberOfBytesSpare := buffer.Length - numberOfBytesUsed;
      if numberOfBytes > numberOfBytesSpare {
        var newBuffer := new Byte[buffer.Length + numberOfBytes + 16];
        forall i | 0 <= i < numberOfBytesUsed {
          newBuffer[i] := buffer[i];
        }
        buffer := newBuffer;
      }
    }

    /** Puts bytes at the end of the buffer. */
    method Append(data: seq<Byte>)
      requires numberOfBytesUsed <= buffer.Length
      modifies this`buffer, this`numberOfBytesUsed, buffer
      ensures numberOfBytesUsed <= buffer.Length && Value() == WithBytes(old(Value()), data)
      ensures buffer == old(buffer) || fresh(buffer)
    {
      EnsureEnoughSpareBytes(|data|);
      forall i | 0 <= i < |data| {
        buffer[numberOfBytesUsed + i] := data[i];
      }
      numberOfBytesUsed := numberOfBytesUsed + |data|;
      assert buffer[..numberOfBytesUsed] == old(buffer[..numberOfBytesUsed]) + data;
    }

    /** Bytes of the caller: octets of the script, or more of a compressed run. */
    method StreamIn(data: seq<Byte>)
      requires Valid()
      modifies this`buffer, this`numberOfBytesUsed, this`progress, this`script, buffer
      ensures Valid() && (buffer == old(buffer) || fresh(buffer))
      ensures old(progress).Between? ==>
                progress == Between && script == old(script) + Octets(data) && Value() == WithBytes(old(Value()), data)
      ensures old(progress).Within? ==>
                progress == old(progress).(compressed := old(progress).compressed + data) && script == old(script)
    {
      hide RunsOk, RunsLead, Sorted, Depth, HasRuns, Items, Octets, WithoutLead;
      if progress.Between? {
        BytesGrow(Value(), data);
        SameRuns(Value(), data);
        OnlyOctets(data);
        ScriptGrows(Items(Value()), Octets(data));
        script := script + Octets(data);
      }
      Append(data);
      if progress.Within? {
        progress := progress.(compressed := progress.compressed + data);
        assert Value().buffer == progress.before.buffer + progress.compressed;
      }
    }

    /** Puts bytes of no meaning at the end of the buffer. */
    method MakePlaceHolder(numberOfBytes: nat)
      requires numberOfBytesUsed <= buffer.Length
      modifies this`buffer, this`numberOfBytesUsed, buffer
      ensures numberOfBytesUsed <= buffer.Length && Value() == WithBytes(old(Value()), seq(numberOfBytes, _ => 0xEB))
      ensures buffer == old(buffer) || fresh(buffer)
    {
      Append(seq(numberOfBytes, _ => 0xEB));
    }

    method AppendMark(kind: Kind)
      requires Valid() && progress == Between && !kind.StartOfRun? && !kind.EndOfRun?
      requires kind.EndOfBlock? ==> Nesting() > 0
      modifies this`arrayOfMarks, this`script
      ensures Valid() && progress == Between && script == old(script) + KindItems(kind)
      ensures Value() == WithMark(old(Value()), kind)
      ensures Nesting() == old(Nesting()) + if kind.StartOfBlock? then 1 else if kind.EndOfBlock? then -1 else 0
    {
      hide RunsOk, RunsLead, Sorted, Depth, HasRuns, Items, WithoutLead;
      MarkGrows(Value(), kind);
      ScriptGrows(Items(Value()), KindItems(kind));
      script := script + KindItems(kind);
      arrayOfMarks := arrayOfMarks + [Mark(numberOfBytesUsed, kind)];
    }

    method StartOfBlockWithSizePrefix(width: Width)
      requires Valid() && progress == Between
      modifies this`arrayOfMarks, this`script
      ensures Valid() && progress == Between && script == old(script) + [Open(width)]
      ensures Value() == WithMark(old(Value()), StartOfBlock(width)) && Nesting() == old(Nesting()) + 1
    {
      AppendMark(StartOfBlock(width));
    }

    method EndOfBlockWithSizePrefix()
      requires Valid() && progress == Between && Nesting() > 0
      modifies this`arrayOfMarks, this`script
      ensures Valid() && progress == Between && script == old(script) + [Close]
      ensures Value() == WithMark(old(Value()), EndOfBlock) && Nesting() == old(Nesting()) - 1
    {
      AppendMark(EndOfBlock);
    }

    method TwoByteAlignmentPoint()
      requires Valid() && progress == Between
      modifies this`arrayOfMarks, this`script
      ensures Valid() && progress == Between && script == old(script) + [Align]
      ensures Value() == WithMark(old(Value()), TwoByteAlignment) && Nesting() == old(Nesting())
    {
      AppendMark(TwoByteAlignment);
    }

    method EnquireStreamPositionWhenKnown(slot: nat)
      requires Valid() && progress == Between
      modifies this`arrayOfMarks, this`script
      ensures Valid() && progress == Between && script == old(script) + [Enquire(slot)]
      ensures Value() == WithMark(old(Value()), Enquiry(slot)) && Nesting() == old(Nesting())
    {
      AppendMark(Enquiry(slot));
    }

    /** Begins a compressed run. The first run of a stream that has put anything before it is given
        an empty run at the start. */
    method StartOfCompressedUnicodeRun(text: seq<Byte>)
      requires Valid() && progress == Between
      requires !containsCompressedUnicode && numberOfBytesUsed == 0 ==> NoEarlyAlignment(arrayOfMarks)
      modifies this`arrayOfMarks, this`containsCompressedUnicode, this`progress
      ensures Valid() && progress.Within? && progress.text == text && progress.compressed == []
      ensures progress.before == Led(old(Value())) && script == old(script)
      ensures Depth(progress.before.marks, |progress.before.marks|) == old(Nesting())
    {
      hide RunsOk, RunsLead, Sorted, Depth, Items, WithoutLead;
      if !containsCompressedUnicode {
        var insertZeroLengthRunAtStart := numberOfBytesUsed > 0;
        if !insertZeroLengthRunAtStart {
          var i := 0;
          while i < |arrayOfMarks| && !insertZeroLengthRunAtStart
            invariant i <= |arrayOfMarks|
            invariant insertZeroLengthRunAtStart ==> exists k :: 0 <= k < |arrayOfMarks| && arrayOfMarks[k].kind.StartOfBlock?
            invariant !insertZeroLengthRunAtStart ==>
                        forall k :: 0 <= k < i ==> !arrayOfMarks[k].kind.StartOfBlock? && !arrayOfMarks[k].kind.TwoByteAlignment?
          {
            assert !arrayOfMarks[i].kind.TwoByteAlignment?;
            if arrayOfMarks[i].kind.StartOfBlock? {
              insertZeroLengthRunAtStart := true;
            }
            i := i + 1;
          }
        }
        if insertZeroLengthRunAtStart {
          LeadGrows(Value());
          ScriptWithoutRuns(Value());
          arrayOfMarks := [Mark(0, StartOfRun([])), Mark(0, EndOfRun)] + arrayOfMarks;
        } else {
          OnlyEnquiries(Value());
        }
      }
      progress := Within(Value(), text, []);
      arrayOfMarks := arrayOfMarks + [Mark(numberOfBytesUsed, StartOfRun(text))];
      containsCompressedUnicode := true;
      assert progress.before.buffer + [] == progress.before.buffer;
    }

    method EndOfCompressedUnicodeRun()
      requires Valid() && progress.Within? && 0 < |progress.compressed| < |progress.text|
      modifies this`arrayOfMarks, this`progress, this`script
      ensures Valid() && progress == Between
      ensures script == old(script + [Run(progress.compressed, progress.text)])
      ensures Value() == old(WithRun(progress.before, progress.compressed, progress.text))
      ensures Nesting() == Depth(old(progress).before.marks, |old(progress).before.marks|)
    {
      hide RunsOk, RunsLead, Sorted, Depth, HasRuns, Items, WithoutLead;
      RunGrows(progress.before, progress.compressed, progress.text);
      ScriptGrows(Items(progress.before), [Run(progress.compressed, progress.text)]);
      script := script + [Run(progress.compressed, progress.text)];
      arrayOfMarks := arrayOfMarks + [Mark(numberOfBytesUsed, EndOfRun)];
      progress := Between;
    }

    // Streaming out

    method NumberOfBytesToNextMark(markIndex: int) returns (n: nat)
      requires Valid() && progress == Between && -1 <= markIndex < |arrayOfMarks|
      ensures n == |Gap(Value(), markIndex)|
    {
      ghost var d := Value();
      assert MarkPosition(d, markIndex) <= NextPosition(d, markIndex);
      n := if markIndex + 1 < |arrayOfMarks| then arrayOfMarks[markIndex + 1].position else numberOfBytesUsed;
      if markIndex >= 0 {
        n := n - arrayOfMarks[markIndex].position;
      }
    }

    /** The bytes between a mark and the next one. */
    method BytesToNextMark(markIndex: int) returns (data: seq<Byte>)
      requires Valid() && progress == Between && -1 <= markIndex < |arrayOfMarks|
      ensures data == Gap(Value(), markIndex)
    {
      ghost var d := Value();
      var n := NumberOfBytesToNextMark(markIndex);
      var from := if markIndex >= 0 then arrayOfMarks[markIndex].position else 0;
      assert MarkPosition(d, markIndex) <= NextPosition(d, markIndex) <= |d.buffer|;
      data := buffer[from..from + n];
      assert data == d.buffer[from..from + n];
    }

    /** The first pass at mark `i`, up to the bytes that follow it: `at` is the mark whose bytes come
        next, which for a run is its end mark. */
    method MeasureMark(i: nat, before: Measuring) returns (ok: bool, at: nat, m: Measuring)
      requires Valid() && progress == Between && Balanced(arrayOfMarks) && i < |arrayOfMarks|
      requires Measured(Value(), i, before) && !arrayOfMarks[i].kind.EndOfRun?
      ensures ok ==> i <= at < |arrayOfMarks| && !arrayOfMarks[at].kind.StartOfRun?
                     && Measured(Value(), at + 1, Advanced(m, |Gap(Value(), at)|))
      ensures !ok ==> !PrefixesFit(Value())
    {
      hide Gap, Pos, Sorted, RunsOk, RunsLead, Depth, NextRun, Measured, Items, WithoutLead;
      ghost var d := Value();
      ok, at, m := true, i, before;
      MeasuredSize(d, i, m);
      match arrayOfMarks[i].kind {
        case StartOfBlock(w) =>
          MeasureOpen(d, i, m);
          m := Advanced(m, w);
          m := m.(stack := m.stack + [OpenBlock(i, m.size)]);
        case EndOfBlock =>
          MeasureClose(d, i, m);
          var top := m.stack[|m.stack| - 1];
          var span := m.size - top.start;
          ok := span < Capacity(arrayOfMarks[top.mark].kind.width);
          m := m.(notes := m.notes[top.mark := span], stack := m.stack[..|m.stack| - 1]);
        case StartOfRun(text) =>
          MeasureRun(d, i, m);
          if m.address >= 0 {
            m := m.(notes := m.notes[m.address := m.runLength]);
          }
          at := i + 1;
          m := m.(runLength := 0, size := m.size + (|text| + m.size % 2), address := at);
        case TwoByteAlignment =>
          MeasureAlign(d, i, m);
          var needPaddingByte := m.size % 2;
          m := Advanced(m, needPaddingByte);
          m := m.(notes := m.notes[i := needPaddingByte]);
        case Enquiry(_) =>
          MeasureEnquiry(d, i, m);
      }
    }

    /** The first pass. It fails when a block is too large for its size prefix, and only then. */
    method Measure() returns (ok: bool, notes: seq<nat>, size: nat, last: int)
      requires Valid() && progress == Between && Balanced(arrayOfMarks)
      ensures ok <==> PrefixesFit(Value())
      ensures ok ==> |notes| == |arrayOfMarks| && forall k :: 0 <= k < |notes| ==> NoteOk(Value(), notes, k)
      ensures ok ==> size == Size(Value()) && LastEnd(Value(), last)
    {
      hide Gap, Pos, Sorted, RunsOk, RunsLead, Span, Depth, NextRun, NoteOk, Measured, Items, WithoutLead;
      ghost var d := Value();
      var gap := NumberOfBytesToNextMark(-1);
      var m := Measuring(seq(|arrayOfMarks|, _ => 0), [], -1, gap, gap);
      MeasureStart(d);
      var i := 0;
      while i < |arrayOfMarks|
        invariant i <= |arrayOfMarks| && Measured(d, i, m)
        invariant i > 0 ==> !arrayOfMarks[i - 1].kind.StartOfRun?
      {
        NoStrayEnd(d, i);
        ok, i, m := MeasureMark(i, m);
        if !ok {
          return false, [], 0, -1;
        }
        gap := NumberOfBytesToNextMark(i);
        m := Advanced(m, gap);
        i := i + 1;
      }
      MeasuredAll(d, m);
      MeasuredSize(d, i, m);
      ok, notes, size, last := true, m.notes, m.size, m.address;
      if m.address >= 0 {
        notes := notes[m.address := m.runLength];
      }
    }

    /** The second pass at one run. */
    method ExamineRun(i: nat, size: nat, isTheFirst: bool, notes: seq<nat>, last: int) returns (v: Verdict)
      requires Valid() && progress == Between && StartsRun(Value(), i) && size == Pos(Value(), i)
      requires |notes| == |arrayOfMarks| && forall k :: 0 <= k < |notes| ==> NoteOk(Value(), notes, k)
      requires LastEnd(Value(), last) && (isTheFirst <==> NextRun(arrayOfMarks, 0) == i)
      ensures i + 1 < |arrayOfMarks| && arrayOfMarks[i + 1].kind.EndOfRun?
      ensures v == JudgeRun(Value(), i)
    {
      hide Gap, Pos, Sorted, RunsOk, RunsLead, Span, Depth, Items, WithoutLead, Other;
      ghost var d := Value();
      RunMarksPaired(d, i);
      LastIsLast(d, i, last);
      assert NoteOk(d, notes, i + 1);
      var isTheLast := last == i + 1;
      var worth := |arrayOfMarks[i].kind.text| + size % 2;
      var compressed := NumberOfBytesToNextMark(i);
      v := Clean;
      if isTheLast || !isTheFirst {
        if compressed > LONGEST_RUN {
          return TooLong;
        }
        var cost := SizeOfCompressedInteger(compressed) + compressed;
        if !isTheLast || notes[i + 1] > 0 {
          if notes[i + 1] > LONGEST_RUN {
            return TooLong;
          }
          cost := cost + SizeOfCompressedInteger(notes[i + 1]);
        }
        if cost >= worth {
          return Useless(i);
        }
      }
    }

    /** The second pass: the first run that is not worth its cost, if there is one. `only` says
        whether it is the only run. */
    method Examine(notes: seq<nat>, last: int) returns (v: Verdict, only: bool)
      requires Valid() && progress == Between
      requires |notes| == |arrayOfMarks| && forall k :: 0 <= k < |notes| ==> NoteOk(Value(), notes, k)
      requires LastEnd(Value(), last)
      ensures v == Judge(Value(), 0)
      ensures v.Useless? ==> (only <==> NextRun(arrayOfMarks, 0) == v.r && NextRun(arrayOfMarks, v.r + 1) == |arrayOfMarks|)
    {
      hide Gap, Sorted, RunsOk, RunsLead, Span, Depth, Items, WithoutLead, Other, NoteOk, Judge, JudgeRun, Pos, NextRun;
      ghost var d := Value();
      var size := NumberOfBytesToNextMark(-1);
      PosAtStart(d);
      var encountered := false;
      var i := 0;
      while i < |arrayOfMarks|
        invariant i <= |arrayOfMarks| && size == Pos(d, i) && Judge(d, 0) == Judge(d, i)
        invariant encountered <==> NextRun(arrayOfMarks, 0) < i
        invariant i > 0 ==> !arrayOfMarks[i - 1].kind.StartOfRun?
      {
        NoStrayEnd(d, i);
        if arrayOfMarks[i].kind.StartOfRun? {
          v := ExamineRun(i, size, !encountered, notes, last);
          JudgeStep(d, i);
          if !v.Clean? {
            LastIsLast(d, i, last);
            only := !encountered && last == i + 1;
            return;
          }
          encountered := true;
          EndMarkPassed(d, i);
        } else {
          NotARun(d, i);
          JudgeStep(d, i);
        }
        i, size := MarkPassed(i, size);
      }
      JudgeEnd(d);
      v, only := Clean, false;
    }

    /** Walks over mark `i` and the bytes after it; for a run, over both of its marks. */
    method MarkPassed(i: nat, size: nat) returns (next: nat, size': nat)
      requires Valid() && progress == Between && i < |arrayOfMarks| && size == Pos(Value(), i)
      requires !arrayOfMarks[i].kind.EndOfRun?
      ensures i < next <= |arrayOfMarks| && size' == Pos(Value(), next)
      ensures next == if arrayOfMarks[i].kind.StartOfRun? then i + 2 else i + 1
    {
      hide Gap, Sorted, RunsOk, RunsLead, Span, Depth, Items, WithoutLead, Other, Pos, NextRun;
      ghost var d := Value();
      PosStep(d, i);
      var at := i;
      match arrayOfMarks[i].kind {
        case StartOfRun(text) =>
          RunMarksPaired(d, i);
          size' := size + |text| + size % 2;
          at := i + 1;
          PosStep(d, at);
        case StartOfBlock(w) => size' := size + w;
        case TwoByteAlignment => size' := size + size % 2;
        case EndOfBlock => size' := size;
        case Enquiry(_) => size' := size;
      }
      var gap := NumberOfBytesToNextMark(at);
      size' := size' + gap;
      next := at + 1;
    }

    /** Moves the marks from `from` on. */
    method MoveMarks(from: nat, extra: nat)
      requires from <= |arrayOfMarks|
      modifies this`arrayOfMarks
      ensures arrayOfMarks == old(arrayOfMarks)[..from] + Map(m => Moved(m, extra), old(arrayOfMarks)[from..])
    {
      var i := |arrayOfMarks|;
      while i > from
        invariant from <= i <= |arrayOfMarks| == |old(arrayOfMarks)|
        invariant forall k :: 0 <= k < i ==> arrayOfMarks[k] == old(arrayOfMarks)[k]
        invariant forall k :: i <= k < |arrayOfMarks| ==> arrayOfMarks[k] == Moved(old(arrayOfMarks)[k], extra)
      {
        i := i - 1;
        arrayOfMarks := arrayOfMarks[i := Moved(arrayOfMarks[i], extra)];
      }
    }

    /** Puts `text` in place of the bytes from `start` to `end`, moving what follows. */
    method Splice(start: nat, end: nat, text: seq<Byte>)
      requires start <= end <= numberOfBytesUsed <= buffer.Length && end - start <= |text|
      modifies this`buffer, this`numberOfBytesUsed, buffer
      ensures numberOfBytesUsed <= buffer.Length && (buffer == old(buffer) || fresh(buffer))
      ensures buffer[..numberOfBytesUsed] == old(buffer[..start]) + text + old(buffer[end..numberOfBytesUsed])
    {
      MakeRoom(end, |text| - (end - start));
      forall i | 0 <= i < |text| {
        buffer[start + i] := text[i];
      }
    }

    /** Moves the bytes from `end` on up by `count`. */
    method MakeRoom(end: nat, count: nat)
      requires end <= numberOfBytesUsed <= buffer.Length
      modifies this`buffer, this`numberOfBytesUsed, buffer
      ensures numberOfBytesUsed == old(numberOfBytesUsed) + count <= buffer.Length
      ensures buffer == old(buffer) || fresh(buffer)
      ensures buffer[..end] == old(buffer[..end])
      ensures buffer[end + count..numberOfBytesUsed] == old(buffer[end..numberOfBytesUsed])
    {
      ghost var was := buffer[..numberOfBytesUsed];
      var numberOfBytesToMove := numberOfBytesUsed - end;
      MakePlaceHolder(count);
      ghost var before := buffer[..];
      Lengthened(was, before, seq(count, _ => 0xEB));
      MoveUp(end, count, numberOfBytesToMove);
      RoomMade(was, before, buffer[..], end, count);
    }

    method MoveUp(start: nat, count: nat, numberOfBytesToMove: nat)
      requires start + count + numberOfBytesToMove <= buffer.Length
      modifies buffer
      ensures forall i :: 0 <= i < buffer.Length ==>
                buffer[i] == old(buffer[if start + count <= i < start + count + numberOfBytesToMove then i - count else i])
    {
      forall i | 0 <= i < numberOfBytesToMove {
        buffer[start + count + i] := buffer[start + i];
      }
    }

    /** Drops a compressed run: its text takes its place in the buffer, behind an alignment point. */
    method ConvertCompressedRunToUncompressed(r: nat)
      requires numberOfBytesUsed <= buffer.Length && Sorted(Value()) && RunsOk(Value()) && StartsRun(Value(), r)
      modifies this`arrayOfMarks, this`buffer, this`numberOfBytesUsed, buffer
      ensures numberOfBytesUsed <= buffer.Length && Value() == Converted(old(Value()), r)
      ensures buffer == old(buffer) || fresh(buffer)
    {
      hide RunsLead, Depth, Items, WithoutLead, NextRun, Converted, Gap, RunsOk, Sorted;
      ghost var d := Value();
      RunMarksPaired(d, r);
      RunBounds(d, r);
      var text, start, end := arrayOfMarks[r].kind.text, arrayOfMarks[r].position, arrayOfMarks[r + 1].position;
      var numberOfBytesWhenCompressed := end - start;
      var numberOfExtraBytes := |text| - numberOfBytesWhenCompressed;
      arrayOfMarks := arrayOfMarks[..r] + arrayOfMarks[r + 2..];
      var startOfMarksToUpdate := r;
      if numberOfBytesWhenCompressed > 0 {
        arrayOfMarks := arrayOfMarks[..r] + [Mark(start, TwoByteAlignment)] + arrayOfMarks[r..];
        startOfMarksToUpdate := r + 1;
      }
      if numberOfExtraBytes > 0 {
        Splice(start, end, text);
        MoveMarks(startOfMarksToUpdate, numberOfExtraBytes);
      }
      Rebuilt(d, r, Value());
    }

    /** The third pass at a run: its length and bytes, and the length of what follows it. */
    method WriteRun(out: RCBinaryStream, i: nat, notes: seq<nat>, last: int) returns (ok: bool)
      requires Valid() && progress == Between && StartsRun(Value(), i)
      requires |notes| == |arrayOfMarks| && forall k :: 0 <= k < |notes| ==> NoteOk(Value(), notes, k)
      requires LastEnd(Value(), last) && out.Valid() && out.position == |out.bytes|
      modifies out
      ensures i + 1 < |arrayOfMarks| && arrayOfMarks[i + 1].kind.EndOfRun?
      ensures ok ==> out.Valid() && out.position == |out.bytes| && RunLengthsOk(Value(), i)
                     && out.bytes + Gap(Value(), i + 1) + EmitFrom(Value(), i + 2) == old(out.bytes) + EmitFrom(Value(), i)
      ensures !ok ==> !LengthsOk(Value())
    {
      hide Gap, Pos, Sorted, RunsOk, RunsLead, Span, Depth, Items, WithoutLead, Other, CompressedInteger, EmitFrom, Overwritten;
      ghost var d := Value();
      RunMarksPaired(d, i);
      LastIsLast(d, i, last);
      assert NoteOk(d, notes, i + 1);
      var compressed := BytesToNextMark(i);
      if |compressed| > LONGEST_RUN {
        return false;
      }
      out.WriteCompressedInteger(|compressed|);
      out.Write(compressed);
      if last != i + 1 || notes[i + 1] > 0 {
        if notes[i + 1] > LONGEST_RUN {
          return false;
        }
        out.WriteCompressedInteger(notes[i + 1]);
      }
      ok := true;
      RunWritten(d, i, old(out.bytes));
    }

    /** The third pass at any other mark. */
    method WriteMark(out: RCBinaryStream, i: nat, notes: seq<nat>)
      requires Valid() && progress == Between && i < |arrayOfMarks|
      requires !arrayOfMarks[i].kind.StartOfRun? && !arrayOfMarks[i].kind.EndOfRun?
      requires |notes| == |arrayOfMarks| && NoteOk(Value(), notes, i)
      requires out.Valid() && out.position == |out.bytes|
      modifies out
      ensures out.Valid() && out.position == |out.bytes|
      ensures out.bytes + Gap(Value(), i) + EmitFrom(Value(), i + 1) == old(out.bytes) + EmitFrom(Value(), i)
    {
      hide Gap, Pos, Sorted, RunsOk, RunsLead, Span, Depth, Items, WithoutLead, Other, EmitFrom, LittleEndian, Overwritten;
      ghost var d := Value();
      MarkWritten(d, i, out.bytes);
      match arrayOfMarks[i].kind {
        case StartOfBlock(w) => out.Write(LittleEndian(w, notes[i]));
        case TwoByteAlignment =>
          if notes[i] != 0 {
            out.Write([0xAB]);
          } else {
            assert old(out.bytes) + [] == old(out.bytes);
          }
        case EndOfBlock => assert old(out.bytes) + [] == old(out.bytes);
        case Enquiry(_) => assert old(out.bytes) + [] == old(out.bytes);
      }
    }

    /** The third pass. */
    method WriteOut(out: RCBinaryStream, notes: seq<nat>, last: int) returns (ok: bool, positions: map<nat, int>)
      requires Valid() && progress == Between
      requires |notes| == |arrayOfMarks| && forall k :: 0 <= k < |notes| ==> NoteOk(Value(), notes, k)
      requires LastEnd(Value(), last) && out.Valid() && out.position == |out.bytes|
      modifies out
      ensures ok <==> LengthsOk(Value())
      ensures ok ==> out.Valid() && out.position == |out.bytes| && out.bytes == old(out.bytes) + Emission(Value())
      ensures ok ==> positions == EnquiriesTo(Value(), |arrayOfMarks|, |old(out.bytes)|)
    {
      hide Gap, Pos, Sorted, RunsOk, RunsLead, Span, Depth, Items, WithoutLead, Other, EmitFrom, NoteOk, Overwritten,
           LengthsOk, NextRun, EnquiriesTo, RunLengthsOk, LastEnd, HasRuns;
      ghost var d, base := Value(), out.bytes;
      var gap := BytesToNextMark(-1);
      out.Write(gap);
      Associate(base, gap, EmitFrom(d, 0));
      positions := map[];
      NoEnquiries(d, |base|);
      var i := 0;
      while i < |arrayOfMarks|
        invariant i <= |arrayOfMarks| && out.Valid() && out.position == |out.bytes|
        invariant i > 0 ==> !arrayOfMarks[i - 1].kind.StartOfRun?
        invariant out.bytes + EmitFrom(d, i) == base + Emission(d)
        invariant forall k :: 0 <= k < i && StartsRun(d, k) ==> RunLengthsOk(d, k)
        invariant positions == EnquiriesTo(d, i, |base|)
      {
        NoStrayEnd(d, i);
        EnquiryStep(d, i, |base|);
        assert |out.bytes| == |base| + |Emission(d)| - |EmitFrom(d, i)|;
        var at := i;
        if arrayOfMarks[i].kind.StartOfRun? {
          ok := WriteRun(out, i, notes, last);
          if !ok {
            return;
          }
          at := i + 1;
          EnquiryStep(d, at, |base|);
        } else {
          if arrayOfMarks[i].kind.Enquiry? {
            positions := positions[arrayOfMarks[i].kind.slot := out.position];
          }
          WriteMark(out, i, notes);
        }
        gap := BytesToNextMark(at);
        out.Write(gap);
        i := at + 1;
      }
      NothingEmitted(d);
      assert out.bytes + [] == out.bytes;
      AllRunLengthsOk(d);
      ok := true;
    }

    /** Drops the run at mark `r`; `only` says whether it is the sole run. */
    method Drop(r: nat, only: bool)
      requires Valid() && progress == Between && ResourceMarks.Valid(Value()) && StartsRun(Value(), r) && Droppable(Value(), r)
      requires only <==> NextRun(arrayOfMarks, 0) == r && NextRun(arrayOfMarks, r + 1) == |arrayOfMarks|
      modifies this, buffer
      ensures Valid() && progress == Between && (buffer == old(buffer) || fresh(buffer))
      ensures Value() == Converted(old(Value()), r) && ResourceMarks.Valid(Value())
      ensures |arrayOfMarks| < |old(arrayOfMarks)|
    {
      hide RunsOk, RunsLead, Depth, Items, WithoutLead, NextRun, Converted, Pos, Image;
      DroppableMeans(Value(), r);
      ConvertedValid(Value(), r);
      RunsAfterConversion(Value(), r);
      if only {
        containsCompressedUnicode := false;
      }
      ConvertCompressedRunToUncompressed(r);
      script := Script(Value());
    }

    /** The three passes, up to the first run that is dropped. */
    method Passes(out: RCBinaryStream) returns (finished: bool, result: Result)
      requires Valid() && progress == Between && ResourceMarks.Valid(Value())
      requires out.Valid() && out.position == |out.bytes|
      modifies this, buffer, out
      ensures Valid() && progress == Between && (buffer == old(buffer) || fresh(buffer))
      ensures !finished ==>
                && ResourceMarks.Valid(Value()) && Settle(Value()) == Settle(old(Value()))
                && |arrayOfMarks| < |old(arrayOfMarks)|
                && out.Valid() && out.position == |out.bytes| && out.bytes == old(out.bytes)
      ensures ResourceMarks.Valid(old(Value()))
      ensures finished ==> Reported(old(Value()), Settle(old(Value())), result, old(out.bytes), Value(), out)
    {
      hide RunsOk, RunsLead, Depth, Items, WithoutLead, Judge, PrefixesFit, LengthsOk, NoteOk, Emission, EnquiriesTo,
           NextRun, Settle, Converted, Pos, Sorted, Droppable;
      SettleUnfolded(Value());
      finished := true;
      var ok, notes, size, last := Measure();
      if !ok {
        return true, Stopped;
      }
      var v, only := Examine(notes, last);
      match v {
        case TooLong =>
          return true, Stopped;
        case Useless(r) =>
          Drop(r, only);
          return false, Stopped;
        case Clean =>
          var positions: map<nat, int>;
          ok, positions := WriteOut(out, notes, last);
          return true, if ok then Written(last >= 0, size, positions) else Stopped;
      }
    }

    /** Drops the useless runs one by one, starting again after each, and then writes the resource
        out. It stops exactly when `Settle` refuses, and else leaves and writes what `Settle` gives. */
    method StreamOutReturningWhetherContainsCompressedUnicode(out: RCBinaryStream) returns (result: Result)
      requires Valid() && progress == Between && Balanced(arrayOfMarks)
      requires out.Valid() && out.position == |out.bytes|
      modifies this, buffer, out
      ensures Valid() && progress == Between && ResourceMarks.Valid(old(Value()))
      ensures Reported(old(Value()), Settle(old(Value())), result, old(out.bytes), Value(), out)
    {
      hide RunsOk, RunsLead, Depth, Items, WithoutLead, Settle, Sorted;
      assert ResourceMarks.Valid(Value());
      result := Stopped;
      var finished := false;
      while !finished
        invariant Valid() && progress == Between
        invariant buffer == old(buffer) || fresh(buffer)
        invariant !finished ==>
                    && ResourceMarks.Valid(Value()) && Settle(Value()) == Settle(old(Value()))
                    && out.Valid() && out.position == |out.bytes| && out.bytes == old(out.bytes)
        invariant finished ==> Reported(old(Value()), Settle(old(Value())), result, old(out.bytes), Value(), out)
        decreases !finished, |arrayOfMarks|
      {
        finished, result := Passes(out);
      }
    }
  }

  /** Every alignment point stands after the start of some block. */
  predicate NoEarlyAlignment(marks: seq<Mark>) {
    forall k :: 0 <= k < |marks| && marks[k].kind.TwoByteAlignment? ==>
      exists j :: 0 <= j < k && marks[j].kind.StartOfBlock?
  }

  /** What is left when the marks of a run have been taken out and its text has been put in. */
  lemma Rebuilt(d: Doc, r: nat, d': Doc)
    requires Sorted(d) && RunsOk(d) && StartsRun(d, r) && r + 1 < |d.marks|
    requires d.marks[r].position <= d.marks[r + 1].position <= |d.buffer|
    requires var text, start, end := d.marks[r].kind.text, d.marks[r].position, d.marks[r + 1].position;
             var without, extra := d.marks[..r] + d.marks[r + 2..], |text| - (end - start);
             var with := without[..r] + [Mark(start, TwoByteAlignment)] + without[r..];
             && extra >= 0
             && d'.marks == (if start == end then without
                             else if extra == 0 then with
                             else with[..r + 1] + Map(m => Moved(m, extra), with[r + 1..]))
             && d'.buffer == if extra == 0 then d.buffer else d.buffer[..start] + text + d.buffer[end..]
    ensures d' == Converted(d, r)
  {
    hide Converted, RunsOk, Sorted, Gap;
    var start, end := d.marks[r].position, d.marks[r + 1].position;
    RunBounds(d, r);
    ConvertedIs(d, r);
  }

  lemma Lengthened(was: seq<Byte>, before: seq<Byte>, more: seq<Byte>)
    requires |was| + |more| <= |before| && before[..|was + more|] == was + more
    ensures before[..|was|] == was
  {
    assert before[..|was|] == before[..|was| + |more|][..|was|];
  }

  lemma RoomMade(was: seq<Byte>, before: seq<Byte>, after: seq<Byte>, end: nat, count: nat)
    requires end <= |was| && |was| + count <= |before| == |after| && before[..|was|] == was
    requires forall i :: 0 <= i < |after| ==> after[i] == before[if end + count <= i < |was| + count then i - count else i]
    ensures after[..end] == was[..end] && after[end + count..|was| + count] == was[end..]
  {
    var a, b := after[..end], after[end + count..|was| + count];
    forall i | 0 <= i < end ensures a[i] == was[i] {
      assert before[..|was|][i] == before[i];
    }
    forall i | 0 <= i < |was| - end ensures b[i] == was[end..][i] {
      assert after[end + count + i] == before[end + i] == before[..|was|][end + i];
    }
  }

  /** The end mark of the last run, or -1 when there is none. */
  ghost predicate LastEnd(d: Doc, last: int) {
    && (last >= 0 <==> HasRuns(d)) && last >= -1
    && (last >= 0 ==> last < |d.marks| && d.marks[last].kind.EndOfRun? && NextRun(d.marks, last + 1) == |d.marks|)
  }

  lemma MeasuredSize(d: Doc, i: nat, m: Measuring)
    requires Sorted(d) && i <= |d.marks| && Measured(d, i, m)
    ensures m.size == Pos(d, i) && |m.notes| == |d.marks| && -1 <= m.address < |d.marks|
  {
  }

  /** A run is the last one when its end mark is. */
  lemma LastIsLast(d: Doc, i: nat, last: int)
    requires Sorted(d) && RunsOk(d) && StartsRun(d, i) && LastEnd(d, last)
    ensures i + 1 < |d.marks| && (last == i + 1 <==> NextRun(d.marks, i + 1) == |d.marks|)
    ensures NextRun(d.marks, i + 2) == NextRun(d.marks, i + 1)
  {
    hide Gap, Sorted;
    assert RunOk(d, i) && RunOk(d, last);
  }

  lemma NotARun(d: Doc, i: nat)
    requires Sorted(d) && RunsOk(d) && i < |d.marks| && !d.marks[i].kind.StartOfRun?
    ensures JudgeRun(d, i).Clean?
  {
  }

  lemma JudgeStep(d: Doc, i: nat)
    requires Sorted(d) && RunsOk(d) && i < |d.marks|
    ensures d.marks[i].kind.StartOfRun? ==> i + 1 < |d.marks|
    ensures Judge(d, i) == if JudgeRun(d, i).Clean? then Judge(d, i + 1) else JudgeRun(d, i)
  {
    assert RunOk(d, i);
  }

  lemma JudgeEnd(d: Doc)
    requires Sorted(d) && RunsOk(d)
    ensures Judge(d, |d.marks|) == Clean
  {
  }

  lemma EndMarkPassed(d: Doc, i: nat)
    requires Sorted(d) && RunsOk(d) && StartsRun(d, i)
    ensures i + 1 < |d.marks| && d.marks[i + 1].kind.EndOfRun? && Judge(d, i + 1) == Judge(d, i + 2)
    ensures NextRun(d.marks, 0) <= i
  {
    assert RunOk(d, i);
    JudgeStep(d, i + 1);
  }

  /** Both lengths of a run fit fifteen bits. */
  ghost predicate RunLengthsOk(d: Doc, i: nat)
    requires Sorted(d) && i < |d.marks|
  {
    i + 1 < |d.marks| && |Gap(d, i)| <= LONGEST_RUN && Other(d, i + 1) <= LONGEST_RUN
  }

  lemma AllRunLengthsOk(d: Doc)
    requires Sorted(d) && RunsOk(d)
    requires forall k :: 0 <= k < |d.marks| && StartsRun(d, k) ==> RunLengthsOk(d, k)
    ensures LengthsOk(d)
  {
    hide Gap, Sorted;
    forall i | 0 <= i < |d.marks| && d.marks[i].kind.EndOfRun? ensures Other(d, i) <= LONGEST_RUN {
      assert RunOk(d, i);
      assert StartsRun(d, i - 1) && RunLengthsOk(d, i - 1);
    }
    forall i | 0 <= i < |d.marks| && d.marks[i].kind.StartOfRun? ensures |Gap(d, i)| <= LONGEST_RUN {
      assert StartsRun(d, i) && RunLengthsOk(d, i);
    }
  }

  lemma RunWritten(d: Doc, i: nat, before: seq<Byte>)
    requires Sorted(d) && StartsRun(d, i) && i + 1 < |d.marks| && d.marks[i + 1].kind.EndOfRun?
    ensures before + CompressedInteger(|Gap(d, i)|) + Gap(d, i)
            + (if Counted(d, i + 1) then CompressedInteger(Other(d, i + 1)) else [])
            + Gap(d, i + 1) + EmitFrom(d, i + 2)
            == before + EmitFrom(d, i)
  {
    hide Gap, Pos, Sorted, CompressedInteger, Counted;
  }

  lemma MarkWritten(d: Doc, i: nat, before: seq<Byte>)
    requires Sorted(d) && i < |d.marks|
    ensures before + Prefix(d, i) + Gap(d, i) + EmitFrom(d, i + 1) == before + EmitFrom(d, i)
  {
    hide Gap, Pos, Sorted, Prefix;
  }

  lemma NoEnquiries(d: Doc, base: nat)
    requires Sorted(d)
    ensures EnquiriesTo(d, 0, base) == map[]
  {
  }

  lemma EnquiryStep(d: Doc, i: nat, base: nat)
    requires Sorted(d) && i < |d.marks|
    ensures EnquiriesTo(d, i + 1, base) ==
            if d.marks[i].kind.Enquiry?
            then EnquiriesTo(d, i, base)[d.marks[i].kind.slot := base + |Emission(d)| - |EmitFrom(d, i)|]
            else EnquiriesTo(d, i, base)
  {
    hide Emission, EmitFrom, Sorted;
  }

  /** Only dropping the sole run leaves none. */
  lemma RunsAfterConversion(d: Doc, r: nat)
    requires ResourceMarks.Valid(d) && StartsRun(d, r)
    requires NextRun(d.marks, 0) != r || NextRun(d.marks, r + 1) == |d.marks|
    ensures HasRuns(Converted(d, r)) <==> !(NextRun(d.marks, 0) == r && NextRun(d.marks, r + 1) == |d.marks|)
  {
    hide Converted, Gap;
    assert RunOk(d, r);
    var d', first := Converted(d, r), NextRun(d.marks, 0);
    if Gap(d, r) == [] {
      LeadGapsCount(d);
      forall k | 0 <= k < |d'.marks| ensures d'.marks[k] == d.marks[k + 2] {
        LeadGaps(d, k);
      }
      NextRunIs(d'.marks, 0, |d'.marks|);
    } else {
      ConvertedMarks(d, r);
      if first == r {
        NextRunIs(d'.marks, 0, |d'.marks|);
      } else if first < r {
        NextRunIs(d'.marks, 0, first);
      }
    }
  }

  /** What streaming out reports and writes, given what `Settle` made of the stream. */
  ghost predicate Reported(d: Doc, outcome: Outcome, result: Result, before: seq<Byte>, after: Doc, out: RCBinaryStream)
    reads out
  {
    match outcome
    case Refused => result == Stopped
    case Settled(s) =>
      && Sorted(s) && after == s
      && result == Written(HasRuns(s), Size(s), EnquiriesTo(s, |s.marks|, |before|))
      && out.Valid() && out.position == |out.bytes| && out.bytes == before + Emission(s)
  }

  lemma SettleUnfolded(d: Doc)
    requires ResourceMarks.Valid(d)
    ensures !PrefixesFit(d) ==> Settle(d) == Refused
    ensures PrefixesFit(d) && Judge(d, 0).TooLong? ==> Settle(d) == Refused
    ensures PrefixesFit(d) && Judge(d, 0).Clean? ==> Settle(d) == if LengthsOk(d) then Settled(d) else Refused
    ensures PrefixesFit(d) && Judge(d, 0).Useless? ==>
              ResourceMarks.Valid(Converted(d, Judge(d, 0).r)) && Settle(d) == Settle(Converted(d, Judge(d, 0).r))
  {
    hide PrefixesFit, Converted, Gap, Pos, Other, RunCost, RunWorth;
    if Judge(d, 0).Useless? {
      DroppableMeans(d, Judge(d, 0).r);
      ConvertedValid(d, Judge(d, 0).r);
    }
  }
}
