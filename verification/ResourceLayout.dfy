/** The bytes that a stream writes for a resource, and a reader for them. */
module ResourceLayout {
  import opened Bytes
  import opened ResourceImage
  import opened ResourceMarks
  import D = ScsuDecoder

  const LONGEST_RUN := 0x7FFF

  function CompressedInteger(n: nat): seq<Byte> {
    if n >= 0x80 then [n / 0x100 % 0x80 + 0x80, n % 0x100] else [n]
  }

  function SizeOfCompressedInteger(n: nat): (r: nat)
    ensures r == |CompressedInteger(n)|
  {
    if n >= 0x80 then 2 else 1
  }

  /** A run length is written when more follows it, or when there is anything to count. */
  predicate Counted(d: Doc, i: nat)
    requires Sorted(d) && i < |d.marks|
  {
    NextRun(d.marks, i + 1) < |d.marks| || Other(d, i) > 0
  }

  /** What is written for mark `i` before the bytes that follow it. */
  function Prefix(d: Doc, i: nat): seq<Byte>
    requires Sorted(d) && i < |d.marks|
  {
    match d.marks[i].kind
    case StartOfBlock(w) => LittleEndian(w, Span(d, i))
    case StartOfRun(_) => CompressedInteger(|Gap(d, i)|)
    case EndOfRun => if Counted(d, i) then CompressedInteger(Other(d, i)) else []
    case TwoByteAlignment => if Pos(d, i) % 2 == 1 then [0xAB] else []
    case EndOfBlock => []
    case Enquiry(_) => []
  }

  function EmitFrom(d: Doc, i: nat): seq<Byte>
    requires Sorted(d) && i <= |d.marks|
    decreases |d.marks| - i
  {
    if i == |d.marks| then [] else Prefix(d, i) + Gap(d, i) + EmitFrom(d, i + 1)
  }

  /** Everything written for a resource. */
  function Emission(d: Doc): seq<Byte>
    requires Sorted(d)
  {
    Gap(d, -1) + EmitFrom(d, 0)
  }

  /** The stream positions that the enquiries before mark `i` are given, when writing starts at `base`. */
  function EnquiriesTo(d: Doc, i: nat, base: nat): map<nat, int>
    requires Sorted(d) && i <= |d.marks|
  {
    if i == 0 then map[]
    else
      var earlier := EnquiriesTo(d, i - 1, base);
      match d.marks[i - 1].kind
      case Enquiry(slot) => earlier[slot := base + |Emission(d)| - |EmitFrom(d, i - 1)|]
      case _ => earlier
  }

  predicate HasRuns(d: Doc) {
    NextRun(d.marks, 0) < |d.marks|
  }

  // The reader

  /** The octets of a compressed run, expanded. */
  function Expand(compressed: seq<Byte>): Option<seq<Byte>> {
    match D.Decompress(compressed)
    case None => None
    case Some(text) => Some(UnitBytes(text))
  }

  datatype Length = NoLength | Length(value: nat, rest: seq<Byte>)

  function ReadLength(data: seq<Byte>): (r: Length)
    ensures r.Length? ==> |r.rest| < |data|
  {
    if data == [] then NoLength
    else if data[0] < 0x80 then Length(data[0], data[1..])
    else if |data| == 1 then NoLength
    else Length((data[0] as int - 0x80) * 0x100 + data[1], data[2..])
  }

  /** Reads alternating runs: a compressed one, padded to an even position and expanded, and then
      one that is copied. `done` is what has been read so far. */
  function ReadRuns(data: seq<Byte>, done: seq<Byte>, padding: Byte): Option<seq<Byte>>
    decreases |data|
  {
    if data == [] then Some(done)
    else
      var c := ReadLength(data);
      if c.NoLength? || c.value > |c.rest| then None
      else match Expand(c.rest[..c.value])
        case None => None
        case Some(text) =>
          var expanded := done + (if |done| % 2 == 1 then [padding] else []) + text;
          var after := c.rest[c.value..];
          if after == [] then Some(expanded)
          else
            var other := ReadLength(after);
            if other.NoLength? || other.value > |other.rest| then None
            else ReadRuns(other.rest[other.value..], expanded + other.rest[..other.value], padding)
  }

  function ReadResource(data: seq<Byte>, hasRuns: bool, padding: Byte): Option<seq<Byte>> {
    if hasRuns then ReadRuns(data, [], padding) else Some(data)
  }

  /** A length is read back exactly if it has fifteen bits. */
  lemma LengthIsRead(n: nat, rest: seq<Byte>)
    ensures ReadLength(CompressedInteger(n) + rest) == Length(n, rest) <==> n <= 0x7FFF
  {
    var data := CompressedInteger(n) + rest;
    if n >= 0x80 {
      assert data[2..] == rest;
    } else {
      assert data[1..] == rest;
    }
  }

  // The image, mark by mark

  function CellsFrom(d: Doc, i: nat): seq<Cell>
    requires Sorted(d) && i <= |d.marks|
  {
    Cells(ItemsFrom(d, i), Pos(d, i))
  }

  function Pad(pos: nat): seq<Cell> {
    if pos % 2 == 1 then [Padding] else []
  }

  function MarkCells(d: Doc, i: nat): seq<Cell>
    requires Sorted(d) && i < |d.marks|
  {
    match d.marks[i].kind
    case StartOfBlock(w) => FixedCells(LittleEndian(w, Span(d, i))) + FixedCells(Gap(d, i))
    case StartOfRun(text) => Pad(Pos(d, i)) + FixedCells(text)
    case TwoByteAlignment => Pad(Pos(d, i)) + FixedCells(Gap(d, i))
    case EndOfRun => FixedCells(Gap(d, i))
    case EndOfBlock => FixedCells(Gap(d, i))
    case Enquiry(_) => FixedCells(Gap(d, i))
  }

  lemma ItemThenGap(item: Item, gap: seq<Byte>, rest: seq<Item>, pos: nat)
    ensures Cells([item] + Octets(gap) + rest, pos) ==
            ItemCells(item, pos, Octets(gap) + rest) + FixedCells(gap) + Cells(rest, After(item, pos) + |gap|)
  {
    hide Cells, ItemCells, FixedCells, Octets, Fits, CloseAt;
    Associate([item], Octets(gap), rest);
    ConsImage(item, Octets(gap) + rest, pos, 0);
    CellsAfterOctets(gap, rest, After(item, pos));
    Associate(ItemCells(item, pos, Octets(gap) + rest), FixedCells(gap), Cells(rest, After(item, pos) + |gap|));
  }

  lemma PosStep(d: Doc, i: nat)
    requires Sorted(d) && i < |d.marks|
    ensures Pos(d, i + 1) == AfterMark(d, i, Pos(d, i))
    ensures ItemsFrom(d, i) == MarkItems(d, i) + ItemsFrom(d, i + 1)
  {
  }

  lemma BlockSpan(d: Doc, i: nat)
    requires Sorted(d) && i < |d.marks| && d.marks[i].kind.StartOfBlock?
    ensures CloseAt(Octets(Gap(d, i)) + ItemsFrom(d, i + 1), Pos(d, i) + d.marks[i].kind.width, 0)
            == Pos(d, i) + d.marks[i].kind.width + Span(d, i)
  {
    hide CloseAt, Octets, Gap, ItemsFrom, Pos, CloseMark, Depth, Sorted;
    PosStep(d, i);
    CloseAfterOctets(Gap(d, i), ItemsFrom(d, i + 1), Pos(d, i) + d.marks[i].kind.width, 0);
    CloseMarkAgrees(d, i + 1, 0);
  }

  /** The prefix that the passes compute for a block is the one that the image holds. */
  lemma MarkCellsStep(d: Doc, i: nat)
    requires Sorted(d) && i < |d.marks|
    ensures CellsFrom(d, i) == MarkCells(d, i) + CellsFrom(d, i + 1)
  {
    hide Cells, CloseAt, FixedCells, LittleEndian, Octets, Gap, Pos, ItemsFrom, CloseMark, Sorted, Span;
    PosStep(d, i);
    var gap, rest, pos := Gap(d, i), ItemsFrom(d, i + 1), Pos(d, i);
    match d.marks[i].kind {
      case EndOfRun => CellsAfterOctets(gap, rest, pos);
      case StartOfRun(_) => ConsImage(MarkItems(d, i)[0], rest, pos, 0);
      case StartOfBlock(w) => BlockSpan(d, i); ItemThenGap(Open(w), gap, rest, pos);
      case TwoByteAlignment => ItemThenGap(Align, gap, rest, pos);
      case EndOfBlock => ItemThenGap(Close, gap, rest, pos);
      case Enquiry(slot) => ItemThenGap(Enquire(slot), gap, rest, pos);
    }
  }

  // Between two compressed runs, what is written is what the image holds

  function PlainBytes(d: Doc, i: nat, j: nat): seq<Byte>
    requires Sorted(d) && i <= j <= |d.marks|
    decreases j - i
  {
    if i == j then [] else Prefix(d, i) + Gap(d, i) + PlainBytes(d, i + 1, j)
  }

  function PlainCells(d: Doc, i: nat, j: nat): seq<Cell>
    requires Sorted(d) && i <= j <= |d.marks|
    decreases j - i
  {
    if i == j then [] else MarkCells(d, i) + PlainCells(d, i + 1, j)
  }

  ghost predicate NoRunMarks(d: Doc, i: nat, j: nat)
    requires i <= j <= |d.marks|
  {
    forall k :: i <= k < j ==> !d.marks[k].kind.StartOfRun? && !d.marks[k].kind.EndOfRun?
  }

  lemma {:induction false} EmitSplit(d: Doc, i: nat, j: nat)
    requires Sorted(d) && i <= j <= |d.marks|
    ensures EmitFrom(d, i) == PlainBytes(d, i, j) + EmitFrom(d, j)
    decreases j - i
  {
    hide Prefix, Gap, Sorted;
    if i < j {
      EmitSplit(d, i + 1, j);
      Associate(Prefix(d, i) + Gap(d, i), PlainBytes(d, i + 1, j), EmitFrom(d, j));
    }
  }

  /** The last enquiry of a slot is answered with the position that writing has got to: the octets
      before the marks and those of the marks before the enquiry. */
  lemma {:induction false} EnquiryIsAnswered(d: Doc, i: nat, n: nat, base: nat)
    requires Sorted(d) && i < n <= |d.marks| && d.marks[i].kind.Enquiry?
    requires forall k :: i < k < n && d.marks[k].kind.Enquiry? ==> d.marks[k].kind.slot != d.marks[i].kind.slot
    ensures var slot, before := d.marks[i].kind.slot, Gap(d, -1) + PlainBytes(d, 0, i);
            && before <= Emission(d)
            && slot in EnquiriesTo(d, n, base) && EnquiriesTo(d, n, base)[slot] == base + |before|
  {
    hide Prefix, Gap, Sorted, PlainBytes, EmitFrom;
    EmitSplit(d, 0, i);
    Associate(Gap(d, -1), PlainBytes(d, 0, i), EmitFrom(d, i));
    if n > i + 1 {
      EnquiryIsAnswered(d, i, n - 1, base);
    }
  }

  /** An alignment point at an odd position writes the octet 0xAB, and at an even one nothing. */
  lemma AlignmentWrites(d: Doc, i: nat)
    requires Sorted(d) && i < |d.marks| && d.marks[i].kind.TwoByteAlignment?
    ensures PlainBytes(d, i, i + 1) == if Pos(d, i) % 2 == 0 then Gap(d, i) else [0xAB] + Gap(d, i)
  {
    hide Gap, Pos, Sorted;
    assert PlainBytes(d, i + 1, i + 1) == [];
  }

  lemma {:induction false} CellsSplit(d: Doc, i: nat, j: nat)
    requires Sorted(d) && i <= j <= |d.marks|
    ensures CellsFrom(d, i) == PlainCells(d, i, j) + CellsFrom(d, j)
    decreases j - i
  {
    hide MarkCells, CellsFrom, Sorted;
    if i < j {
      MarkCellsStep(d, i);
      CellsSplit(d, i + 1, j);
      Associate(MarkCells(d, i), PlainCells(d, i + 1, j), CellsFrom(d, j));
    }
  }

  lemma MarkMatches(d: Doc, i: nat)
    requires Sorted(d) && i < |d.marks| && !d.marks[i].kind.StartOfRun? && !d.marks[i].kind.EndOfRun?
    ensures Matches(Prefix(d, i) + Gap(d, i), MarkCells(d, i))
    ensures |Prefix(d, i) + Gap(d, i)| == Pos(d, i + 1) - Pos(d, i)
  {
    hide LittleEndian, Gap, Pos, Span, Sorted, Matches, FixedCells, ItemsFrom;
    PosStep(d, i);
    var gap, pos := Gap(d, i), Pos(d, i);
    OwnCells(gap);
    NothingMatches();
    match d.marks[i].kind {
      case StartOfBlock(w) =>
        OwnCells(LittleEndian(w, Span(d, i)));
        MatchesConcat(LittleEndian(w, Span(d, i)), gap, FixedCells(LittleEndian(w, Span(d, i))), FixedCells(gap));
      case TwoByteAlignment =>
        MatchesConcat(Prefix(d, i), gap, Pad(pos), FixedCells(gap));
      case EndOfBlock => NoPrefix(gap);
      case Enquiry(_) => NoPrefix(gap);
    }
  }

  lemma OwnCells(data: seq<Byte>)
    ensures Matches(data, FixedCells(data))
  {
  }

  lemma NoPrefix(gap: seq<Byte>)
    ensures [] + gap == gap
  {
  }

  lemma {:induction false} PlainMatches(d: Doc, i: nat, j: nat)
    requires Sorted(d) && i <= j <= |d.marks| && NoRunMarks(d, i, j)
    ensures Matches(PlainBytes(d, i, j), PlainCells(d, i, j))
    ensures |PlainBytes(d, i, j)| == Pos(d, j) - Pos(d, i)
    decreases j - i
  {
    hide Prefix, Gap, MarkCells, Pos, Sorted, Matches;
    if i < j {
      MarkMatches(d, i);
      PlainMatches(d, i + 1, j);
      MatchesConcat(Prefix(d, i) + Gap(d, i), PlainBytes(d, i + 1, j), MarkCells(d, i), PlainCells(d, i + 1, j));
    } else {
      NothingMatches();
    }
  }

  lemma NothingMatches()
    ensures Matches([], [])
  {
  }

  /** From one run to the next: the end mark, then marks that are not of runs. */
  lemma NoRunBetween(d: Doc, i: nat)
    requires Sorted(d) && RunsOk(d) && i <= |d.marks|
    requires i > 0 ==> !d.marks[i - 1].kind.StartOfRun?
    ensures NoRunMarks(d, i, NextRun(d.marks, i))
  {
    hide Gap;
    forall k | i <= k < NextRun(d.marks, i) ensures !d.marks[k].kind.EndOfRun? {
      assert RunOk(d, k);
    }
  }

  // Reading back

  ghost predicate LengthsOk(d: Doc)
    requires Sorted(d)
  {
    && (forall i :: 0 <= i < |d.marks| && d.marks[i].kind.StartOfRun? ==> |Gap(d, i)| <= LONGEST_RUN)
    && (forall i :: 0 <= i < |d.marks| && d.marks[i].kind.EndOfRun? ==> Other(d, i) <= LONGEST_RUN)
  }

  /** Every compressed run expands to the text that was put in with it. */
  ghost predicate Unpacks(d: Doc)
    requires Sorted(d)
  {
    forall i :: 0 <= i < |d.marks| && d.marks[i].kind.StartOfRun? ==> Expand(Gap(d, i)) == Some(d.marks[i].kind.text)
  }

  /** What is written and what is denoted after the end mark of a run, up to the next run. */
  lemma OtherStuff(d: Doc, e: nat)
    requires Sorted(d) && RunsOk(d) && e < |d.marks| && d.marks[e].kind.EndOfRun?
    ensures var next, plain := NextRun(d.marks, e + 1), Gap(d, e) + PlainBytes(d, e + 1, NextRun(d.marks, e + 1));
            && EmitFrom(d, e) == Prefix(d, e) + plain + EmitFrom(d, next)
            && |plain| == Other(d, e) == Pos(d, next) - Pos(d, e)
            && Matches(plain, FixedCells(Gap(d, e)) + PlainCells(d, e + 1, next))
            && CellsFrom(d, e) == FixedCells(Gap(d, e)) + PlainCells(d, e + 1, next) + CellsFrom(d, next)
  {
    hide Prefix, Gap, Pos, Sorted, Expand, CellsFrom, RunsOk, NextRun, Other, EmitFrom, PlainBytes, PlainCells, Matches, FixedCells,
      NoRunMarks, MarkCells;
    EndOfRunStep(d, e);
    var next := NextRun(d.marks, e + 1);
    NoRunBetween(d, e + 1);
    PlainMatches(d, e + 1, next);
    EmitSplit(d, e + 1, next);
    CellsSplit(d, e + 1, next);
    MarkCellsStep(d, e);
    OwnCells(Gap(d, e));
    MatchesConcat(Gap(d, e), PlainBytes(d, e + 1, next), FixedCells(Gap(d, e)), PlainCells(d, e + 1, next));
    Associate(FixedCells(Gap(d, e)), PlainCells(d, e + 1, next), CellsFrom(d, next));
    Associate(Prefix(d, e), Gap(d, e), PlainBytes(d, e + 1, next));
    Associate(Prefix(d, e) + Gap(d, e), PlainBytes(d, e + 1, next), EmitFrom(d, next));
  }

  lemma EndOfRunStep(d: Doc, e: nat)
    requires Sorted(d) && RunsOk(d) && e < |d.marks| && d.marks[e].kind.EndOfRun?
    ensures EmitFrom(d, e) == Prefix(d, e) + Gap(d, e) + EmitFrom(d, e + 1) && MarkCells(d, e) == FixedCells(Gap(d, e))
    ensures Pos(d, e + 1) == Pos(d, e) + |Gap(d, e)| && Other(d, e) == Pos(d, NextRun(d.marks, e + 1)) - Pos(d, e)
  {
    hide Prefix, Gap, Sorted, RunsOk, FixedCells, NextRun;
    PosStep(d, e);
  }

  function Expanded(done: seq<Byte>, padding: Byte, text: seq<Byte>): seq<Byte> {
    done + (if |done| % 2 == 1 then [padding] else []) + text
  }

  lemma LastRunIsRead(gap: seq<Byte>, text: seq<Byte>, done: seq<Byte>, padding: Byte)
    requires |gap| <= LONGEST_RUN && Expand(gap) == Some(text)
    ensures ReadRuns(CompressedInteger(|gap|) + gap, done, padding) == Some(Expanded(done, padding, text))
  {
    hide Expand, ReadLength;
    LengthIsRead(|gap|, gap);
    assert gap[..|gap|] == gap && gap[|gap|..] == [];
  }

  lemma RunPairIsRead(gap: seq<Byte>, text: seq<Byte>, plain: seq<Byte>, later: seq<Byte>, done: seq<Byte>, padding: Byte)
    requires |gap| <= LONGEST_RUN && |plain| <= LONGEST_RUN && Expand(gap) == Some(text)
    ensures ReadRuns(CompressedInteger(|gap|) + (gap + (CompressedInteger(|plain|) + (plain + later))), done, padding)
            == ReadRuns(later, Expanded(done, padding, text) + plain, padding)
  {
    hide Expand, ReadLength;
    var after := CompressedInteger(|plain|) + (plain + later);
    LengthIsRead(|gap|, gap + after);
    LengthIsRead(|plain|, plain + later);
    assert (gap + after)[..|gap|] == gap && (gap + after)[|gap|..] == after;
    assert (plain + later)[..|plain|] == plain && (plain + later)[|plain|..] == later;
  }

  /** The step of the induction: a run, the bytes after it, and `x'`, read from the next run on. */
  lemma ReadOneRun(d: Doc, r: nat, done: seq<Byte>, padding: Byte, x': seq<Byte>) returns (x: seq<Byte>)
    requires Sorted(d) && RunsOk(d) && LengthsOk(d) && Unpacks(d)
    requires r + 1 < |d.marks| && d.marks[r].kind.StartOfRun? && d.marks[r + 1].kind.EndOfRun? && |done| == Pos(d, r)
    requires Counted(d, r + 1)
    requires var next := NextRun(d.marks, r + 2);
             var done' := Expanded(done, padding, d.marks[r].kind.text) + Gap(d, r + 1) + PlainBytes(d, r + 2, next);
             ReadRuns(EmitFrom(d, next), done', padding) == Some(done' + x') && Matches(x', CellsFrom(d, next))
    ensures ReadRuns(EmitFrom(d, r), done, padding) == Some(done + x) && Matches(x, CellsFrom(d, r))
  {
    hide Gap, Pos, Sorted, Expand, CompressedInteger, ReadRuns, FixedCells, CellsFrom, EmitFrom, Other, Matches,
         RunsOk, PlainBytes, Counted, Pad;
    var gap, text, e, next := Gap(d, r), d.marks[r].kind.text, r + 1, NextRun(d.marks, r + 2);
    var plain, later := Gap(d, e) + PlainBytes(d, e + 1, next), EmitFrom(d, next);
    OtherStuff(d, e);
    RunLayout(d, r);
    Associate(CompressedInteger(|plain|), plain, later);
    RunPairIsRead(gap, text, plain, later, done, padding);
    var pad: seq<Byte> := if |done| % 2 == 1 then [padding] else [];
    TextMatches(Pos(d, r), pad, text);
    var otherCells := FixedCells(Gap(d, e)) + PlainCells(d, e + 1, next);
    x := (pad + text) + (plain + x');
    MatchesConcat(plain, x', otherCells, CellsFrom(d, next));
    MatchesConcat(pad + text, plain + x', Pad(Pos(d, r)) + FixedCells(text), otherCells + CellsFrom(d, next));
    Associate(Expanded(done, padding, text), Gap(d, e), PlainBytes(d, e + 1, next));
    JoinFive(done, pad, text, Gap(d, e), PlainBytes(d, e + 1, next), x');
  }

  lemma JoinFive(a: seq<Byte>, b: seq<Byte>, c: seq<Byte>, d: seq<Byte>, e: seq<Byte>, f: seq<Byte>)
    ensures a + b + c + d + e + f == a + ((b + c) + ((d + e) + f))
  {
  }

  /** A run is its length, its bytes and the rest; it denotes padding, its text and the rest. */
  lemma RunLayout(d: Doc, r: nat)
    requires Sorted(d) && r < |d.marks| && d.marks[r].kind.StartOfRun?
    ensures EmitFrom(d, r) == CompressedInteger(|Gap(d, r)|) + (Gap(d, r) + EmitFrom(d, r + 1))
    ensures CellsFrom(d, r) == Pad(Pos(d, r)) + FixedCells(d.marks[r].kind.text) + CellsFrom(d, r + 1)
  {
    hide Gap, Pos, Sorted, CompressedInteger, CellsFrom, FixedCells, Pad;
    MarkCellsStep(d, r);
    Associate(CompressedInteger(|Gap(d, r)|), Gap(d, r), EmitFrom(d, r + 1));
  }

  /** The last run, when nothing follows it. */
  lemma ReadLastRun(d: Doc, r: nat, done: seq<Byte>, padding: Byte) returns (x: seq<Byte>)
    requires Sorted(d) && RunsOk(d) && LengthsOk(d) && Unpacks(d)
    requires r + 1 < |d.marks| && d.marks[r].kind.StartOfRun? && d.marks[r + 1].kind.EndOfRun? && |done| == Pos(d, r)
    requires !Counted(d, r + 1)
    ensures ReadRuns(EmitFrom(d, r), done, padding) == Some(done + x) && Matches(x, CellsFrom(d, r))
  {
    hide Gap, Pos, Sorted, Expand, CompressedInteger, ReadRuns, FixedCells, CellsFrom, EmitFrom, Other, Matches,
         RunsOk, PlainBytes, PlainCells, Pad;
    var gap, text, e := Gap(d, r), d.marks[r].kind.text, r + 1;
    OtherStuff(d, e);
    NothingAfter(d, e);
    RunLayout(d, r);
    var pad: seq<Byte> := if |done| % 2 == 1 then [padding] else [];
    TextMatches(Pos(d, r), pad, text);
    LastRunIsRead(gap, text, done, padding);
    assert gap + [] == gap;
    x := pad + text;
    Associate(done, pad, text);
    var cells := Pad(Pos(d, r)) + FixedCells(text);
    assert cells + [] == cells;
  }

  lemma NothingAfter(d: Doc, e: nat)
    requires Sorted(d) && RunsOk(d) && e < |d.marks| && d.marks[e].kind.EndOfRun? && !Counted(d, e)
    ensures EmitFrom(d, e) == [] && CellsFrom(d, e) == []
  {
    hide Gap, Pos, Sorted, FixedCells, CellsFrom, Other, RunsOk, PlainBytes, PlainCells;
    OtherStuff(d, e);
    EmptyImage(d);
  }

  lemma {:induction false} ReadFrom(d: Doc, r: nat, done: seq<Byte>, padding: Byte) returns (x: seq<Byte>)
    requires Sorted(d) && RunsOk(d) && LengthsOk(d) && Unpacks(d)
    requires r <= |d.marks| && (r < |d.marks| ==> d.marks[r].kind.StartOfRun?) && |done| == Pos(d, r)
    ensures ReadRuns(EmitFrom(d, r), done, padding) == Some(done + x)
    ensures Matches(x, CellsFrom(d, r))
    decreases |d.marks| - r
  {
    hide Gap, Pos, Sorted, Expand, CompressedInteger, ReadRuns, EmitFrom, CellsFrom, Matches, Other;
    if r == |d.marks| {
      x := [];
      NothingIsLeft(d, done, padding);
    } else {
      assert RunOk(d, r);
      if Counted(d, r + 1) {
        var next := NextRun(d.marks, r + 2);
        OtherStuff(d, r + 1);
        PosStep(d, r);
        var done' := Expanded(done, padding, d.marks[r].kind.text) + Gap(d, r + 1) + PlainBytes(d, r + 2, next);
        var x' := ReadFrom(d, next, done', padding);
        x := ReadOneRun(d, r, done, padding, x');
      } else {
        x := ReadLastRun(d, r, done, padding);
      }
    }
  }

  lemma NothingIsLeft(d: Doc, done: seq<Byte>, padding: Byte)
    requires Sorted(d)
    ensures ReadRuns(EmitFrom(d, |d.marks|), done, padding) == Some(done + [])
    ensures Matches([], CellsFrom(d, |d.marks|))
  {
    assert done + [] == done;
  }

  lemma EmptyImage(d: Doc)
    requires Sorted(d)
    ensures CellsFrom(d, |d.marks|) == []
  {
  }

  lemma TextMatches(pos: nat, pad: seq<Byte>, text: seq<Byte>)
    requires |pad| == pos % 2
    ensures Matches(pad + text, Pad(pos) + FixedCells(text))
  {
  }

  /** Before the first run there is nothing, written or denoted. */
  lemma {:induction false} NothingBeforeFirst(d: Doc, k: nat)
    requires Sorted(d) && RunsLead(d) && HasRuns(d) && k <= NextRun(d.marks, 0)
    ensures Gap(d, -1) == [] && Pos(d, NextRun(d.marks, 0)) == 0
    ensures EmitFrom(d, k) == EmitFrom(d, NextRun(d.marks, 0)) && CellsFrom(d, k) == CellsFrom(d, NextRun(d.marks, 0))
    decreases NextRun(d.marks, 0) - k
  {
    hide CellsFrom, FixedCells, EmitFrom, Cells, NextRun, Gap, RunsLead, Sorted, Pos;
    var first := NextRun(d.marks, 0);
    NothingBefore(d, first);
    if k < first {
      NothingBeforeFirst(d, k + 1);
      GapBeforeFirst(d, k);
      MarkCellsStep(d, k);
      EmptyMark(d, k);
    }
  }

  lemma EmptyMark(d: Doc, k: nat)
    requires Sorted(d) && k < |d.marks| && d.marks[k].kind.Enquiry? && Gap(d, k) == []
    ensures MarkCells(d, k) == [] && EmitFrom(d, k) == EmitFrom(d, k + 1)
    ensures MarkCells(d, k) + CellsFrom(d, k + 1) == CellsFrom(d, k + 1)
  {
    hide Sorted, Gap, CellsFrom;
  }

  /** Nothing lies between the marks before the first run, and those are enquiries. */
  lemma GapBeforeFirst(d: Doc, k: int)
    requires Sorted(d) && RunsLead(d) && HasRuns(d) && -1 <= k < NextRun(d.marks, 0)
    ensures Gap(d, k) == [] && (k >= 0 ==> d.marks[k].kind.Enquiry?)
  {
    hide NextRun, Sorted;
    var first := NextRun(d.marks, 0);
    SortedBefore(d, k + 1, first);
  }

  lemma PosAtStart(d: Doc)
    requires Sorted(d)
    ensures Pos(d, 0) == |Gap(d, -1)|
  {
  }

  lemma {:induction false} NothingBefore(d: Doc, k: nat)
    requires Sorted(d) && RunsLead(d) && HasRuns(d) && k <= NextRun(d.marks, 0)
    ensures Gap(d, -1) == [] && Pos(d, k) == 0
  {
    hide NextRun, Pos, Gap, ItemsFrom, MarkItems, RunsLead, Sorted;
    GapBeforeFirst(d, -1);
    PosAtStart(d);
    if k > 0 {
      NothingBefore(d, k - 1);
      GapBeforeFirst(d, k - 1);
      PosStep(d, k - 1);
    }
  }

  /** A reader of what is written finds the uncompressed image, whatever octet it pads with. */
  lemma ReadBack(d: Doc, padding: Byte)
    requires Valid(d) && LengthsOk(d) && Unpacks(d)
    ensures var r := ReadResource(Emission(d), HasRuns(d), padding);
            r.Some? && Matches(r.value, Image(d))
  {
    hide Gap, Pos, Sorted, RunsOk, RunsLead, Balanced, LengthsOk, Unpacks, ReadRuns, EmitFrom, Matches, Image;
    if HasRuns(d) {
      ReadBackRuns(d, padding);
    } else {
      ReadBackPlain(d);
    }
  }

  lemma ReadBackRuns(d: Doc, padding: Byte)
    requires Valid(d) && LengthsOk(d) && Unpacks(d) && HasRuns(d)
    ensures ReadRuns(Emission(d), [], padding).Some? && Matches(ReadRuns(Emission(d), [], padding).value, Image(d))
  {
    hide Gap, Pos, Sorted, RunsOk, RunsLead, Balanced, LengthsOk, Unpacks, ReadRuns, EmitFrom, CellsFrom, Matches, Image, FixedCells;
    var first := NextRun(d.marks, 0);
    NothingBefore(d, first);
    NothingBeforeFirst(d, 0);
    var x := ReadFrom(d, first, [], padding);
    ImageFromStart(d);
    NoFixedCells();
    assert [] + x == x && [] + EmitFrom(d, first) == EmitFrom(d, first) && [] + CellsFrom(d, first) == CellsFrom(d, first);
  }

  lemma ReadBackPlain(d: Doc)
    requires Sorted(d) && RunsOk(d) && !HasRuns(d)
    ensures Matches(Emission(d), Image(d))
  {
    hide Gap, Pos, Sorted, RunsOk, EmitFrom, CellsFrom, PlainBytes, PlainCells, Matches, Image, FixedCells;
    var n := |d.marks|;
    NoRunBetween(d, 0);
    PlainMatches(d, 0, n);
    EmitSplit(d, 0, n);
    CellsSplit(d, 0, n);
    EmptyImage(d);
    NothingEmitted(d);
    ImageFromStart(d);
    MatchesConcat(Gap(d, -1), PlainBytes(d, 0, n), FixedCells(Gap(d, -1)), PlainCells(d, 0, n));
    assert PlainBytes(d, 0, n) + [] == PlainBytes(d, 0, n) && PlainCells(d, 0, n) + [] == PlainCells(d, 0, n);
  }

  lemma NothingEmitted(d: Doc)
    requires Sorted(d)
    ensures EmitFrom(d, |d.marks|) == []
  {
  }

  lemma NoFixedCells()
    ensures FixedCells([]) == []
  {
  }

  lemma ImageFromStart(d: Doc)
    requires Sorted(d)
    ensures Image(d) == FixedCells(Gap(d, -1)) + CellsFrom(d, 0)
  {
    hide Gap, Cells, FixedCells, Octets;
    CellsAfterOctets(Gap(d, -1), ItemsFrom(d, 0), 0);
  }
}
