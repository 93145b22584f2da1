/** Files of characters that are read without complaint and yet are not told by their tables. */
module CharacterLimits {
  import opened Bytes
  import opened Trie
  import opened CharacterData
  import opened JaggedPlane

  /** A record of its own for each value, by fields that a line gives freely: the bidirectional category
      and the combining class. */
  function Info(value: nat): Data {
    Data(0, value / 250 % 256, value % 250, 0, 0, 0)
  }

  function InfoOf(code: nat): Data {
    Info(Value(Step(code)))
  }

  /** Every code of the first plane, listed. */
  function JaggedLines(): (lines: seq<Line>)
    ensures |lines| == PLANE && Ascending(lines)
    ensures forall code :: 0 <= code < PLANE ==> lines[code] == Line(code, InfoOf(code), false)
  {
    seq(PLANE, code requires 0 <= code < PLANE => Line(code, InfoOf(code), false))
  }

  function Infos(n: nat): (r: seq<Data>)
    ensures |r| == n && forall i :: 0 <= i < n ==> r[i] == Info(i)
  {
    seq(n, i requires 0 <= i < n => Info(i))
  }

  lemma FirstLap(step: nat)
    requires step < VALUES
    ensures Value(step) == step
  {
  }

  /** The record of one more change: new in the first lap, and known after that. */
  lemma NextRecord(step: nat)
    requires step <= STEPS
    ensures WithRecord(Infos(Min(step, VALUES)), Info(Value(step))) == Infos(Min(step + 1, VALUES))
  {
    hide Value, Step;
    if step < VALUES {
      FirstLap(step);
      assert Infos(step) + [Info(step)] == Infos(step + 1);
    } else {
      ValueBelow(step);
      assert Infos(VALUES)[Value(step)] == Info(Value(step));
    }
  }

  lemma ValueBelow(step: nat)
    requires step <= STEPS
    ensures Value(step) < VALUES
  {
    hide InLap;
    if step < STEPS {
      NextValue(step);
    } else {
      LastValue();
    }
  }

  lemma InfosDiffer(value: nat, other: nat)
    requires value < VALUES && other < VALUES && value != other
    ensures Info(value) != Info(other)
  {
  }

  /** What has been read of the first lines: a range for each change, and a record for each value. */
  lemma {:induction false} LinesSoFar(n: nat, unassigned: Data)
    requires 0 < n <= PLANE
    ensures var r := ReadUpTo(JaggedLines(), n, unassigned);
            && r.prev == n - 1 && r.info == InfoOf(n - 1)
            && |r.spans| == Step(n - 1) + 1 && Records(r.spans) == Infos(Min(Step(n - 1) + 1, VALUES))
  {
    hide Value, Step, Records, JaggedLines, Infos, WithRecord, Info;
    var lines := JaggedLines();
    if n == 1 {
      Ends(0);
      FirstRead(unassigned);
      NextRecord(0);
      RecordsStep([], Span(0, InfoOf(0)));
      NoRecords();
      assert [] + [Span(0, InfoOf(0))] == [Span(0, InfoOf(0))];
    } else {
      LinesSoFar(n - 1, unassigned);
      var r := ReadUpTo(lines, n - 1, unassigned);
      StepsOn(n - 2);
      if Step(n - 1) > Step(n - 2) {
        NextValue(Step(n - 2));
        ValueBelow(Step(n - 1));
        InfosDiffer(Value(Step(n - 1)), Value(Step(n - 2)));
        RecordsStep(r.spans, Span(n - 1, InfoOf(n - 1)));
        NextRecord(Step(n - 1));
      }
    }
  }

  lemma FirstRead(unassigned: Data)
    ensures ReadUpTo(JaggedLines(), 1, unassigned) == Reading([Span(0, InfoOf(0))], InfoOf(0), 0)
  {
    hide Value, Step;
    assert ReadUpTo(JaggedLines(), 0, unassigned) == Reading([], unassigned, 0);
    assert [] + [Span(0, InfoOf(0))] == [Span(0, InfoOf(0))];
  }

  lemma NoRecords()
    ensures Records([]) == [] && Infos(0) == []
  {
  }

  /** There is room for its ranges and its records. */
  lemma JaggedIsRead(unassigned: Data)
    ensures var spans := SpansOf(JaggedLines(), unassigned);
            |spans| == STEPS + 1 && Records(spans) == Infos(VALUES) && Room(spans)
  {
    hide Value, Step, Records, ReadUpTo;
    LinesSoFar(PLANE, unassigned);
    Ends(PLANE - 1);
    var r := ReadUpTo(JaggedLines(), PLANE, unassigned);
    assert r.spans + [] == r.spans;
  }

  lemma JaggedIsKnown(unassigned: Data, code: nat)
    requires code < PLANE
    ensures Described(JaggedLines(), unassigned, code) == InfoOf(code) && InfoOf(code).category != NO_CATEGORY
  {
    hide Value, Step, Described;
    assert JaggedLines()[code] == Line(code, InfoOf(code), false);
    DescribedLine(JaggedLines(), code, unassigned);
  }

  /** The record of a code is found at its value. */
  lemma PlaceOfCode(ranges: seq<Range>, unassigned: Data, code: nat)
    requires code < PLANE
    requires var spans := SpansOf(JaggedLines(), unassigned); Stand(Records(spans), ranges, spans)
    ensures IndexAt(ranges, code) == Value(Step(code))
  {
    hide Value, Step, Records, IndexAt, Stand, Infos, InfoAt, SpansOf, Room, Described, JaggedLines;
    var spans := SpansOf(JaggedLines(), unassigned);
    JaggedIsRead(unassigned);
    SpansDescribe(JaggedLines(), unassigned, code);
    JaggedIsKnown(unassigned, code);
    HasData(spans, code);
    PlaceDenotes(spans, ranges, code);
    ValueBelow(Step(code));
    assert Denotes(Records(spans), Value(Step(code)), InfoAt(spans, code));
  }

  lemma HasData(spans: seq<Span>, code: nat)
    requires spans != [] && Rising(spans, CODES) && InfoAt(spans, code).category != NO_CATEGORY
    ensures HasPlace(spans, code)
  {
    hide InfoAt;
    if code < spans[0].start {
      BeforeSpans(spans, code);
    }
  }

  /** The places of its records make an array that its smallest trie does not carry. */
  lemma JaggedDoesNotFit(ranges: seq<Range>, unassigned: Data)
    requires var spans := SpansOf(JaggedLines(), unassigned); Stand(Records(spans), ranges, spans)
    ensures !PlaneFits(ranges, 0)
    ensures |ranges| == STEPS + 1 && Changes(PlaneIndex(ranges, 0), PLANE) == STEPS
  {
    hide Value, Step, Records, IndexAt, BestBits, Build, Power2, PlaneTrie, PlaneFaithful, SpansOf, Changes;
    JaggedIsRead(unassigned);
    var flat := PlaneIndex(ranges, 0);
    forall code | 0 <= code < PLANE ensures flat[code] == Value(Step(code)) {
      PlaceOfCode(ranges, unassigned, code);
      assert flat[code] == IndexAt(ranges, code);
    }
    JaggedIsNotFaithful(flat);
    JaggedValues(flat);
    FitsExactlyIf(flat, 8);
    JaggedChanges(flat, PLANE);
    Ends(PLANE - 1);
  }

  /** This file is not refused, and the tables made of it are wrong about some code of the first plane. */
  method MakeWrongTables(unassigned: Data) returns (ok: bool, datas: seq<Data>, planes: seq<PlaneTables>)
    ensures ok && datas == Infos(VALUES) && |planes| == PLANE_COUNT
    ensures exists code :: 0 <= code < PLANE && !Tells(datas, planes, code, Described(JaggedLines(), unassigned, code))
  {
    hide Records, Described, Room, Stand, SpansOf, Tells, PlaneFits, JaggedLines, Infos;
    JaggedIsRead(unassigned);
    var ranges: seq<Range>;
    ok, datas, ranges, planes := MakeTables(JaggedLines(), unassigned);
    JaggedDoesNotFit(ranges, unassigned);
    assert !LinesTold(datas, planes, JaggedLines(), unassigned, 0);
  }
  /** A file for a locale in which codes that are not listed have no data. */
  function LetterLines(): seq<Line> {
    [Line(0x41, Info(0), false)]
  }

  lemma LetterIsRead(unassigned: Data)
    ensures Ascending(LetterLines())
    ensures SpansOf(LetterLines(), unassigned) == [Span(1, unassigned), Span(0x41, Info(0)), Span(0x42, unassigned)]
  {
    var lines := LetterLines();
    assert ReadUpTo(lines, 0, unassigned) == Reading([], unassigned, 0);
    assert ReadUpTo(lines, 1, unassigned).spans == [Span(1, unassigned), Span(0x41, Info(0))];
  }

  lemma LetterHasRoom(unassigned: Data)
    requires unassigned.category == NO_CATEGORY
    ensures Room(SpansOf(LetterLines(), unassigned)) && Records(SpansOf(LetterLines(), unassigned)) == [Info(0)]
  {
    hide Records;
    LetterIsRead(unassigned);
    var spans := [Span(1, unassigned), Span(0x41, Info(0))];
    NoRecords();
    RecordsStep([], Span(1, unassigned));
    RecordsStep([Span(1, unassigned)], Span(0x41, Info(0)));
    RecordsStep(spans, Span(0x42, unassigned));
    assert [] + [Span(1, unassigned)] == [Span(1, unassigned)];
    assert [Span(1, unassigned)] + [Span(0x41, Info(0))] == spans;
    assert spans + [Span(0x42, unassigned)] == SpansOf(LetterLines(), unassigned);
  }

  lemma {:induction false} StartsAtMost(ranges: seq<Range>, from: nat, to: nat)
    ensures StartsIn(ranges, from, to) <= |ranges|
  {
    if ranges != [] {
      StartsAtMost(ranges[..|ranges| - 1], from, to);
    }
  }

  /** In a plane that has room, a first code with the first place reads as that. */
  lemma FirstCodeReads(flat: seq<int>, bits: nat)
    requires |flat| == PLANE && bits <= 16 && flat[0] == 0
    requires forall c :: 0 <= c < PLANE ==> NO_DATA <= flat[c] < 0x7FFF
    requires |PlaneTrie(flat, bits).data| < 0x8000 + Power2(bits)
    ensures var table := Written(PlaneTrie(flat, bits)); Inside(table, Power2(bits), 0) && Lookup(table, Power2(bits), 0) == 0
  {
    hide Build, Power2, Inside, Lookup, Written, Faithful;
    PlaneOfBlocks(bits);
    FitsExactlyIf(flat, bits);
    FaithfulAt(flat, Power2(bits), Power2(16 - bits), 0);
  }

  /** The tables of a file that begins with a gap and has no data for it give its first code, which no
      range holds, the first record, though the trie has room. */
  method MakeUnmarkedTables(unassigned: Data)
    returns (ok: bool, datas: seq<Data>, ranges: seq<Range>, planes: seq<PlaneTables>)
    requires unassigned.category == NO_CATEGORY
    ensures ok && datas == [Info(0)] && |planes| == PLANE_COUNT && PlaneFits(ranges, 0)
    ensures Described(LetterLines(), unassigned, 0) == unassigned
    ensures Tells(datas, planes, 0, Info(0)) && !Tells(datas, planes, 0, unassigned)
  {
    hide Records, Room, SpansOf, InfoAt, Lookup, Inside, Written, Build, BestBits;
    LetterIsRead(unassigned);
    LetterHasRoom(unassigned);
    ok, datas, ranges, planes := MakeTables(LetterLines(), unassigned);
    var spans := SpansOf(LetterLines(), unassigned);
    SpansDescribe(LetterLines(), unassigned, 0);
    StartsAtMost(ranges, 1, PLANE);
    FewRangesFit(spans, ranges, 0);
    PlaceDenotes(spans, ranges, 0);
    PlaneValues(spans, ranges, 0);
    var flat := PlaneIndex(ranges, 0);
    assert BestTables(flat, planes[0]);
    assert flat[0] == IndexAt(ranges, 0) == 0;
    FirstCodeReads(flat, planes[0].bits);
  }
}
