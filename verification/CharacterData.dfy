/** Character data: ranges of codes that share a record, read from lines in the order of their codes,
    and the tables made of them. */
module CharacterData {
  import opened Bytes
  import opened Trie
  import opened TrieLimits

  const MAX_DATAS: nat := 1000
  const MAX_RANGES: nat := 4000
  const CODES: nat := 0x11_0000

  /** The category of a line that holds no data. */
  const NO_CATEGORY: Byte := 0xFF

  datatype Data = Data(category: Byte, bdCategory: Byte, combiningClass: Byte, digitOffset: Byte, caseOffset: int, flags: Byte)

  /** The first code of a range and the place of its record, or -1 for no data. */
  datatype Range = Range(start: nat, index: int)

  /** The first code of a range and what is known of it. */
  datatype Span = Span(start: nat, info: Data)

  /** A line of the input. The name on the last line of a range that is not listed says so. */
  datatype Line = Line(code: nat, info: Data, endsRange: bool)

  // What the lines mean

  ghost predicate Ascending(lines: seq<Line>) {
    && (forall i :: 0 <= i < |lines| ==> lines[i].code < CODES)
    && (forall i, j :: 0 <= i < j < |lines| ==> lines[i].code < lines[j].code)
  }

  /** The lines up to a code. */
  function LinesUpTo(lines: seq<Line>, code: nat): (n: nat)
    ensures n <= |lines|
  {
    if lines == [] || lines[0].code > code then 0 else 1 + LinesUpTo(lines[1..], code)
  }

  /** What lines say of a code, listed or not. A code in a gap is unassigned unless the line after the
      gap ends a range, and so are codes after the last line, but only if that is below 0xFFFF; codes
      before the first line are like the code that it leads to. */
  function Described(lines: seq<Line>, unassigned: Data, code: nat): Data {
    var n := LinesUpTo(lines, code);
    if n == |lines| then
      if n > 0 && (lines[n - 1].code == code || lines[n - 1].code >= 0xFFFF) then lines[n - 1].info else unassigned
    else if n > 0 then
      if lines[n - 1].code == code || lines[n].endsRange then lines[n - 1].info else unassigned
    else
      if lines[0].code == 1 || lines[0].endsRange then lines[0].info else unassigned
  }

  // Spans

  /** The span of a code, or the first one for codes before it. */
  function InfoAt(spans: seq<Span>, code: nat): Data
    requires spans != []
  {
    var last := |spans| - 1;
    if last == 0 || spans[last].start <= code then spans[last].info else InfoAt(spans[..last], code)
  }

  datatype Reading = Reading(spans: seq<Span>, info: Data, prev: nat)

  function AfterGap(r: Reading, line: Line, unassigned: Data): Reading {
    if line.code > r.prev + 1 && !line.endsRange then Reading(r.spans + [Span(r.prev + 1, unassigned)], unassigned, r.prev)
    else r
  }

  function AfterLine(r: Reading, line: Line, unassigned: Data, first: bool): Reading {
    var r' := AfterGap(r, line, unassigned);
    if first || line.info != r'.info then Reading(r'.spans + [Span(line.code, line.info)], line.info, line.code)
    else Reading(r'.spans, r'.info, line.code)
  }

  function ReadUpTo(lines: seq<Line>, n: nat, unassigned: Data): Reading
    requires n <= |lines|
  {
    if n == 0 then Reading([], unassigned, 0)
    else AfterLine(ReadUpTo(lines, n - 1, unassigned), lines[n - 1], unassigned, n == 1)
  }

  function SpansOf(lines: seq<Line>, unassigned: Data): seq<Span> {
    var r := ReadUpTo(lines, |lines|, unassigned);
    r.spans + if r.prev < 0xFFFF then [Span(r.prev + 1, unassigned)] else []
  }

  ghost predicate Rising(spans: seq<Span>, end: nat) {
    && (forall i :: 0 <= i < |spans| ==> spans[i].start < end)
    && (forall i, j :: 0 <= i < j < |spans| ==> spans[i].start < spans[j].start)
  }

  /** A later span says nothing of earlier codes. */
  lemma LaterSpan(spans: seq<Span>, span: Span, code: nat)
    ensures InfoAt(spans + [span], code) == if spans == [] || span.start <= code then span.info else InfoAt(spans, code)
  {
    assert (spans + [span])[..|spans|] == spans;
  }

  lemma {:induction false} LinesUpToAt(lines: seq<Line>, code: nat, n: nat)
    requires Ascending(lines) && n <= |lines|
    requires n > 0 ==> lines[n - 1].code <= code
    requires n < |lines| ==> code < lines[n].code
    ensures LinesUpTo(lines, code) == n
  {
    if n > 0 {
      LinesUpToAt(lines[1..], code, n - 1);
    }
  }

  /** What has been read of the lines before `n`: the codes up to the last of them. */
  ghost predicate ReadWell(lines: seq<Line>, n: nat, unassigned: Data, r: Reading)
    requires n <= |lines|
  {
    && Rising(r.spans, r.prev + 1)
    && (n == 0 ==> r == Reading([], unassigned, 0))
    && (n > 0 ==> && r.spans != [] && r.prev == lines[n - 1].code && r.info == lines[n - 1].info == r.spans[|r.spans| - 1].info
                  && forall code :: 0 <= code <= r.prev ==> InfoAt(r.spans, code) == Described(lines, unassigned, code))
  }

  lemma LastSpan(spans: seq<Span>, code: nat)
    requires spans != [] && spans[|spans| - 1].start <= code
    ensures InfoAt(spans, code) == spans[|spans| - 1].info
  {
  }

  /** The codes from the last line read on to line `n`, once a gap has been dealt with. */
  lemma GapRead(lines: seq<Line>, n: nat, unassigned: Data, r: Reading, code: nat)
    requires Ascending(lines) && n < |lines| && ReadWell(lines, n, unassigned, r)
    requires code < lines[n].code
    ensures var spans := AfterGap(r, lines[n], unassigned).spans;
            if spans == [] then lines[n].info == Described(lines, unassigned, code)
            else InfoAt(spans, code) == Described(lines, unassigned, code)
  {
    hide LinesUpTo, InfoAt;
    LaterSpan(r.spans, Span(r.prev + 1, unassigned), code);
    if n == 0 {
      LinesUpToAt(lines, code, 0);
    } else if code > r.prev {
      LinesUpToAt(lines, code, n);
      LastSpan(r.spans, code);
    }
  }

  lemma LineRead(lines: seq<Line>, n: nat, unassigned: Data, r: Reading)
    requires Ascending(lines) && n < |lines| && ReadWell(lines, n, unassigned, r)
    ensures ReadWell(lines, n + 1, unassigned, AfterLine(r, lines[n], unassigned, n == 0))
  {
    hide LinesUpTo, InfoAt, Described;
    var line, r', r'' := lines[n], AfterGap(r, lines[n], unassigned), AfterLine(r, lines[n], unassigned, n == 0);
    forall code | 0 <= code <= line.code ensures InfoAt(r''.spans, code) == Described(lines, unassigned, code) {
      LaterSpan(r'.spans, Span(line.code, line.info), code);
      if code < line.code {
        GapRead(lines, n, unassigned, r, code);
      } else {
        DescribedLine(lines, n, unassigned);
        LastSpan(r''.spans, code);
      }
    }
  }

  lemma DescribedLine(lines: seq<Line>, n: nat, unassigned: Data)
    requires Ascending(lines) && n < |lines|
    ensures Described(lines, unassigned, lines[n].code) == lines[n].info
  {
    hide LinesUpTo;
    LinesUpToAt(lines, lines[n].code, n + 1);
  }

  lemma {:induction false} LinesRead(lines: seq<Line>, n: nat, unassigned: Data)
    requires Ascending(lines) && n <= |lines|
    ensures ReadWell(lines, n, unassigned, ReadUpTo(lines, n, unassigned))
  {
    hide ReadWell, AfterLine;
    if n > 0 {
      LinesRead(lines, n - 1, unassigned);
      LineRead(lines, n - 1, unassigned, ReadUpTo(lines, n - 1, unassigned));
    } else {
      NothingRead(lines, unassigned);
    }
  }

  lemma NothingRead(lines: seq<Line>, unassigned: Data)
    ensures ReadWell(lines, 0, unassigned, Reading([], unassigned, 0))
  {
  }

  /** The spans of a file say of every code what its lines say. */
  lemma SpansDescribe(lines: seq<Line>, unassigned: Data, code: nat)
    requires Ascending(lines)
    ensures SpansOf(lines, unassigned) != [] && Rising(SpansOf(lines, unassigned), CODES)
    ensures InfoAt(SpansOf(lines, unassigned), code) == Described(lines, unassigned, code)
  {
    hide LinesUpTo, InfoAt, ReadUpTo;
    var r, n := ReadUpTo(lines, |lines|, unassigned), |lines|;
    LinesRead(lines, n, unassigned);
    LaterSpan(r.spans, Span(r.prev + 1, unassigned), code);
    assert r.spans + [] == r.spans;
    if n == 0 {
      LinesUpToAt(lines, code, 0);
    } else if code > r.prev {
      LinesUpToAt(lines, code, n);
      LastSpan(r.spans, code);
    }
  }

  /** Codes after the last line are unassigned only if that is below 0xFFFF: beyond, they share its data. */
  lemma AfterLastLine(lines: seq<Line>, unassigned: Data, code: nat)
    requires Ascending(lines) && lines != [] && code > lines[|lines| - 1].code
    ensures SpansOf(lines, unassigned) != []
    ensures var last := lines[|lines| - 1];
            InfoAt(SpansOf(lines, unassigned), code) == unassigned <==> last.code < 0xFFFF || last.info == unassigned
  {
    hide LinesUpTo, InfoAt, SpansOf;
    SpansDescribe(lines, unassigned, code);
    LinesUpToAt(lines, code, |lines|);
  }

  // Records

  function WithRecord(datas: seq<Data>, info: Data): (r: seq<Data>)
    ensures datas <= r
  {
    if info.category == NO_CATEGORY || info in datas then datas else datas + [info]
  }

  /** The records of spans, each once. */
  function Records(spans: seq<Span>): seq<Data> {
    if spans == [] then [] else WithRecord(Records(spans[..|spans| - 1]), spans[|spans| - 1].info)
  }

  lemma RecordsStep(spans: seq<Span>, span: Span)
    ensures Records(spans + [span]) == WithRecord(Records(spans), span.info)
  {
    assert (spans + [span])[..|spans|] == spans;
  }

  lemma {:induction false} RecordsGrow(spans: seq<Span>, more: seq<Span>)
    ensures Records(spans) <= Records(spans + more)
  {
    hide Records;
    if more == [] {
      assert spans + more == spans;
    } else {
      RecordsGrow(spans, more[..|more| - 1]);
      RecordsStep(spans + more[..|more| - 1], more[|more| - 1]);
      assert spans + more[..|more| - 1] + [more[|more| - 1]] == spans + more;
    }
  }

  predicate Denotes(datas: seq<Data>, index: int, info: Data) {
    if info.category == NO_CATEGORY then index == NO_DATA
    else 0 <= index < |datas| && datas[index] == info
  }

  /** The ranges stand for the spans. */
  ghost predicate Stand(datas: seq<Data>, ranges: seq<Range>, spans: seq<Span>) {
    && |ranges| == |spans|
    && forall i :: 0 <= i < |ranges| ==> ranges[i].start == spans[i].start && Denotes(datas, ranges[i].index, spans[i].info)
  }

  /** The tables have room for spans. */
  predicate Room(spans: seq<Span>) {
    |spans| <= MAX_RANGES && |Records(spans)| <= MAX_DATAS
  }

  lemma RoomExactlyIf(spans: seq<Span>)
    ensures Room(spans) <==> |spans| <= 4000 && |Records(spans)| <= 1000
  {
  }

  lemma RoomBefore(spans: seq<Span>, more: seq<Span>)
    requires Room(spans + more)
    ensures Room(spans)
  {
    RecordsGrow(spans, more);
  }

  /** The place of the record of a code, or the first one for codes before all ranges. */
  function IndexAt(ranges: seq<Range>, code: nat): int {
    if ranges == [] then 0
    else if ranges[|ranges| - 1].start <= code then ranges[|ranges| - 1].index
    else IndexAt(ranges[..|ranges| - 1], code)
  }

  function StartOf(ranges: seq<Range>, i: nat): nat {
    if i < |ranges| then ranges[i].start else CODES
  }

  lemma NextRange(ranges: seq<Range>, i: nat)
    requires i < |ranges|
    ensures forall code: nat :: IndexAt(ranges[..i + 1], code) ==
                                if ranges[i].start <= code then ranges[i].index else IndexAt(ranges[..i], code)
  {
    var upTo := ranges[..i + 1];
    assert upTo[..i] == ranges[..i];
    forall code: nat
      ensures IndexAt(upTo, code) == if ranges[i].start <= code then ranges[i].index else IndexAt(ranges[..i], code)
    {
    }
  }

  lemma {:induction false} SpansAhead(lines: seq<Line>, n: nat, unassigned: Data)
    requires n <= |lines|
    ensures ReadUpTo(lines, n, unassigned).spans <= SpansOf(lines, unassigned)
    decreases |lines| - n
  {
    if n < |lines| {
      SpansAhead(lines, n + 1, unassigned);
    }
  }

  /** Line `n` is read as far as there is room for the file. */
  lemma StillToRead(lines: seq<Line>, n: nat, unassigned: Data)
    requires n < |lines|
    ensures var r := ReadUpTo(lines, n, unassigned);
            var r' := AfterGap(r, lines[n], unassigned);
            var r'' := AfterLine(r, lines[n], unassigned, n == 0);
            && ReadUpTo(lines, n + 1, unassigned) == r''
            && (Room(SpansOf(lines, unassigned)) ==> Room(r'.spans) && Room(r''.spans))
  {
    hide Room, SpansOf;
    SpansAhead(lines, n + 1, unassigned);
    var all := SpansOf(lines, unassigned);
    if Room(all) {
      var r'' := ReadUpTo(lines, n + 1, unassigned);
      var r' := AfterGap(ReadUpTo(lines, n, unassigned), lines[n], unassigned);
      assert all == r''.spans + all[|r''.spans|..];
      RoomBefore(r''.spans, all[|r''.spans|..]);
      assert r''.spans == r'.spans + r''.spans[|r'.spans|..];
      RoomBefore(r'.spans, r''.spans[|r'.spans|..]);
    }
  }

  class ReadType {
    var datas: seq<Data>
    var ranges: seq<Range>
    ghost var spans: seq<Span>

    ghost predicate Valid()
      reads this
    {
      && datas == Records(spans)
      && Room(spans)
      && Stand(datas, ranges, spans)
    }

    constructor ()
      ensures Valid() && spans == []
    {
      datas, ranges, spans := [], [], [];
    }

    method AddRange(info: Data, code: nat) returns (ok: bool)
      requires Valid()
      modifies this
      ensures ok <==> Room(old(spans) + [Span(code, info)])
      ensures ok ==> Valid() && spans == old(spans) + [Span(code, info)]
    {
      hide Records;
      RecordsStep(spans, Span(code, info));
      var index := NO_DATA;
      if info.category != NO_CATEGORY {
        var i := 0;
        while i < |datas| && index == NO_DATA
          invariant i <= |datas| && (index == NO_DATA ==> info !in datas[..i])
          invariant index != NO_DATA ==> Denotes(datas, index, info)
        {
          if datas[i] == info {
            index := i;
          }
          i := i + 1;
        }
        if index == NO_DATA {
          if |datas| >= MAX_DATAS {
            return false;
          }
          index := |datas|;
          datas := datas + [info];
        }
      }
      if |ranges| >= MAX_RANGES {
        return false;
      }
      ranges := ranges + [Range(code, index)];
      spans := spans + [Span(code, info)];
      ok := true;
    }

    /** Reads the lines: a range wherever the data changes and one for every gap. */
    method ReadLines(lines: seq<Line>, unassigned: Data) returns (ok: bool)
      requires Valid() && spans == [] && Ascending(lines)
      modifies this
      ensures ok <==> Room(SpansOf(lines, unassigned))
      ensures ok ==> Valid() && spans == SpansOf(lines, unassigned)
    {
      hide Records, Room, Stand;
      var rangeInfo, first, prevCode := unassigned, true, 0;
      var n := 0;
      while n < |lines|
        invariant n <= |lines| && Valid() && first == (n == 0)
        invariant Reading(spans, rangeInfo, prevCode) == ReadUpTo(lines, n, unassigned)
      {
        StillToRead(lines, n, unassigned);
        var line := lines[n];
        if line.code - prevCode > 1 {
          if !line.endsRange {
            ok := AddRange(unassigned, prevCode + 1);
            if !ok {
              return;
            }
            rangeInfo := unassigned;
          }
        }
        if first || line.info != rangeInfo {
          ok := AddRange(line.info, line.code);
          if !ok {
            return;
          }
          rangeInfo := line.info;
        }
        first, prevCode := false, line.code;
        n := n + 1;
      }
      ok := true;
      assert spans + [] == spans;
      if prevCode < 0xFFFF {
        ok := AddRange(unassigned, prevCode + 1);
      }
    }

    /** Fills in the place of the record of every code. */
    method BuildIndex(theIndex: array<int>)
      requires Valid() && Rising(spans, CODES) && theIndex.Length == CODES
      requires forall code :: 0 <= code < CODES ==> theIndex[code] == 0
      modifies theIndex
      ensures forall code :: 0 <= code < CODES ==> theIndex[code] == IndexAt(ranges, code)
    {
      hide Records, Room;
      for i := 0 to |ranges|
        invariant forall code :: 0 <= code < StartOf(ranges, i) ==> theIndex[code] == IndexAt(ranges[..i], code)
        invariant forall code :: StartOf(ranges, i) <= code < CODES ==> theIndex[code] == 0
        invariant i == 0 ==> forall code :: 0 <= code < CODES ==> theIndex[code] == 0
      {
        var end := if i < |ranges| - 1 then ranges[i + 1].start else CODES;
        for j := ranges[i].start to end
          invariant forall code :: 0 <= code < ranges[i].start ==> theIndex[code] == IndexAt(ranges[..i], code)
          invariant forall code :: ranges[i].start <= code < j ==> theIndex[code] == ranges[i].index
          invariant forall code :: j <= code < CODES ==> theIndex[code] == 0
        {
          theIndex[j] := ranges[i].index;
        }
        NextRange(ranges, i);
      }
      assert ranges[..|ranges|] == ranges;
    }
  }

  // From the lines to the tables and back

  /** The place that is filled in for a code can be that of its record. Codes before the first range
      have the place of the first record, which is wrong for them if they have no data. */
  predicate HasPlace(spans: seq<Span>, code: nat)
    requires spans != []
  {
    spans[0].start <= code || spans[0].info.category != NO_CATEGORY
  }

  lemma {:induction false} IndexDenotes(ranges: seq<Range>, spans: seq<Span>, code: nat)
    requires spans != [] && Rising(spans, CODES) && Stand(Records(spans), ranges, spans)
    ensures Denotes(Records(spans), IndexAt(ranges, code), InfoAt(spans, code)) <==> HasPlace(spans, code)
    ensures !HasPlace(spans, code) ==> IndexAt(ranges, code) == 0 && InfoAt(spans, code).category == NO_CATEGORY
  {
    IndexDenotesIn(Records(spans), ranges, spans, code);
    if spans[0].info.category != NO_CATEGORY {
      FirstRecord(spans);
    }
  }

  lemma {:induction false} FirstRecord(spans: seq<Span>)
    requires spans != [] && spans[0].info.category != NO_CATEGORY
    ensures Denotes(Records(spans), 0, spans[0].info)
  {
    if |spans| > 1 {
      FirstRecord(spans[..|spans| - 1]);
    }
  }

  lemma {:induction false} IndexDenotesIn(datas: seq<Data>, ranges: seq<Range>, spans: seq<Span>, code: nat)
    requires spans != [] && Rising(spans, CODES) && Stand(datas, ranges, spans)
    ensures if spans[0].start <= code then Denotes(datas, IndexAt(ranges, code), InfoAt(spans, code))
            else IndexAt(ranges, code) == 0 && InfoAt(spans, code) == spans[0].info
  {
    var n := |spans| - 1;
    if n > 0 && spans[n].start > code {
      IndexDenotesIn(datas, ranges[..n], spans[..n], code);
    }
  }

  /** The ranges that start from `from` up to `to`. */
  function StartsIn(ranges: seq<Range>, from: nat, to: nat): nat {
    if ranges == [] then 0
    else StartsIn(ranges[..|ranges| - 1], from, to) + if from <= ranges[|ranges| - 1].start < to then 1 else 0
  }

  lemma {:induction false} StartsAdd(ranges: seq<Range>, from: nat, to: nat)
    requires from <= to
    ensures StartsIn(ranges, from, to + 1) >= StartsIn(ranges, from, to) + StartsIn(ranges, to, to + 1)
  {
    if ranges != [] {
      StartsAdd(ranges[..|ranges| - 1], from, to);
    }
  }

  lemma {:induction false} ChangeStarts(ranges: seq<Range>, code: nat)
    requires code > 0 && IndexAt(ranges, code) != IndexAt(ranges, code - 1)
    ensures StartsIn(ranges, code, code + 1) >= 1
  {
    var n := |ranges| - 1;
    if ranges[n].start != code {
      ChangeStarts(ranges[..n], code);
    }
  }

  /** A plane changes no more often than ranges start in it. */
  lemma {:induction false} ChangesAreStarts(ranges: seq<Range>, flat: seq<int>, from: nat, n: nat)
    requires 0 < n <= |flat| && forall k :: 0 <= k < |flat| ==> flat[k] == IndexAt(ranges, from + k)
    ensures Changes(flat, n) <= StartsIn(ranges, from + 1, from + n)
  {
    if n > 1 {
      ChangesAreStarts(ranges, flat, from, n - 1);
      StartsAdd(ranges, from + 1, from + n - 1);
      assert flat[n - 1] == IndexAt(ranges, from + (n - 1)) && flat[n - 2] == IndexAt(ranges, from + (n - 2));
      if flat[n - 1] != flat[n - 2] {
        ChangeStarts(ranges, from + n - 1);
      }
    }
  }

  /** Looking up a code in the tables gives a record, or a mark for a code that has no data. */
  ghost predicate Tells(datas: seq<Data>, planes: seq<PlaneTables>, code: nat, info: Data) {
    && code / PLANE < |planes|
    && var t := planes[code / PLANE];
    && Inside(t.table, t.maskForCodePoint + 1, code % PLANE)
    && var value := Lookup(t.table, t.maskForCodePoint + 1, code % PLANE);
    && if info.category == NO_CATEGORY then IsMark(value) else Denotes(datas, value, info)
  }

  /** The places that are filled in for the codes of a plane. */
  function PlaneIndex(ranges: seq<Range>, plane: nat): (r: seq<int>)
    ensures |r| == PLANE
    ensures forall k :: 0 <= k < PLANE ==> r[k] == IndexAt(ranges, plane * PLANE + k)
  {
    seq(PLANE, k requires 0 <= k < PLANE => IndexAt(ranges, plane * PLANE + k))
  }

  /** The data of the smallest trie of a plane is not too long for its index. */
  predicate PlaneFits(ranges: seq<Range>, plane: nat) {
    var flat := PlaneIndex(ranges, plane);
    var bits := BestBits(flat, 2, MOST_BITS + 1);
    |PlaneTrie(flat, bits).data| < 0x8000 + Power2(bits)
  }

  ghost predicate PlaneTold(datas: seq<Data>, planes: seq<PlaneTables>, spans: seq<Span>, plane: nat)
    requires spans != []
  {
    forall code :: plane * PLANE <= code < plane * PLANE + PLANE ==> Tells(datas, planes, code, InfoAt(spans, code))
  }

  lemma {:induction false} RecordsOnce(spans: seq<Span>)
    ensures forall i, j :: 0 <= i < j < |Records(spans)| ==> Records(spans)[i] != Records(spans)[j]
  {
    if spans != [] {
      RecordsOnce(spans[..|spans| - 1]);
    }
  }

  lemma PlaceDenotes(spans: seq<Span>, ranges: seq<Range>, code: nat)
    requires spans != [] && Rising(spans, CODES) && Room(spans) && Stand(Records(spans), ranges, spans)
    ensures NO_DATA <= IndexAt(ranges, code) < MAX_DATAS
    ensures if HasPlace(spans, code) then
              forall place: int :: Denotes(Records(spans), place, InfoAt(spans, code)) <==> place == IndexAt(ranges, code)
            else
              IndexAt(ranges, code) == 0 && InfoAt(spans, code).category == NO_CATEGORY
  {
    hide Records, InfoAt, IndexAt, Stand, HasPlace, Rising;
    IndexDenotes(ranges, spans, code);
    RecordsOnce(spans);
  }

  /** The tables tell of a code what the spans say exactly if it has its place and the trie gives that back. */
  lemma CodeTold(spans: seq<Span>, ranges: seq<Range>, planes: seq<PlaneTables>, plane: nat, k: nat)
    requires plane < PLANE_COUNT == |planes| && BestTables(PlaneIndex(ranges, plane), planes[plane]) && k < PLANE
    requires spans != [] && Rising(spans, CODES) && Room(spans) && Stand(Records(spans), ranges, spans)
    ensures var flat, bits := PlaneIndex(ranges, plane), planes[plane].bits;
            && bits <= 16 && Power2(16 - bits) * Power2(bits) == PLANE
            && (Tells(Records(spans), planes, plane * PLANE + k, InfoAt(spans, plane * PLANE + k)) <==>
                  HasPlace(spans, plane * PLANE + k) && ReadsCode(flat, Power2(bits), Power2(16 - bits), k))
  {
    hide Records, InfoAt, IndexAt, Stand, BestBits, Lookup, Inside, Build, Written, Power2, Denotes, HasPlace, Rising, Room;
    var flat, bits := PlaneIndex(ranges, plane), planes[plane].bits;
    PlaceDenotes(spans, ranges, plane * PLANE + k);
    PlaneOfBlocks(bits);
    MarkIsNoData(flat, Power2(bits), Power2(16 - bits), k);
    NoDataHasNoRecord(Records(spans), InfoAt(spans, plane * PLANE + k));
    assert (plane * PLANE + k) / PLANE == plane && (plane * PLANE + k) % PLANE == k;
  }

  lemma NoDataHasNoRecord(datas: seq<Data>, info: Data)
    ensures Denotes(datas, NO_DATA, info) <==> info.category == NO_CATEGORY
  {
  }

  /** The tables of a plane tell of every code what the lines say of it, exactly if its first code has
      its place and the data of its smallest trie is not too long. */
  lemma PlaneTellsExactlyIf(spans: seq<Span>, ranges: seq<Range>, planes: seq<PlaneTables>, plane: nat)
    requires plane < PLANE_COUNT == |planes| && BestTables(PlaneIndex(ranges, plane), planes[plane])
    requires spans != [] && Rising(spans, CODES) && Room(spans) && Stand(Records(spans), ranges, spans)
    ensures PlaneTold(Records(spans), planes, spans, plane) <==> HasPlace(spans, plane * PLANE) && PlaneFits(ranges, plane)
  {
    hide Records, InfoAt, IndexAt, Stand, BestBits, Build, Faithful, Power2, Tells, ReadsCode, PlaneTrie, Room, Rising, HasPlace;
    var flat, from, bits := PlaneIndex(ranges, plane), plane * PLANE, planes[plane].bits;
    PlaneOfBlocks(bits);
    PlaneValues(spans, ranges, plane);
    FitsExactlyIf(flat, bits);
    AllRead(flat, Power2(bits), Power2(16 - bits));
    PlacesFrom(spans, from);
    if HasPlace(spans, from) && PlaneFits(ranges, plane) {
      forall code | from <= code < from + PLANE ensures Tells(Records(spans), planes, code, InfoAt(spans, code)) {
        assert ReadsCode(flat, Power2(bits), Power2(16 - bits), code - from);
        CodeTold(spans, ranges, planes, plane, code - from);
      }
    } else {
      assert !HasPlace(spans, from) ==> !HasPlace(spans, from + 0);
      var k :| 0 <= k < PLANE && !(HasPlace(spans, from + k) && ReadsCode(flat, Power2(bits), Power2(16 - bits), k));
      CodeTold(spans, ranges, planes, plane, k);
      assert !Tells(Records(spans), planes, from + k, InfoAt(spans, from + k));
    }
  }

  lemma PlacesFrom(spans: seq<Span>, from: nat)
    requires spans != []
    ensures HasPlace(spans, from) ==> forall code :: from <= code ==> HasPlace(spans, code)
  {
  }

  lemma PlaneValues(spans: seq<Span>, ranges: seq<Range>, plane: nat)
    requires spans != [] && Rising(spans, CODES) && Room(spans) && Stand(Records(spans), ranges, spans)
    ensures var flat := PlaneIndex(ranges, plane); forall k :: 0 <= k < PLANE ==> NO_DATA <= flat[k] < 0x7FFF
  {
    hide Records, InfoAt, IndexAt, Stand, Room, Rising, HasPlace;
    var flat := PlaneIndex(ranges, plane);
    forall k | 0 <= k < PLANE ensures NO_DATA <= flat[k] < 0x7FFF {
      PlaceDenotes(spans, ranges, plane * PLANE + k);
    }
  }

  /** A plane in which no more than 3583 ranges start always has room. */
  lemma FewRangesFit(spans: seq<Span>, ranges: seq<Range>, plane: nat)
    requires spans != [] && Rising(spans, CODES) && Room(spans) && Stand(Records(spans), ranges, spans)
    requires StartsIn(ranges, plane * PLANE + 1, plane * PLANE + PLANE) <= 3583
    ensures PlaneFits(ranges, plane)
  {
    hide Records, InfoAt, IndexAt, StartsIn, Stand, Changes, BestBits, Build, Faithful, Power2, Rising;
    var flat := PlaneIndex(ranges, plane);
    PlaneValues(spans, ranges, plane);
    ChangesAreStarts(ranges, flat, plane * PLANE, PLANE);
    FewChangesSuffice(flat);
    FitsExactlyIf(flat, BestBits(flat, 2, MOST_BITS + 1));
  }

  /** Reads lines and makes the tables of all planes. The tables of a plane tell what the lines say of
      all its codes, data or none, exactly if it begins in a range or with data and its smallest trie
      has room for it. */
  method MakeTables(lines: seq<Line>, unassigned: Data)
    returns (ok: bool, datas: seq<Data>, ranges: seq<Range>, planes: seq<PlaneTables>)
    requires Ascending(lines)
    ensures ok <==> |SpansOf(lines, unassigned)| <= 4000 && |Records(SpansOf(lines, unassigned))| <= 1000
    ensures ok ==> datas == Records(SpansOf(lines, unassigned)) && Stand(datas, ranges, SpansOf(lines, unassigned))
    ensures ok ==> |planes| == PLANE_COUNT
    ensures ok ==> forall plane :: 0 <= plane < PLANE_COUNT ==> BestTables(PlaneIndex(ranges, plane), planes[plane])
    ensures ok ==>
              forall plane :: 0 <= plane < PLANE_COUNT ==>
                (LinesTold(datas, planes, lines, unassigned, plane) <==>
                   BeginsWell(lines, unassigned, plane) && PlaneFits(ranges, plane))
  {
    hide Records, Described, InfoAt, Room, Stand, SpansOf, Tells, BestTables, IndexAt, PlaneFits, PlaneTold, LinesTold, HasPlace, BeginsWell;
    RoomExactlyIf(SpansOf(lines, unassigned));
    var r := new ReadType();
    datas, ranges, planes := [], [], [];
    ok := r.ReadLines(lines, unassigned);
    if !ok {
      return;
    }
    SpansDescribe(lines, unassigned, 0);
    var theIndex, trieData := new int[CODES](_ => 0), new int[CODES];
    r.BuildIndex(theIndex);
    var _, tables := WriteTries(theIndex, trieData);
    datas, ranges, planes := r.datas, r.ranges, tables;
    forall plane | 0 <= plane < PLANE_COUNT
      ensures BestTables(PlaneIndex(ranges, plane), planes[plane])
      ensures LinesTold(datas, planes, lines, unassigned, plane) <==>
                BeginsWell(lines, unassigned, plane) && PlaneFits(ranges, plane)
    {
      assert PlaneOf(theIndex[..], plane) == PlaneIndex(ranges, plane);
      PlaneTellsExactlyIf(r.spans, ranges, planes, plane);
      SameTold(datas, planes, lines, unassigned, plane);
    }
  }

  /** The first code that is in a range. */
  function FirstStart(lines: seq<Line>): nat {
    if lines == [] || (lines[0].code > 1 && !lines[0].endsRange) then 1 else lines[0].code
  }

  /** The first code of a plane is in a range or has data. */
  predicate BeginsWell(lines: seq<Line>, unassigned: Data, plane: nat) {
    FirstStart(lines) <= plane * PLANE || Described(lines, unassigned, plane * PLANE).category != NO_CATEGORY
  }

  /** The tables tell of every code of a plane what the lines say of it. */
  ghost predicate LinesTold(datas: seq<Data>, planes: seq<PlaneTables>, lines: seq<Line>, unassigned: Data, plane: nat) {
    forall code :: plane * PLANE <= code < plane * PLANE + PLANE ==>
      Tells(datas, planes, code, Described(lines, unassigned, code))
  }

  lemma SameTold(datas: seq<Data>, planes: seq<PlaneTables>, lines: seq<Line>, unassigned: Data, plane: nat)
    requires Ascending(lines)
    ensures SpansOf(lines, unassigned) != []
    ensures PlaneTold(datas, planes, SpansOf(lines, unassigned), plane) <==> LinesTold(datas, planes, lines, unassigned, plane)
    ensures HasPlace(SpansOf(lines, unassigned), plane * PLANE) <==> BeginsWell(lines, unassigned, plane)
  {
    hide Tells, Described, InfoAt, SpansOf;
    SpansDescribe(lines, unassigned, plane * PLANE);
    FirstSpan(lines, unassigned, plane * PLANE);
    forall code | plane * PLANE <= code < plane * PLANE + PLANE
      ensures InfoAt(SpansOf(lines, unassigned), code) == Described(lines, unassigned, code)
    {
      SpansDescribe(lines, unassigned, code);
    }
  }

  lemma FirstSpan(lines: seq<Line>, unassigned: Data, code: nat)
    requires Ascending(lines)
    ensures var spans := SpansOf(lines, unassigned);
            && spans != [] && spans[0].start == FirstStart(lines)
            && (code < spans[0].start ==> InfoAt(spans, code) == spans[0].info)
  {
    hide SpansOf;
    SpansDescribe(lines, unassigned, code);
    FirstIsRead(lines, unassigned);
    if code < SpansOf(lines, unassigned)[0].start {
      BeforeSpans(SpansOf(lines, unassigned), code);
    }
  }

  lemma FirstIsRead(lines: seq<Line>, unassigned: Data)
    ensures var spans := SpansOf(lines, unassigned); spans != [] && spans[0].start == FirstStart(lines)
  {
    if lines != [] {
      SpansAhead(lines, 1, unassigned);
      assert ReadUpTo(lines, 0, unassigned) == Reading([], unassigned, 0);
    }
  }

  lemma {:induction false} BeforeSpans(spans: seq<Span>, code: nat)
    requires spans != [] && Rising(spans, CODES) && code < spans[0].start
    ensures InfoAt(spans, code) == spans[0].info
  {
    if |spans| > 1 {
      BeforeSpans(spans[..|spans| - 1], code);
    }
  }
}
