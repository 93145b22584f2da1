/** What compression saves and what it can cost: the length of what is written against that of the
    uncompressed resource. */
module ResourceGrowth {
  import opened Bytes
  import opened ResourceImage
  import opened ResourceMarks
  import opened ResourceLayout
  import opened ResourceSettling
  import opened ResourceBuilding
  import opened ResourceScripts

  /** What a run costs more than it is worth. */
  function Loss(d: Doc, r: nat): int
    requires Sorted(d) && r + 1 < |d.marks| && d.marks[r].kind.StartOfRun?
  {
    RunCost(d, r) - RunWorth(d, r)
  }

  /** From one run to the next: what is written exceeds what is denoted by cost less worth. */
  lemma RunBalance(d: Doc, r: nat)
    requires Sorted(d) && RunsOk(d) && r < |d.marks| && d.marks[r].kind.StartOfRun?
    ensures r + 1 < |d.marks|
    ensures var next := NextRun(d.marks, r + 2);
            |EmitFrom(d, r)| == RunCost(d, r) - RunWorth(d, r) + Pos(d, next) - Pos(d, r) + |EmitFrom(d, next)|
  {
    hide Gap, Pos, EmitFrom, Other, PlainBytes, Counted, CompressedInteger;
    assert RunOk(d, r);
    OtherStuff(d, r + 1);
    RunLayout(d, r);
    PosStep(d, r);
  }

  /** The losses of the runs from mark `r` on. */
  function Balance(d: Doc, r: nat): int
    requires Sorted(d) && RunsOk(d) && r <= |d.marks| && (r < |d.marks| ==> d.marks[r].kind.StartOfRun?)
    decreases |d.marks| - r
  {
    if r == |d.marks| then 0
    else
      assert RunOk(d, r);
      Loss(d, r) + Balance(d, NextRun(d.marks, r + 2))
  }

  lemma {:induction false} WrittenFrom(d: Doc, r: nat)
    requires Sorted(d) && RunsOk(d) && r <= |d.marks| && (r < |d.marks| ==> d.marks[r].kind.StartOfRun?)
    ensures |EmitFrom(d, r)| == Size(d) - Pos(d, r) + Balance(d, r)
    decreases |d.marks| - r
  {
    hide Gap, Pos, EmitFrom, RunCost, RunWorth;
    if r < |d.marks| {
      RunBalance(d, r);
      WrittenFrom(d, NextRun(d.marks, r + 2));
    } else {
      NothingEmitted(d);
    }
  }

  /** What is written exceeds the uncompressed resource by exactly the losses of its runs. */
  lemma EmissionBalance(d: Doc)
    requires Valid(d)
    ensures |Emission(d)| == Size(d) + Balance(d, NextRun(d.marks, 0))
  {
    hide Gap, Pos, EmitFrom, RunCost, RunWorth, Balance;
    var first := NextRun(d.marks, 0);
    WrittenFrom(d, first);
    if first < |d.marks| {
      NothingBeforeFirst(d, 0);
    } else {
      NoRunBetween(d, 0);
      PlainMatches(d, 0, |d.marks|);
      EmitSplit(d, 0, |d.marks|);
      PosAtStart(d);
    }
  }

  /** The runs from mark `r` on are those from the next run on. */
  lemma {:induction false} RunsFromNext(marks: seq<Mark>, r: nat)
    requires r <= |marks|
    ensures var next := NextRun(marks, r);
            && RunCount(marks[r..]) == RunCount(marks[next..])
            && (next < |marks| ==> RunCount(marks[r..]) == 1 + RunCount(marks[next + 1..]))
            && (next == |marks| ==> RunCount(marks[r..]) == 0)
    decreases |marks| - r
  {
    hide RunCount;
    if r < |marks| {
      RunCountAt(marks, r);
      if !marks[r].kind.StartOfRun? {
        RunsFromNext(marks, r + 1);
      }
    } else {
      NoRunCount(marks[r..]);
    }
  }

  lemma NoRunCount(marks: seq<Mark>)
    requires marks == []
    ensures RunCount(marks) == 0
  {
  }

  lemma RunsAfter(d: Doc, r: nat)
    requires Sorted(d) && RunsOk(d) && StartsRun(d, r)
    ensures r + 1 < |d.marks| && RunCount(d.marks[r..]) == 1 + RunCount(d.marks[NextRun(d.marks, r + 2)..])
  {
    hide RunCount;
    assert RunOk(d, r);
    RunCountAt(d.marks, r);
    RunCountAt(d.marks, r + 1);
    RunsFromNext(d.marks, r + 2);
  }

  /** Each of the runs after the first saves one byte at least. */
  lemma {:induction false} LaterRunsSave(d: Doc, r: nat)
    requires Valid(d) && EveryRunSaves(d) && r <= |d.marks|
    requires r < |d.marks| ==> d.marks[r].kind.StartOfRun? && Droppable(d, r) && NextRun(d.marks, 0) <= r
    ensures Balance(d, r) + RunCount(d.marks[r..]) <= 0
    decreases |d.marks| - r
  {
    hide Gap, RunCost, RunWorth, RunCount;
    if r < |d.marks| {
      assert StartsRun(d, r) && RunOk(d, r);
      RunsAfter(d, r);
      LaterRunsSave(d, NextRun(d.marks, r + 2));
    } else {
      NoRunCount(d.marks[r..]);
    }
  }

  /** When a stream that nothing more is dropped from is longer than the uncompressed resource: exactly
      if its first run costs more than it is worth, by more than what the later runs save. */
  lemma LongerExactlyIf(d: Doc)
    requires Valid(d) && EveryRunSaves(d)
    ensures !HasRuns(d) ==> |Emission(d)| == Size(d)
    ensures HasRuns(d) ==>
              var first := NextRun(d.marks, 0);
              && first + 1 < |d.marks| && StartsRun(d, first)
              && var next := NextRun(d.marks, first + 2);
              && Balance(d, next) + RunCount(d.marks[next..]) <= 0
              && (|Emission(d)| > Size(d) <==> Loss(d, first) > -Balance(d, next))
              && (next == |d.marks| ==> Loss(d, first) < 0)
              && Loss(d, first) <= 3
  {
    hide Gap, Pos, EmitFrom, RunCost, RunWorth, RunCount;
    EmissionBalance(d);
    var first := NextRun(d.marks, 0);
    if HasRuns(d) {
      assert StartsRun(d, first) && RunOk(d, first);
      FirstRunCost(d, first);
      var next := NextRun(d.marks, first + 2);
      LaterRunsSave(d, next);
      RunsFromNext(d.marks, first + 2);
    }
  }

  /** Streaming out never costs more than two bytes over the uncompressed resource. */
  lemma GrowthBound(d: Doc)
    requires Valid(d) && EveryRunSaves(d)
    ensures |Emission(d)| <= Size(d) + if HasRuns(d) then 2 else 0
  {
    hide Gap, Pos, EmitFrom, RunCost, RunWorth, Balance;
    LongerExactlyIf(d);
    EmissionBalance(d);
    if HasRuns(d) {
      BalanceStep(d, NextRun(d.marks, 0));
    }
  }

  lemma BalanceStep(d: Doc, r: nat)
    requires Sorted(d) && RunsOk(d) && r + 1 < |d.marks| && d.marks[r].kind.StartOfRun?
    ensures Balance(d, r) == Loss(d, r) + Balance(d, NextRun(d.marks, r + 2))
  {
    assert RunOk(d, r);
  }

  lemma FirstRunCost(d: Doc, r: nat)
    requires Sorted(d) && RunsOk(d) && StartsRun(d, r) && r + 1 < |d.marks|
    ensures RunCost(d, r) <= RunWorth(d, r) + 3
  {
    assert RunOk(d, r);
  }

  // When the restarts have ended

  /** What is written less the uncompressed resource. */
  function Growth(d: Doc): int
    requires Valid(d) && Settle(d).Settled?
  {
    SettledStream(d);
    |Emission(Settle(d).doc)| - Size(d)
  }

  /** When streaming out makes a resource longer: exactly if the first run that is left costs more than
      it is worth, by more than what the runs after it save. */
  lemma GrowsExactlyIf(d: Doc)
    requires Valid(d) && Settle(d).Settled?
    ensures var s := Settle(d).doc;
            && Valid(s) && Growth(d) == Balance(s, NextRun(s.marks, 0)) && Growth(d) <= 2
            && (Growth(d) > 0 <==>
                  && HasRuns(s)
                  && var first := NextRun(s.marks, 0);
                  && first + 1 < |s.marks|
                  && Loss(s, first) > -Balance(s, NextRun(s.marks, first + 2)))
  {
    hide Emission, Balance, Loss, EveryRunSaves;
    SettledStream(d);
    var s := Settle(d).doc;
    EmissionBalance(s);
    LongerExactlyIf(s);
    GrowthBound(s);
    if HasRuns(s) {
      BalanceStep(s, NextRun(s.marks, 0));
    }
  }

  lemma AnyRuns(d: Doc)
    ensures HasRuns(d) <==> RunCount(d.marks) > 0
    ensures RunCount(d.marks) == 1 ==>
              var first := NextRun(d.marks, 0);
              first < |d.marks| && NextRun(d.marks, first + 1) == |d.marks|
  {
    hide RunCount;
    RunsFromNext(d.marks, 0);
    assert d.marks[0..] == d.marks;
    var first := NextRun(d.marks, 0);
    if first < |d.marks| {
      RunsFromNext(d.marks, first + 1);
    }
  }

  /** A stream with no runs, or with one that is not given an empty run before it, never grows, and it
      gets shorter if the run is kept. */
  lemma OneRunNeverGrows(d: Doc)
    requires Valid(d) && Settle(d).Settled? && RunCount(d.marks) <= 1
    ensures if HasRuns(Settle(d).doc) then Growth(d) < 0 else Growth(d) == 0
    ensures !HasRuns(d) ==> !HasRuns(Settle(d).doc)
  {
    hide Balance, Loss, RunCount, EveryRunSaves, Emission;
    SettledStream(d);
    var s := Settle(d).doc;
    AnyRuns(d);
    AnyRuns(s);
    LongerExactlyIf(s);
    EmissionBalance(s);
    if HasRuns(s) {
      var first := NextRun(s.marks, 0);
      BalanceStep(s, first);
      LastRunAlone(s, first);
    }
  }

  lemma LastRunAlone(d: Doc, first: nat)
    requires Sorted(d) && RunsOk(d) && StartsRun(d, first) && NextRun(d.marks, first + 1) == |d.marks|
    ensures first + 1 < |d.marks| && NextRun(d.marks, first + 2) == |d.marks| && Balance(d, |d.marks|) == 0
  {
    assert RunOk(d, first);
  }

  /** A run at the start that pays for itself whatever follows it: a run length takes up to two bytes. */
  predicate Pays(compressed: nat, text: nat) {
    SizeOfCompressedInteger(compressed) + compressed + 2 <= text
  }

  ghost predicate PayingStart(d: Doc)
    requires Sorted(d)
  {
    StartsRun(d, 0) && Pays(|Gap(d, 0)|, |d.marks[0].kind.text|)
  }

  lemma PayingLoss(d: Doc)
    requires Valid(d) && PayingStart(d)
    ensures 1 < |d.marks| && Loss(d, 0) <= 0 && NextRun(d.marks, 0) == 0
  {
    hide Gap, Pos;
    assert RunOk(d, 0);
  }

  lemma PayingAfterDrop(d: Doc, r: nat)
    requires Valid(d) && PayingStart(d) && 0 < r && StartsRun(d, r)
    ensures Sorted(Converted(d, r)) && PayingStart(Converted(d, r))
  {
    hide Converted, Gap;
    assert RunOk(d, r) && RunOk(d, 0);
    ConvertedSorted(d, r);
    ConvertedMarks(d, r);
    ConvertedGap(d, r, 0);
  }

  lemma {:induction false} PayingSettles(d: Doc)
    requires Valid(d) && PayingStart(d) && Settle(d).Settled?
    ensures var s := Settle(d).doc; Valid(s) && (PayingStart(s) || !HasRuns(s))
    decreases |d.marks|
  {
    hide Gap, Converted, RunCost, RunWorth, Droppable, RunCount, PayingStart, Image, Pos;
    var v := Judge(d, 0);
    if v.Useless? {
      DroppableMeans(d, v.r);
      ConvertedValid(d, v.r);
      var d' := Converted(d, v.r);
      AnyRuns(d');
      if v.r > 0 {
        PayingAfterDrop(d, v.r);
        PayingSettles(d');
      } else {
        SoleRun(d);
        OneRunNeverGrows(d');
      }
    }
  }

  lemma SoleRun(d: Doc)
    requires Valid(d) && PayingStart(d) && Droppable(d, 0)
    ensures RunCount(d.marks) == 1
  {
    hide RunCount, Gap;
    RunsFromNext(d.marks, 0);
    RunsFromNext(d.marks, 1);
    assert d.marks[0..] == d.marks;
  }

  /** Runs of which the first does not lose make a stream shorter. */
  lemma NoLossSaves(d: Doc)
    requires Valid(d) && EveryRunSaves(d) && HasRuns(d) && NextRun(d.marks, 0) + 1 < |d.marks| && Loss(d, NextRun(d.marks, 0)) <= 0
    ensures Balance(d, NextRun(d.marks, 0)) < 0
  {
    hide Balance, Loss, EveryRunSaves, RunCount, Emission;
    var first := NextRun(d.marks, 0);
    LongerExactlyIf(d);
    BalanceStep(d, first);
    RunsFromNext(d.marks, NextRun(d.marks, first + 2));
  }

  /** A stream that begins with a run that pays for itself never grows, and it gets shorter if any run is kept. */
  lemma PayingNeverGrows(d: Doc)
    requires Valid(d) && PayingStart(d) && Settle(d).Settled?
    ensures if HasRuns(Settle(d).doc) then Growth(d) < 0 else Growth(d) == 0
  {
    hide Gap, Pos, Balance, Loss, EveryRunSaves, PayingStart, RunCount, Emission, Settle;
    PayingSettles(d);
    GrowsExactlyIf(d);
    SettledStream(d);
    var s := Settle(d).doc;
    EmissionBalance(s);
    LongerExactlyIf(s);
    if HasRuns(s) {
      PayingLoss(s);
      NoLossSaves(s);
    }
  }

  // One run behind other bytes

  /** A stream of two runs, of which the first is the empty one at the start. */
  ghost predicate OneLedRun(d: Doc, r: nat)
    requires Sorted(d)
  {
    && StartsRun(d, 0) && Gap(d, 0) == [] && 1 < r && StartsRun(d, r)
    && NextRun(d.marks, 1) == r && NextRun(d.marks, r + 1) == |d.marks|
  }

  lemma LedRunMarks(d: Doc, r: nat)
    requires Valid(d) && OneLedRun(d, r)
    ensures r + 1 < |d.marks| && d.marks[0].kind.text == [] && RunCount(d.marks) == 2
    ensures NextRun(d.marks, 0) == 0 && NextRun(d.marks, 2) == r && NextRun(d.marks, r + 2) == |d.marks|
    ensures !Droppable(d, 0) && Droppable(d, r) && Counted(d, 1)
    ensures RunWorth(d, 0) == 0 && Loss(d, 0) == 1 + SizeOfCompressedInteger(Other(d, 1)) <= 3
  {
    hide RunCount, Pos, Other;
    assert RunOk(d, 0) && RunOk(d, r) && RunOk(d, 1);
    RunsFromNext(d.marks, 0);
    RunsFromNext(d.marks, 1);
    RunsFromNext(d.marks, r + 1);
    assert d.marks[0..] == d.marks;
    PosAtStart(d);
    assert Gap(d, -1) == [];
  }

  lemma LedRunSettles(d: Doc, r: nat)
    requires Valid(d) && OneLedRun(d, r) && Settle(d).Settled?
    ensures r + 1 < |d.marks|
    ensures Loss(d, r) < 0 ==> Settle(d) == Settled(d)
    ensures Loss(d, r) >= 0 ==> Growth(d) <= 0
  {
    hide RunCount, Pos, Other, Gap, RunCost, RunWorth, Converted, Balance, Emission, Counted;
    LedRunMarks(d, r);
    var v := Judge(d, 0);
    if v.Useless? {
      DroppableMeans(d, v.r);
      ConvertedValid(d, v.r);
      OneRunNeverGrows(Converted(d, v.r));
      assert NextRun(d.marks, 0) == 0;
      assert v.r == r;
    } else {
      if Loss(d, r) >= 0 {
        CleanRunsSave(d, 0, r);
      }
    }
  }

  /** A single run behind other bytes makes a resource longer exactly if it is worth keeping but does
      not save what the empty run before it and the length of those bytes cost. */
  lemma LedRunGrowsExactlyIf(d: Doc, r: nat)
    requires Valid(d) && OneLedRun(d, r) && Settle(d).Settled?
    ensures r + 1 < |d.marks|
    ensures Growth(d) > 0 <==> Loss(d, r) < 0 && Loss(d, r) + 1 + SizeOfCompressedInteger(Other(d, 1)) > 0
  {
    hide RunCount, Pos, Other, Gap, RunCost, RunWorth, Emission, Settle, Counted;
    LedRunMarks(d, r);
    LedRunSettles(d, r);
    if Loss(d, r) < 0 {
      EmissionBalance(d);
      BalanceStep(d, 0);
      BalanceStep(d, r);
    }
  }

  // What a caller can tell beforehand

  lemma BuiltIsValid(script: seq<Item>)
    requires Built(script, 0)
    ensures Valid(StreamOf(script))
  {
    hide StreamOf;
  }

  /** Scripts that do not make a resource longer: those without runs, and those that begin with a run
      that is their only one or pays for itself. */
  predicate Harmless(script: seq<Item>) {
    AnyRun(script) ==>
      script[0].Run? && (RunsIn(script) == 1 || Pays(|script[0].compressed|, |script[0].text|))
  }

  lemma HarmlessNeverGrows(script: seq<Item>)
    requires Built(script, 0) && Harmless(script) && Valid(StreamOf(script)) && Settle(StreamOf(script)).Settled?
    ensures if HasRuns(Settle(StreamOf(script)).doc) then Growth(StreamOf(script)) < 0 else Growth(StreamOf(script)) == 0
  {
    hide StreamOf, Settle, RunCount, RunsIn, Script, Emission, Image;
    var d := StreamOf(script);
    AnyRuns(d);
    if !AnyRun(script) {
      OneRunNeverGrows(d);
    } else {
      RunStaysFirst(script);
      if RunsIn(script) == 1 {
        OneRunNeverGrows(d);
      } else {
        BeginsWithGap(d, script[0].compressed, script[0].text);
        PayingNeverGrows(d);
      }
    }
  }

  lemma BeginsWithGap(d: Doc, compressed: seq<Byte>, text: seq<Byte>)
    requires Sorted(d) && BeginsWith(d, compressed, text)
    ensures StartsRun(d, 0) && d.marks[0].kind.text == text && Gap(d, 0) == compressed
  {
  }

  /** The stream `d` is a run put behind the stream `a` with the empty run before it, and then more
      without runs. */
  ghost predicate Follows(d: Doc, a: Doc, compressed: seq<Byte>, text: seq<Byte>) {
    var w := WithRun(WithLead(a), compressed, text);
    && w.marks <= d.marks && w.buffer <= d.buffer
    && forall k :: |w.marks| <= k < |d.marks| ==> !d.marks[k].kind.StartOfRun? && d.marks[k].position >= |w.buffer|
  }

  predicate Behind(before: seq<Item>) {
    exists i :: 0 <= i < |before| && (before[i].Octet? || before[i].Open?)
  }

  lemma {:induction false} RunFollows(before: seq<Item>, compressed: seq<Byte>, text: seq<Byte>, after: seq<Item>)
    requires Led(StreamOf(before)) == WithLead(StreamOf(before)) && forall i :: 0 <= i < |after| ==> !after[i].Run?
    ensures Follows(StreamOf(before + [Run(compressed, text)] + after), StreamOf(before), compressed, text)
  {
    var item, n := Run(compressed, text), |after| - 1;
    if after == [] {
      assert before + [item] + after == before + [item];
      StreamOfNext(before, item);
    } else {
      RunFollows(before, compressed, text, after[..n]);
      assert before + [item] + after[..n] + [after[n]] == before + [item] + after;
      StreamOfNext(before + [item] + after[..n], after[n]);
    }
  }

  lemma FollowsMarks(d: Doc, a: Doc, compressed: seq<Byte>, text: seq<Byte>)
    requires Follows(d, a, compressed, text)
    ensures var n, q := |a.marks|, |a.buffer|;
            && n + 4 <= |d.marks| && d.marks[0] == Mark(0, StartOfRun([])) && d.marks[1] == Mark(0, EndOfRun)
            && d.marks[n + 2] == Mark(q, StartOfRun(text)) && d.marks[n + 3] == Mark(q + |compressed|, EndOfRun)
            && (forall k :: 0 <= k < n ==> d.marks[k + 2] == a.marks[k])
            && (forall k :: n + 4 <= k < |d.marks| ==> !d.marks[k].kind.StartOfRun?)
            && q + |compressed| <= |d.buffer| && d.buffer[..q] == a.buffer && d.buffer[q..q + |compressed|] == compressed
  {
    var w := WithRun(WithLead(a), compressed, text);
    var n, q := |a.marks|, |a.buffer|;
    assert |w.marks| == n + 4 && |w.buffer| == q + |compressed|;
    forall k | 0 <= k < n + 4 ensures d.marks[k] == w.marks[k] {
      assert d.marks[..n + 4][k] == w.marks[k];
    }
    assert d.buffer[..q] == d.buffer[..|w.buffer|][..q] && d.buffer[q..q + |compressed|] == d.buffer[..|w.buffer|][q..];
  }

  lemma FollowsGap(d: Doc, a: Doc, compressed: seq<Byte>, text: seq<Byte>, k: int)
    requires Sorted(d) && Sorted(a) && Follows(d, a, compressed, text) && -1 <= k < |a.marks|
    ensures k + 2 < |d.marks| && Gap(d, k + 2) == Gap(a, k)
  {
    hide Follows;
    FollowsMarks(d, a, compressed, text);
    GapIs(d, k + 2);
    GapIs(a, k);
    var low, high := MarkPosition(a, k), NextPosition(a, k);
    assert MarkPosition(d, k + 2) == low && NextPosition(d, k + 2) == high;
    SliceOfSlice(d.buffer, 0, |a.buffer|, low, high - low);
    assert d.buffer[0..|a.buffer|] == a.buffer;
  }

  lemma {:induction false} FollowsPos(d: Doc, a: Doc, compressed: seq<Byte>, text: seq<Byte>, k: nat)
    requires Sorted(d) && Sorted(a) && Follows(d, a, compressed, text) && k <= |a.marks|
    ensures k + 2 <= |d.marks| && Pos(d, k + 2) == Pos(a, k)
  {
    hide Follows, Gap, Sorted, MarkPosition, NextPosition;
    FollowsMarks(d, a, compressed, text);
    FollowsGap(d, a, compressed, text, k - 1);
    if k > 0 {
      FollowsPos(d, a, compressed, text, k - 1);
    } else {
      FollowsStart(d);
    }
  }

  lemma FollowsStart(d: Doc)
    requires Sorted(d) && |d.marks| > 2 && d.marks[0] == Mark(0, StartOfRun([])) && d.marks[1] == Mark(0, EndOfRun)
    ensures Gap(d, 0) == [] && Pos(d, 1) == 0 && Pos(d, 2) == |Gap(d, 1)|
  {
    assert Gap(d, -1) == [] && Pos(d, 0) == 0;
  }

  lemma FollowsIsLed(d: Doc, a: Doc, compressed: seq<Byte>, text: seq<Byte>)
    requires Sorted(d) && Sorted(a) && Follows(d, a, compressed, text) && !HasRuns(a)
    ensures var r := |a.marks| + 2;
            && OneLedRun(d, r) && StartsRun(d, r) && r + 1 < |d.marks| && d.marks[r + 1].kind.EndOfRun?
            && NextRun(d.marks, r + 1) == |d.marks|
            && d.marks[r].kind.text == text && Gap(d, r) == compressed && Pos(d, r) == Size(a) == Other(d, 1)
            && Other(d, r + 1) == Size(d) - (Size(a) + Size(a) % 2 + |text|)
  {
    hide Follows, Sorted;
    var r := |a.marks| + 2;
    FollowsMarks(d, a, compressed, text);
    FollowsStart(d);
    FollowsPos(d, a, compressed, text, |a.marks|);
    forall k | 1 <= k < r ensures !d.marks[k].kind.StartOfRun? {
      assert k > 1 ==> d.marks[k] == a.marks[k - 2];
    }
    NextRunIs(d.marks, 1, r);
    NextRunIs(d.marks, 2, r);
    NextRunIs(d.marks, r + 1, |d.marks|);
    NextRunIs(d.marks, r + 2, |d.marks|);
    GapIs(d, r);
  }

  lemma SizeIsEnd(d: Doc)
    requires Sorted(d)
    ensures Size(d) == End(Items(d), 0)
  {
    hide Items, Cells;
    ImageSize(d);
    CellsSize(Items(d), 0);
  }

  lemma ScriptEnd(d: Doc)
    requires Sorted(d)
    ensures End(Items(d), 0) == End(Script(d), 0)
  {
    hide Items, End, CloseAt, Cells;
    var items := Items(d);
    if items != [] && items[0] == Run([], []) {
      assert items == [Run([], [])] + items[1..];
      ConsImage(Run([], []), items[1..], 0, 0);
    }
  }

  lemma {:induction false} NothingBehind(script: seq<Item>)
    requires !AnyRun(script) && StreamOf(script).buffer == []
    requires forall k :: 0 <= k < |StreamOf(script).marks| ==> !StreamOf(script).marks[k].kind.StartOfBlock?
    ensures !Behind(script)
  {
    if script != [] {
      var n := |script| - 1;
      var d, d' := StreamOf(script[..n]), StreamOf(script);
      assert !script[n].Run?;
      assert d.marks <= d'.marks;
      assert |d'.marks| > |d.marks| ==> !d'.marks[|d.marks|].kind.StartOfBlock?;
      assert !script[n].Octet? && !script[n].Open?;
      forall k | 0 <= k < |d.marks| ensures d.marks[k] == d'.marks[k] {
      }
      forall i | 0 <= i < n ensures !script[i].Run? && script[..n][i] == script[i] {
      }
      NothingBehind(script[..n]);
      forall i | 0 <= i < |script| ensures !script[i].Octet? && !script[i].Open? {
        if i < n {
          assert script[..n][i] == script[i];
        }
      }
    }
  }

  /** A run behind an octet or a block is given the empty run before it. */
  lemma BehindIsLed(before: seq<Item>, depth: int)
    requires Built(before, depth) && !AnyRun(before) && Behind(before)
    ensures Led(StreamOf(before)) == WithLead(StreamOf(before))
  {
    hide StreamOf;
    if Led(StreamOf(before)) == StreamOf(before) {
      NothingBehind(before);
    }
  }

  /** What a run costs, with its length and that of the bytes after it. */
  function CostOf(compressed: nat, after: nat): nat {
    SizeOfCompressedInteger(compressed) + compressed + if after > 0 then SizeOfCompressedInteger(after) else 0
  }

  /** The only run of a script, behind something else, makes the resource longer exactly if it is worth
      more than it costs, but not by the run lengths that have to go before it. */
  lemma OnlyRunGrowsExactlyIf(before: seq<Item>, compressed: seq<Byte>, text: seq<Byte>, after: seq<Item>, depth: int)
    requires var script := before + [Run(compressed, text)] + after;
             Built(before, depth) && Built(script, 0) && Valid(StreamOf(script)) && Settle(StreamOf(script)).Settled?
    requires !AnyRun(before) && Behind(before) && !AnyRun(after)
    ensures var script := before + [Run(compressed, text)] + after;
            var start := End(before, 0);
            var worth := start % 2 + |text|;
            var rest := End(script, 0) - (start + worth);
            rest >= 0 &&
            var cost := CostOf(|compressed|, rest);
            Growth(StreamOf(script)) > 0 <==> cost < worth < cost + 1 + SizeOfCompressedInteger(start)
  {
    hide StreamOf, Settle, RunCount, Script, Emission, Image, Follows, End, Items, Pos, OneLedRun, Led;
    var script := before + [Run(compressed, text)] + after;
    var d, a := StreamOf(script), StreamOf(before);
    NoRunItems(after);
    BehindIsLed(before, depth);
    RunFollows(before, compressed, text, after);
    FollowsIsLed(d, a, compressed, text);
    var r := |a.marks| + 2;
    SizeIsEnd(d);
    ScriptEnd(d);
    SizeIsEnd(a);
    ScriptEnd(a);
    LedRunGrowsExactlyIf(d, r);
    LossIs(d, r);
  }

  lemma NoRunItems(items: seq<Item>)
    requires !AnyRun(items)
    ensures forall i :: 0 <= i < |items| ==> !items[i].Run?
  {
  }

  lemma LossIs(d: Doc, r: nat)
    requires Sorted(d) && StartsRun(d, r) && r + 1 < |d.marks| && NextRun(d.marks, r + 1) == |d.marks| && d.marks[r + 1].kind.EndOfRun?
    ensures Loss(d, r) == CostOf(|Gap(d, r)|, Other(d, r + 1)) - (Pos(d, r) % 2 + |d.marks[r].kind.text|)
  {
    hide Pos, Gap, Other;
    assert NextRun(d.marks, r + 1) == NextRun(d.marks, r + 2);
  }

  // A resource that gets longer

  /** A resource of 128 octets and then the two characters "AB", compressed. */
  function Longer(): Doc {
    Doc([Mark(0, StartOfRun([])), Mark(0, EndOfRun),
         Mark(128, StartOfRun([0x41, 0, 0x42, 0])), Mark(130, EndOfRun)],
        seq(128, _ => 0) + [0x41, 0x42])
  }

  lemma LongerShape()
    ensures var d := Longer();
            && Valid(d) && Pos(d, 0) == 0 && Pos(d, 1) == 0 && Pos(d, 2) == 128 && Pos(d, 3) == Size(d) == 132
            && NextRun(d.marks, 0) == 0 && NextRun(d.marks, 1) == NextRun(d.marks, 2) == 2
            && NextRun(d.marks, 3) == NextRun(d.marks, 4) == 4
            && |Gap(d, -1)| == 0 && |Gap(d, 0)| == 0 && |Gap(d, 1)| == 128 && |Gap(d, 2)| == 2 && |Gap(d, 3)| == 0
  {
    var d := Longer();
    assert Depth(d.marks, 1) == 0 && Depth(d.marks, 2) == 0 && Depth(d.marks, 3) == 0 && Depth(d.marks, 4) == 0;
    assert Sorted(d);
    assert Gap(d, 0) == [];
    assert RunOk(d, 0) && RunOk(d, 1) && RunOk(d, 2) && RunOk(d, 3);
  }

  /** The operations that make it. */
  function LongerScript(): seq<Item> {
    Octets(seq(128, _ => 0)) + [Run([0x41, 0x42], [0x41, 0, 0x42, 0])]
  }

  lemma LongerIsMade()
    ensures StreamOf(LongerScript()) == Longer()
  {
    var zeros: seq<Byte>, run := seq(128, _ => 0), Run([0x41, 0x42], [0x41, 0, 0x42, 0]);
    StreamOfOctets([], zeros);
    assert [] + Octets(zeros) == Octets(zeros) && [] + zeros == zeros;
    StreamOfNext(Octets(zeros), run);
    assert StreamOf([]) == NO_MARKS;
    assert StreamOf(Octets(zeros)) == Doc([], zeros);
    assert Put(Doc([], zeros), run) == Longer();
  }

  /** The bound is reached: this resource is kept compressed although that makes it two bytes longer. */
  lemma GrowthReached()
    ensures Valid(Longer()) && Settle(Longer()) == Settled(Longer())
    ensures |Emission(Longer())| == Size(Longer()) + 2
  {
    hide Gap, Pos, Sorted;
    var d := Longer();
    LongerShape();
    assert Other(d, 1) == 128 && Other(d, 3) == 0;
    assert !Droppable(d, 0) && Counted(d, 1) && !Counted(d, 3);
    assert RunOk(d, 0) && RunOk(d, 2);
    assert JudgeRun(d, 0).Clean? && JudgeRun(d, 1).Clean? && JudgeRun(d, 2).Clean? && JudgeRun(d, 3).Clean?;
    assert Judge(d, 4).Clean? && Judge(d, 3).Clean? && Judge(d, 2).Clean? && Judge(d, 1).Clean?;
    assert EmitFrom(d, 4) == [];
    assert |EmitFrom(d, 3)| == 0 && |EmitFrom(d, 2)| == 3 && |EmitFrom(d, 1)| == 133 && |EmitFrom(d, 0)| == 134;
  }
}
