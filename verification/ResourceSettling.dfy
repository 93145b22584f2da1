/** Which compressed runs are worth keeping: the second layout pass and its restarts. */
module ResourceSettling {
  import opened Bytes
  import opened ResourceImage
  import opened ResourceMarks
  import opened ResourceLayout

  /** The bytes that a run costs with the run lengths on either side of it. */
  function RunCost(d: Doc, r: nat): nat
    requires Sorted(d) && r + 1 < |d.marks|
  {
    SizeOfCompressedInteger(|Gap(d, r)|) + |Gap(d, r)|
    + if Counted(d, r + 1) then SizeOfCompressedInteger(Other(d, r + 1)) else 0
  }

  /** The bytes that a run stands for, with the padding before them. */
  function RunWorth(d: Doc, r: nat): nat
    requires Sorted(d) && r < |d.marks| && d.marks[r].kind.StartOfRun?
  {
    |d.marks[r].kind.text| + Pos(d, r) % 2
  }

  /** The first run is not considered for dropping unless it is the only one. */
  predicate Droppable(d: Doc, r: nat)
    requires r < |d.marks|
  {
    NextRun(d.marks, r + 1) == |d.marks| || NextRun(d.marks, 0) != r
  }

  datatype Verdict = Clean | TooLong | Useless(r: nat)

  /** The verdict on one run, or Clean. */
  function JudgeRun(d: Doc, i: nat): Verdict
    requires Sorted(d) && i < |d.marks|
    requires d.marks[i].kind.StartOfRun? ==> i + 1 < |d.marks|
  {
    if !d.marks[i].kind.StartOfRun? || !Droppable(d, i) then Clean
    else if |Gap(d, i)| > LONGEST_RUN then TooLong
    else if Counted(d, i + 1) && Other(d, i + 1) > LONGEST_RUN then TooLong
    else if RunCost(d, i) >= RunWorth(d, i) then Useless(i)
    else Clean
  }

  /** The first verdict that is not Clean, from mark `i` on. */
  function Judge(d: Doc, i: nat): (v: Verdict)
    requires Sorted(d) && RunsOk(d) && i <= |d.marks|
    ensures v.Useless? ==> i <= v.r < |d.marks| && StartsRun(d, v.r) && Droppable(d, v.r)
    ensures v.Useless? ==> v.r + 1 < |d.marks| && RunCost(d, v.r) >= RunWorth(d, v.r)
    decreases |d.marks| - i
  {
    if i == |d.marks| then Clean
    else
      assert RunOk(d, i);
      if JudgeRun(d, i).Clean? then Judge(d, i + 1) else JudgeRun(d, i)
  }

  predicate PrefixesFit(d: Doc)
    requires Sorted(d)
  {
    forall i :: 0 <= i < |d.marks| && d.marks[i].kind.StartOfBlock? ==> Span(d, i) < Capacity(d.marks[i].kind.width)
  }

  predicate AllLengthsOk(d: Doc)
    requires Sorted(d)
    ensures AllLengthsOk(d) <==> LengthsOk(d)
  {
    && (forall i :: 0 <= i < |d.marks| && d.marks[i].kind.StartOfRun? ==> |Gap(d, i)| <= LONGEST_RUN)
    && (forall i :: 0 <= i < |d.marks| && d.marks[i].kind.EndOfRun? ==> Other(d, i) <= LONGEST_RUN)
  }

  datatype Outcome = Refused | Settled(doc: Doc)

  /** The stream after all restarts, or Refused when an assertion of the passes would fail: a size
      that its prefix cannot hold, or a run length over fifteen bits. */
  function Settle(d: Doc): Outcome
    requires Valid(d)
    decreases |d.marks|
  {
    if !PrefixesFit(d) then Refused
    else match Judge(d, 0)
      case TooLong => Refused
      case Clean => if AllLengthsOk(d) then Settled(d) else Refused
      case Useless(r) => ConvertedValid(d, r); Settle(Converted(d, r))
  }

  // What is left when the restarts end

  /** Every run that could have been dropped saves space, its length bytes and padding included. */
  ghost predicate EveryRunSaves(d: Doc)
    requires Sorted(d) && RunsOk(d)
  {
    forall r {:trigger StartsRun(d, r)} :: 0 <= r < |d.marks| && StartsRun(d, r) && Droppable(d, r) ==>
      r + 1 < |d.marks| && RunCost(d, r) < RunWorth(d, r)
  }

  lemma {:induction false} CleanRunsSave(d: Doc, i: nat, r: nat)
    requires Sorted(d) && RunsOk(d) && i <= r < |d.marks| && Judge(d, i).Clean?
    requires StartsRun(d, r) && Droppable(d, r)
    ensures r + 1 < |d.marks| && RunCost(d, r) < RunWorth(d, r)
    decreases r - i
  {
    assert RunOk(d, i) && RunOk(d, r);
    if i < r {
      CleanRunsSave(d, i + 1, r);
    }
  }

  lemma {:induction false} SettledStream(d: Doc)
    requires Valid(d) && Settle(d).Settled?
    ensures var s := Settle(d).doc;
            && Valid(s) && LengthsOk(s) && PrefixesFit(s) && EveryRunSaves(s)
            && Image(s) == Image(d) && Size(s) == Size(d)
            && RunCount(s.marks) <= RunCount(d.marks)
    decreases |d.marks|
  {
    hide Image, Pos, Gap, Converted, RunCost, RunWorth, Droppable;
    var v := Judge(d, 0);
    if v.Clean? {
      forall r | 0 <= r < |d.marks| && StartsRun(d, r) && Droppable(d, r)
        ensures r + 1 < |d.marks| && RunCost(d, r) < RunWorth(d, r)
      {
        CleanRunsSave(d, 0, r);
      }
    } else {
      DroppableMeans(d, v.r);
      ConvertedValid(d, v.r);
      SettledStream(Converted(d, v.r));
    }
  }

  lemma DroppableMeans(d: Doc, r: nat)
    requires r < |d.marks|
    ensures Droppable(d, r) <==> NextRun(d.marks, 0) != r || NextRun(d.marks, r + 1) == |d.marks|
  {
  }

  // Runs stay what they were

  lemma UnpacksAfterDrop(d: Doc, r: nat)
    requires Sorted(d) && RunsOk(d) && StartsRun(d, r) && Unpacks(d) && Sorted(Converted(d, r))
    ensures Unpacks(Converted(d, r))
  {
    hide Converted, Gap, Expand;
    assert RunOk(d, r);
    var d' := Converted(d, r);
    forall i | 0 <= i < |d'.marks| && d'.marks[i].kind.StartOfRun?
      ensures Expand(Gap(d', i)) == Some(d'.marks[i].kind.text)
    {
      if Gap(d, r) == [] {
        LeadGapsCount(d);
        LeadGaps(d, i);
      } else {
        ConvertedMarks(d, r);
        ConvertedGap(d, r, i);
      }
    }
  }

  lemma {:induction false} SettledUnpacks(d: Doc)
    requires Valid(d) && Settle(d).Settled? && Unpacks(d)
    ensures Valid(Settle(d).doc) && Unpacks(Settle(d).doc)
    decreases |d.marks|
  {
    hide Image, Pos, Gap, Converted, RunCost, RunWorth, Droppable, Unpacks;
    var v := Judge(d, 0);
    if v.Useless? {
      DroppableMeans(d, v.r);
      ConvertedValid(d, v.r);
      UnpacksAfterDrop(d, v.r);
      SettledUnpacks(Converted(d, v.r));
    }
  }

  /** The whole of streaming out: a reader of the bytes that are written, whichever runs were
      dropped, finds the image that the script denoted before any was. */
  lemma SettledReadBack(d: Doc, padding: Byte)
    requires Valid(d) && Unpacks(d) && Settle(d).Settled?
    ensures var s := Settle(d).doc;
            && Sorted(s)
            && var r := ReadResource(Emission(s), HasRuns(s), padding);
            r.Some? && Matches(r.value, Image(d))
  {
    hide Image, Unpacks, Settle, ReadResource, Emission, Matches;
    SettledStream(d);
    SettledUnpacks(d);
    ReadBack(Settle(d).doc, padding);
  }

  // When streaming out is refused

  lemma {:induction false} FitsFrom(d: Doc, i: nat)
    requires Sorted(d) && i <= |d.marks|
    ensures Fits(ItemsFrom(d, i), Pos(d, i)) <==>
            forall k :: i <= k < |d.marks| && d.marks[k].kind.StartOfBlock? ==> Span(d, k) < Capacity(d.marks[k].kind.width)
    decreases |d.marks| - i
  {
    hide Fits, CloseAt, Octets, Gap, Pos, ItemsFrom, Span, Sorted;
    if i == |d.marks| {
      NothingToFit(d);
    } else {
      FitsFrom(d, i + 1);
      PosStep(d, i);
      MarkFits(d, i);
    }
  }

  lemma NothingToFit(d: Doc)
    requires Sorted(d)
    ensures Fits(ItemsFrom(d, |d.marks|), Pos(d, |d.marks|))
  {
  }

  lemma MarkFits(d: Doc, i: nat)
    requires Sorted(d) && i < |d.marks|
    ensures Fits(ItemsFrom(d, i), Pos(d, i)) <==>
            && (d.marks[i].kind.StartOfBlock? ==> Span(d, i) < Capacity(d.marks[i].kind.width))
            && Fits(ItemsFrom(d, i + 1), Pos(d, i + 1))
  {
    hide Fits, CloseAt, Cells, Octets, Gap, Pos, ItemsFrom, Span, Sorted;
    PosStep(d, i);
    var gap, rest, pos := Gap(d, i), ItemsFrom(d, i + 1), Pos(d, i);
    match d.marks[i].kind {
      case EndOfRun => FitsAfterOctets(gap, rest, pos);
      case StartOfRun(_) => ConsImage(MarkItems(d, i)[0], rest, pos, 0);
      case StartOfBlock(w) => BlockSpan(d, i); FitsItemThenGap(Open(w), gap, rest, pos);
      case TwoByteAlignment => FitsItemThenGap(Align, gap, rest, pos);
      case EndOfBlock => FitsItemThenGap(Close, gap, rest, pos);
      case Enquiry(slot) => FitsItemThenGap(Enquire(slot), gap, rest, pos);
    }
  }

  lemma FitsItemThenGap(item: Item, gap: seq<Byte>, rest: seq<Item>, pos: nat)
    ensures Fits([item] + Octets(gap) + rest, pos) <==>
            && (item.Open? ==> CloseAt(Octets(gap) + rest, pos + item.width, 0) - (pos + item.width) < Capacity(item.width))
            && Fits(rest, After(item, pos) + |gap|)
  {
    hide Fits, CloseAt, Cells, Octets;
    Associate([item], Octets(gap), rest);
    ConsImage(item, Octets(gap) + rest, pos, 0);
    FitsAfterOctets(gap, rest, After(item, pos));
  }

  /** Whether the size prefixes fit depends on the script alone, so the first pass decides it. */
  lemma PrefixesFitScript(d: Doc)
    requires Sorted(d)
    ensures PrefixesFit(d) <==> Fits(Items(d), 0)
  {
    hide Fits, Gap, Octets, Span, Sorted;
    FitsFrom(d, 0);
    FitsAfterOctets(Gap(d, -1), ItemsFrom(d, 0), 0);
  }

  lemma LengthsWithinSize(d: Doc, i: nat)
    requires Sorted(d) && RunsOk(d) && i < |d.marks|
    ensures Other(d, i) <= Size(d)
    ensures d.marks[i].kind.StartOfRun? ==> |Gap(d, i)| <= Size(d)
  {
    hide Gap;
    PosGrows(d, NextRun(d.marks, i + 1), |d.marks|);
    PosGrows(d, i + 1, |d.marks|);
    assert RunOk(d, i);
    assert Pos(d, i + 1) == AfterMark(d, i, Pos(d, i));
  }

  /** A resource that is not too large is refused only for a size that its prefix cannot hold. */
  lemma {:induction false} SmallIsSettled(d: Doc)
    requires Valid(d) && Size(d) <= LONGEST_RUN
    ensures Settle(d).Settled? <==> Fits(Items(d), 0)
    decreases |d.marks|
  {
    hide Image, Gap, Converted, RunCost, RunWorth, Droppable, Fits, Items, Other;
    PrefixesFitScript(d);
    forall i | 0 <= i < |d.marks|
      ensures Other(d, i) <= LONGEST_RUN && (d.marks[i].kind.StartOfRun? ==> |Gap(d, i)| <= LONGEST_RUN)
    {
      LengthsWithinSize(d, i);
    }
    NotTooLong(d, 0);
    if PrefixesFit(d) && Judge(d, 0).Useless? {
      DroppableMeans(d, Judge(d, 0).r);
      ConvertedValid(d, Judge(d, 0).r);
      SmallIsSettled(Converted(d, Judge(d, 0).r));
    }
  }

  lemma {:induction false} NotTooLong(d: Doc, i: nat)
    requires Sorted(d) && RunsOk(d) && i <= |d.marks|
    requires forall k :: 0 <= k < |d.marks| ==>
               Other(d, k) <= LONGEST_RUN && (d.marks[k].kind.StartOfRun? ==> |Gap(d, k)| <= LONGEST_RUN)
    ensures !Judge(d, i).TooLong?
    decreases |d.marks| - i
  {
    hide Gap, Pos, Other, RunCost, RunWorth;
    if i < |d.marks| {
      assert RunOk(d, i);
      NotTooLong(d, i + 1);
    }
  }
}
