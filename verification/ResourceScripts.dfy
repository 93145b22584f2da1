/** The stream that a script of a caller's operations makes. */
module ResourceScripts {
  import opened Bytes
  import opened ResourceImage
  import opened ResourceMarks
  import opened ResourceLayout
  import opened ResourceBuilding

  /** One more operation. */
  function Put(d: Doc, item: Item): Doc {
    match item
    case Octet(b) => WithBytes(d, [b])
    case Open(w) => WithMark(d, StartOfBlock(w))
    case Close => WithMark(d, EndOfBlock)
    case Align => WithMark(d, TwoByteAlignment)
    case Run(compressed, text) => WithRun(Led(d), compressed, text)
    case Enquire(slot) => WithMark(d, Enquiry(slot))
  }

  const NO_MARKS: Doc := Doc([], [])

  function StreamOf(script: seq<Item>): Doc {
    if script == [] then NO_MARKS else Put(StreamOf(script[..|script| - 1]), script[|script| - 1])
  }

  lemma StreamOfNothing()
    ensures StreamOf([]) == NO_MARKS
  {
  }

  lemma StreamOfNext(script: seq<Item>, item: Item)
    ensures StreamOf(script + [item]) == Put(StreamOf(script), item)
  {
    assert (script + [item])[..|script|] == script;
  }

  lemma {:induction false} StreamOfOctets(script: seq<Item>, data: seq<Byte>)
    ensures StreamOf(script + Octets(data)) == WithBytes(StreamOf(script), data)
  {
    hide StreamOf;
    var n := |data| - 1;
    if data == [] {
      assert script + Octets(data) == script;
    } else {
      StreamOfOctets(script, data[..n]);
      OctetsConcat(data[..n], [data[n]]);
      assert data[..n] + [data[n]] == data;
      OneOctet(data[n]);
      Associate(script, Octets(data[..n]), [Octet(data[n])]);
      StreamOfNext(script + Octets(data[..n]), Octet(data[n]));
      Associate(StreamOf(script).buffer, data[..n], [data[n]]);
    }
  }

  lemma OneOctet(b: Byte)
    ensures Octets([b]) == [Octet(b)]
  {
    assert Octets([b]) == [Octet(b)] + Octets([b][1..]);
  }

  /** No alignment point stands before the first byte. */
  predicate Started(d: Doc) {
    d.buffer == [] ==> forall k :: 0 <= k < |d.marks| ==> !d.marks[k].kind.TwoByteAlignment?
  }

  predicate AnyRun(script: seq<Item>) {
    exists i :: 0 <= i < |script| && script[i].Run?
  }

  /** A script makes a stream of its own, with so many blocks open. */
  ghost predicate Built(script: seq<Item>, depth: int) {
    var d := StreamOf(script);
    && Growing(d) && Script(d) == script && Depth(d.marks, |d.marks|) == depth >= 0 && Started(d)
    && (HasRuns(d) <==> AnyRun(script))
  }

  lemma NothingBuilt()
    ensures Built([], 0)
  {
    var d := NO_MARKS;
    assert Sorted(d) && Octets(Gap(d, -1)) == [];
  }

  lemma NoRunsIn(script: seq<Item>, more: seq<Item>)
    requires forall i :: 0 <= i < |more| ==> !more[i].Run?
    ensures AnyRun(script + more) <==> AnyRun(script)
  {
    if i :| 0 <= i < |script| && script[i].Run? {
      assert (script + more)[i].Run?;
    }
  }

  lemma OctetsBuilt(script: seq<Item>, data: seq<Byte>, depth: int)
    requires Built(script, depth)
    ensures Built(script + Octets(data), depth)
  {
    hide Growing, Depth, Items, Octets, StreamOf, WithoutLead, AnyRun;
    var d := StreamOf(script);
    StreamOfOctets(script, data);
    BytesGrow(d, data);
    OnlyOctets(data);
    GrowingIsSorted(d);
    ScriptGrows(Items(d), Octets(data));
    NoRunsIn(script, Octets(data));
    assert HasRuns(WithBytes(d, data)) == HasRuns(d);
  }

  lemma GrowingIsSorted(d: Doc)
    ensures Growing(d) ==> Sorted(d)
  {
  }

  lemma MarkBuilt(script: seq<Item>, kind: Kind, item: Item, depth: int)
    requires Built(script, depth) && !kind.StartOfRun? && !kind.EndOfRun? && KindItems(kind) == [item]
    requires kind.EndOfBlock? ==> depth > 0
    requires kind.TwoByteAlignment? ==> StreamOf(script).buffer != []
    ensures Built(script + [item], depth + if kind.StartOfBlock? then 1 else if kind.EndOfBlock? then -1 else 0)
  {
    hide Growing, Depth, Items, StreamOf, WithoutLead, AnyRun, HasRuns;
    var d := StreamOf(script);
    GrowingIsSorted(d);
    MarkGrows(d, kind);
    GrowingIsSorted(WithMark(d, kind));
    ScriptGrows(Items(d), [item]);
    StreamOfNext(script, item);
    NoRunsIn(script, [item]);
  }

  /** An alignment point and the bytes behind it. */
  lemma AlignedBuilt(script: seq<Item>, data: seq<Byte>, depth: int)
    requires Built(script, depth) && data != []
    ensures Built(script + ([Align] + Octets(data)), depth)
  {
    hide Growing, Depth, Items, Octets, StreamOf, WithoutLead, AnyRun, HasRuns;
    var d := StreamOf(script);
    GrowingIsSorted(d);
    MarkGrows(d, TwoByteAlignment);
    var d' := WithMark(d, TwoByteAlignment);
    GrowingIsSorted(d');
    ScriptGrows(Items(d), [Align]);
    StreamOfNext(script, Align);
    StreamOfOctets(script + [Align], data);
    BytesGrow(d', data);
    GrowingIsSorted(WithBytes(d', data));
    OnlyOctets(data);
    ScriptGrows(Items(d'), Octets(data));
    Associate(script, [Align], Octets(data));
    NoRunsIn(script, [Align]);
    NoRunsIn(script + [Align], Octets(data));
    SameRuns(d', data);
  }

  /** Only enquiries stand before a run that is given no empty run before it. */
  lemma LedRuns(d: Doc)
    requires Growing(d) && Started(d)
    ensures Growing(Led(d)) && Depth(Led(d).marks, |Led(d).marks|) == Depth(d.marks, |d.marks|) && Script(Led(d)) == Script(d)
    ensures HasRuns(Led(d)) ||
            (Led(d).buffer == [] && forall k :: 0 <= k < |Led(d).marks| ==> Led(d).marks[k].kind.Enquiry?)
  {
    hide Depth, Items, WithoutLead;
    if Led(d) == d {
      if !HasRuns(d) {
        OnlyEnquiries(d);
      }
    } else {
      LeadGrows(d);
      ScriptWithoutRuns(d);
    }
  }

  lemma RunBuilt(script: seq<Item>, compressed: seq<Byte>, text: seq<Byte>, depth: int)
    requires Built(script, depth) && 0 < |compressed| < |text|
    ensures Built(script + [Run(compressed, text)], depth)
  {
    hide Growing, Depth, Items, StreamOf, WithoutLead, HasRuns, Led;
    var d, item := StreamOf(script), Run(compressed, text);
    LedRuns(d);
    var led := Led(d);
    GrowingIsSorted(led);
    RunGrows(led, compressed, text);
    GrowingIsSorted(WithRun(led, compressed, text));
    ScriptGrows(Items(led), [item]);
    StreamOfNext(script, item);
    assert (script + [item])[|script|] == item;
    assert WithRun(led, compressed, text).buffer != [];
  }

  // Scripts that begin with a run

  /** The marks and the bytes of a run at the start. */
  predicate BeginsWith(d: Doc, compressed: seq<Byte>, text: seq<Byte>) {
    && |d.marks| >= 2 && d.marks[0] == Mark(0, StartOfRun(text)) && d.marks[1] == Mark(|compressed|, EndOfRun)
    && compressed <= d.buffer
  }

  function RunsIn(script: seq<Item>): nat {
    if script == [] then 0 else RunsIn(script[..|script| - 1]) + if script[|script| - 1].Run? then 1 else 0
  }

  lemma RunCountNext(marks: seq<Mark>, mark: Mark)
    ensures RunCount(marks + [mark]) == RunCount(marks) + if mark.kind.StartOfRun? then 1 else 0
  {
    RunCountConcat(marks, [mark]);
    assert [mark][1..] == [];
  }

  lemma {:induction false} RunStaysFirst(script: seq<Item>)
    requires script != [] && script[0].Run?
    ensures BeginsWith(StreamOf(script), script[0].compressed, script[0].text)
    ensures RunCount(StreamOf(script).marks) == RunsIn(script)
  {
    hide RunCount;
    var n := |script| - 1;
    var d := StreamOf(script[..n]);
    if n == 0 {
      assert script[..0] == [];
      FirstRun(script[0].compressed, script[0].text);
    } else {
      RunStaysFirst(script[..n]);
      assert HasRuns(d) by {
        assert d.marks[0].kind.StartOfRun?;
      }
      match script[n] {
        case Octet(_) =>
        case Run(c, t) => RunCountNext(d.marks, Mark(|d.buffer|, StartOfRun(t)));
          RunCountNext(d.marks + [Mark(|d.buffer|, StartOfRun(t))], Mark(|d.buffer + c|, EndOfRun));
        case Open(w) => RunCountNext(d.marks, Mark(|d.buffer|, StartOfBlock(w)));
        case Close => RunCountNext(d.marks, Mark(|d.buffer|, EndOfBlock));
        case Align => RunCountNext(d.marks, Mark(|d.buffer|, TwoByteAlignment));
        case Enquire(slot) => RunCountNext(d.marks, Mark(|d.buffer|, Enquiry(slot)));
      }
    }
  }

  lemma FirstRun(compressed: seq<Byte>, text: seq<Byte>)
    ensures var d := Put(NO_MARKS, Run(compressed, text)); BeginsWith(d, compressed, text) && RunCount(d.marks) == 1
  {
    RunCountNext([], Mark(0, StartOfRun(text)));
    RunCountNext([] + [Mark(0, StartOfRun(text))], Mark(|compressed|, EndOfRun));
  }
}
