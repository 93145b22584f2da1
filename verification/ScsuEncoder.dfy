/** What the compressor computes, as functions: no circular queues and no output limit.
    `Encode` looks at most four characters ahead, as the compressor's input queue does. */
module ScsuEncoder {
  import opened Bytes
  import opened ScsuWindows
  import opened ScsuTables
  import D = ScsuDecoder

  const LOOKAHEAD := 4
  const OUTPUT_QUEUE := 12

  datatype Mode = Mode(unicode: bool, active: Window, windows: Windows) {
    /** Every base is legal and above ASCII. */
    ghost predicate Valid() {
      forall i :: 0 <= i < 8 ==> BmpBase(windows[i])
    }

    /** The decoder that has followed the compressor so far. */
    ghost function Following(text: seq<CodeUnit>): D.Decoder {
      D.Decoder(unicode, active, windows, D.Ready, text)
    }

    predicate PassesThrough(a: Action) {
      a.treatment == PLAIN_ASCII || InWindow(a.code, windows[active])
    }
  }

  const START := Mode(false, 0, DEFAULT_WINDOWS)

  function UnicodeModeBytes(code: CodeUnit): seq<Byte> {
    (if 0xE000 <= code <= 0xF2FF then [UQU] else []) + [code / 0x100, code % 0x100]
  }

  function SingleByteModeBytes(m: Mode, a: Action): seq<Byte> {
    if a.treatment == PLAIN_ASCII then [a.code % 0x100]
    else if FIRST_STATIC <= a.treatment < FIRST_STATIC + 8 then [SQ0 + (a.treatment - FIRST_STATIC), a.code % 0x100]
    else if InWindow(a.code, m.windows[m.active]) then [a.code - m.windows[m.active] + 0x80]
    else
      var i := FirstHolding(a.code, m.windows, 0);
      if i < 8 then [SQ0 + i, a.code - m.windows[i] + 0x80]
      else [SQU, a.code / 0x100, a.code % 0x100]
  }

  function CharacterBytes(m: Mode, a: Action): seq<Byte> {
    if m.unicode then UnicodeModeBytes(a.code) else SingleByteModeBytes(m, a)
  }

  function TextBytes(m: Mode, run: seq<Action>): seq<Byte> {
    if run == [] then [] else CharacterBytes(m, run[0]) + TextBytes(m, run[1..])
  }

  /** The first window equal to a base, or 8. */
  function FirstEqual(base: Base, windows: Windows, i: nat): (r: nat)
    requires i <= 8
    ensures i <= r <= 8
    ensures r < 8 ==> windows[r] == base
    ensures forall k :: i <= k < r ==> windows[k] != base
    decreases 8 - i
  {
    if i == 8 || windows[i] == base then i else FirstEqual(base, windows, i + 1)
  }

  datatype Selection = Selection(mode: Mode, tags: seq<Byte>)

  /** Switches mode or window for a run of one treatment. */
  function Select(m: Mode, treatment: int): Selection {
    if treatment == PLAIN_UNICODE then
      if m.unicode then Selection(m, []) else Selection(m.(unicode := true), [SCU])
    else if treatment == PLAIN_ASCII then
      if m.unicode then Selection(m.(unicode := false), [UC0 + m.active]) else Selection(m, [])
    else if 0 <= treatment < FIRST_STATIC then
      var base := DynamicWindowBase(treatment);
      var i := FirstEqual(base, m.windows, 0);
      if i < 8 then
        Selection(m.(unicode := false, active := i),
                  if m.unicode then [UC0 + i] else if i != m.active then [SC0 + i] else [])
      else
        Selection(Mode(false, 4, m.windows[4 := base]), [if m.unicode then UD0 + 4 else SD0 + 4, treatment])
    else Selection(m, [])
  }

  /** How many leading characters need no tag at all. */
  function LeadLength(m: Mode, queue: seq<Action>): (n: nat)
    ensures n <= |queue|
    ensures m.unicode ==> n == 0
    ensures forall i :: 0 <= i < n ==> m.PassesThrough(queue[i])
    ensures !m.unicode && n < |queue| ==> !m.PassesThrough(queue[n])
  {
    if m.unicode || queue == [] || !m.PassesThrough(queue[0]) then 0 else 1 + LeadLength(m, queue[1..])
  }

  /** How many leading characters have a treatment. */
  function RunLength(treatment: int, queue: seq<Action>): (n: nat)
    ensures n <= |queue|
    ensures forall i :: 0 <= i < n ==> queue[i].treatment == treatment
    ensures n < |queue| ==> queue[n].treatment != treatment
  {
    if queue == [] || queue[0].treatment != treatment then 0 else 1 + RunLength(treatment, queue[1..])
  }

  datatype Written = Written(mode: Mode, bytes: seq<Byte>, count: nat)

  /** One pass of the compressor over its queue: characters that pass through, then one run. */
  function WriteRun(m: Mode, queue: seq<Action>): (w: Written)
    ensures w.count <= |queue|
    ensures queue != [] ==> w.count > 0
  {
    var lead := LeadLength(m, queue);
    var rest := queue[lead..];
    if rest == [] then Written(m, TextBytes(m, queue), lead)
    else
      var run := RunLength(rest[0].treatment, rest);
      var selection := if run > 1 then Select(m, rest[0].treatment) else Selection(m, []);
      Written(selection.mode,
              TextBytes(m, queue[..lead]) + selection.tags + TextBytes(selection.mode, rest[..run]),
              lead + run)
  }

  function Encode(m: Mode, actions: seq<Action>): seq<Byte>
    decreases |actions|
  {
    if actions == [] then []
    else
      var w := WriteRun(m, actions[..Min(LOOKAHEAD, |actions|)]);
      w.bytes + Encode(w.mode, actions[w.count..])
  }

  /** The whole compressed form of a text. */
  function Compressed(text: seq<CodeUnit>): seq<Byte> {
    Encode(START, Actions(text))
  }

  // The decoder follows the encoder

  /** The tables of the compressor are those of the standard. */
  lemma TablesAgree()
    ensures forall w: Window :: STATIC_WINDOWS[w] == D.StaticPosition(w) && DEFAULT_WINDOWS[w] == D.INITIAL.windows[w]
    ensures forall n: Byte :: D.Position(n) == if DynamicWindowBase(n) == 0 then None else Some(DynamicWindowBase(n))
  {
  }

  function Codes(actions: seq<Action>): (codes: seq<CodeUnit>)
    ensures |codes| == |actions|
  {
    Map((a: Action) => a.code, actions)
  }

  lemma CharacterIsRead(m: Mode, a: Action, text: seq<CodeUnit>)
    requires m.Valid() && a.Sound()
    ensures D.Run(m.Following(text), CharacterBytes(m, a)) == m.Following(text + [a.code])
  {
    hide D.Run, D.Step, UnicodeModeBytes, SingleByteModeBytes;
    if m.unicode {
      UnicodeCharacterIsRead(m, a, text);
    } else {
      SingleByteCharacterIsRead(m, a, text);
    }
  }

  /** A code of the basic plane is given out as itself. */
  lemma EmittedIs(m: Mode, text: seq<CodeUnit>, d: D.Decoder, code: CodeUnit)
    requires d.Decoder? && d.(pending := D.Ready) == m.Following(text)
    ensures D.Emit(d, code) == m.Following(text + [code])
  {
    assert Utf16(code) == [code];
  }

  lemma UnicodeCharacterIsRead(m: Mode, a: Action, text: seq<CodeUnit>)
    requires m.Valid() && a.Sound() && m.unicode
    ensures D.Run(m.Following(text), UnicodeModeBytes(a.code)) == m.Following(text + [a.code])
  {
    hide D.Run, D.Emit, FirstHolding;
    var d := m.Following(text);
    ReadUpToThree(d, UnicodeModeBytes(a.code));
    if 0xE000 <= a.code <= 0xF2FF {
      EmittedIs(m, text, d.(pending := D.QuoteLow(a.code / 0x100)), a.code);
    } else {
      EmittedIs(m, text, d.(pending := D.UnicodeLow(a.code / 0x100)), a.code);
    }
  }

  lemma SingleByteCharacterIsRead(m: Mode, a: Action, text: seq<CodeUnit>)
    requires m.Valid() && a.Sound() && !m.unicode
    ensures D.Run(m.Following(text), SingleByteModeBytes(m, a)) == m.Following(text + [a.code])
  {
    hide D.Run, D.Step, D.Emit;
    if a.treatment == PLAIN_ASCII {
      AsciiIsRead(m, a.code, text);
    } else if FIRST_STATIC <= a.treatment < FIRST_STATIC + 8 {
      QuoteIsRead(m, 0, a.code, a.code % 0x100, text);
    } else if InWindow(a.code, m.windows[m.active]) {
      WindowIsRead(m, a.code, text);
    } else {
      var i := FirstHolding(a.code, m.windows, 0);
      if i < 8 {
        QuoteIsRead(m, i, a.code, a.code - m.windows[i] + 0x80, text);
      } else {
        UnicodeQuoteIsRead(m, a.code, text);
      }
    }
  }

  lemma AsciiIsRead(m: Mode, code: CodeUnit, text: seq<CodeUnit>)
    requires EncodeAsIs(code) && !m.unicode
    ensures D.Run(m.Following(text), [code % 0x100]) == m.Following(text + [code])
  {
    hide D.Run, D.Emit;
    ReadUpToThree(m.Following(text), [code % 0x100]);
    EmittedIs(m, text, m.Following(text), code);
  }

  lemma WindowIsRead(m: Mode, code: CodeUnit, text: seq<CodeUnit>)
    requires m.Valid() && InWindow(code, m.windows[m.active]) && !m.unicode
    ensures D.Run(m.Following(text), [code - m.windows[m.active] + 0x80]) == m.Following(text + [code])
  {
    hide D.Run, D.Emit;
    ReadUpToThree(m.Following(text), [code - m.windows[m.active] + 0x80]);
    EmittedIs(m, text, m.Following(text), code);
  }

  lemma QuoteIsRead(m: Mode, window: Window, code: CodeUnit, b: Byte, text: seq<CodeUnit>)
    requires m.Valid() && !m.unicode
    requires if b < 0x80 then code == STATIC_WINDOWS[window] + b else code == m.windows[window] + (b - 0x80)
    ensures D.Run(m.Following(text), [SQ0 + window, b]) == m.Following(text + [code])
  {
    hide D.Run, D.Emit;
    ReadUpToThree(m.Following(text), [SQ0 + window, b]);
    EmittedIs(m, text, m.Following(text).(pending := D.QuoteFrom(window)), code);
  }

  lemma UnicodeQuoteIsRead(m: Mode, code: CodeUnit, text: seq<CodeUnit>)
    requires !m.unicode
    ensures D.Run(m.Following(text), [SQU, code / 0x100, code % 0x100]) == m.Following(text + [code])
  {
    hide D.Run, D.Emit;
    ReadUpToThree(m.Following(text), [SQU, code / 0x100, code % 0x100]);
    EmittedIs(m, text, m.Following(text).(pending := D.QuoteLow(code / 0x100)), code);
  }

  lemma ReadUpToThree(d: D.Decoder, bytes: seq<Byte>)
    requires 1 <= |bytes| <= 3
    ensures D.Run(d, bytes) ==
            var d1 := D.Step(d, bytes[0]);
            if |bytes| == 1 then d1
            else
              var d2 := D.Step(d1, bytes[1]);
              if |bytes| == 2 then d2 else D.Step(d2, bytes[2])
  {
    var d1 := D.Step(d, bytes[0]);
    assert D.Run(d, bytes) == D.Run(d1, bytes[1..]);
    if |bytes| > 1 {
      assert D.Run(d1, bytes[1..]) == D.Run(D.Step(d1, bytes[1]), bytes[1..][1..]);
    }
  }

  /** A decoder following `m` that reads `bytes` adds `chunk` and then follows `m'`. */
  ghost predicate Reads(m: Mode, bytes: seq<Byte>, m': Mode, chunk: seq<CodeUnit>) {
    forall text {:trigger D.Run(m.Following(text), bytes)} ::
      D.Run(m.Following(text), bytes) == m'.Following(text + chunk)
  }

  lemma ReadsConcat(m: Mode, a: seq<Byte>, m1: Mode, s: seq<CodeUnit>, b: seq<Byte>, m2: Mode, t: seq<CodeUnit>)
    requires Reads(m, a, m1, s) && Reads(m1, b, m2, t)
    ensures Reads(m, a + b, m2, s + t)
  {
    forall text ensures D.Run(m.Following(text), a + b) == m2.Following(text + (s + t)) {
      D.RunConcat(m.Following(text), a, b);
      assert text + s + t == text + (s + t);
    }
  }

  lemma NothingIsRead(m: Mode)
    ensures Reads(m, [], m, [])
  {
    forall text: seq<CodeUnit> ensures D.Run(m.Following(text), []) == m.Following(text + []) {
      assert text + [] == text;
    }
  }

  lemma {:induction false} TextIsRead(m: Mode, run: seq<Action>)
    requires m.Valid() && Sound(run)
    ensures Reads(m, TextBytes(m, run), m, Codes(run))
  {
    if run == [] {
      NothingIsRead(m);
    } else {
      assert run[0].Sound();
      assert Sound(run[1..]) by { assert forall i :: 0 <= i < |run[1..]| ==> run[1..][i] == run[i + 1]; }
      forall text ensures D.Run(m.Following(text), CharacterBytes(m, run[0])) == m.Following(text + [run[0].code]) {
        CharacterIsRead(m, run[0], text);
      }
      TextIsRead(m, run[1..]);
      ReadsConcat(m, CharacterBytes(m, run[0]), m, [run[0].code], TextBytes(m, run[1..]), m, Codes(run[1..]));
      assert [run[0].code] + Codes(run[1..]) == Codes(run);
    }
  }

  lemma SelectIsRead(m: Mode, a: Action)
    requires m.Valid() && a.Sound()
    ensures var selection := Select(m, a.treatment);
            selection.mode.Valid() && Reads(m, selection.tags, selection.mode, [])
  {
    var selection := Select(m, a.treatment);
    if selection.tags == [] {
      NothingIsRead(m);
    } else {
      forall text: seq<CodeUnit> ensures D.Run(m.Following(text), selection.tags) == selection.mode.Following(text + []) {
        ReadUpToThree(m.Following(text), selection.tags);
        assert text + [] == text;
      }
    }
  }

  lemma SoundParts(queue: seq<Action>, from: nat, to: nat)
    requires Sound(queue) && from <= to <= |queue|
    ensures Sound(queue[from..to])
  {
    forall i | 0 <= i < to - from ensures queue[from..to][i].Sound() {
      assert queue[from + i].Sound();
    }
  }

  lemma RunIsRead(m: Mode, queue: seq<Action>)
    requires m.Valid() && Sound(queue)
    ensures var w := WriteRun(m, queue);
            w.mode.Valid() && Reads(m, w.bytes, w.mode, Codes(queue[..w.count]))
  {
    hide TextBytes, Select, Reads, Codes, RunLength, LeadLength;
    var lead := LeadLength(m, queue);
    var rest := queue[lead..];
    SoundParts(queue, 0, lead);
    assert queue[0..lead] == queue[..lead];
    TextIsRead(m, queue[..lead]);
    if rest == [] {
      assert queue[..lead] == queue;
    } else {
      var run := RunLength(rest[0].treatment, rest);
      var selection := if run > 1 then Select(m, rest[0].treatment) else Selection(m, []);
      assert queue[lead].Sound();
      if run > 1 {
        SelectIsRead(m, rest[0]);
      } else {
        NothingIsRead(m);
      }
      SoundParts(queue, lead, lead + run);
      assert rest[..run] == queue[lead..lead + run];
      TextIsRead(selection.mode, rest[..run]);
      LeadThenRun(m, selection, queue[..lead], rest[..run]);
      assert queue[..lead] + rest[..run] == queue[..lead + run];
    }
  }

  lemma LeadThenRun(m: Mode, selection: Selection, lead: seq<Action>, run: seq<Action>)
    requires Reads(m, TextBytes(m, lead), m, Codes(lead)) && Reads(m, selection.tags, selection.mode, [])
    requires Reads(selection.mode, TextBytes(selection.mode, run), selection.mode, Codes(run))
    ensures Reads(m, TextBytes(m, lead) + selection.tags + TextBytes(selection.mode, run), selection.mode, Codes(lead + run))
  {
    hide TextBytes, Reads;
    ReadsConcat(m, TextBytes(m, lead), m, Codes(lead), selection.tags, selection.mode, []);
    ReadsConcat(m, TextBytes(m, lead) + selection.tags, selection.mode, Codes(lead) + [],
                TextBytes(selection.mode, run), selection.mode, Codes(run));
    assert Codes(lead) + [] + Codes(run) == Codes(lead + run);
  }

  /** Reading what `Encode` produced gives its characters and leaves the decoder between tags. */
  lemma {:induction false} EncodeIsRead(m: Mode, actions: seq<Action>) returns (m': Mode)
    requires m.Valid() && Sound(actions)
    ensures m'.Valid() && Reads(m, Encode(m, actions), m', Codes(actions))
    decreases |actions|
  {
    hide WriteRun, D.Run, D.Step;
    if actions == [] {
      NothingIsRead(m);
      m' := m;
    } else {
      var queue := actions[..Min(LOOKAHEAD, |actions|)];
      var w := WriteRun(m, queue);
      SoundParts(actions, 0, |queue|);
      RunIsRead(m, queue);
      SoundParts(actions, w.count, |actions|);
      assert actions[w.count..] == actions[w.count..|actions|];
      m' := EncodeIsRead(w.mode, actions[w.count..]);
      ReadsConcat(m, w.bytes, w.mode, Codes(queue[..w.count]),
                  Encode(w.mode, actions[w.count..]), m', Codes(actions[w.count..]));
      assert Codes(queue[..w.count]) + Codes(actions[w.count..]) == Codes(actions);
    }
  }

  /** Every text comes back from its compressed form. */
  lemma RoundTrip(text: seq<CodeUnit>)
    ensures D.Decompress(Compressed(text)) == Some(text)
  {
    assert START.Following([]) == D.INITIAL;
    var m' := EncodeIsRead(START, Actions(text));
    assert Codes(Actions(text)) == text;
    assert D.Run(START.Following([]), Compressed(text)) == m'.Following([] + text);
    assert [] + text == text;
  }

  // How much room a run needs

  lemma {:induction false} TextSize(m: Mode, text: seq<Action>, each: nat)
    requires forall i :: 0 <= i < |text| ==> |CharacterBytes(m, text[i])| <= each
    ensures |TextBytes(m, text)| <= each * |text|
  {
    hide CharacterBytes;
    if text != [] {
      TextSize(m, text[1..], each);
      assert each * |text| == each + each * |text[1..]|;
    }
  }

  /** After its treatment is selected, a character of a run takes two octets, or one when the
      selection took two. */
  lemma SelectedSize(m: Mode, a: Action)
    requires m.Valid() && a.Sound()
    ensures var selection := Select(m, a.treatment);
            && |CharacterBytes(selection.mode, a)| <= 2
            && |selection.tags| <= 2
            && (|selection.tags| == 2 ==> |CharacterBytes(selection.mode, a)| == 1)
  {
  }

  /** A run of the compressor's queue fits the output queue, with room to spare, and costs at most
      three octets for each character consumed. */
  lemma RunFits(m: Mode, queue: seq<Action>)
    requires m.Valid() && |queue| <= LOOKAHEAD && Sound(queue)
    ensures var w := WriteRun(m, queue);
            |w.bytes| <= 9 && |w.bytes| <= 3 * w.count
  {
    hide TextBytes, Select, RunLength, LeadLength, FirstHolding;
    var lead := LeadLength(m, queue);
    var rest := queue[lead..];
    forall i | 0 <= i < lead ensures |CharacterBytes(m, queue[..lead][i])| <= 1 {
      assert queue[i].Sound() && m.PassesThrough(queue[i]);
    }
    TextSize(m, queue[..lead], 1);
    if rest == [] {
      assert queue[..lead] == queue;
    } else {
      var run := RunLength(rest[0].treatment, rest);
      if run > 1 {
        var selection := Select(m, rest[0].treatment);
        var each := if |selection.tags| == 2 then 1 else 2;
        forall i | 0 <= i < run ensures |CharacterBytes(selection.mode, rest[..run][i])| <= each {
          assert queue[lead + i].Sound();
          SelectedSize(m, queue[lead + i]);
        }
        assert queue[lead].Sound();
        SelectedSize(m, queue[lead]);
        TextSize(selection.mode, rest[..run], each);
      } else {
        TextSize(m, rest[..run], 3);
      }
    }
  }

  /** No text takes more than three octets a character. */
  lemma {:induction false} AtMostTriples(m: Mode, actions: seq<Action>)
    requires m.Valid() && Sound(actions)
    ensures |Encode(m, actions)| <= 3 * |actions|
    decreases |actions|
  {
    if actions != [] {
      var queue := actions[..Min(LOOKAHEAD, |actions|)];
      SoundParts(actions, 0, |queue|);
      RunFits(m, queue);
      RunIsRead(m, queue);
      var w := WriteRun(m, queue);
      SoundParts(actions, w.count, |actions|);
      assert actions[w.count..] == actions[w.count..|actions|];
      AtMostTriples(w.mode, actions[w.count..]);
    }
  }

  /** Whether a treatment asks for a window or for Unicode mode. */
  predicate Tagged(a: Action) {
    a.treatment == PLAIN_UNICODE || 0 < a.treatment < FIRST_STATIC
  }

  /** The runs of one such treatment. */
  function TaggedRuns(actions: seq<Action>): nat {
    if actions == [] then 0
    else TaggedRuns(actions[1..])
         + if Tagged(actions[0]) && (|actions| == 1 || actions[1].treatment != actions[0].treatment) then 1 else 0
  }

  lemma {:induction false} FewerRuns(actions: seq<Action>, n: nat)
    requires n <= |actions|
    ensures TaggedRuns(actions) >= TaggedRuns(actions[n..])
    ensures 0 < n && Tagged(actions[n - 1]) && (n == |actions| || actions[n].treatment != actions[n - 1].treatment) ==>
              TaggedRuns(actions) > TaggedRuns(actions[n..])
  {
    if n == 0 {
      assert actions[0..] == actions;
    } else {
      FewerRuns(actions[1..], n - 1);
      assert actions[1..][n - 1..] == actions[n..];
    }
  }

  /** Two octets a character and one for each tagged run, if that is not paid for already. */
  function Allowance(m: Mode, actions: seq<Action>): int {
    2 * |actions| + TaggedRuns(actions)
    - if m.unicode && actions != [] && actions[0].treatment == PLAIN_UNICODE then 1 else 0
  }

  /** What one character of a run costs, and the tags before it. */
  lemma RunCosts(m: Mode, a: Action)
    requires m.Valid() && a.Sound()
    ensures |CharacterBytes(m, a)| <= if Tagged(a) && !(m.unicode && a.treatment == PLAIN_UNICODE) then 3 else 2
    ensures var selection := Select(m, a.treatment);
            && (Tagged(a) && a.treatment != PLAIN_UNICODE ==> |selection.tags| <= 2 && |CharacterBytes(selection.mode, a)| == 1)
            && (a.treatment == PLAIN_UNICODE ==>
                  |selection.tags| == (if m.unicode then 0 else 1) && selection.mode.unicode && |CharacterBytes(selection.mode, a)| == 2)
            && (a.treatment == PLAIN_ASCII ==> |selection.tags| <= 1 && |CharacterBytes(selection.mode, a)| == 1)
            && (a.treatment == FIRST_STATIC ==> |selection.tags| == 0 && |CharacterBytes(selection.mode, a)| <= 2)
  {
  }

  lemma RunWithin(m: Mode, run: seq<Action>)
    requires m.Valid() && Sound(run) && |run| > 1 && forall i :: 0 <= i < |run| ==> run[i].treatment == run[0].treatment
    ensures var selection := Select(m, run[0].treatment);
            |selection.tags| + |TextBytes(selection.mode, run)| <=
            2 * |run| + if run[0].treatment == PLAIN_UNICODE && !m.unicode then 1 else 0
  {
    hide CharacterBytes, Select, TextBytes;
    var selection := Select(m, run[0].treatment);
    assert run[0].Sound();
    RunCosts(m, run[0]);
    var each := if run[0].treatment == PLAIN_UNICODE || run[0].treatment == FIRST_STATIC then 2 else 1;
    forall i | 0 <= i < |run| ensures |CharacterBytes(selection.mode, run[i])| <= each {
      assert run[i].Sound();
      RunCosts(m, run[i]);
    }
    TextSize(selection.mode, run, each);
  }

  lemma LeadWithin(m: Mode, lead: seq<Action>)
    requires m.Valid() && Sound(lead) && !m.unicode && forall i :: 0 <= i < |lead| ==> m.PassesThrough(lead[i])
    ensures |TextBytes(m, lead)| <= |lead|
  {
    forall i | 0 <= i < |lead| ensures |CharacterBytes(m, lead[i])| <= 1 {
      assert lead[i].Sound();
    }
    TextSize(m, lead, 1);
  }

  lemma OneCharacter(m: Mode, a: Action)
    ensures TextBytes(m, [a]) == CharacterBytes(m, a)
  {
    hide CharacterBytes;
    assert [a][1..] == [];
  }

  /** What is written of a run that is selected, or of one character, and what follows it. */
  lemma TreatedWithin(m: Mode, rest: seq<Action>, run: nat)
    requires m.Valid() && 0 < run <= |rest| && Sound(rest[..run])
    requires forall i :: 0 <= i < run ==> rest[i].treatment == rest[0].treatment
    requires run == 1 ==> |rest| == 1 || rest[1].treatment != rest[0].treatment
    ensures var selection := if run > 1 then Select(m, rest[0].treatment) else Selection(m, []);
            |selection.tags| + |TextBytes(selection.mode, rest[..run])| + Allowance(selection.mode, rest[run..]) <= Allowance(m, rest)
  {
    hide CharacterBytes, Select, TextBytes, TaggedRuns;
    FewerRuns(rest, run);
    assert rest[0] == rest[..run][0] && rest[..run][0].Sound();
    if run > 1 {
      RunWithin(m, rest[..run]);
      SelectedMode(m, rest[0]);
    } else {
      assert rest[..1] == [rest[0]];
      OneCharacter(m, rest[0]);
      RunCosts(m, rest[0]);
    }
  }

  /** One character of a longer run, alone at the end of a queue of which the rest passes through. */
  lemma LastWithin(m: Mode, rest: seq<Action>)
    requires m.Valid() && !m.unicode && rest != [] && rest[0].Sound()
    ensures |TextBytes(m, rest[..1])| + Allowance(m, rest[1..]) <= Allowance(m, rest) + 1
  {
    hide CharacterBytes, TextBytes, TaggedRuns;
    FewerRuns(rest, 1);
    assert rest[..1] == [rest[0]];
    OneCharacter(m, rest[0]);
    RunCosts(m, rest[0]);
  }

  /** One pass stays within the allowance of what it consumes. */
  lemma PassWithin(m: Mode, actions: seq<Action>)
    requires m.Valid() && Sound(actions) && actions != []
    ensures var w := WriteRun(m, actions[..Min(LOOKAHEAD, |actions|)]);
            |w.bytes| + Allowance(w.mode, actions[w.count..]) <= Allowance(m, actions)
  {
    hide CharacterBytes, Select, TextBytes, TaggedRuns, LeadLength, RunLength, Allowance;
    var queue := actions[..Min(LOOKAHEAD, |actions|)];
    var lead := LeadLength(m, queue);
    var rest := queue[lead..];
    LeadAllowance(m, actions, queue, lead);
    if rest == [] {
      assert queue[..lead] == queue;
    } else {
      RestWithin(m, actions, lead, |queue|);
      assert rest == actions[lead..|queue|];
      assert actions[lead..][RunLength(rest[0].treatment, rest)..] == actions[lead + RunLength(rest[0].treatment, rest)..];
    }
  }

  /** The run that follows the lead, in a queue that ends at `end`. */
  lemma RestWithin(m: Mode, actions: seq<Action>, lead: nat, end: nat)
    requires m.Valid() && Sound(actions) && lead < end <= |actions| && (end == |actions| || end == LOOKAHEAD) && (m.unicode ==> lead == 0)
    ensures var rest, ahead := actions[lead..end], actions[lead..];
            var run := RunLength(rest[0].treatment, rest);
            var selection := if run > 1 then Select(m, rest[0].treatment) else Selection(m, []);
            && 0 < run <= |rest|
            && |selection.tags| + |TextBytes(selection.mode, rest[..run])| + Allowance(selection.mode, ahead[run..])
               <= Allowance(m, ahead) + lead
  {
    hide CharacterBytes, Select, TextBytes, TaggedRuns, Allowance;
    var rest, ahead := actions[lead..end], actions[lead..];
    var run := RunLength(rest[0].treatment, rest);
    SoundParts(actions, lead, lead + run);
    assert rest[..run] == ahead[..run] == actions[lead..lead + run];
    assert forall i :: 0 <= i < run ==> ahead[i] == rest[i];
    assert run < |rest| ==> rest[run] == ahead[run];
    if run == 1 && |ahead| > 1 && ahead[1].treatment == ahead[0].treatment {
      assert actions[lead].Sound();
      LastWithin(m, ahead);
    } else {
      TreatedWithin(m, ahead, run);
    }
  }

  lemma LeadAllowance(m: Mode, actions: seq<Action>, queue: seq<Action>, lead: nat)
    requires m.Valid() && Sound(actions) && queue <= actions && lead == LeadLength(m, queue)
    ensures |TextBytes(m, queue[..lead])| + lead + Allowance(m, actions[lead..]) <= Allowance(m, actions)
  {
    hide CharacterBytes, TextBytes, TaggedRuns, LeadLength;
    FewerRuns(actions, lead);
    if m.unicode {
      NoText(m);
      assert queue[..lead] == [] && actions[0..] == actions;
    } else {
      SoundParts(actions, 0, lead);
      assert actions[0..lead] == queue[..lead];
      LeadWithin(m, queue[..lead]);
    }
  }

  lemma SelectedMode(m: Mode, a: Action)
    requires a.Sound()
    ensures Select(m, a.treatment).mode.unicode ==> m.unicode || a.treatment == PLAIN_UNICODE
    ensures a.treatment == PLAIN_UNICODE ==> Select(m, a.treatment).mode.unicode
  {
  }

  lemma NoText(m: Mode)
    ensures TextBytes(m, []) == []
  {
  }

  lemma {:induction false} EncodeWithin(m: Mode, actions: seq<Action>)
    requires m.Valid() && Sound(actions)
    ensures |Encode(m, actions)| <= Allowance(m, actions)
    decreases |actions|
  {
    hide WriteRun, TaggedRuns;
    if actions != [] {
      var queue := actions[..Min(LOOKAHEAD, |actions|)];
      var w := WriteRun(m, queue);
      SoundParts(actions, 0, |queue|);
      assert actions[0..|queue|] == queue;
      RunIsRead(m, queue);
      SoundParts(actions, w.count, |actions|);
      assert actions[w.count..] == actions[w.count..|actions|];
      PassWithin(m, actions);
      EncodeWithin(w.mode, actions[w.count..]);
    } else {
      NoAllowance(m);
    }
  }

  lemma NoAllowance(m: Mode)
    ensures Allowance(m, []) == 0
  {
  }

  /** No text takes more octets than it has uncompressed and one for each of its runs of a treatment
      that asks for a window or for Unicode mode. With one such run it takes one octet more at most. */
  lemma TaggedRunsBound(text: seq<CodeUnit>)
    ensures |Compressed(text)| <= 2 * |text| + TaggedRuns(Actions(text))
  {
    hide Encode, TaggedRuns;
    EncodeWithin(START, Actions(text));
  }

  /** A text whose neighbours never share a treatment nor a window: one ideograph, one letter of
      Latin Extended-B, and so on. */
  function Alternating(n: nat, ideograph: bool): (text: seq<CodeUnit>)
    ensures |text| == n
  {
    if n == 0 then [] else [if ideograph then 0x3400 else 0x0180] + Alternating(n - 1, !ideograph)
  }

  /** Three octets a character is reached at every length, so one octet more than the
      uncompressed text is not the worst case. */
  lemma {:induction false} TriplesAreReached(n: nat, ideograph: bool)
    ensures |Compressed(Alternating(n, ideograph))| == 3 * n
  {
    if n > 0 {
      hide Treatment, FirstHolding, Encode, Actions;
      var text := Alternating(n, ideograph);
      assert text[1..] == Alternating(n - 1, !ideograph);
      ActionsStep(text);
      TreatmentsAlternate();
      if n > 1 {
        ActionsStep(text[1..]);
        assert text[1..][0] == Alternating(n - 1, !ideograph)[0];
      }
      QuotedAlone(Actions(text));
      TriplesAreReached(n - 1, !ideograph);
    }
  }

  lemma ActionsStep(text: seq<CodeUnit>)
    requires text != []
    ensures Actions(text)[0] == ActionOf(text[0]) && Actions(text)[1..] == Actions(text[1..])
  {
  }

  lemma TreatmentsAlternate()
    ensures Treatment(0x3400) == PLAIN_UNICODE && Treatment(0x0180) == 3
    ensures FirstHolding(0x3400, DEFAULT_WINDOWS, 0) == FirstHolding(0x0180, DEFAULT_WINDOWS, 0) == 8
  {
  }

  /** A character that needs a tag, is in no window and is followed by another treatment is quoted. */
  lemma QuotedAlone(actions: seq<Action>)
    requires actions != [] && FirstHolding(actions[0].code, DEFAULT_WINDOWS, 0) == 8
    requires actions[0].treatment == PLAIN_UNICODE || actions[0].treatment == 3
    requires |actions| > 1 ==> actions[1].treatment != actions[0].treatment
    ensures |Encode(START, actions)| == 3 + |Encode(START, actions[1..])|
  {
    hide FirstHolding, CharacterBytes;
    var queue := actions[..Min(LOOKAHEAD, |actions|)];
    assert queue[0] == actions[0] && (|queue| > 1 ==> queue[1] == actions[1]);
    assert !InWindow(queue[0].code, DEFAULT_WINDOWS[0]);
    QuotedBytes(queue[0]);
    WrittenAlone(queue);
  }

  lemma QuotedBytes(a: Action)
    requires FirstHolding(a.code, DEFAULT_WINDOWS, 0) == 8 && (a.treatment == PLAIN_UNICODE || a.treatment == 3)
    ensures |CharacterBytes(START, a)| == 3
  {
    hide FirstHolding;
  }

  lemma WrittenAlone(queue: seq<Action>)
    requires queue != [] && !START.PassesThrough(queue[0]) && RunLength(queue[0].treatment, queue) == 1
    ensures WriteRun(START, queue) == Written(START, CharacterBytes(START, queue[0]), 1)
  {
    hide CharacterBytes, RunLength;
    assert LeadLength(START, queue) == 0 && queue[0..] == queue;
    assert TextBytes(START, queue[..0]) == [];
    assert queue[..1][1..] == [] && TextBytes(START, queue[..1][1..]) == [];
    assert TextBytes(START, queue[..1]) == CharacterBytes(START, queue[0]) + TextBytes(START, queue[..1][1..]);
    assert [] + [] + CharacterBytes(START, queue[0]) == CharacterBytes(START, queue[0]);
  }

  // What compression saves

  /** Text that needs no tag takes one octet a character. */
  lemma {:induction false} SettledSize(m: Mode, actions: seq<Action>)
    requires m.Valid() && !m.unicode && Sound(actions)
    requires forall i :: 0 <= i < |actions| ==> m.PassesThrough(actions[i])
    ensures |Encode(m, actions)| == |actions|
    decreases |actions|
  {
    hide DynamicWindowBase, FirstHolding, FirstEqual;
    if actions != [] {
      var queue := actions[..Min(LOOKAHEAD, |actions|)];
      assert LeadLength(m, queue) == |queue|;
      forall i | 0 <= i < |queue| ensures |CharacterBytes(m, queue[i])| == 1 {
        assert actions[i].Sound();
      }
      ExactSize(m, queue, 1);
      SoundParts(actions, |queue|, |actions|);
      assert actions[|queue|..] == actions[|queue|..|actions|];
      SettledSize(m, actions[|queue|..]);
    }
  }

  lemma {:induction false} ExactSize(m: Mode, run: seq<Action>, each: nat)
    requires forall i :: 0 <= i < |run| ==> |CharacterBytes(m, run[i])| == each
    ensures |TextBytes(m, run)| == each * |run|
  {
    hide CharacterBytes;
    if run != [] {
      ExactSize(m, run[1..], each);
      assert each * |run| == each + each * |run[1..]|;
    }
  }

  lemma {:induction false} WholeRun(queue: seq<Action>, treatment: int)
    requires forall i :: 0 <= i < |queue| ==> queue[i].treatment == treatment
    ensures RunLength(treatment, queue) == |queue|
  {
    if queue != [] {
      WholeRun(queue[1..], treatment);
    }
  }

  /** Text of one dynamic window, none of it in the window that is active, takes at most two octets
      more than it has characters. */
  lemma OneWindowSize(m: Mode, actions: seq<Action>, treatment: int)
    requires m.Valid() && !m.unicode && Sound(actions) && 0 < treatment < FIRST_STATIC
    requires forall i :: 0 <= i < |actions| ==> actions[i].treatment == treatment && !m.PassesThrough(actions[i])
    ensures |Encode(m, actions)| <= |actions| + 2
  {
    hide DynamicWindowBase, FirstHolding;
    if actions != [] {
      var queue := actions[..Min(LOOKAHEAD, |actions|)];
      WholeRun(queue, treatment);
      var rest := actions[|queue|..];
      assert rest == actions[|queue|..|actions|] && queue[..|queue|] == queue && queue[0..] == queue;
      SoundParts(actions, |queue|, |actions|);
      if |queue| > 1 {
        var selection := Select(m, treatment);
        forall i | 0 <= i < |queue| ensures |CharacterBytes(selection.mode, queue[i])| == 1 {
          assert actions[i].Sound();
        }
        ExactSize(selection.mode, queue, 1);
        forall i | 0 <= i < |rest| ensures selection.mode.PassesThrough(rest[i]) {
          assert actions[|queue| + i].Sound();
        }
        assert actions[0].Sound() && selection.mode.Valid();
        SettledSize(selection.mode, rest);
        assert TextBytes(m, queue[..0]) == [];
      } else {
        SoundParts(actions, 0, |queue|);
        RunFits(m, queue);
      }
    }
  }

  lemma IdeographBytes(m: Mode, queue: seq<Action>)
    requires m.unicode && Sound(queue) && forall i :: 0 <= i < |queue| ==> queue[i].treatment == PLAIN_UNICODE
    ensures |TextBytes(m, queue)| == 2 * |queue|
  {
    forall i | 0 <= i < |queue| ensures |CharacterBytes(m, queue[i])| == 2 {
      assert queue[i].Sound();
    }
    ExactSize(m, queue, 2);
  }

  /** Ideographs take two octets each in Unicode mode. */
  lemma {:induction false} IdeographSize(m: Mode, actions: seq<Action>)
    requires m.unicode && Sound(actions)
    requires forall i :: 0 <= i < |actions| ==> actions[i].treatment == PLAIN_UNICODE
    ensures |Encode(m, actions)| == 2 * |actions|
    decreases |actions|
  {
    hide DynamicWindowBase, FirstHolding, FirstEqual;
    if actions != [] {
      var queue := actions[..Min(LOOKAHEAD, |actions|)];
      WholeRun(queue, PLAIN_UNICODE);
      assert queue[..|queue|] == queue && queue[0..] == queue;
      SoundParts(actions, 0, |queue|);
      assert actions[0..|queue|] == queue;
      IdeographBytes(m, queue);
      assert TextBytes(m, queue[..0]) == [];
      SoundParts(actions, |queue|, |actions|);
      assert actions[|queue|..] == actions[|queue|..|actions|];
      IdeographSize(m, actions[|queue|..]);
    }
  }

  /** ASCII costs one octet a character. */
  lemma AsciiSize(text: seq<CodeUnit>)
    requires forall i :: 0 <= i < |text| ==> EncodeAsIs(text[i])
    ensures |Compressed(text)| == |text|
  {
    hide Encode, FirstHolding, FirstEqual;
    var actions := Actions(text);
    forall i | 0 <= i < |text| ensures START.PassesThrough(actions[i]) {
      assert actions[i].Sound();
    }
    SettledSize(START, actions);
  }

  lemma {:induction false} AsciiTextBytes(m: Mode, actions: seq<Action>)
    requires !m.unicode && forall i :: 0 <= i < |actions| ==> actions[i].treatment == PLAIN_ASCII
    ensures TextBytes(m, actions) == Map((a: Action) => a.code % 0x100, actions)
  {
    if actions != [] {
      AsciiTextBytes(m, actions[1..]);
    }
  }

  lemma {:induction false} AsciiEncoded(m: Mode, actions: seq<Action>)
    requires !m.unicode && forall i :: 0 <= i < |actions| ==> actions[i].treatment == PLAIN_ASCII
    ensures Encode(m, actions) == Map((a: Action) => a.code % 0x100, actions)
    decreases |actions|
  {
    hide TextBytes;
    if actions != [] {
      var queue := actions[..Min(LOOKAHEAD, |actions|)];
      assert LeadLength(m, queue) == |queue|;
      AsciiTextBytes(m, queue);
      AsciiEncoded(m, actions[|queue|..]);
    }
  }

  /** ASCII text is its own compressed form. */
  lemma AsciiBytes(text: seq<CodeUnit>)
    requires forall i :: 0 <= i < |text| ==> EncodeAsIs(text[i])
    ensures Compressed(text) == Map((c: CodeUnit) => c % 0x100, text)
  {
    hide Encode;
    var actions := Actions(text);
    forall i | 0 <= i < |text| ensures actions[i].treatment == PLAIN_ASCII && actions[i].code == text[i] {
      assert actions[i] == ActionOf(text[i]) && actions[i].Sound();
    }
    AsciiEncoded(START, actions);
  }

  /** A text of one small alphabet beyond the first window costs one octet a character and at most
      two more. */
  lemma AlphabetSize(text: seq<CodeUnit>, treatment: int)
    requires 3 <= treatment < 0xF9
    requires forall i :: 0 <= i < |text| ==> Treatment(text[i]) == treatment
    ensures |Compressed(text)| <= |text| + 2
  {
    hide Encode, FirstHolding, FirstEqual;
    var actions := Actions(text);
    forall i | 0 <= i < |text| ensures actions[i].treatment == treatment && !START.PassesThrough(actions[i]) {
      assert actions[i].Sound();
    }
    OneWindowSize(START, actions, treatment);
  }

  /** A text of ideographs costs its own size and one octet more. */
  lemma IdeographTextSize(text: seq<CodeUnit>)
    requires text != [] && forall i :: 0 <= i < |text| ==> 0x3400 <= text[i] <= 0xDFFF
    ensures |Compressed(text)| == 2 * |text| + 1
  {
    hide FirstHolding, FirstEqual;
    var actions := Actions(text);
    forall i | 0 <= i < |text| ensures actions[i].treatment == PLAIN_UNICODE {
      assert actions[i].Sound();
    }
    var queue := actions[..Min(LOOKAHEAD, |actions|)];
    WholeRun(queue, PLAIN_UNICODE);
    var rest := actions[|queue|..];
    assert rest == actions[|queue|..|actions|] && queue[..|queue|] == queue && queue[0..] == queue;
    SoundParts(actions, |queue|, |actions|);
    assert TextBytes(START, queue[..0]) == [];
    if |queue| > 1 {
      var unicode := START.(unicode := true);
      SoundParts(actions, 0, |queue|);
      assert actions[0..|queue|] == queue;
      IdeographBytes(unicode, queue);
      IdeographSize(unicode, rest);
    } else {
      assert actions == queue;
      OneIdeograph(actions[0]);
      assert actions == [actions[0]];
    }
  }

  lemma OneIdeograph(a: Action)
    requires a.Sound() && a.treatment == PLAIN_UNICODE
    ensures |Encode(START, [a])| == 3
  {
    hide FirstHolding, CharacterBytes, WriteRun;
    QuotedSize(a);
    var queue := [a];
    assert !START.PassesThrough(a) && queue[1..] == [];
    WrittenAlone(queue);
    assert [a][..Min(LOOKAHEAD, 1)] == queue;
    assert Encode(START, queue[1..]) == [];
  }

  lemma QuotedSize(a: Action)
    requires a.Sound() && a.treatment == PLAIN_UNICODE
    ensures |CharacterBytes(START, a)| == 3
  {
    assert FirstHolding(a.code, DEFAULT_WINDOWS, 0) == 8;
  }
  // Two texts

  lemma OnePass(m: Mode, actions: seq<Action>)
    requires actions != []
    ensures var w := WriteRun(m, actions[..Min(LOOKAHEAD, |actions|)]);
            Encode(m, actions) == w.bytes + Encode(w.mode, actions[w.count..])
  {
  }

  lemma NothingEncoded(m: Mode)
    ensures Encode(m, []) == []
  {
  }

  lemma GreekTreatments()
    ensures Treatment(0x0393) == Treatment(0x03B5) == Treatment(0x03B9) == 0xFB
  {
  }

  lemma GreekSelected(greek: Mode)
    requires greek == Mode(false, 4, DEFAULT_WINDOWS[4 := 0x0370])
    ensures Select(START, 0xFB) == Selection(greek, [0x1C, 0xFB])
  {
    assert DynamicWindowBase(0xFB) == 0x0370;
    assert FirstEqual(0x0370, DEFAULT_WINDOWS, 0) == 8;
  }

  lemma GreekBytes(greek: Mode, queue: seq<Action>)
    requires greek == Mode(false, 4, DEFAULT_WINDOWS[4 := 0x0370])
    requires queue == [Action(0x0393, 0xFB), Action(0x03B5, 0xFB), Action(0x03B9, 0xFB)]
    ensures TextBytes(greek, queue) == [0xA3, 0xC5, 0xC9]
  {
    assert TextBytes(greek, queue[3..]) == [];
    assert TextBytes(greek, queue[2..]) == [0xC9] + TextBytes(greek, queue[2..][1..]);
    assert TextBytes(greek, queue[1..]) == [0xC5] + TextBytes(greek, queue[1..][1..]);
    assert queue[1..][1..] == queue[2..] && queue[2..][1..] == queue[3..];
  }

  /** Three Greek letters: window 4 is defined for Greek, and then each takes an octet. */
  lemma GreekCompressed()
    ensures Compressed([0x0393, 0x03B5, 0x03B9]) == [0x1C, 0xFB, 0xA3, 0xC5, 0xC9]
  {
    hide Treatment, Encode, Select;
    var queue, greek := [Action(0x0393, 0xFB), Action(0x03B5, 0xFB), Action(0x03B9, 0xFB)], Mode(false, 4, DEFAULT_WINDOWS[4 := 0x0370]);
    GreekTreatments();
    assert Actions([0x0393, 0x03B5, 0x03B9]) == queue;
    WholeRun(queue, 0xFB);
    GreekSelected(greek);
    GreekBytes(greek, queue);
    assert queue[0..] == queue[..3] == queue && queue[3..] == [] && TextBytes(START, queue[..0]) == [];
    OnePass(START, queue);
    NothingEncoded(greek);
  }

  lemma LoneGreek(code: CodeUnit)
    requires code == 0x0393 || code == 0x03B5
    ensures CharacterBytes(START, Action(code, 0xFB)) == [0x0E, code / 0x100, code % 0x100]
    ensures !START.PassesThrough(Action(code, 0xFB))
  {
    assert FirstHolding(code, DEFAULT_WINDOWS, 0) == 8;
  }

  /** Behind three letters of ASCII the queue holds only one of two Greek letters, so each is quoted. */
  lemma QueueCutsRun()
    ensures Compressed([0x41, 0x41, 0x41, 0x0393, 0x03B5]) == [0x41, 0x41, 0x41, 0x0E, 0x03, 0x93, 0x0E, 0x03, 0xB5]
  {
    hide Encode, WriteRun, Actions;
    var a, gamma, epsilon := Action(0x41, PLAIN_ASCII), Action(0x0393, 0xFB), Action(0x03B5, 0xFB);
    FiveActions(a, gamma, epsilon);
    var actions := [a, a, a, gamma, epsilon];
    assert actions[..4] == [a, a, a, gamma] && actions[4..] == [epsilon];
    ThreeLead(a, gamma);
    OnePass(START, actions);
    EpsilonAlone(epsilon);
  }

  lemma FiveActions(a: Action, gamma: Action, epsilon: Action)
    requires a == Action(0x41, PLAIN_ASCII) && gamma == Action(0x0393, 0xFB) && epsilon == Action(0x03B5, 0xFB)
    ensures Actions([0x41, 0x41, 0x41, 0x0393, 0x03B5]) == [a, a, a, gamma, epsilon]
  {
    hide Treatment;
    GreekTreatments();
    TreatmentMeaning(0x41);
  }

  lemma EpsilonAlone(epsilon: Action)
    requires epsilon == Action(0x03B5, 0xFB)
    ensures Encode(START, [epsilon]) == [0x0E, 0x03, 0xB5]
  {
    hide Encode, WriteRun, CharacterBytes;
    LoneGreek(0x03B5);
    WrittenAlone([epsilon]);
    OnePass(START, [epsilon]);
    assert [epsilon][..1] == [epsilon] && [epsilon][1..] == [];
    NothingEncoded(START);
  }

  lemma ThreeLead(a: Action, b: Action)
    requires a == Action(0x41, PLAIN_ASCII) && b == Action(0x0393, 0xFB)
    ensures WriteRun(START, [a, a, a, b]) == Written(START, [0x41, 0x41, 0x41, 0x0E, 0x03, 0x93], 4)
  {
    hide CharacterBytes, Select;
    var queue := [a, a, a, b];
    LoneGreek(0x0393);
    assert queue[1..][1..] == queue[2..] && queue[2..][1..] == queue[3..] && queue[3..] == [b];
    assert LeadLength(START, queue[3..]) == 0;
    assert LeadLength(START, queue[2..]) == 1;
    assert LeadLength(START, queue[1..]) == 2;
    assert LeadLength(START, queue) == 3;
    assert queue[..3] == [a, a, a];
    AsciiTextBytes(START, [a, a, a]);
    assert [b][1..] == [] && TextBytes(START, []) == [] && [b][..1] == [b];
    assert RunLength(0xFB, [b]) == 1;
  }
}
