/** The compressor itself: circular queues, an output limit, and memory that it fills. */
module UnicodeCompressor {
  import opened Bytes
  import opened ScsuWindows
  import opened ScsuTables
  import opened ScsuEncoder

  /** Position `i` of a circular buffer of `n` slots, where `i` has wrapped at most once. */
  function Slot(i: nat, n: nat): (r: nat)
    requires i < 2 * n
    ensures r == if i < n then i else i - n
  {
    if i >= n then WrapsOnce(i, n);
      i % n
    else i % n
  }

  lemma WrapsOnce(i: nat, n: nat)
    requires n <= i < 2 * n
    ensures i % n == i - n
  {
    var q := i / n;
    assert i == q * n + i % n;
    if q > 1 {
      Times(q, n);
    }
  }

  lemma {:induction false} Times(q: nat, n: nat)
    requires q >= 2
    ensures q * n >= 2 * n
  {
    if q > 2 {
      Times(q - 1, n);
      assert q * n == (q - 1) * n + n;
    }
  }

  /** The items of a circular queue that starts at `start` in `slots`. */
  function Ring<T>(slots: seq<T>, start: nat, size: nat): (items: seq<T>)
    requires start < |slots| && size <= |slots|
    ensures |items| == size
  {
    if size == 0 then [] else Ring(slots, start, size - 1) + [slots[Slot(start + size - 1, |slots|)]]
  }

  lemma {:induction false} RingAt<T>(slots: seq<T>, start: nat, size: nat, i: nat)
    requires start < |slots| && i < size <= |slots|
    ensures Ring(slots, start, size)[i] == slots[Slot(start + i, |slots|)]
  {
    if i < size - 1 {
      RingAt(slots, start, size - 1, i);
    }
  }

  lemma RingPush<T>(slots: seq<T>, start: nat, size: nat, item: T)
    requires start < |slots| && size < |slots|
    ensures Ring(slots[Slot(start + size, |slots|) := item], start, size + 1) == Ring(slots, start, size) + [item]
  {
    var slots' := slots[Slot(start + size, |slots|) := item];
    forall i | 0 <= i < size ensures Ring(slots', start, size)[i] == Ring(slots, start, size)[i] {
      RingAt(slots', start, size, i);
      RingAt(slots, start, size, i);
    }
    assert Ring(slots', start, size) == Ring(slots, start, size);
  }

  lemma RingPop<T>(slots: seq<T>, start: nat, size: nat)
    requires start < |slots| && 0 < size <= |slots|
    ensures Ring(slots, start, size) == [slots[start]] + Ring(slots, Slot(start + 1, |slots|), size - 1)
  {
    var all, rest := Ring(slots, start, size), Ring(slots, Slot(start + 1, |slots|), size - 1);
    forall i | 0 <= i < size ensures all[i] == ([slots[start]] + rest)[i] {
      RingAt(slots, start, size, i);
      if i > 0 {
        RingAt(slots, Slot(start + 1, |slots|), size - 1, i - 1);
      }
    }
  }

  /** A circular queue in a fixed array: `size` items from slot `start` on. */
  class RingQueue<T> {
    ghost var items: seq<T>
    const slots: array<T>
    var start: nat
    var size: nat

    ghost predicate Valid()
      reads this, slots
    {
      start < slots.Length && size <= slots.Length && items == Ring(slots[..], start, size)
    }

    constructor (capacity: nat, blank: T)
      requires capacity > 0
      ensures Valid() && items == [] && slots.Length == capacity && fresh(slots)
    {
      slots := new T[capacity](_ => blank);
      start, size, items := 0, 0, [];
    }

    method Push(item: T)
      requires Valid() && |items| < slots.Length
      modifies this, slots
      ensures Valid() && items == old(items) + [item]
    {
      RingPush(slots[..], start, size, item);
      var slot := Slot(start + size, slots.Length);
      slots[slot] := item;
      size := size + 1;
      items := items + [item];
      assert slots[..] == old(slots[..])[slot := item];
    }

    method Front() returns (item: T)
      requires Valid() && items != []
      ensures item == items[0]
    {
      RingPop(slots[..], start, size);
      item := slots[start];
    }

    /** The treatment lookahead: item `i` of the queue. */
    method At(i: nat) returns (item: T)
      requires Valid() && i < |items|
      ensures item == items[i]
    {
      RingAt(slots[..], start, size, i);
      item := slots[Slot(start + i, slots.Length)];
    }

    method Pop()
      requires Valid() && items != []
      modifies this
      ensures Valid() && items == old(items)[1..]
    {
      RingPop(slots[..], start, size);
      size := size - 1;
      start := Slot(start + 1, slots.Length);
      items := items[1..];
    }
  }

  class MemoryUnicodeSource {
    const text: seq<CodeUnit>
    var next: nat

    constructor (text: seq<CodeUnit>)
      ensures this.text == text && next == 0
    {
      this.text := text;
      next := 0;
    }

    method ReadUnicodeValueL() returns (x: CodeUnit)
      requires next < |text|
      modifies this
      ensures x == text[old(next)] && next == old(next) + 1
    {
      x := text[next];
      next := next + 1;
    }

    /** What is still to be read before position `end`, as queue entries. */
    ghost function Ahead(end: int): seq<Action>
      requires next <= end <= |text|
      reads this
    {
      Actions(text[next..end])
    }
  }

  class Compressor {
    // What the window fields stand for, and the octets that this call has handed to its caller.
    ghost var mode: Mode
    ghost var delivered: seq<Byte>
    // What the caller's memory held when this call began.
    ghost var memory: seq<Byte>

    var unicodeMode: bool
    var activeWindowBase: Base
    const dynamicWindow: array<Base>
    var dynamicWindowIndex: Window

    const inputBuffer: RingQueue<Action>
    const outputBuffer: RingQueue<Byte>

    var unicodeWords: int
    var maxUnicodeWords: int
    var compressedBytes: int
    var maxCompressedBytes: int

    // The caller's memory, or null when only the size is wanted.
    var output: array?<Byte>

    ghost predicate Valid()
      reads this, dynamicWindow, inputBuffer, inputBuffer.slots, outputBuffer, outputBuffer.slots, output
    {
      && dynamicWindow.Length == 8
      && mode == Mode(unicodeMode, dynamicWindowIndex, dynamicWindow[..])
      && mode.Valid()
      && activeWindowBase == mode.windows[mode.active]
      && inputBuffer.Valid() && inputBuffer.slots.Length == LOOKAHEAD
      && Sound(inputBuffer.items)
      && outputBuffer.Valid() && outputBuffer.slots.Length == OUTPUT_QUEUE
      && compressedBytes == |delivered|
      && (output != null ==>
            && output != outputBuffer.slots
            && maxCompressedBytes <= output.Length
            && compressedBytes <= output.Length
            && |memory| == output.Length
            && output[..] == delivered + memory[compressedBytes..])
    }

    constructor ()
      ensures Valid() && fresh(dynamicWindow)
      ensures fresh(inputBuffer) && fresh(inputBuffer.slots) && fresh(outputBuffer) && fresh(outputBuffer.slots)
      ensures mode == START && inputBuffer.items == [] && outputBuffer.items == [] && delivered == [] && output == null
    {
      unicodeMode, activeWindowBase, dynamicWindowIndex := false, 0x0080, 0;
      dynamicWindow := new Base[8](i requires 0 <= i < 8 => DEFAULT_WINDOWS[i]);
      inputBuffer := new RingQueue<Action>(LOOKAHEAD, Action(0, PLAIN_UNICODE));
      outputBuffer := new RingQueue<Byte>(OUTPUT_QUEUE, 0);
      unicodeWords, maxUnicodeWords, compressedBytes, maxCompressedBytes := 0, 0, 0, 0;
      output := null;
      mode, delivered, memory := START, [], [];
      new;
      assert dynamicWindow[..] == DEFAULT_WINDOWS;
    }

    method WriteByte(b: Byte)
      requires Valid() && |outputBuffer.items| < OUTPUT_QUEUE
      modifies outputBuffer, outputBuffer.slots
      ensures Valid()
      ensures outputBuffer.items == old(outputBuffer.items) + [b]
    {
      outputBuffer.Push(b);
    }

    method FindWindow(base: Base) returns (i: nat)
      requires Valid()
      ensures i == FirstEqual(base, mode.windows, 0)
    {
      i := 0;
      while i < 8 && base != dynamicWindow[i]
        invariant i <= 8
        invariant FirstEqual(base, mode.windows, 0) == FirstEqual(base, mode.windows, i)
      {
        i := i + 1;
      }
    }

    /** Selects a dynamic window as it stands. */
    method TakeWindow(i: Window)
      requires Valid() && (|outputBuffer.items| < OUTPUT_QUEUE || (!unicodeMode && i == dynamicWindowIndex))
      modifies this`mode, this`unicodeMode, this`activeWindowBase, this`dynamicWindowIndex,
               outputBuffer, outputBuffer.slots
      ensures Valid()
      ensures mode == old(mode).(unicode := false, active := i)
      ensures outputBuffer.items == old(outputBuffer.items)
                         + (if old(mode).unicode then [UC0 + i] else if i != old(mode).active then [SC0 + i] else [])
    {
      hide Ring, Sound, DynamicWindowBase;
      if unicodeMode || i != dynamicWindowIndex {
        WriteByte(if unicodeMode then UC0 + i else SC0 + i);
      }
      unicodeMode, dynamicWindowIndex, activeWindowBase := false, i, dynamicWindow[i];
      mode := mode.(unicode := false, active := i);
    }

    /** Redefines and selects dynamic window 4. */
    method RedefineWindow(treatment: Byte, base: Base)
      requires Valid() && |outputBuffer.items| + 2 <= OUTPUT_QUEUE && BmpBase(base)
      modifies this`mode, this`unicodeMode, this`activeWindowBase, this`dynamicWindowIndex, dynamicWindow,
               outputBuffer, outputBuffer.slots
      ensures Valid()
      ensures mode == Mode(false, 4, old(mode).windows[4 := base])
      ensures outputBuffer.items == old(outputBuffer.items) + [if old(mode).unicode then UD0 + 4 else SD0 + 4, treatment]
    {
      hide Ring, Sound, DynamicWindowBase;
      WriteByte(if unicodeMode then UD0 + 4 else SD0 + 4);
      WriteByte(treatment);
      dynamicWindowIndex, unicodeMode := 4, false;
      dynamicWindow[4] := base;
      activeWindowBase := base;
      mode := Mode(false, 4, mode.windows[4 := base]);
      assert dynamicWindow[..] == old(dynamicWindow[..])[4 := base];
    }

    method SelectTreatment(treatment: int)
      requires Valid() && |outputBuffer.items| + |Select(mode, treatment).tags| <= OUTPUT_QUEUE
      requires 0 <= treatment < FIRST_STATIC ==> BmpBase(DynamicWindowBase(treatment))
      modifies this`mode, this`unicodeMode, this`activeWindowBase, this`dynamicWindowIndex, dynamicWindow,
               outputBuffer, outputBuffer.slots
      ensures Valid()
      ensures mode == Select(old(mode), treatment).mode
      ensures outputBuffer.items == old(outputBuffer.items) + Select(old(mode), treatment).tags
    {
      hide Ring, Sound;
      if treatment == PLAIN_UNICODE {
        if !unicodeMode {
          WriteByte(SCU);
          unicodeMode := true;
          mode := mode.(unicode := true);
        }
      } else if treatment == PLAIN_ASCII {
        if unicodeMode {
          WriteByte(UC0 + dynamicWindowIndex);
          unicodeMode := false;
          mode := mode.(unicode := false);
        }
      } else if 0 <= treatment < FIRST_STATIC {
        var base := DynamicWindowBase(treatment);
        var i := FindWindow(base);
        if i < 8 {
          TakeWindow(i);
        } else {
          RedefineWindow(treatment, base);
        }
      }
    }

    method WriteUCharacter(code: CodeUnit)
      requires Valid() && |outputBuffer.items| + |UnicodeModeBytes(code)| <= OUTPUT_QUEUE
      modifies outputBuffer, outputBuffer.slots
      ensures Valid()
      ensures outputBuffer.items == old(outputBuffer.items) + UnicodeModeBytes(code)
    {
      hide Ring, Sound;
      if 0xE000 <= code <= 0xF2FF {
        WriteByte(UQU);
      }
      WriteByte(code / 0x100);
      WriteByte(code % 0x100);
    }

    method WriteSCharacter(action: Action)
      requires Valid() && |outputBuffer.items| + |SingleByteModeBytes(mode, action)| <= OUTPUT_QUEUE
      modifies outputBuffer, outputBuffer.slots
      ensures Valid()
      ensures outputBuffer.items == old(outputBuffer.items) + SingleByteModeBytes(mode, action)
    {
      hide Ring, Sound;
      if action.treatment == PLAIN_ASCII {
        WriteByte(action.code % 0x100);
        return;
      }
      if FIRST_STATIC <= action.treatment < FIRST_STATIC + 8 {
        WriteByte(SQ0 + (action.treatment - FIRST_STATIC));
        WriteByte(action.code % 0x100);
        return;
      }
      if InWindow(action.code, activeWindowBase) {
        WriteByte(action.code - activeWindowBase + 0x80);
        return;
      }
      for i := 0 to 8
        invariant Valid() && outputBuffer.items == old(outputBuffer.items)
        invariant FirstHolding(action.code, mode.windows, 0) == FirstHolding(action.code, mode.windows, i)
      {
        if InWindow(action.code, dynamicWindow[i]) {
          WriteByte(SQ0 + i);
          WriteByte(action.code - dynamicWindow[i] + 0x80);
          return;
        }
      }
      WriteByte(SQU);
      WriteByte(action.code / 0x100);
      WriteByte(action.code % 0x100);
    }

    method WriteCharacter(action: Action)
      requires Valid() && |outputBuffer.items| + |CharacterBytes(mode, action)| <= OUTPUT_QUEUE
      modifies outputBuffer, outputBuffer.slots
      ensures Valid()
      ensures outputBuffer.items == old(outputBuffer.items) + CharacterBytes(mode, action)
    {
      if unicodeMode {
        WriteUCharacter(action.code);
      } else {
        WriteSCharacter(action);
      }
    }

    method WriteCharacterFromBuffer()
      requires Valid() && inputBuffer.items != []
      requires |outputBuffer.items| + |CharacterBytes(mode, inputBuffer.items[0])| <= OUTPUT_QUEUE
      modifies inputBuffer, outputBuffer, outputBuffer.slots
      ensures Valid()
      ensures inputBuffer.items == old(inputBuffer.items)[1..]
      ensures outputBuffer.items == old(outputBuffer.items) + CharacterBytes(mode, old(inputBuffer.items)[0])
    {
      var action := inputBuffer.Front();
      SoundParts(inputBuffer.items, 1, |inputBuffer.items|);
      inputBuffer.Pop();
      WriteCharacter(action);
    }

    /** Writes the first of the next `n` characters: what is still to write of them shrinks by as much. */
    method WriteNext(ghost n: nat)
      requires Valid() && 0 < n <= |inputBuffer.items|
      requires |outputBuffer.items| + |TextBytes(mode, inputBuffer.items[..n])| <= OUTPUT_QUEUE
      modifies inputBuffer, outputBuffer, outputBuffer.slots
      ensures Valid()
      ensures inputBuffer.items == old(inputBuffer.items)[1..]
      ensures outputBuffer.items + TextBytes(mode, inputBuffer.items[..n - 1]) == old(outputBuffer.items + TextBytes(mode, inputBuffer.items[..n]))
    {
      TextStep(mode, inputBuffer.items, n);
      ghost var first, rest := CharacterBytes(mode, inputBuffer.items[0]), TextBytes(mode, inputBuffer.items[1..][..n - 1]);
      assert outputBuffer.items + (first + rest) == outputBuffer.items + first + rest;
      WriteCharacterFromBuffer();
    }

    /** Writes the next `count` characters without changing mode or window. */
    method WriteCharacters(count: nat)
      requires Valid() && count <= |inputBuffer.items|
      requires |outputBuffer.items| + |TextBytes(mode, inputBuffer.items[..count])| <= OUTPUT_QUEUE
      modifies inputBuffer, outputBuffer, outputBuffer.slots
      ensures Valid()
      ensures inputBuffer.items == old(inputBuffer.items)[count..]
      ensures outputBuffer.items == old(outputBuffer.items) + TextBytes(mode, old(inputBuffer.items)[..count])
    {
      hide Ring, Sound, TextBytes, CharacterBytes;
      ghost var all := outputBuffer.items + TextBytes(mode, inputBuffer.items[..count]);
      NoText(mode);
      var i := 0;
      while i < count
        invariant Valid() && i <= count
        invariant inputBuffer.items == old(inputBuffer.items)[i..]
        invariant outputBuffer.items + TextBytes(mode, inputBuffer.items[..count - i]) == all
      {
        WriteNext(count - i);
        i := i + 1;
      }
    }

    /** Writes the leading characters that need no tag. */
    method WriteLead()
      requires Valid() && outputBuffer.items == []
      modifies inputBuffer, outputBuffer, outputBuffer.slots
      ensures Valid()
      ensures inputBuffer.items == old(inputBuffer.items)[LeadLength(mode, old(inputBuffer.items))..]
      ensures outputBuffer.items == TextBytes(mode, old(inputBuffer.items)[..LeadLength(mode, old(inputBuffer.items))])
    {
      hide Ring, Sound, TextBytes, CharacterBytes, LeadLength;
      ghost var lead := LeadLength(mode, inputBuffer.items);
      RunFits(mode, inputBuffer.items);
      LeadIsWritten(mode, inputBuffer.items);
      NoText(mode);
      if !unicodeMode {
        while inputBuffer.size > 0
          invariant Valid() && !unicodeMode
          invariant LeadLength(mode, inputBuffer.items) <= lead
          invariant inputBuffer.items[LeadLength(mode, inputBuffer.items)..] == old(inputBuffer.items)[lead..]
          invariant outputBuffer.items + TextBytes(mode, inputBuffer.items[..LeadLength(mode, inputBuffer.items)]) == TextBytes(mode, old(inputBuffer.items)[..lead])
          decreases |inputBuffer.items|
        {
          var action := inputBuffer.Front();
          if action.treatment == PLAIN_ASCII || InWindow(action.code, activeWindowBase) {
            ghost var n := LeadLength(mode, inputBuffer.items);
            assert inputBuffer.items[n..] == inputBuffer.items[1..][n - 1..];
            WriteNext(n);
          } else {
            break;
          }
        }
      }
    }

    method DeliverByte()
      requires Valid() && outputBuffer.items != [] && compressedBytes < maxCompressedBytes
      modifies this`compressedBytes, this`delivered, outputBuffer, output
      ensures Valid()
      ensures delivered == old(delivered) + [old(outputBuffer.items)[0]]
      ensures outputBuffer.items == old(outputBuffer.items)[1..]
    {
      hide Ring, Sound;
      var b := outputBuffer.Front();
      outputBuffer.Pop();
      if output != null {
        output[compressedBytes] := b;
        assert output[..] == old(output[..])[compressedBytes := b];
      }
      compressedBytes := compressedBytes + 1;
      delivered := delivered + [b];
    }

    method FlushOutputBufferL()
      requires Valid()
      modifies this`compressedBytes, this`delivered, outputBuffer, output
      ensures Valid()
      ensures delivered + outputBuffer.items == old(delivered + outputBuffer.items)
      ensures outputBuffer.items == [] || compressedBytes >= maxCompressedBytes
      ensures compressedBytes == old(compressedBytes) || compressedBytes <= maxCompressedBytes
    {
      while outputBuffer.size > 0 && compressedBytes < maxCompressedBytes
        invariant Valid()
        invariant delivered + outputBuffer.items == old(delivered + outputBuffer.items)
        invariant compressedBytes == old(compressedBytes) || compressedBytes <= maxCompressedBytes
        decreases |outputBuffer.items|
      {
        ghost var before, waiting := delivered, outputBuffer.items;
        DeliverByte();
        assert delivered + outputBuffer.items == before + waiting;
      }
    }

    /** The length of the run of one treatment at the head of the input queue. */
    method CountRun() returns (runSize: nat)
      requires Valid() && inputBuffer.items != []
      ensures runSize == RunLength(inputBuffer.items[0].treatment, inputBuffer.items)
    {
      ghost var queue := inputBuffer.items;
      var first := inputBuffer.Front();
      runSize := 1;
      while runSize < inputBuffer.size
        invariant 1 <= runSize <= |queue|
        invariant RunLength(first.treatment, queue) == runSize + RunLength(first.treatment, queue[runSize..])
      {
        var next := inputBuffer.At(runSize);
        assert queue[runSize..][1..] == queue[runSize + 1..];
        if next.treatment != first.treatment {
          break;
        }
        runSize := runSize + 1;
      }
    }

    /** Writes a run of characters that cannot be passed through. */
    method WriteTreatedRun()
      requires Valid() && inputBuffer.items != []
      requires var queue := inputBuffer.items;
               var run := RunLength(queue[0].treatment, queue);
               var selection := if run > 1 then Select(mode, queue[0].treatment) else Selection(mode, []);
               |outputBuffer.items| + |selection.tags| + |TextBytes(selection.mode, queue[..run])| <= OUTPUT_QUEUE
      modifies this`mode, this`unicodeMode, this`activeWindowBase, this`dynamicWindowIndex, dynamicWindow,
               inputBuffer, outputBuffer, outputBuffer.slots
      ensures Valid()
      ensures var queue := old(inputBuffer.items);
              var run := RunLength(queue[0].treatment, queue);
              var selection := if run > 1 then Select(old(mode), queue[0].treatment) else Selection(old(mode), []);
              && mode == selection.mode
              && inputBuffer.items == queue[run..]
              && outputBuffer.items == old(outputBuffer.items) + selection.tags + TextBytes(selection.mode, queue[..run])
    {
      hide Ring, CharacterBytes;
      var first := inputBuffer.Front();
      assert first.Sound();
      var runSize := CountRun();
      if runSize > 1 {
        SelectTreatment(first.treatment);
      }
      WriteCharacters(runSize);
    }

    /** Fills the empty output queue with one pass over the input queue: never overfilled, and
        consuming what the functional form consumes. */
    method FillOutput()
      requires Valid() && outputBuffer.items == []
      modifies this`mode, this`unicodeMode, this`activeWindowBase, this`dynamicWindowIndex, dynamicWindow,
               inputBuffer, outputBuffer, outputBuffer.slots
      ensures Valid()
      ensures var w := WriteRun(old(mode), old(inputBuffer.items));
              mode == w.mode && inputBuffer.items == old(inputBuffer.items)[w.count..] && outputBuffer.items == w.bytes
    {
      hide Ring, Sound;
      ghost var queue, lead := inputBuffer.items, LeadLength(mode, inputBuffer.items);
      RunFits(mode, queue);
      WriteLead();
      if inputBuffer.size > 0 {
        WriteTreatedRun();
      } else {
        assert queue[..lead] == queue;
      }
    }

    /** One pass over the queue, starting with nothing waiting. */
    method WriteRunL()
      requires Valid() && outputBuffer.items == []
      modifies this`mode, this`unicodeMode, this`activeWindowBase, this`dynamicWindowIndex, dynamicWindow,
               this`compressedBytes, this`delivered, inputBuffer, outputBuffer, outputBuffer.slots, output
      ensures Valid()
      ensures var w := WriteRun(old(mode), old(inputBuffer.items));
              && mode == w.mode
              && inputBuffer.items == old(inputBuffer.items)[w.count..]
              && delivered + outputBuffer.items == old(delivered) + w.bytes
      ensures outputBuffer.items == [] || compressedBytes >= maxCompressedBytes
      ensures compressedBytes == old(compressedBytes) || compressedBytes <= maxCompressedBytes
    {
      FillOutput();
      FlushOutputBufferL();
    }

    /** Everything delivered so far, then what is queued, then what `rest` will become. */
    ghost function Total(rest: seq<Action>): seq<Byte>
      reads this, inputBuffer, outputBuffer
    {
      delivered + outputBuffer.items + Encode(mode, inputBuffer.items + rest)
    }

    /** One pass, seen from its caller: nothing of the whole output changes. */
    method WriteRunBefore(ghost rest: seq<Action>)
      requires Valid() && outputBuffer.items == [] && inputBuffer.items != []
      requires |inputBuffer.items| == LOOKAHEAD || rest == []
      modifies this`mode, this`unicodeMode, this`activeWindowBase, this`dynamicWindowIndex, dynamicWindow,
               this`compressedBytes, this`delivered, inputBuffer, outputBuffer, outputBuffer.slots, output
      ensures Valid()
      ensures Total(rest) == old(Total(rest))
      ensures |inputBuffer.items| < old(|inputBuffer.items|)
      ensures outputBuffer.items == [] || compressedBytes >= maxCompressedBytes
      ensures compressedBytes == old(compressedBytes) || compressedBytes <= maxCompressedBytes
    {
      PassTotal(delivered, mode, inputBuffer.items, rest);
      WriteRunL();
    }

    ghost predicate Same(delivered: seq<Byte>, mode: Mode, input: seq<Action>, output: seq<Byte>)
      reads this, inputBuffer, outputBuffer
    {
      this.delivered == delivered && this.mode == mode && inputBuffer.items == input && outputBuffer.items == output
    }

    method FlushInputBufferL()
      requires Valid() && (outputBuffer.items == [] || compressedBytes >= maxCompressedBytes)
      modifies this`mode, this`unicodeMode, this`activeWindowBase, this`dynamicWindowIndex, dynamicWindow,
               this`compressedBytes, this`delivered, inputBuffer, outputBuffer, outputBuffer.slots, output
      ensures Valid()
      ensures Total([]) == old(Total([]))
      ensures compressedBytes >= maxCompressedBytes ||
              (delivered == old(Total([])) && outputBuffer.items == [] && inputBuffer.items == [])
      ensures |inputBuffer.items| <= old(|inputBuffer.items|)
      ensures compressedBytes == old(compressedBytes) || compressedBytes <= maxCompressedBytes
      ensures old(compressedBytes >= maxCompressedBytes) ==> Same(old(delivered), old(mode), old(inputBuffer.items), old(outputBuffer.items))
    {
      while inputBuffer.size > 0 && compressedBytes < maxCompressedBytes
        invariant Valid() && (outputBuffer.items == [] || compressedBytes >= maxCompressedBytes)
        invariant Total([]) == old(Total([]))
        invariant |inputBuffer.items| <= old(|inputBuffer.items|)
        invariant compressedBytes == old(compressedBytes) || compressedBytes <= maxCompressedBytes
        invariant old(compressedBytes >= maxCompressedBytes) ==> Same(old(delivered), old(mode), old(inputBuffer.items), old(outputBuffer.items))
        decreases |inputBuffer.items|
      {
        WriteRunBefore([]);
      }
    }

    /** Reads one character into the queue. */
    method ReadCharacter(input: MemoryUnicodeSource)
      requires Valid() && |inputBuffer.items| < LOOKAHEAD && input.next < |input.text|
      modifies this`unicodeWords, inputBuffer, inputBuffer.slots, input
      ensures Valid()
      ensures input.next == old(input.next) + 1 && unicodeWords == old(unicodeWords) + 1
      ensures inputBuffer.items == old(inputBuffer.items) + [ActionOf(input.text[old(input.next)])]
    {
      var x := input.ReadUnicodeValueL();
      inputBuffer.Push(ActionOf(x));
      unicodeWords := unicodeWords + 1;
    }

    /** Takes in one more character, and writes a run once the queue is full. */
    method CompressWord(input: MemoryUnicodeSource, ghost end: nat)
      requires Valid() && |inputBuffer.items| < LOOKAHEAD && outputBuffer.items == []
      requires input.next < end <= |input.text|
      modifies this`mode, this`unicodeMode, this`activeWindowBase, this`dynamicWindowIndex, dynamicWindow,
               this`compressedBytes, this`delivered, this`unicodeWords, inputBuffer, inputBuffer.slots,
               outputBuffer, outputBuffer.slots, output, input
      ensures Valid() && |inputBuffer.items| < LOOKAHEAD
      ensures input.next == old(input.next) + 1 && unicodeWords == old(unicodeWords) + 1
      ensures Total(input.Ahead(end)) == old(Total(input.Ahead(end)))
      ensures outputBuffer.items == [] || compressedBytes >= maxCompressedBytes
      ensures compressedBytes == old(compressedBytes) || compressedBytes <= maxCompressedBytes
    {
      hide Ring, Encode, ActionOf;
      ghost var a, rest := ActionOf(input.text[input.next]), Actions(input.text[input.next + 1..end]);
      assert input.Ahead(end) == [a] + rest;
      assert inputBuffer.items + ([a] + rest) == inputBuffer.items + [a] + rest;
      ReadCharacter(input);
      if inputBuffer.size == LOOKAHEAD {
        WriteRunBefore(rest);
      }
    }

    /** Takes in characters until the words asked for or the room run out. */
    method CompressWords(input: MemoryUnicodeSource, ghost end: nat)
      requires Valid() && |inputBuffer.items| < LOOKAHEAD && (outputBuffer.items == [] || compressedBytes >= maxCompressedBytes)
      requires compressedBytes == 0 || compressedBytes <= maxCompressedBytes
      requires input.next <= end <= |input.text|
      requires unicodeWords == 0 && end - input.next == if maxUnicodeWords < 0 then 0 else maxUnicodeWords
      modifies this`mode, this`unicodeMode, this`activeWindowBase, this`dynamicWindowIndex, dynamicWindow,
               this`compressedBytes, this`delivered, this`unicodeWords, inputBuffer, inputBuffer.slots,
               outputBuffer, outputBuffer.slots, output, input
      ensures Valid() && |inputBuffer.items| < LOOKAHEAD
      ensures old(input.next) <= input.next <= end && input.next - old(input.next) == unicodeWords
      ensures Total(input.Ahead(end)) == old(Total(input.Ahead(end)))
      ensures outputBuffer.items == [] || compressedBytes >= maxCompressedBytes
      ensures compressedBytes == 0 || compressedBytes <= maxCompressedBytes
      ensures compressedBytes >= maxCompressedBytes || input.next == end
    {
      while unicodeWords < maxUnicodeWords && compressedBytes < maxCompressedBytes
        invariant Valid() && |inputBuffer.items| < LOOKAHEAD
        invariant old(input.next) <= input.next <= end && input.next - old(input.next) == unicodeWords
        invariant outputBuffer.items == [] || compressedBytes >= maxCompressedBytes
        invariant compressedBytes == 0 || compressedBytes <= maxCompressedBytes
        invariant Total(input.Ahead(end)) == old(Total(input.Ahead(end)))
        decreases maxUnicodeWords - unicodeWords
      {
        CompressWord(input, end);
      }
    }

    /** The position up to which a call may read its source. */
    static function End(input: MemoryUnicodeSource, maxInputWords: int): (end: int)
      reads input
    {
      input.next + if maxInputWords < 0 then 0 else maxInputWords
    }

    /** Sets the fields of a new call and delivers what the last call left waiting. */
    method StartCall(output: array?<Byte>, maxOutputBytes: int, maxInputWords: int, ghost all: seq<Action>)
      requires Valid() && (output == null || (maxOutputBytes <= output.Length && output != outputBuffer.slots))
      modifies this`output, this`maxCompressedBytes, this`maxUnicodeWords, this`unicodeWords, this`compressedBytes,
               this`delivered, this`memory, outputBuffer, output
      ensures Valid()
      ensures output != null ==> memory == old(output[..])
      ensures this.output == output && maxCompressedBytes == maxOutputBytes && maxUnicodeWords == maxInputWords
      ensures unicodeWords == 0 && (compressedBytes == 0 || compressedBytes <= maxCompressedBytes)
      ensures outputBuffer.items == [] || compressedBytes >= maxCompressedBytes
      ensures Total(all) == old(outputBuffer.items + Encode(mode, inputBuffer.items + all))
    {
      hide Encode, Ring, Sound;
      this.output := output;
      maxCompressedBytes, maxUnicodeWords := maxOutputBytes, maxInputWords;
      compressedBytes, unicodeWords := 0, 0;
      delivered, memory := [], if output == null then [] else output[..];
      assert [] + outputBuffer.items == outputBuffer.items;
      FlushOutputBufferL();
    }

    /** Compresses from `input` until the words or the room run out. Nothing is lost when the room runs
        out: what has been delivered, what waits in the queues and what has not been read make up the
        whole output of the words asked for. If that is shorter than the room, all of it is delivered. */
    method DoCompressL(output: array?<Byte>, input: MemoryUnicodeSource, maxOutputBytes: int, maxInputWords: int)
      returns (outputBytes: int, inputWords: int)
      requires Valid() && |inputBuffer.items| < LOOKAHEAD
      requires output == null || (maxOutputBytes <= output.Length && output != outputBuffer.slots)
      requires End(input, maxInputWords) <= |input.text|
      modifies this, dynamicWindow, inputBuffer, inputBuffer.slots, outputBuffer, outputBuffer.slots, output, input
      ensures Valid() && |inputBuffer.items| < LOOKAHEAD
      ensures this.output == output && outputBytes == |delivered| && (output != null ==> memory == old(output[..]))
      ensures outputBytes == 0 || outputBytes <= maxOutputBytes
      ensures input.next <= old(End(input, maxInputWords))
      ensures Total(input.Ahead(old(End(input, maxInputWords)))) ==
              old(outputBuffer.items + Encode(mode, inputBuffer.items + input.Ahead(End(input, maxInputWords))))
      ensures outputBytes < maxOutputBytes ==>
                && delivered == old(outputBuffer.items + Encode(mode, inputBuffer.items + input.Ahead(End(input, maxInputWords))))
                && outputBuffer.items == [] && inputBuffer.items == []
                && input.next == old(End(input, maxInputWords)) && inputWords == input.next - old(input.next)
    {
      hide Encode, ActionOf, Ring, Sound;
      ghost var end := End(input, maxInputWords);
      StartCall(output, maxOutputBytes, maxInputWords, input.Ahead(end));
      CompressWords(input, end);
      assert input.next == end ==> input.Ahead(end) == [];
      FlushInputBufferL();
      outputBytes, inputWords := compressedBytes, unicodeWords;
    }

    /** The same with no source: only what is queued. */
    method DoFlushL(output: array<Byte>, maxOutputBytes: int) returns (outputBytes: int)
      requires Valid() && |inputBuffer.items| < LOOKAHEAD
      requires maxOutputBytes <= output.Length && output != outputBuffer.slots
      modifies this, dynamicWindow, inputBuffer, outputBuffer, outputBuffer.slots, output
      ensures Valid() && |inputBuffer.items| < LOOKAHEAD
      ensures this.output == output && outputBytes == |delivered| && memory == old(output[..])
      ensures outputBytes == 0 || outputBytes <= maxOutputBytes
      ensures Total([]) == old(outputBuffer.items + Encode(mode, inputBuffer.items))
      ensures outputBytes < maxOutputBytes ==>
                && delivered == old(outputBuffer.items + Encode(mode, inputBuffer.items))
                && outputBuffer.items == [] && inputBuffer.items == []
    {
      assert inputBuffer.items + [] == inputBuffer.items;
      StartCall(output, maxOutputBytes, 0, []);
      FlushInputBufferL();
      outputBytes := compressedBytes;
    }

    method CompressL(output: array<Byte>, input: MemoryUnicodeSource, maxOutputBytes: int, maxInputWords: int)
      returns (outputBytes: int, inputWords: int)
      requires Valid() && |inputBuffer.items| < LOOKAHEAD
      requires maxOutputBytes <= output.Length && output != outputBuffer.slots
      requires End(input, maxInputWords) <= |input.text|
      modifies this, dynamicWindow, inputBuffer, inputBuffer.slots, outputBuffer, outputBuffer.slots, output, input
      ensures Valid() && |inputBuffer.items| < LOOKAHEAD
      ensures 0 <= outputBytes <= output.Length && output[..outputBytes] == delivered
      ensures outputBytes == 0 || outputBytes <= maxOutputBytes
      ensures input.next <= old(End(input, maxInputWords))
      ensures Total(input.Ahead(old(End(input, maxInputWords)))) ==
              old(outputBuffer.items + Encode(mode, inputBuffer.items + input.Ahead(End(input, maxInputWords))))
      ensures outputBytes < maxOutputBytes ==>
                && delivered == old(outputBuffer.items + Encode(mode, inputBuffer.items + input.Ahead(End(input, maxInputWords))))
                && outputBuffer.items == [] && inputBuffer.items == []
                && input.next == old(End(input, maxInputWords)) && inputWords == input.next - old(input.next)
    {
      outputBytes, inputWords := DoCompressL(output, input, maxOutputBytes, maxInputWords);
    }

    /** Delivers what an earlier call left queued, from the start of the memory it is given. */
    method FlushL(output: array<Byte>, maxOutputBytes: int) returns (unfinished: nat, outputBytes: int)
      requires Valid() && |inputBuffer.items| < LOOKAHEAD
      requires maxOutputBytes <= output.Length && output != outputBuffer.slots
      modifies this, dynamicWindow, inputBuffer, outputBuffer, outputBuffer.slots, output
      ensures Valid() && |inputBuffer.items| < LOOKAHEAD && unfinished == |outputBuffer.items|
      ensures 0 <= outputBytes <= output.Length && output[..] == delivered + old(output[..])[outputBytes..]
      ensures Total([]) == old(outputBuffer.items + Encode(mode, inputBuffer.items))
      ensures outputBytes < maxOutputBytes ==>
                delivered == old(outputBuffer.items + Encode(mode, inputBuffer.items)) && unfinished == 0
      ensures old(outputBuffer.items == [] && inputBuffer.items == []) ==> outputBytes == 0
    {
      outputBytes := DoFlushL(output, maxOutputBytes);
      unfinished := outputBuffer.size;
    }
  }

  lemma TextStep(m: Mode, queue: seq<Action>, n: nat)
    requires 0 < n <= |queue|
    ensures TextBytes(m, queue[..n]) == CharacterBytes(m, queue[0]) + TextBytes(m, queue[1..][..n - 1])
  {
    assert queue[..n][1..] == queue[1..][..n - 1];
  }

  lemma LeadIsWritten(m: Mode, queue: seq<Action>)
    ensures |TextBytes(m, queue[..LeadLength(m, queue)])| <= |WriteRun(m, queue).bytes|
  {
    if LeadLength(m, queue) == |queue| {
      assert queue[..LeadLength(m, queue)] == queue;
    }
  }

  /** With a full queue, or nothing more to come, the next pass writes what `Encode` writes first. */
  lemma PassTotal(before: seq<Byte>, m: Mode, queue: seq<Action>, rest: seq<Action>)
    requires queue != [] && |queue| <= LOOKAHEAD && (|queue| == LOOKAHEAD || rest == [])
    ensures var w := WriteRun(m, queue);
            before + [] + Encode(m, queue + rest) == before + w.bytes + Encode(w.mode, queue[w.count..] + rest)
  {
    hide WriteRun;
    var all, w := queue + rest, WriteRun(m, queue);
    assert all[..Min(LOOKAHEAD, |all|)] == queue;
    assert all[w.count..] == queue[w.count..] + rest;
  }

  const MAX_INT := 0x7FFF_FFFF

  /** The size that compressing would produce, without memory to produce it in. */
  method CompressedSizeL(input: MemoryUnicodeSource, inputWords: nat) returns (bytes: int)
    requires input.next + inputWords <= |input.text|
    modifies input
    ensures var size := |Compressed(old(input.text[input.next..input.next + inputWords]))|;
            bytes == if size < 0x7FFF_FFFF then size else 0x7FFF_FFFF
  {
    var c := new Compressor();
    hide Encode, ActionOf;
    ghost var ahead := input.Ahead(input.next + inputWords);
    assert [] + ahead == ahead && [] + Encode(START, ahead) == Encode(START, ahead);
    var words: int;
    bytes, words := c.DoCompressL(null, input, MAX_INT, inputWords);
  }

  /** Compresses a text into memory of the caller's. The length returned is below the maximum
      exactly when the compressed form is; the memory then holds that form, from which a UTS #6
      decoder recovers the text, and the panic on unread input cannot be reached. */
  method CompressUnicode(output: array<Byte>, maximumOutputLength: int, input: seq<CodeUnit>) returns (outputLength: int)
    requires maximumOutputLength <= output.Length
    modifies output
    ensures outputLength < maximumOutputLength <==> |Compressed(input)| < maximumOutputLength
    ensures outputLength < maximumOutputLength ==>
              && 0 <= outputLength
              && output[..outputLength] == Compressed(input)
              && D.Decompress(output[..outputLength]) == Some(input)
  {
    var compressor := new Compressor();
    var source := new MemoryUnicodeSource(input);
    hide Encode, ActionOf, D.Run;
    assert input[0..|input|] == input;
    assert [] + Actions(input) == Actions(input) && [] + Compressed(input) == Compressed(input);
    var numberOfInputElementsConsumed: int;
    outputLength, numberOfInputElementsConsumed := compressor.CompressL(output, source, maximumOutputLength, |input|);
    ghost var compressed := outputLength;
    var unfinished, temp := compressor.FlushL(output, maximumOutputLength);
    outputLength := outputLength + temp;
    if outputLength < maximumOutputLength && numberOfInputElementsConsumed != |input| {
      assert false;
    }
    RoundTrip(input);
  }
}
