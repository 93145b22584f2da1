/** The window tables of the Standard Compression Scheme for Unicode (UTS #6), and the
    stateless classification of a code unit by the compressor. */
module ScsuTables {
  import opened Bytes
  import opened ScsuWindows

  const STATIC_WINDOWS: seq<Base> := [0x0000, 0x0080, 0x0100, 0x0300, 0x2000, 0x2080, 0x2100, 0x3000]

  const DEFAULT_WINDOWS: Windows := [0x0080, 0x00C0, 0x0400, 0x0600, 0x0900, 0x3040, 0x30A0, 0xFF00]

  const SPECIAL_BASES: seq<Base> := [0x00C0, 0x0250, 0x0370, 0x0530, 0x3040, 0x30A0, 0xFF60]

  const SQ0: Byte := 0x01
  const SQU: Byte := 0x0E
  const SCU: Byte := 0x0F
  const SC0: Byte := 0x10
  const SD0: Byte := 0x18
  const UC0: Byte := 0xE0
  const UD0: Byte := 0xE8
  const UQU: Byte := 0xF0

  const PLAIN_UNICODE := -2
  const PLAIN_ASCII := -1
  const FIRST_STATIC := 256

  const NOT_FOUND := -1

  predicate EncodeAsIs(code: CodeUnit) {
    code == 0x0000 || code == 0x0009 || code == 0x000A || code == 0x000D || 0x0020 <= code <= 0x007F
  }

  predicate InWindow(code: CodeUnit, base: Base) {
    base <= code < base + 128
  }

  /** The base that an offset index selects, or 0 when the index is reserved. */
  function DynamicWindowBase(offsetIndex: int): Base {
    if 0xF9 <= offsetIndex <= 0xFF then SPECIAL_BASES[offsetIndex - 0xF9]
    else if 0x01 <= offsetIndex <= 0x67 then offsetIndex * 0x80
    else if 0x68 <= offsetIndex <= 0xA7 then offsetIndex * 0x80 + 0xAC00
    else 0
  }

  /** A base that the compressor may hold: wholly inside the basic plane and above ASCII. */
  predicate BmpBase(base: Base) {
    0x80 <= base <= 0xFF80
  }

  /** The first window of a table that holds a code, or |windows|. */
  function FirstHolding(code: CodeUnit, windows: seq<Base>, i: nat): (r: nat)
    requires i <= |windows|
    ensures i <= r <= |windows|
    ensures r < |windows| ==> InWindow(code, windows[r])
    ensures forall k :: i <= k < r ==> !InWindow(code, windows[k])
    decreases |windows| - i
  {
    if i == |windows| || InWindow(code, windows[i]) then i else FirstHolding(code, windows, i + 1)
  }

  function StaticWindowIndex(code: CodeUnit): int {
    var i := FirstHolding(code, STATIC_WINDOWS, 0);
    if i < 8 then i else NOT_FOUND
  }

  function DynamicWindowOffsetIndex(code: CodeUnit): int {
    if code < 0x0080 then NOT_FOUND
    else if 0x3400 <= code <= 0xDFFF then NOT_FOUND
    else
      var special := FirstHolding(code, SPECIAL_BASES, 0);
      if special < 7 then 0xF9 + special
      else if code >= 0xE000 then (code - 0xAC00) / 0x80
      else code / 0x80
  }

  function Treatment(code: CodeUnit): int {
    if EncodeAsIs(code) then PLAIN_ASCII
    else
      var dynamic := DynamicWindowOffsetIndex(code);
      if dynamic != NOT_FOUND then dynamic
      else
        var fixed := StaticWindowIndex(code);
        if fixed == NOT_FOUND then PLAIN_UNICODE else fixed + FIRST_STATIC
  }

  /** An offset index chosen for a code is one octet, is not reserved, and its window holds the code. */
  lemma OffsetIndexHoldsCode(code: CodeUnit)
    ensures var n := DynamicWindowOffsetIndex(code);
            (n == NOT_FOUND <==> code < 0x80 || 0x3400 <= code <= 0xDFFF)
            && (n != NOT_FOUND ==>
                  0x01 <= n <= 0xFF && BmpBase(DynamicWindowBase(n)) && InWindow(code, DynamicWindowBase(n)))
            && (0xF9 <= n <==> 0xC0 <= code < 0x140 || 0x250 <= code < 0x2D0 || 0x370 <= code < 0x3F0 || 0x530 <= code < 0x5B0
                               || 0x3040 <= code < 0x3120 || 0xFF60 <= code < 0xFFE0)
            && (0x3040 <= code < 0x30C0 ==> n == 0xFD)
  {
  }

  /** A code unit with its treatment: a queue entry of the compressor. */
  datatype Action = Action(code: CodeUnit, treatment: int) {
    /** What a treatment says about its code unit. Static treatment is given to the controls that
        are tags and to nothing else, so its window is always window 0. */
    ghost predicate Sound() {
      && (treatment == PLAIN_ASCII <==> code in {0x00, 0x09, 0x0A, 0x0D} || 0x20 <= code < 0x80)
      && (treatment == PLAIN_UNICODE <==> 0x3400 <= code <= 0xDFFF)
      && (treatment == FIRST_STATIC <==> code < 0x20 && code !in {0x00, 0x09, 0x0A, 0x0D})
      && (0 < treatment < FIRST_STATIC <==> 0x80 <= code && !(0x3400 <= code <= 0xDFFF))
      && (0 < treatment < FIRST_STATIC ==>
            BmpBase(DynamicWindowBase(treatment)) && InWindow(code, DynamicWindowBase(treatment)))
    }
  }

  function ActionOf(code: CodeUnit): (a: Action)
    ensures a.Sound()
  {
    TreatmentMeaning(code);
    Action(code, Treatment(code))
  }

  function Actions(text: seq<CodeUnit>): (actions: seq<Action>)
    ensures |actions| == |text|
    ensures Sound(actions)
  {
    Map(ActionOf, text)
  }

  ghost predicate Sound(actions: seq<Action>) {
    forall i {:trigger actions[i].Sound()} :: 0 <= i < |actions| ==> actions[i].Sound()
  }

  lemma TreatmentMeaning(code: CodeUnit)
    ensures Action(code, Treatment(code)).Sound()
  {
    OffsetIndexHoldsCode(code);
    if code < 0x80 {
      assert InWindow(code, STATIC_WINDOWS[0]);
      assert FirstHolding(code, STATIC_WINDOWS, 0) == 0;
    }
  }
}
