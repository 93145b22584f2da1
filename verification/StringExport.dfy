/** Exporting the strings of a resource script as UTF-16, and writing single codes into them. */
module StringExport {
  import opened Bytes

  datatype CharacterSet = CP1252 | UTF8 | OneByte

  // Decoding

  predicate Continues(b: Byte) {
    0x80 <= b < 0xC0
  }

  /** A code as far as it is known and the index of the next byte. */
  datatype Decoded = Decoded(code: nat, index: nat)

  /** Takes the byte at `at`, if it is inside the string and continues a code, for the bits from `unit` on. */
  function Take(memory: seq<Byte>, max: nat, d: Decoded, at: nat, unit: nat): (r: Decoded)
    requires at < |memory| && d.index <= max
    ensures d.index <= r.index <= max && r.index <= d.index + 1
  {
    if d.index < max && Continues(memory[at]) then Decoded(d.code + (memory[at] - 0x80) * unit, d.index + 1) else d
  }

  /** One code from byte `at` on, of a string that takes the first `max` bytes of memory. A byte that
      does not fit the pattern is left for the next code, yet the byte after it is still looked at. */
  function Decode(memory: seq<Byte>, at: nat, max: nat): (r: Decoded)
    requires at < max && max + 2 <= |memory|
    ensures at < r.index <= max
  {
    var b: int := memory[at];
    if 0xC0 <= b < 0xE0 then Take(memory, max, Decoded((b - 0xC0) * 0x40, at + 1), at + 1, 1)
    else if 0xE0 <= b < 0xF0 then
      var d := Take(memory, max, Decoded((b - 0xE0) * 0x1000, at + 1), at + 1, 0x40);
      if d.index < max then Take(memory, max, d, at + 2, 1) else d
    else if 0xF0 <= b < 0xF8 then
      var d := Take(memory, max, Decoded((b - 0xF0) * 0x4_0000, at + 1), at + 1, 0x1000);
      if d.index < max then
        var d' := Take(memory, max, d, at + 2, 0x40);
        if d'.index < max then Take(memory, max, d', at + 3, 1) else d'
      else d
    else Decoded(b, at + 1)
  }

  // What a string is exported as

  /** The units of a code; beyond 0xFFFF there are two, of sixteen bits each. */
  function UnitsOf(code: nat): (r: seq<CodeUnit>)
    ensures 1 <= |r| <= 2
  {
    if code <= 0xFFFF then [code] else [(0xD7C0 + code / 0x400) % 0x1_0000, 0xDC00 + code % 0x400]
  }

  /** The characters of CP1252 from 128 to 159. */
  const CP1252_EXCEPTIONS: seq<CodeUnit> := [
    0x20AC, 0xFFFE, 0x201A, 0x0192, 0x201E, 0x2026, 0x2020, 0x2021, 0x02C6, 0x2030, 0x0160, 0x2039, 0x0152, 0xFFFE, 0x017D, 0xFFFE,
    0xFFFE, 0x2018, 0x2019, 0x201C, 0x201D, 0x2022, 0x2013, 0x2014, 0x02DC, 0x2122, 0x0161, 0x203A, 0x0153, 0xFFFE, 0x017E, 0x0178]

  const UNICODE_ESCAPE: Byte := 0x81

  function Mapped(unit: CodeUnit): CodeUnit {
    if 128 <= unit <= 159 then CP1252_EXCEPTIONS[unit - 128] else unit
  }

  /** The units of the next character and the index after it. An escape at the end gives a zero. */
  function Next(memory: seq<Byte>, at: nat, max: nat, from: CharacterSet): (r: (seq<CodeUnit>, nat))
    requires at < max && max + 2 <= |memory|
    ensures 1 <= |r.0| <= 2 && at < r.1 <= max
  {
    match from
    case CP1252 =>
      if memory[at] == UNICODE_ESCAPE then
        if at + 1 < max then
          var d := Decode(memory, at + 1, max);
          ([Mapped(d.code % 0x1_0000)], d.index)
        else ([0], at + 1)
      else ([Mapped(memory[at])], at + 1)
    case UTF8 =>
      var d := Decode(memory, at, max);
      (UnitsOf(d.code), d.index)
    case OneByte => ([memory[at]], at + 1)
  }

  function Units(memory: seq<Byte>, at: nat, max: nat, from: CharacterSet): seq<CodeUnit>
    requires at <= max && max + 2 <= |memory|
    decreases max - at
  {
    if at == max then [] else var n := Next(memory, at, max, from); n.0 + Units(memory, n.1, max, from)
  }

  /** The last character has two units. */
  predicate EndsWithPair(memory: seq<Byte>, at: nat, max: nat, from: CharacterSet)
    requires at <= max && max + 2 <= |memory|
    decreases max - at
  {
    at < max && var n := Next(memory, at, max, from); if n.1 == max then |n.0| == 2 else EndsWithPair(memory, n.1, max, from)
  }

  lemma UnitsStep(memory: seq<Byte>, at: nat, max: nat, from: CharacterSet)
    requires at < max && max + 2 <= |memory|
    ensures var n := Next(memory, at, max, from);
            && Units(memory, at, max, from) == n.0 + Units(memory, n.1, max, from)
            && (n.1 < max ==> (EndsWithPair(memory, at, max, from) <==> EndsWithPair(memory, n.1, max, from)))
            && (n.1 == max ==> Units(memory, n.1, max, from) == [] && (EndsWithPair(memory, at, max, from) <==> |n.0| == 2))
  {
  }

  // What the character sets mean

  /** The character of an octet in code page 1252; 0xFFFE for the octets that have none. */
  function Cp1252(b: Byte): CodeUnit {
    match b
    case 0x80 => 0x20AC
    case 0x82 => 0x201A
    case 0x83 => 0x0192
    case 0x84 => 0x201E
    case 0x85 => 0x2026
    case 0x86 => 0x2020
    case 0x87 => 0x2021
    case 0x88 => 0x02C6
    case 0x89 => 0x2030
    case 0x8A => 0x0160
    case 0x8B => 0x2039
    case 0x8C => 0x0152
    case 0x8E => 0x017D
    case 0x91 => 0x2018
    case 0x92 => 0x2019
    case 0x93 => 0x201C
    case 0x94 => 0x201D
    case 0x95 => 0x2022
    case 0x96 => 0x2013
    case 0x97 => 0x2014
    case 0x98 => 0x02DC
    case 0x99 => 0x2122
    case 0x9A => 0x0161
    case 0x9B => 0x203A
    case 0x9C => 0x0153
    case 0x9E => 0x017E
    case 0x9F => 0x0178
    case _ => if b in {0x81, 0x8D, 0x8F, 0x90, 0x9D} then 0xFFFE else b
  }

  lemma ExceptionIs(b: Byte)
    ensures Mapped(b) == Cp1252(b)
  {
  }

  /** Text of single octets, without an escape in CP1252, is exported character by character. */
  lemma {:induction false} OctetsAreExported(memory: seq<Byte>, at: nat, max: nat, from: CharacterSet)
    requires at <= max && max + 2 <= |memory| && from != UTF8
    requires from == CP1252 ==> forall k :: at <= k < max ==> memory[k] != 0x81
    ensures Units(memory, at, max, from) == Map((b: Byte) => if from == CP1252 then Cp1252(b) else b, memory[at..max])
    decreases max - at
  {
    hide Mapped, Cp1252, Decode;
    if at < max {
      UnitsStep(memory, at, max, from);
      ExceptionIs(memory[at]);
      OctetsAreExported(memory, at + 1, max, from);
      assert memory[at..max] == [memory[at]] + memory[at + 1..max];
    } else {
      assert memory[at..max] == [];
    }
  }

  /** The six bits of a byte that continues a code, if it is there and does. */
  function Bits(memory: seq<Byte>, at: nat, taken: bool): nat
    requires taken ==> at < |memory|
  {
    if taken then memory[at] % 64 else 0
  }

  /** Whether the byte at `at` continues a code that has come as far as `index`. */
  predicate Goes(memory: seq<Byte>, index: nat, max: nat, at: nat) {
    index < max && at < |memory| && 0x80 <= memory[at] <= 0xBF
  }

  /** What any bytes are decoded to, well-formed or not: a lead byte, whose code lacks the bits of each
      following byte that does not continue it, and a byte for each that does. */
  lemma DecodedBits(memory: seq<Byte>, at: nat, max: nat)
    requires at < max && max + 2 <= |memory|
    ensures var b: int, d := memory[at], Decode(memory, at, max);
            var one := Goes(memory, at + 1, max, at + 1);
            var second := if one then at + 2 else at + 1;
            var two := Goes(memory, second, max, at + 2);
            var third := if two then second + 1 else second;
            var three := Goes(memory, third, max, at + 3);
            && (b <= 0xBF || b >= 0xF8 ==> d == Decoded(b, at + 1))
            && (0xC0 <= b <= 0xDF ==> d == Decoded((b - 0xC0) * 64 + Bits(memory, at + 1, one), second))
            && (0xE0 <= b <= 0xEF ==>
                  d == Decoded((b - 0xE0) * 4096 + Bits(memory, at + 1, one) * 64 + Bits(memory, at + 2, two), third))
            && (0xF0 <= b <= 0xF7 ==>
                  d == Decoded((b - 0xF0) * 262144 + Bits(memory, at + 1, one) * 4096 + Bits(memory, at + 2, two) * 64
                               + Bits(memory, at + 3, three), if three then third + 1 else third))
  {
    hide Take, Bits, Goes;
    var b: int := memory[at];
    if 0xC0 <= b <= 0xDF {
      TakenBits(memory, max, Decoded((b - 0xC0) * 0x40, at + 1), at + 1, 1);
    } else if 0xE0 <= b <= 0xEF {
      var d := Decoded((b - 0xE0) * 0x1000, at + 1);
      TakenBits(memory, max, d, at + 1, 0x40);
      TakenBits(memory, max, Take(memory, max, d, at + 1, 0x40), at + 2, 1);
    } else if 0xF0 <= b <= 0xF7 {
      var d := Decoded((b - 0xF0) * 0x4_0000, at + 1);
      var d' := Take(memory, max, d, at + 1, 0x1000);
      TakenBits(memory, max, d, at + 1, 0x1000);
      TakenBits(memory, max, d', at + 2, 0x40);
      TakenBits(memory, max, Take(memory, max, d', at + 2, 0x40), at + 3, 1);
    }
  }

  lemma TakenBits(memory: seq<Byte>, max: nat, d: Decoded, at: nat, unit: nat)
    requires d.index <= max && unit > 0
    ensures Goes(memory, d.index, max, at) ==> at < |memory|
    ensures d.index == max ==> !Goes(memory, d.index, max, at)
    ensures !Goes(memory, d.index, max, at) ==> Bits(memory, at, Goes(memory, d.index, max, at)) == 0
    ensures at < |memory| ==>
              var taken := Goes(memory, d.index, max, at);
              Take(memory, max, d, at, unit) == Decoded(d.code + Bits(memory, at, taken) * unit, if taken then d.index + 1 else d.index)
  {
    if at < |memory| {
      assert 0x80 <= memory[at] <= 0xBF ==> memory[at] % 64 == memory[at] - 0x80;
    }
  }

  // Exporting

  class String {
    // the bytes of the string, a zero, and what lies beyond
    const memory: seq<Byte>
    const length: nat

    ghost predicate Valid() {
      length + 2 <= |memory|
    }

    constructor (memory: seq<Byte>, length: nat)
      requires length + 2 <= |memory|
      ensures Valid() && this.memory == memory && this.length == length
    {
      this.memory, this.length := memory, length;
    }

    method GetUTF8(at: nat) returns (code: nat, index: nat)
      requires Valid() && at < length
      ensures Decoded(code, index) == Decode(memory, at, length)
    {
      hide Continues;
      var utfByte: int := memory[at];
      if 0xC0 <= utfByte < 0xE0 {
        code, index := Continue((utfByte - 0xC0) * 0x40, at + 1, at + 1, 1);
      } else if 0xE0 <= utfByte < 0xF0 {
        code, index := Continue((utfByte - 0xE0) * 0x1000, at + 1, at + 1, 0x40);
        code, index := Continue(code, index, at + 2, 1);
      } else if 0xF0 <= utfByte < 0xF8 {
        code, index := Continue((utfByte - 0xF0) * 0x4_0000, at + 1, at + 1, 0x1000);
        code, index := Continue(code, index, at + 2, 0x40);
        code, index := Continue(code, index, at + 3, 1);
      } else {
        code, index := utfByte, at + 1;
      }
    }

    /** Takes one more byte of a sequence, if it continues it. */
    method Continue(code: nat, index: nat, at: nat, unit: nat) returns (code': nat, index': nat)
      requires index <= length && (index < length ==> at < |memory|)
      ensures Decoded(code', index') ==
              if index < length && Continues(memory[at]) then Decoded(code + (memory[at] - 0x80) * unit, index + 1)
              else Decoded(code, index)
    {
      code', index' := code, index;
      if index < length && Continues(memory[at]) {
        code', index' := code + (memory[at] - 0x80) * unit, index + 1;
      }
    }

    /** The units that a whole export writes. */
    method ExportLength(from: CharacterSet) returns (count: nat)
      requires Valid()
      ensures count == |Units(memory, 0, length, from)|
    {
      hide Decode, Units, UnitsOf, Mapped;
      var index := 0;
      count := 0;
      while index < length
        invariant index <= length && count + |Units(memory, index, length, from)| == |Units(memory, 0, length, from)|
        decreases length - index
      {
        UnitsStep(memory, index, length, from);
        match from
        case CP1252 =>
          if memory[index] == UNICODE_ESCAPE {
            index := index + 1;
            if index < length {
              var _, next := GetUTF8(index);
              index := next;
            }
          } else {
            index := index + 1;
          }
          count := count + 1;
        case UTF8 =>
          var code, next := GetUTF8(index);
          index := next;
          count := count + 1;
          CodeUnits(code);
          if code > 0xFFFF {
            count := count + 1;
          }
        case OneByte =>
          index := index + 1;
          count := count + 1;
      }
      NoUnits(memory, index, length, from);
    }

    /** Writes the unit or units of one character at `at`; the second of two is left out if `length` is
        reached. `rest` are the units that were to be written from there on. */
    method ExportNext(buffer: array<CodeUnit>, at: nat, length: nat, index: nat, from: CharacterSet)
      returns (outcount: nat, index': nat, ghost cut: bool)
      requires Valid() && index < this.length && at < length <= buffer.Length
      requires forall k :: at <= k < length ==> buffer[k] == 0
      modifies buffer
      ensures index' == Next(memory, index, this.length, from).1
      ensures var units := Next(memory, index, this.length, from).0;
              && at < outcount <= length && outcount - at <= |units| && buffer[at..outcount] == units[..outcount - at]
              && (cut <==> outcount - at < |units|) && (cut ==> outcount == length && outcount - at == 1 && |units| == 2)
      ensures forall k :: 0 <= k < buffer.Length && !(at <= k < outcount) ==> buffer[k] == old(buffer[k])
    {
      hide Decode;
      index', outcount, cut := index, at, false;
      match from
      case CP1252 =>
        if memory[index] == UNICODE_ESCAPE {
          index' := index + 1;
          if index' < this.length {
            var code, next := GetUTF8(index');
            buffer[at], index' := code % 0x1_0000, next;
          }
        } else {
          buffer[at], index' := memory[index], index + 1;
        }
        buffer[at] := Mapped(buffer[at]);
        outcount := at + 1;
      case UTF8 =>
        var code, next := GetUTF8(index);
        index' := next;
        if code <= 0xFFFF {
          buffer[at] := code;
          outcount := at + 1;
        } else {
          buffer[at] := (0xD7C0 + code / 0x400) % 0x1_0000;
          outcount := at + 1;
          if outcount < length {
            buffer[outcount] := 0xDC00 + code % 0x400;
            outcount := outcount + 1;
          } else {
            cut := true;
          }
        }
        assert buffer[at..outcount] == UnitsOf(code)[..outcount - at];
      case OneByte =>
        buffer[at], index', outcount := memory[index], index + 1, at + 1;
    }

    /** Exports the string to a buffer of `length` units. What is written is as much of the units of the
        string as fits, and zeros are left after it. The result tells that all was written, but it is
        also given when only the second unit of the last character did not fit. */
    method Export(buffer: array<CodeUnit>, length: nat, from: CharacterSet) returns (whole: bool, written: nat)
      requires Valid() && length <= buffer.Length
      modifies buffer
      ensures var units := Units(memory, 0, this.length, from);
              && written == Min(length, |units|) && buffer[..written] == units[..written]
              && (whole <==> |units| <= length || (|units| == length + 1 && EndsWithPair(memory, 0, this.length, from)))
      ensures forall k :: written <= k < length ==> buffer[k] == 0
      ensures forall k :: length <= k < buffer.Length ==> buffer[k] == old(buffer[k])
    {
      hide Next, Units, EndsWithPair;
      ghost var units := Units(memory, 0, this.length, from);
      forall i | 0 <= i < length {
        buffer[i] := 0;
      }
      var index: nat, outcount: nat := 0, 0;
      ghost var lost: seq<CodeUnit>, pair := [], false;
      Nothing(buffer[..0], units);
      while index < this.length && outcount < length
        invariant index <= this.length && outcount <= length && (index == 0 ==> outcount == 0 && lost == [])
        invariant buffer[..outcount] + (lost + Units(memory, index, this.length, from)) == units
        invariant lost != [] ==> |lost| == 1 && outcount == length && pair
        invariant if index < this.length then EndsWithPair(memory, 0, this.length, from) <==> EndsWithPair(memory, index, this.length, from)
                  else index > 0 ==> (EndsWithPair(memory, 0, this.length, from) <==> pair)
        invariant forall k :: outcount <= k < length ==> buffer[k] == 0
        invariant forall k :: length <= k < buffer.Length ==> buffer[k] == old(buffer[k])
        decreases this.length - index
      {
        UnitsStep(memory, index, this.length, from);
        ghost var n, before, out := Next(memory, index, this.length, from).0, buffer[..outcount], outcount;
        ghost var cut;
        outcount, index, cut := ExportNext(buffer, outcount, length, index, from);
        ghost var got := buffer[out..outcount];
        pair, lost := |n| == 2, n[outcount - out..];
        Written(before, buffer[..outcount], got);
        Regroup(before, got, lost, n, Units(memory, index, this.length, from));
      }
      if index == this.length {
        NoUnits(memory, index, this.length, from);
      } else {
        SomeUnits(memory, index, this.length, from);
      }
      whole, written := index == this.length, outcount;
    }

    /** Exports the string to a buffer of as many units as it has bytes, as the items of a resource do.
        That is enough for a set of single bytes; in UTF-8 it is enough unless the string has more units
        than bytes, and then the units beyond are cut off. */
    method ExportToItem(from: CharacterSet) returns (buffer: array<CodeUnit>, whole: bool, count: nat)
      requires Valid()
      ensures fresh(buffer) && buffer.Length == length && count <= length
      ensures var units := Units(memory, 0, length, from);
              && buffer[..count] == units[..Min(length, |units|)]
              && (count == |units| <==> from != UTF8 || |units| <= length)
    {
      hide Units, EndsWithPair;
      buffer := new CodeUnit[length];
      whole, count := Export(buffer, length, from);
      UnitsWithin(memory, 0, length, from);
    }
  }

  /** Nothing is lost in a buffer of as many units as `ExportLength` gives, and elsewhere the report is
      right unless the string ends with a character of two units. */
  method ExportAndCompare(s: String, buffer: array<CodeUnit>, length: nat, from: CharacterSet)
    returns (whole: bool, written: nat, needed: nat)
    requires s.Valid() && length <= buffer.Length
    modifies buffer
    ensures needed == |Units(s.memory, 0, s.length, from)|
    ensures needed <= length ==> whole && written == needed && buffer[..written] == Units(s.memory, 0, s.length, from)
    ensures needed > length && whole ==> needed == length + 1 && EndsWithPair(s.memory, 0, s.length, from)
  {
    hide Units, EndsWithPair;
    needed := s.ExportLength(from);
    whole, written := s.Export(buffer, length, from);
  }

  /** The string of one byte 0xF4 has two units. In the buffer that an item gives it, one is lost, and
      the export is reported as whole. */
  method LoseUnit() returns (whole: bool, count: nat)
    ensures whole && count == 1 && |Units([0xF4, 0, 0], 0, 1, UTF8)| == 2
  {
    hide Units, EndsWithPair;
    var s := new String([0xF4, 0, 0], 1);
    LoneLead();
    var buffer := new CodeUnit[1];
    whole, count := s.Export(buffer, 1, UTF8);
  }

  lemma LoneLead()
    ensures |Units([0xF4, 0, 0], 0, 1, UTF8)| == 2 && EndsWithPair([0xF4, 0, 0], 0, 1, UTF8)
  {
    var memory: seq<Byte> := [0xF4, 0, 0];
    assert Decode(memory, 0, 1) == Decoded(4 * 0x4_0000, 1);
    UnitsStep(memory, 0, 1, UTF8);
  }

  /** So it is with a well-formed character of four bytes and a buffer of one unit. */
  method LosePair() returns (whole: bool, count: nat)
    ensures whole && count == 1 && |Units([0xF0, 0x90, 0x80, 0x80, 0, 0], 0, 4, UTF8)| == 2
  {
    hide Units, EndsWithPair;
    var s := new String([0xF0, 0x90, 0x80, 0x80, 0, 0], 4);
    FourBytesArePair();
    var buffer := new CodeUnit[1];
    whole, count := s.Export(buffer, 1, UTF8);
  }

  lemma FourBytesArePair()
    ensures |Units([0xF0, 0x90, 0x80, 0x80, 0, 0], 0, 4, UTF8)| == 2
    ensures EndsWithPair([0xF0, 0x90, 0x80, 0x80, 0, 0], 0, 4, UTF8)
  {
    var memory: seq<Byte> := [0xF0, 0x90, 0x80, 0x80, 0, 0];
    assert Decode(memory, 0, 4) == Decoded(0x1_0000, 4);
    UnitsStep(memory, 0, 4, UTF8);
  }

  /** From a set of single bytes there are no more units than bytes. */
  lemma {:induction false} UnitsWithin(memory: seq<Byte>, at: nat, max: nat, from: CharacterSet)
    requires at <= max && max + 2 <= |memory|
    ensures from != UTF8 ==> |Units(memory, at, max, from)| <= max - at
    decreases max - at
  {
    hide Units, EndsWithPair, Decode;
    if at < max {
      UnitsStep(memory, at, max, from);
      UnitsWithin(memory, Next(memory, at, max, from).1, max, from);
    } else {
      NoUnits(memory, at, max, from);
    }
  }

  lemma Nothing(a: seq<CodeUnit>, b: seq<CodeUnit>)
    requires a == []
    ensures a + ([] + b) == b
  {
  }

  lemma Written(before: seq<CodeUnit>, after: seq<CodeUnit>, got: seq<CodeUnit>)
    requires |after| == |before| + |got| && after[..|before|] == before && after[|before|..] == got
    ensures after == before + got
  {
  }

  lemma Regroup(before: seq<CodeUnit>, got: seq<CodeUnit>, lost: seq<CodeUnit>, n: seq<CodeUnit>, rest: seq<CodeUnit>)
    requires |got| <= |n| && got == n[..|got|] && lost == n[|got|..]
    ensures before + got + (lost + rest) == before + ([] + (n + rest))
  {
    assert n == got + lost;
  }

  lemma {:induction false} SomeUnits(memory: seq<Byte>, at: nat, max: nat, from: CharacterSet)
    requires at < max && max + 2 <= |memory|
    ensures |Units(memory, at, max, from)| >= if EndsWithPair(memory, at, max, from) then 2 else 1
    decreases max - at
  {
    hide Next, Units, EndsWithPair;
    UnitsStep(memory, at, max, from);
    if Next(memory, at, max, from).1 < max {
      SomeUnits(memory, Next(memory, at, max, from).1, max, from);
    }
  }

  lemma CodeUnits(code: nat)
    ensures |UnitsOf(code)| == if code > 0xFFFF then 2 else 1
  {
  }

  lemma NoUnits(memory: seq<Byte>, at: nat, max: nat, from: CharacterSet)
    requires at == max && max + 2 <= |memory|
    ensures Units(memory, at, max, from) == [] && !EndsWithPair(memory, at, max, from)
  {
  }

  // Codes as strings

  const CODES: nat := 0x11_0000

  function TwoBytes(code: nat): seq<Byte>
    requires code < 0x800
  {
    [0xC0 + code / 0x40, 0x80 + code % 0x40]
  }

  function ThreeBytes(code: nat): (r: seq<Byte>)
    requires code < 0x1_0000
    ensures |r| == 3
  {
    [0xE0 + code / 0x1000, 0x80 + code / 0x40 % 0x40, 0x80 + code % 0x40]
  }

  function FourBytes(code: nat): seq<Byte>
    requires code < CODES
  {
    [0xF0 + code / 0x4_0000, 0x80 + code / 0x1000 % 0x40, 0x80 + code / 0x40 % 0x40, 0x80 + code % 0x40]
  }

  /** The encoding of RFC 3629, section 3, or with a surrogate pair of three bytes each beyond 0xFFFF. */
  function Utf8(code: nat, surrogates: bool): (r: seq<Byte>)
    requires code < CODES
    ensures |r| >= 1
  {
    if code < 0x80 then [code]
    else if code < 0x800 then TwoBytes(code)
    else if code < 0x1_0000 then ThreeBytes(code)
    else if surrogates then ThreeBytes(Utf16(code)[0]) + ThreeBytes(Utf16(code)[1])
    else FourBytes(code)
  }

  /** Writes a code and a zero, its surrogates one by one if it has them. */
  method AsUTF8(utf8: array<Byte>, code: nat) returns (ok: bool)
    requires utf8.Length >= 7
    modifies utf8
    ensures ok <==> code <= 0x10_FFFF
    ensures ok ==> |Utf8(code, true)| < utf8.Length && utf8[..|Utf8(code, true)| + 1] == Utf8(code, true) + [0]
  {
    ok := true;
    var last := 0;
    if code > 0xFFFF {
      if code > 0x10FFFF {
        return false;
      }
      var high, low := 0xD7C0 + code / 0x400, 0xDC00 + code % 0x400;
      utf8[0], utf8[1], utf8[2] := 0xE0 + high / 0x1000, 0x80 + high / 0x40 % 0x40, 0x80 + high % 0x40;
      utf8[3], utf8[4], utf8[5] := 0xE0 + low / 0x1000, 0x80 + low / 0x40 % 0x40, 0x80 + low % 0x40;
      last := 5;
    } else if code < 0x80 {
      utf8[0] := code;
    } else if code < 0x800 {
      utf8[0], utf8[1] := 0xC0 + code / 0x40, 0x80 + code % 0x40;
      last := 1;
    } else {
      utf8[0], utf8[1], utf8[2] := 0xE0 + code / 0x1000, 0x80 + code / 0x40 % 0x40, 0x80 + code % 0x40;
      last := 2;
    }
    utf8[last + 1] := 0;
  }

  lemma BytesAt(memory: seq<Byte>, at: nat, e: seq<Byte>)
    requires at + |e| <= |memory| && memory[at..at + |e|] == e
    ensures forall k :: 0 <= k < |e| ==> memory[at + k] == e[k]
  {
    forall k | 0 <= k < |e| ensures memory[at + k] == e[k] {
      assert memory[at..at + |e|][k] == memory[at + k];
    }
  }

  /** Any code of sixteen bits is decoded from three bytes. */
  lemma DecodeThree(memory: seq<Byte>, at: nat, max: nat, code: nat)
    requires at + 3 <= max && max + 2 <= |memory| && code < 0x1_0000 && memory[at..at + 3] == ThreeBytes(code)
    ensures Decode(memory, at, max) == Decoded(code, at + 3)
  {
    BytesAt(memory, at, ThreeBytes(code));
    assert memory[at] == ThreeBytes(code)[0] && memory[at + 1] == ThreeBytes(code)[1] && memory[at + 2] == ThreeBytes(code)[2];
    assert code == code / 0x1000 * 0x1000 + code / 0x40 % 0x40 * 0x40 + code % 0x40;
  }

  lemma DecodeFour(memory: seq<Byte>, at: nat, max: nat, code: nat)
    requires at + 4 <= max && max + 2 <= |memory| && code < CODES && memory[at..at + 4] == FourBytes(code)
    ensures Decode(memory, at, max) == Decoded(code, at + 4)
  {
    hide Take;
    BytesAt(memory, at, FourBytes(code));
    var a, b, c, d := code / 0x4_0000, code / 0x1000 % 0x40, code / 0x40 % 0x40, code % 0x40;
    assert memory[at] == FourBytes(code)[0] == 0xF0 + a && memory[at + 1] == FourBytes(code)[1] == 0x80 + b;
    assert memory[at + 2] == FourBytes(code)[2] == 0x80 + c && memory[at + 3] == FourBytes(code)[3] == 0x80 + d;
    TakeOne(memory, max, Decoded(a * 0x4_0000, at + 1), at + 1, 0x1000);
    TakeOne(memory, max, Decoded(a * 0x4_0000 + b * 0x1000, at + 2), at + 2, 0x40);
    TakeOne(memory, max, Decoded(a * 0x4_0000 + b * 0x1000 + c * 0x40, at + 3), at + 3, 1);
    FourParts(code);
  }

  lemma TakeOne(memory: seq<Byte>, max: nat, d: Decoded, at: nat, unit: nat)
    requires at < |memory| && d.index < max && Continues(memory[at])
    ensures Take(memory, max, d, at, unit) == Decoded(d.code + (memory[at] as int - 0x80) * unit, d.index + 1)
  {
  }

  lemma FourParts(code: nat)
    ensures code == code / 0x4_0000 * 0x4_0000 + code / 0x1000 % 0x40 * 0x1000 + code / 0x40 % 0x40 * 0x40 + code % 0x40
  {
    var a, b := code / 0x40, code / 0x1000;
    OnePart(code, a, 0x40);
    Divided(code, a, b, 0x40);
    Divided(code, b, code / 0x4_0000, 0x1000);
    OnePart(a, b, 0x40);
    OnePart(b, code / 0x4_0000, 0x40);
  }

  lemma OnePart(n: nat, q: nat, d: nat)
    requires d > 0 && q == n / d
    ensures n == q * d + n % d
  {
  }

  lemma Divided(n: nat, q: nat, r: nat, d: nat)
    requires d == 0x40 || d == 0x1000
    requires q == n / d && r == n / (d * 0x40)
    ensures r == q / 0x40
  {
    if d == 0x40 {
      assert n / 0x40 / 0x40 == n / 0x1000;
    } else {
      assert n / 0x1000 / 0x40 == n / 0x4_0000;
    }
  }

  /** A code that is not written as surrogates is decoded from its encoding. */
  lemma DecodeOne(memory: seq<Byte>, at: nat, max: nat, code: nat, surrogates: bool)
    requires code < CODES && (code < 0x1_0000 || !surrogates)
    requires var e := Utf8(code, surrogates); at + |e| <= max && max + 2 <= |memory| && memory[at..at + |e|] == e
    ensures Decode(memory, at, max) == Decoded(code, at + |Utf8(code, surrogates)|)
  {
    if code < 0x800 {
      BytesAt(memory, at, Utf8(code, surrogates));
      assert memory[at] == Utf8(code, surrogates)[0];
      if code >= 0x80 {
        assert memory[at + 1] == TwoBytes(code)[1];
      }
    } else if code < 0x1_0000 {
      DecodeThree(memory, at, max, code);
    } else {
      DecodeFour(memory, at, max, code);
    }
  }

  /** One code, in either encoding, is exported as its UTF-16 form. */
  lemma CodeIsExported(memory: seq<Byte>, at: nat, max: nat, code: nat, surrogates: bool)
    requires code < CODES
    requires var e := Utf8(code, surrogates); at + |e| <= max && max + 2 <= |memory| && memory[at..at + |e|] == e
    ensures Units(memory, at, max, UTF8) == Utf16(code) + Units(memory, at + |Utf8(code, surrogates)|, max, UTF8)
  {
    hide Decode, Units, Utf8, ThreeBytes;
    UnitsStep(memory, at, max, UTF8);
    if code >= 0x1_0000 && surrogates {
      var high, low := Utf16(code)[0], Utf16(code)[1];
      PairParts(memory, at, code);
      DecodeThree(memory, at, max, high);
      DecodeThree(memory, at + 3, max, low);
      UnitsStep(memory, at + 3, max, UTF8);
      Associate([high], [low], Units(memory, at + 6, max, UTF8));
    } else {
      DecodeOne(memory, at, max, code, surrogates);
      UnitsOfCode(code);
    }
  }

  lemma UnitsOfCode(code: nat)
    requires code < CODES
    ensures UnitsOf(code) == Utf16(code)
  {
  }

  /** The surrogates of a code, of three bytes each; neither starts like an escape. */
  lemma PairParts(memory: seq<Byte>, at: nat, code: nat)
    requires 0x1_0000 <= code < CODES
    requires var e := Utf8(code, true); at + |e| <= |memory| && memory[at..at + |e|] == e
    ensures |Utf16(code)| == 2 && |Utf8(code, true)| == 6 && at + 6 <= |memory|
    ensures memory[at..at + 3] == ThreeBytes(Utf16(code)[0]) && memory[at + 3..at + 6] == ThreeBytes(Utf16(code)[1])
    ensures memory[at + 3] != UNICODE_ESCAPE
  {
    hide ThreeBytes;
    var low := Utf16(code)[1];
    assert memory[at..at + 3] == memory[at..at + 6][..3] && memory[at + 3..at + 6] == memory[at..at + 6][3..];
    assert memory[at + 3] == memory[at + 3..at + 6][0];
    FirstOfThree(low);
  }

  lemma FirstOfThree(unit: CodeUnit)
    ensures ThreeBytes(unit)[0] >= 0xE0
  {
  }

  function Text(codes: seq<nat>, surrogates: bool): seq<Byte>
    requires forall i :: 0 <= i < |codes| ==> codes[i] < CODES
  {
    if codes == [] then [] else Utf8(codes[0], surrogates) + Text(codes[1..], surrogates)
  }

  function Utf16Text(codes: seq<nat>): seq<CodeUnit>
    requires forall i :: 0 <= i < |codes| ==> codes[i] < CODES
  {
    if codes == [] then [] else Utf16(codes[0]) + Utf16Text(codes[1..])
  }

  /** Any text, in either encoding, is exported as its UTF-16 form (section 2.1 of RFC 2781). */
  lemma {:induction false} TextIsExported(memory: seq<Byte>, at: nat, max: nat, codes: seq<nat>, surrogates: bool)
    requires forall i :: 0 <= i < |codes| ==> codes[i] < CODES
    requires at <= max && max + 2 <= |memory| && memory[at..max] == Text(codes, surrogates)
    ensures Units(memory, at, max, UTF8) == Utf16Text(codes)
    decreases |codes|
  {
    hide Utf8, Utf16, Units;
    assert |memory[at..max]| == max - at;
    if codes == [] {
      NoUnits(memory, at, max, UTF8);
    } else {
      var e := Utf8(codes[0], surrogates);
      assert memory[at..at + |e|] == memory[at..max][..|e|] == e;
      assert memory[at + |e|..max] == memory[at..max][|e|..] == Text(codes[1..], surrogates);
      CodeIsExported(memory, at, max, codes[0], surrogates);
      TextIsExported(memory, at + |e|, max, codes[1..], surrogates);
    }
  }

  /** Well-formed text has no more units than bytes, so that the buffer of an item is enough for it. */
  lemma {:induction false} TextWithin(codes: seq<nat>, surrogates: bool)
    requires forall i :: 0 <= i < |codes| ==> codes[i] < CODES
    ensures |Utf16Text(codes)| <= |Text(codes, surrogates)|
  {
    if codes != [] {
      TextWithin(codes[1..], surrogates);
    }
  }

  /** An escaped code in a CP1252 string is exported as its UTF-16 form exactly if it has one unit and
      is not among the exceptions: the escape covers one sequence, and what it gives is mapped again. */
  lemma EscapeIsExported(memory: seq<Byte>, code: nat)
    requires 0 < code < CODES
    requires var e := [UNICODE_ESCAPE] + Utf8(code, true); |memory| >= |e| + 2 && memory[..|e|] == e
    ensures Units(memory, 0, 1 + |Utf8(code, true)|, CP1252) == Utf16(code) <==> code < 0x80 || 0xA0 <= code < 0x1_0000
  {
    hide Decode, Units, Mapped, Utf8;
    var e := Utf8(code, true);
    var max := 1 + |e|;
    assert memory[0] == memory[..max][0] && memory[1..max] == memory[..max][1..] == e;
    UnitsStep(memory, 0, max, CP1252);
    if code < 0x1_0000 {
      DecodeOne(memory, 1, max, code, true);
      NoUnits(memory, max, max, CP1252);
      Exceptions(code);
    } else {
      PairParts(memory, 1, code);
      DecodeThree(memory, 1, max, Utf16(code)[0]);
      AtLeastTwo(memory, 4, max);
    }
  }

  lemma Exceptions(unit: CodeUnit)
    ensures Mapped(unit) == unit <==> unit < 0x80 || unit >= 0xA0
  {
    assert forall i :: 0 <= i < 32 ==> CP1252_EXCEPTIONS[i] > 159;
  }

  /** What is left of a second surrogate becomes at least two units. */
  lemma AtLeastTwo(memory: seq<Byte>, at: nat, max: nat)
    requires at + 3 == max && max + 2 <= |memory| && memory[at] != UNICODE_ESCAPE
    ensures |Units(memory, at, max, CP1252)| >= 2
  {
    UnitsStep(memory, at, max, CP1252);
    UnitsStep(memory, at + 1, max, CP1252);
  }
}
