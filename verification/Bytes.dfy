/** Octets, 16-bit code units and the little-endian forms the tools write. */
module Bytes {

  type Byte = x: int | 0 <= x < 0x100

  type CodeUnit = x: int | 0 <= x < 0x1_0000

  type Word = x: int | 0 <= x < 0x1_0000_0000

  datatype Option<+T> = None | Some(value: T)

  function Min(a: int, b: int): int {
    if a < b then a else b
  }

  /** The octets of a value, lowest first, as many as fit the width. */
  function LittleEndian(width: nat, value: nat): (r: seq<Byte>)
    ensures |r| == width
  {
    if width == 0 then [] else [value % 0x100] + LittleEndian(width - 1, value / 0x100)
  }

  /** The UTF-16 form of a code point: itself, or a surrogate pair. */
  function Utf16(code: int): seq<CodeUnit>
    requires 0 <= code < 0x11_0000
  {
    if code < 0x1_0000 then [code]
    else [0xD800 + (code - 0x1_0000) / 0x400, 0xDC00 + code % 0x400]
  }

  /** The octets of a UTF-16 buffer, as a little-endian host stores them. */
  function UnitBytes(s: seq<CodeUnit>): (r: seq<Byte>)
    ensures |r| == 2 * |s|
  {
    if s == [] then [] else [s[0] % 0x100, s[0] / 0x100] + UnitBytes(s[1..])
  }

  /** The octets of a unit stand where the unit does, the low one first. */
  lemma {:induction false} UnitBytesAt(s: seq<CodeUnit>, i: nat)
    requires i < |s|
    ensures UnitBytes(s)[2 * i] == s[i] % 0x100 && UnitBytes(s)[2 * i + 1] == s[i] / 0x100
  {
    if i > 0 {
      UnitBytesAt(s[1..], i - 1);
    }
  }

  function Map<A, B>(f: A -> B, s: seq<A>): (r: seq<B>)
    ensures |r| == |s|
    ensures forall i :: 0 <= i < |s| ==> r[i] == f(s[i])
  {
    seq(|s|, i requires 0 <= i < |s| => f(s[i]))
  }

  function Power2(n: nat): (r: nat)
    ensures r >= 1
  {
    if n == 0 then 1 else 2 * Power2(n - 1)
  }

  lemma {:induction false} Power2Grows(m: nat, n: nat)
    requires m <= n
    ensures Power2(m) <= Power2(n)
  {
    if m < n {
      Power2Grows(m, n - 1);
    }
  }

  lemma SliceOfSlice<T>(s: seq<T>, start: nat, n: nat, from: nat, m: nat)
    requires from + m <= n && start + n <= |s|
    ensures s[start..start + n][from..from + m] == s[start + from..start + from + m]
  {
    var a, b := s[start..start + n][from..from + m], s[start + from..start + from + m];
    forall i | 0 <= i < m ensures a[i] == b[i] {
      assert s[start..start + n][from + i] == s[start + (from + i)];
    }
  }

  lemma Associate<T>(a: seq<T>, b: seq<T>, c: seq<T>)
    ensures a + b + c == a + (b + c)
  {
  }

  // Little-endian values

  function HalfAt(bytes: seq<Byte>, at: nat): CodeUnit
    requires at + 2 <= |bytes|
  {
    bytes[at] as int + 0x100 * (bytes[at + 1] as int)
  }

  function WholeAt(bytes: seq<Byte>, at: nat): Word
    requires at + 4 <= |bytes|
  {
    HalfAt(bytes, at) as int + 0x1_0000 * (HalfAt(bytes, at + 2) as int)
  }

  function Half(bytes: seq<Byte>): CodeUnit
    requires |bytes| >= 2
  {
    HalfAt(bytes, 0)
  }

  function Whole(bytes: seq<Byte>): Word
    requires |bytes| >= 4
  {
    WholeAt(bytes, 0)
  }

  lemma HalfOf(value: nat)
    requires value < 0x1_0000
    ensures LittleEndian(2, value) == [value % 0x100, value / 0x100]
    ensures Half(LittleEndian(2, value)) == value
  {
    assert LittleEndian(2, value) == [value % 0x100] + LittleEndian(1, value / 0x100);
    assert LittleEndian(1, value / 0x100) == [value / 0x100 % 0x100] + LittleEndian(0, value / 0x100 / 0x100);
  }

  lemma LowHigh(value: nat)
    ensures LittleEndian(4, value) == LittleEndian(2, value % 0x1_0000) + LittleEndian(2, value / 0x1_0000)
  {
    assert LittleEndian(4, value) == [value % 0x100] + LittleEndian(3, value / 0x100);
    assert LittleEndian(3, value / 0x100) == [value / 0x100 % 0x100] + LittleEndian(2, value / 0x100 / 0x100);
    HalfOf(value % 0x1_0000);
    assert value / 0x100 / 0x100 == value / 0x1_0000;
  }

  lemma WholeOf(value: Word, rest: seq<Byte>)
    ensures Whole(LittleEndian(4, value) + rest) == value
  {
    LowHigh(value);
    HalfOf(value % 0x1_0000);
    HalfOf(value / 0x1_0000);
  }
}
