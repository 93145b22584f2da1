/** Octets at a place of a buffer, strings that end with a zero, and writing into buffers. */
module Buffers {
  import opened Bytes

  predicate Has(bytes: seq<Byte>, at: nat, part: seq<Byte>) {
    at + |part| <= |bytes| && bytes[at..at + |part|] == part
  }

  /** A string that ends at the first zero. */
  function CString(bytes: seq<Byte>, at: nat): Option<seq<Byte>>
    decreases |bytes| - at
  {
    if at >= |bytes| then None
    else if bytes[at] == 0 then Some([])
    else
      match CString(bytes, at + 1)
      case None => None
      case Some(rest) => Some([bytes[at]] + rest)
  }

  lemma {:induction false} NameRead(bytes: seq<Byte>, at: nat, name: seq<Byte>)
    requires Has(bytes, at, name + [0]) && 0 !in name
    ensures CString(bytes, at) == Some(name)
    decreases |name|
  {
    if name == [] {
      assert bytes[at..at + 1][0] == 0;
    } else {
      assert bytes[at..at + |name| + 1][0] == bytes[at] == name[0] && name[0] in name && [name[0]] + name[1..] == name;
      assert bytes[at + 1..at + 1 + |name|] == bytes[at..at + |name| + 1][1..];
      assert (name + [0])[1..] == name[1..] + [0];
      NameRead(bytes, at + 1, name[1..]);
    }
  }

  lemma HalfRead(bytes: seq<Byte>, at: nat, value: nat)
    requires value < 0x1_0000 && Has(bytes, at, LittleEndian(2, value))
    ensures at + 2 <= |bytes| && HalfAt(bytes, at) == value
  {
    HalfOf(value);
    assert bytes[at..at + 2][0] == bytes[at] && bytes[at..at + 2][1] == bytes[at + 1];
  }

  lemma WholeRead(bytes: seq<Byte>, at: nat, value: Word)
    requires Has(bytes, at, LittleEndian(4, value))
    ensures at + 4 <= |bytes| && WholeAt(bytes, at) == value
  {
    hide LittleEndian, HalfAt;
    LowHigh(value);
    assert bytes[at..at + 2] == bytes[at..at + 4][..2] && bytes[at + 2..at + 4] == bytes[at..at + 4][2..];
    HalfRead(bytes, at, value % 0x1_0000);
    HalfRead(bytes, at + 2, value / 0x1_0000);
  }

  method Put(buff: array<Byte>, at: nat, part: seq<Byte>)
    requires at + |part| <= buff.Length
    modifies buff
    ensures Has(buff[..], at, part)
    ensures forall k :: 0 <= k < buff.Length && !(at <= k < at + |part|) ==> buff[k] == old(buff[k])
  {
    forall k | 0 <= k < |part| {
      buff[at + k] := part[k];
    }
  }

  predicate Clear(at: nat, n: nat, from: nat, m: nat) {
    at + n <= from || from + m <= at
  }

  /** What is clear of a change stays. */
  lemma Kept(before: seq<Byte>, after: seq<Byte>, at: nat, n: nat, from: nat, part: seq<Byte>)
    requires |before| == |after| && Has(before, from, part) && Clear(at, n, from, |part|)
    requires forall k :: 0 <= k < |before| && !(at <= k < at + n) ==> after[k] == before[k]
    ensures Has(after, from, part)
  {
    assert after[from..from + |part|] == before[from..from + |part|];
  }
}
