/** An output file: octets and a write position. */
module BinaryStream {
  import opened Bytes
  import opened ResourceLayout

  /** The octets after `data` has been written at `position`. */
  function Overwritten(bytes: seq<Byte>, position: nat, data: seq<Byte>): (r: seq<Byte>)
    requires position <= |bytes|
    ensures |r| == if position + |data| > |bytes| then position + |data| else |bytes|
    ensures r[..position] == bytes[..position]
    ensures r[position..position + |data|] == data
    ensures forall i :: position + |data| <= i < |bytes| ==> r[i] == bytes[i]
    ensures position == |bytes| ==> r == bytes + data
  {
    bytes[..position] + data + if position + |data| < |bytes| then bytes[position + |data|..] else []
  }

  class RCBinaryStream {
    var bytes: seq<Byte>
    var position: nat

    ghost predicate Valid()
      reads this
    {
      position <= |bytes|
    }

    constructor (bytes: seq<Byte>)
      ensures Valid() && this.bytes == bytes && position == |bytes|
    {
      this.bytes, position := bytes, |bytes|;
    }

    /** Puts octets at the position, over those that are there or beyond the end, and goes on behind
        them. What is before and behind them stays. */
    method Write(data: seq<Byte>)
      requires Valid()
      modifies this
      ensures Valid() && position == old(position) + |data|
      ensures |bytes| == if position > |old(bytes)| then position else |old(bytes)|
      ensures bytes[..old(position)] == old(bytes)[..old(position)] && bytes[old(position)..position] == data
      ensures forall i :: position <= i < |old(bytes)| ==> bytes[i] == old(bytes)[i]
      ensures bytes == Overwritten(old(bytes), old(position), data)
    {
      bytes := Overwritten(bytes, position, data);
      position := position + |data|;
    }

    method WriteCompressedInteger(n: nat)
      requires Valid() && n <= LONGEST_RUN
      modifies this
      ensures Valid()
      ensures bytes == Overwritten(old(bytes), old(position), CompressedInteger(n))
      ensures position == old(position) + |CompressedInteger(n)|
    {
      hide Overwritten;
      if n >= 0x80 {
        Write([n / 0x100 + 0x80]);
      }
      Write([n % 0x100]);
      assert CompressedInteger(n) == if n >= 0x80 then [n / 0x100 + 0x80] + [n % 0x100] else [n % 0x100];
      OverwrittenTwice(old(bytes), old(position), [n / 0x100 + 0x80], [n % 0x100]);
    }

    method GetPosition() returns (p: nat)
      ensures p == position
    {
      p := position;
    }

    method SetPosition(p: nat)
      requires Valid() && p <= position
      modifies this
      ensures Valid() && position == p && bytes == old(bytes)
    {
      position := p;
    }
  }

  lemma OverwrittenTwice(bytes: seq<Byte>, position: nat, a: seq<Byte>, b: seq<Byte>)
    requires position <= |bytes|
    ensures Overwritten(Overwritten(bytes, position, a), position + |a|, b) == Overwritten(bytes, position, a + b)
  {
  }
}
