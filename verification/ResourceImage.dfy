/** What a resource means: the operations a caller made on the stream, as a flat script, and the
    uncompressed image they denote. */
module ResourceImage {
  import opened Bytes

  type Width = w: int | w == 1 || w == 2 || w == 4
    witness 1

  datatype Item =
    | Octet(value: Byte)
    | Open(width: Width)
    | Close
    | Align
    | Run(compressed: seq<Byte>, text: seq<Byte>)
    | Enquire(slot: nat)

  /** A place in an image: an octet that is fixed, or padding of any value. */
  datatype Cell = Fixed(value: Byte) | Padding

  function Capacity(width: Width): nat {
    match width
    case 1 => 0x100
    case 2 => 0x1_0000
    case 4 => 0x1_0000_0000
  }

  /** The number that octets stand for, the lowest first. */
  function Number(data: seq<Byte>): nat {
    if data == [] then 0 else data[0] + 0x100 * Number(data[1..])
  }

  /** A prefix has room for a size exactly if the size can be read from it again. */
  lemma PrefixHolds(width: Width, size: nat)
    ensures size < Capacity(width) <==> Number(LittleEndian(width, size)) == size
  {
    NumberIsRead(width, size);
  }

  lemma {:induction false} NumberIsRead(width: nat, size: nat)
    ensures Number(LittleEndian(width, size)) < Power256(width)
    ensures size < Power256(width) ==> Number(LittleEndian(width, size)) == size
    ensures Power256(1) == 0x100 && Power256(2) == 0x1_0000 && Power256(4) == 0x1_0000_0000
  {
    if width > 0 {
      NumberIsRead(width - 1, size / 0x100);
      assert LittleEndian(width, size)[1..] == LittleEndian(width - 1, size / 0x100);
    }
    assert Power256(3) == 0x100_0000;
  }

  function Power256(n: nat): nat {
    if n == 0 then 1 else 0x100 * Power256(n - 1)
  }

  function FixedCells(data: seq<Byte>): (r: seq<Cell>)
    ensures |r| == |data|
    ensures forall i :: 0 <= i < |data| ==> r[i] == Fixed(data[i])
  {
    Map((b: Byte) => Fixed(b), data)
  }

  function Octets(data: seq<Byte>): (r: seq<Item>)
    ensures |r| == |data|
  {
    if data == [] then [] else [Octet(data[0])] + Octets(data[1..])
  }

  /** The uncompressed position after an item. */
  function After(item: Item, pos: nat): nat {
    match item
    case Octet(_) => pos + 1
    case Open(w) => pos + w
    case Align => pos + pos % 2
    case Run(_, text) => pos + pos % 2 + |text|
    case Close => pos
    case Enquire(_) => pos
  }

  function End(items: seq<Item>, pos: nat): nat {
    if items == [] then pos else End(items[1..], After(items[0], pos))
  }

  /** The position of the close that ends a block `depth` levels up. */
  function CloseAt(items: seq<Item>, pos: nat, depth: nat): (r: nat)
    ensures r >= pos
    decreases |items|
  {
    if items == [] then pos
    else match items[0]
      case Open(w) => CloseAt(items[1..], pos + w, depth + 1)
      case Close => if depth == 0 then pos else CloseAt(items[1..], pos, depth - 1)
      case _ => CloseAt(items[1..], After(items[0], pos), depth)
  }

  /** The cells of one item; `rest` is what follows it, where its block ends. */
  function ItemCells(item: Item, pos: nat, rest: seq<Item>): seq<Cell> {
    match item
    case Octet(b) => [Fixed(b)]
    case Open(w) => FixedCells(LittleEndian(w, CloseAt(rest, pos + w, 0) - (pos + w)))
    case Align => if pos % 2 == 1 then [Padding] else []
    case Run(_, text) => (if pos % 2 == 1 then [Padding] else []) + FixedCells(text)
    case Close => []
    case Enquire(_) => []
  }

  /** The uncompressed image of a script that starts at position `pos`. */
  function Cells(items: seq<Item>, pos: nat): (r: seq<Cell>)
    decreases |items|
  {
    if items == [] then [] else ItemCells(items[0], pos, items[1..]) + Cells(items[1..], After(items[0], pos))
  }

  /** Every block's size fits its prefix. */
  predicate Fits(items: seq<Item>, pos: nat)
    decreases |items|
  {
    items == [] ||
    ((items[0].Open? ==>
        CloseAt(items[1..], pos + items[0].width, 0) - (pos + items[0].width) < Capacity(items[0].width))
     && Fits(items[1..], After(items[0], pos)))
  }

  lemma {:induction false} CellsSize(items: seq<Item>, pos: nat)
    ensures |Cells(items, pos)| == End(items, pos) - pos
    decreases |items|
  {
    if items != [] {
      CellsSize(items[1..], After(items[0], pos));
    }
  }

  /** Octets agree with an image when they have its length and its fixed values. */
  ghost predicate Matches(data: seq<Byte>, cells: seq<Cell>) {
    |data| == |cells| && forall i :: 0 <= i < |cells| && cells[i].Fixed? ==> cells[i].value == data[i]
  }

  lemma MatchesConcat(a: seq<Byte>, b: seq<Byte>, c: seq<Cell>, d: seq<Cell>)
    requires Matches(a, c) && Matches(b, d)
    ensures Matches(a + b, c + d)
  {
  }

  // Scripts that denote the same image wherever they stand

  ghost predicate SameImage(a: seq<Item>, b: seq<Item>) {
    && (forall pos: nat :: End(a, pos) == End(b, pos))
    && (forall pos: nat, depth: nat :: CloseAt(a, pos, depth) == CloseAt(b, pos, depth))
    && (forall pos: nat :: Cells(a, pos) == Cells(b, pos))
    && (forall pos: nat :: Fits(a, pos) == Fits(b, pos))
  }

  lemma SameImageCons(item: Item, a: seq<Item>, b: seq<Item>)
    requires SameImage(a, b)
    ensures SameImage([item] + a, [item] + b)
  {
    hide Cells, CloseAt, End, Fits;
    forall pos: nat, depth: nat ensures CloseAt([item] + a, pos, depth) == CloseAt([item] + b, pos, depth) {
      ConsImage(item, a, pos, depth);
      ConsImage(item, b, pos, depth);
    }
    forall pos: nat
      ensures End([item] + a, pos) == End([item] + b, pos)
              && Cells([item] + a, pos) == Cells([item] + b, pos)
              && Fits([item] + a, pos) == Fits([item] + b, pos)
    {
      ConsImage(item, a, pos, 0);
      ConsImage(item, b, pos, 0);
    }
  }

  /** One step of each meaning. */
  lemma ConsImage(item: Item, a: seq<Item>, pos: nat, depth: nat)
    ensures End([item] + a, pos) == End(a, After(item, pos))
    ensures Cells([item] + a, pos) == ItemCells(item, pos, a) + Cells(a, After(item, pos))
    ensures Fits([item] + a, pos) <==>
            (item.Open? ==> CloseAt(a, pos + item.width, 0) - (pos + item.width) < Capacity(item.width))
            && Fits(a, After(item, pos))
    ensures CloseAt([item] + a, pos, depth) ==
            if item.Close? && depth == 0 then pos
            else CloseAt(a, After(item, pos),
                         if item.Open? then depth + 1 else if item.Close? then depth - 1 else depth)
  {
    hide ItemCells;
    assert ([item] + a)[1..] == a;
  }

  lemma {:induction false} SameImageConcat(front: seq<Item>, a: seq<Item>, b: seq<Item>)
    requires SameImage(a, b)
    ensures SameImage(front + a, front + b)
  {
    if front == [] {
      assert front + a == a && front + b == b;
    } else {
      SameImageConcat(front[1..], a, b);
      SameImageCons(front[0], front[1..] + a, front[1..] + b);
      assert [front[0]] + (front[1..] + a) == front + a && [front[0]] + (front[1..] + b) == front + b;
    }
  }

  lemma {:induction false} EndAfterOctets(data: seq<Byte>, rest: seq<Item>, pos: nat)
    ensures End(Octets(data) + rest, pos) == End(rest, pos + |data|)
    decreases |data|
  {
    if data == [] {
      assert Octets(data) + rest == rest;
    } else {
      assert (Octets(data) + rest)[1..] == Octets(data[1..]) + rest;
      EndAfterOctets(data[1..], rest, pos + 1);
    }
  }

  lemma {:induction false} CloseAfterOctets(data: seq<Byte>, rest: seq<Item>, pos: nat, depth: nat)
    ensures CloseAt(Octets(data) + rest, pos, depth) == CloseAt(rest, pos + |data|, depth)
    decreases |data|
  {
    if data == [] {
      assert Octets(data) + rest == rest;
    } else {
      assert (Octets(data) + rest)[1..] == Octets(data[1..]) + rest;
      CloseAfterOctets(data[1..], rest, pos + 1, depth);
    }
  }

  lemma {:induction false} CellsAfterOctets(data: seq<Byte>, rest: seq<Item>, pos: nat)
    ensures Cells(Octets(data) + rest, pos) == FixedCells(data) + Cells(rest, pos + |data|)
    decreases |data|
  {
    hide LittleEndian, CloseAt, Cells, Octets, FixedCells, End, Fits;
    OctetsStep(data, rest);
    if data != [] {
      ConsImage(Octet(data[0]), Octets(data[1..]) + rest, pos, 0);
      CellsAfterOctets(data[1..], rest, pos + 1);
      Associate([Fixed(data[0])], FixedCells(data[1..]), Cells(rest, pos + |data|));
    } else {
      NoFixedCells(Cells(rest, pos));
    }
  }

  lemma OctetsStep(data: seq<Byte>, rest: seq<Item>)
    ensures Octets(data) + rest == if data == [] then rest else [Octet(data[0])] + (Octets(data[1..]) + rest)
  {
  }

  lemma NoFixedCells(rest: seq<Cell>)
    ensures FixedCells([]) + rest == rest
  {
  }

  lemma {:induction false} FitsAfterOctets(data: seq<Byte>, rest: seq<Item>, pos: nat)
    ensures Fits(Octets(data) + rest, pos) == Fits(rest, pos + |data|)
    decreases |data|
  {
    if data == [] {
      assert Octets(data) + rest == rest;
    } else {
      assert (Octets(data) + rest)[1..] == Octets(data[1..]) + rest;
      FitsAfterOctets(data[1..], rest, pos + 1);
    }
  }

  lemma {:induction false} OctetsConcat(a: seq<Byte>, b: seq<Byte>)
    ensures Octets(a + b) == Octets(a) + Octets(b)
  {
    if a == [] {
      assert a + b == b;
    } else {
      OctetsConcat(a[1..], b);
      assert (a + b)[0] == a[0] && (a + b)[1..] == a[1..] + b;
      Associate([Octet(a[0])], Octets(a[1..]), Octets(b));
    }
  }

  /** Writing the text of a run in place of the run changes nothing. */
  lemma DroppedRun(compressed: seq<Byte>, text: seq<Byte>, rest: seq<Item>)
    ensures SameImage([Run(compressed, text)] + rest, [Align] + (Octets(text) + rest))
  {
    hide Cells, CloseAt, End, Fits, FixedCells, Octets;
    var kept, dropped := [Run(compressed, text)] + rest, [Align] + (Octets(text) + rest);
    forall pos: nat, depth: nat ensures CloseAt(kept, pos, depth) == CloseAt(dropped, pos, depth) {
      ConsImage(Run(compressed, text), rest, pos, depth);
      ConsImage(Align, Octets(text) + rest, pos, depth);
      CloseAfterOctets(text, rest, pos + pos % 2, depth);
    }
    forall pos: nat
      ensures End(kept, pos) == End(dropped, pos)
              && Cells(kept, pos) == Cells(dropped, pos)
              && Fits(kept, pos) == Fits(dropped, pos)
    {
      FitsAfterOctets(text, rest, pos + pos % 2);
      ConsImage(Run(compressed, text), rest, pos, 0);
      ConsImage(Align, Octets(text) + rest, pos, 0);
      EndAfterOctets(text, rest, pos + pos % 2);
      CellsAfterOctets(text, rest, pos + pos % 2);
      Associate(if pos % 2 == 1 then [Padding] else [], FixedCells(text), Cells(rest, pos + pos % 2 + |text|));
    }
  }
}
