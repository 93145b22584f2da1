/** Sorting the exported symbols of a DLL by name: a merge sort over an array of links, and the list
    linked again in that order. */
module ExportSorting {
  import opened Bytes

  /** The order of `strcmp` on strings without their terminators. */
  predicate Less(a: seq<Byte>, b: seq<Byte>) {
    b != [] && (a == [] || a[0] < b[0] || (a[0] == b[0] && Less(a[1..], b[1..])))
  }

  /** `a` stands before `b` as octets: where they first differ it has the lower octet, or it ends there. */
  ghost predicate StandsBefore(a: seq<Byte>, b: seq<Byte>) {
    exists k :: 0 <= k <= |a| && k < |b| && a[..k] == b[..k] && (k == |a| || a[k] < b[k])
  }

  lemma {:induction false} LessExactlyIf(a: seq<Byte>, b: seq<Byte>)
    ensures Less(a, b) <==> StandsBefore(a, b)
  {
    if a == [] || b == [] || a[0] != b[0] {
      assert b != [] && (a == [] || a[0] < b[0]) ==> a[..0] == b[..0];
    } else {
      LessExactlyIf(a[1..], b[1..]);
      if Less(a[1..], b[1..]) {
        var k :| 0 <= k <= |a[1..]| && k < |b[1..]| && a[1..][..k] == b[1..][..k] && (k == |a[1..]| || a[1..][k] < b[1..][k]);
        assert a[..k + 1] == [a[0]] + a[1..][..k] && b[..k + 1] == [b[0]] + b[1..][..k];
      }
      if StandsBefore(a, b) {
        var k :| 0 <= k <= |a| && k < |b| && a[..k] == b[..k] && (k == |a| || a[k] < b[k]);
        assert a[1..][..k - 1] == a[..k][1..] && b[1..][..k - 1] == b[..k][1..];
      }
    }
  }

  lemma {:induction false} LessIsTotal(a: seq<Byte>, b: seq<Byte>)
    ensures !(Less(a, b) && Less(b, a))
    ensures !Less(a, b) && !Less(b, a) ==> a == b
  {
    if a != [] && b != [] && a[0] == b[0] {
      LessIsTotal(a[1..], b[1..]);
      assert [a[0]] + a[1..] == a && [b[0]] + b[1..] == b;
    }
  }

  lemma {:induction false} NotLessIsTransitive(a: seq<Byte>, b: seq<Byte>, c: seq<Byte>)
    requires !Less(b, a) && !Less(c, b)
    ensures !Less(c, a)
  {
    if a != [] && b != [] && c != [] && a[0] == b[0] == c[0] {
      NotLessIsTransitive(a[1..], b[1..], c[1..]);
    }
  }

  class NamedExportSymbol {
    var name: Option<seq<Byte>>
    var nameOffset: nat
    const value: Word
    var next: NamedExportSymbol?

    constructor (value: Word)
      ensures name == None && next == null && this.value == value && nameOffset == 0
    {
      this.value, name, next, nameOffset := value, None, null, 0;
    }
  }

  type Symbols = seq<NamedExportSymbol>

  predicate Distinct(symbols: Symbols) {
    forall i, j :: 0 <= i < j < |symbols| ==> symbols[i] != symbols[j]
  }

  /** `symbols` are all the links from `head` on. */
  ghost predicate Linked(head: NamedExportSymbol?, symbols: Symbols)
    reads symbols
  {
    && Distinct(symbols)
    && head == (if symbols == [] then null else symbols[0])
    && forall i :: 0 <= i < |symbols| ==> LeadsOn(symbols, i)
  }

  ghost predicate LeadsOn(symbols: Symbols, i: nat)
    requires i < |symbols|
    reads symbols[i]
  {
    symbols[i].next == if i + 1 < |symbols| then symbols[i + 1] else null
  }

  /** A symbol with its name and the offset of that. */
  datatype Entry = Entry(symbol: NamedExportSymbol, name: seq<Byte>, offset: nat)

  ghost predicate Are(symbols: Symbols, entries: seq<Entry>)
    reads symbols
  {
    && |symbols| == |entries|
    && forall i :: 0 <= i < |symbols| ==> IsAt(symbols[i], entries, i)
  }

  /** The entries ascend by name. */
  ghost predicate Sorted(entries: seq<Entry>) {
    forall i, j :: 0 <= i < j < |entries| ==> !StandsBefore(entries[j].name, entries[i].name)
  }

  // Merging

  /** Two lists merged; of equal names, that of the second list comes first. */
  ghost function Merged(a: seq<Entry>, b: seq<Entry>): (r: seq<Entry>)
    ensures |r| == |a| + |b|
    decreases |a| + |b|
  {
    if a == [] then b
    else if b == [] then a
    else if Less(a[0].name, b[0].name) then [a[0]] + Merged(a[1..], b)
    else [b[0]] + Merged(a, b[1..])
  }

  lemma {:induction false} MergedKeeps(a: seq<Entry>, b: seq<Entry>)
    ensures multiset(Merged(a, b)) == multiset(a) + multiset(b)
    decreases |a| + |b|
  {
    if a != [] && b != [] {
      assert a == [a[0]] + a[1..] && b == [b[0]] + b[1..];
      if Less(a[0].name, b[0].name) {
        MergedKeeps(a[1..], b);
      } else {
        MergedKeeps(a, b[1..]);
      }
    }
  }

  /** Of equal names, the one from the second list comes first. */
  lemma EqualNamesSwap(a: seq<Entry>, b: seq<Entry>)
    requires a != [] && b != [] && a[0].name == b[0].name
    ensures Merged(a, b) == [b[0]] + Merged(a, b[1..])
  {
    LessIsTotal(a[0].name, b[0].name);
  }

  ghost predicate NoneBefore(entries: seq<Entry>, name: seq<Byte>) {
    forall i :: 0 <= i < |entries| ==> !Less(entries[i].name, name)
  }

  lemma {:induction false} MergedNoneBefore(a: seq<Entry>, b: seq<Entry>, name: seq<Byte>)
    requires NoneBefore(a, name) && NoneBefore(b, name)
    ensures NoneBefore(Merged(a, b), name)
    decreases |a| + |b|
  {
    if a != [] && b != [] {
      if Less(a[0].name, b[0].name) {
        MergedNoneBefore(a[1..], b, name);
      } else {
        MergedNoneBefore(a, b[1..], name);
      }
    }
  }

  lemma SortedCons(first: Entry, rest: seq<Entry>)
    ensures Sorted([first] + rest) <==> Sorted(rest) && NoneBefore(rest, first.name)
  {
    hide Less, StandsBefore;
    var all := [first] + rest;
    forall i | 0 <= i < |rest| ensures Less(rest[i].name, first.name) <==> StandsBefore(rest[i].name, first.name) {
      LessExactlyIf(rest[i].name, first.name);
    }
    if Sorted(all) {
      forall i, j | 0 <= i < j < |rest| ensures !StandsBefore(rest[j].name, rest[i].name) {
        assert rest[i] == all[i + 1] && rest[j] == all[j + 1];
      }
      forall i | 0 <= i < |rest| ensures !StandsBefore(rest[i].name, first.name) {
        assert rest[i] == all[i + 1] && first == all[0];
      }
    }
  }

  lemma FirstOfSorted(entries: seq<Entry>, name: seq<Byte>)
    requires Sorted(entries) && entries != [] && !Less(entries[0].name, name)
    ensures NoneBefore(entries, name)
  {
    hide Less, StandsBefore;
    forall i | 0 <= i < |entries| ensures !Less(entries[i].name, name) {
      if i > 0 {
        LessExactlyIf(entries[i].name, entries[0].name);
        NotLessIsTransitive(name, entries[0].name, entries[i].name);
      }
    }
  }

  lemma {:induction false} MergedIsSorted(a: seq<Entry>, b: seq<Entry>)
    requires Sorted(a) && Sorted(b)
    ensures Sorted(Merged(a, b))
    decreases |a| + |b|
  {
    hide NoneBefore, Less, Sorted;
    if a != [] && b != [] {
      var x, y := a[0].name, b[0].name;
      LessIsTotal(x, y);
      assert [a[0]] + a[1..] == a && [b[0]] + b[1..] == b;
      SortedCons(a[0], a[1..]);
      SortedCons(b[0], b[1..]);
      if Less(x, y) {
        MergedIsSorted(a[1..], b);
        FirstOfSorted(b, x);
        MergedNoneBefore(a[1..], b, x);
        SortedCons(a[0], Merged(a[1..], b));
      } else {
        MergedIsSorted(a, b[1..]);
        FirstOfSorted(a, y);
        MergedNoneBefore(a, b[1..], y);
        SortedCons(b[0], Merged(a, b[1..]));
      }
    }
  }

  lemma MergedStep(a: seq<Entry>, b: seq<Entry>)
    ensures a != [] && (b == [] || Less(a[0].name, b[0].name)) ==> Merged(a, b) == [a[0]] + Merged(a[1..], b)
    ensures !(a != [] && (b == [] || Less(a[0].name, b[0].name))) && b != [] ==> Merged(a, b) == [b[0]] + Merged(a, b[1..])
  {
    hide Less;
    if a != [] && b == [] {
      assert a == [a[0]] + a[1..];
    }
    if a == [] && b != [] {
      assert b == [b[0]] + b[1..];
    }
  }

  /** Merges two adjacent parts of `src` into `dst`. */
  method MergeInto(dst: array<NamedExportSymbol>, src: array<NamedExportSymbol>, left: nat, center: nat, right: nat,
                   ghost entries: seq<Entry>)
    requires left <= center <= right <= src.Length == dst.Length && dst != src && Are(src[..], entries)
    modifies dst
    ensures Are(dst[..right - left], Merged(entries[left..center], entries[center..right]))
  {
    hide Less, Merged, Are;
    AreOnly(src[..], entries);
    ghost var merged := Merged(entries[left..center], entries[center..right]);
    var l, r := left, center;
    for count := 0 to right - left
      invariant left <= l <= center <= r <= right && count == l - left + (r - center)
      invariant forall k :: 0 <= k < src.Length ==> IsAt(src[k], entries, k)
      invariant forall k :: 0 <= k < count ==> IsAt(dst[k], merged, k)
      invariant Merged(entries[l..center], entries[r..right]) == merged[count..]
    {
      ghost var x, y := entries[l..center], entries[r..right];
      MergedStep(x, y);
      assert l < center ==> IsAt(src[l], entries, l);
      assert r < right ==> IsAt(src[r], entries, r);
      if l < center && (r == right || Less(src[l].name.value, src[r].name.value)) {
        dst[count] := src[l];
        l := l + 1;
        assert x[1..] == entries[l..center];
      } else {
        dst[count] := src[r];
        r := r + 1;
        assert y[1..] == entries[r..right];
      }
      assert merged[count..][1..] == merged[count + 1..] && merged[count..][0] == merged[count];
    }
    AllAre(dst[..right - left], merged);
  }

  ghost predicate IsAt(symbol: NamedExportSymbol, entries: seq<Entry>, k: nat)
    reads symbol
  {
    k < |entries| && symbol == entries[k].symbol && symbol.name == Some(entries[k].name) && symbol.nameOffset == entries[k].offset
  }

  lemma AreOnly(symbols: Symbols, entries: seq<Entry>)
    requires Are(symbols, entries)
    ensures |symbols| == |entries| && forall k :: 0 <= k < |symbols| ==> IsAt(symbols[k], entries, k)
  {
  }

  lemma AllAre(symbols: Symbols, entries: seq<Entry>)
    requires |symbols| == |entries| && forall k :: 0 <= k < |symbols| ==> IsAt(symbols[k], entries, k)
    ensures Are(symbols, entries)
  {
    assert forall k :: 0 <= k < |symbols| ==> IsAt(symbols[k], entries, k);
  }

  /** A sort of a part of the entries: an ordered rearrangement, and the rest as it was. */
  ghost predicate PartSorted(before: seq<Entry>, after: seq<Entry>, left: nat, right: nat) {
    && left <= right <= |before| == |after|
    && Sorted(after[left..right]) && multiset(after[left..right]) == multiset(before[left..right])
    && after[..left] == before[..left] && after[right..] == before[right..]
  }

  /** Sorts a part of `src`; `dst` is scratch space that all levels share. */
  method MergeSort(dst: array<NamedExportSymbol>, src: array<NamedExportSymbol>, left: nat, right: nat, ghost entries: seq<Entry>)
    returns (ghost sorted: seq<Entry>)
    requires left <= right <= src.Length == dst.Length && dst != src && Are(src[..], entries)
    modifies dst, src
    ensures Are(src[..], sorted) && PartSorted(entries, sorted, left, right)
    ensures right - left > 1 ==> Are(dst[..right - left], sorted[left..right])
    decreases right - left
  {
    hide Less, Are, Merged, Sorted, IsAt;
    AreOnly(src[..], entries);
    sorted := entries;
    if right - left <= 1 {
      OneIsSorted(entries[left..right]);
      return;
    }
    var size := right - left;
    var center := left + size / 2;
    ghost var first := MergeSort(dst, src, left, center, entries);
    ghost var second := MergeSort(dst, src, center, right, first);
    MergeInto(dst, src, left, center, right, second);
    sorted := second[..left] + Merged(second[left..center], second[center..right]) + second[right..];
    HalvesSorted(entries, first, second, sorted, left, center, right);
    PutBack(dst, src, left, right, second, Merged(second[left..center], second[center..right]));
    assert sorted[left..right] == Merged(second[left..center], second[center..right]);
  }

  lemma OneIsSorted(entries: seq<Entry>)
    requires |entries| <= 1
    ensures Sorted(entries)
  {
  }

  method PutBack(dst: array<NamedExportSymbol>, src: array<NamedExportSymbol>, left: nat, right: nat,
                 ghost entries: seq<Entry>, ghost merged: seq<Entry>)
    requires left <= right <= src.Length == dst.Length && dst != src && Are(src[..], entries) && |entries| == src.Length
    requires Are(dst[..right - left], merged) && |merged| == right - left
    modifies src
    ensures Are(src[..], entries[..left] + merged + entries[right..])
  {
    hide Are;
    AreOnly(src[..], entries);
    AreOnly(dst[..right - left], merged);
    ghost var after := entries[..left] + merged + entries[right..];
    ghost var part := dst[..right - left];
    forall k | 0 <= k < right - left {
      src[left + k] := dst[k];
    }
    forall k | 0 <= k < src.Length ensures IsAt(src[k], after, k) {
      if left <= k < right {
        assert IsAt(part[k - left], merged, k - left);
      }
    }
    AllAre(src[..], after);
  }

  lemma HalvesSorted(entries: seq<Entry>, first: seq<Entry>, second: seq<Entry>, sorted: seq<Entry>, left: nat, center: nat, right: nat)
    requires left <= center <= right && PartSorted(entries, first, left, center) && PartSorted(first, second, center, right)
    requires sorted == second[..left] + Merged(second[left..center], second[center..right]) + second[right..]
    ensures PartSorted(entries, sorted, left, right)
  {
    hide Sorted, Merged;
    assert second[left..center] == first[left..center] by {
      assert second[..center][left..] == first[..center][left..];
    }
    assert first[center..right] == entries[center..right] by {
      assert first[center..][..right - center] == entries[center..][..right - center];
    }
    MergedIsSorted(second[left..center], second[center..right]);
    MergedKeeps(second[left..center], second[center..right]);
    assert entries[left..right] == entries[left..center] + entries[center..right];
    assert sorted[left..right] == Merged(second[left..center], second[center..right]);
    assert second[..left] == entries[..left] by {
      assert second[..center][..left] == first[..center][..left];
    }
    assert second[right..] == entries[right..] by {
      assert first[center..][right - center..] == entries[center..][right - center..];
    }
  }

  function Listed(entries: seq<Entry>): (r: Symbols)
    ensures |r| == |entries|
    ensures forall i :: 0 <= i < |entries| ==> r[i] == entries[i].symbol
  {
    Map((e: Entry) => e.symbol, entries)
  }

  ghost function Footprint(entries: seq<Entry>): set<NamedExportSymbol> {
    set entry | entry in entries :: entry.symbol
  }

  /** Copies the list to an array, sorts that, and links the symbols again in the new order. */
  method Sort(head: NamedExportSymbol, count: nat, ghost entries: seq<Entry>)
    returns (newHead: NamedExportSymbol, ghost sorted: seq<Entry>)
    requires count > 1 && |entries| == count && Linked(head, Listed(entries)) && Are(Listed(entries), entries)
    modifies Footprint(entries)
    ensures Sorted(sorted) && multiset(sorted) == multiset(entries)
    ensures Linked(newHead, Listed(sorted)) && Are(Listed(sorted), sorted)
  {
    hide Less, Sorted, Are, Linked, IsAt, PartSorted, Distinct;
    LinkedOnce(head, Listed(entries));
    var symbols := ToArray(head, count, Listed(entries));
    assert symbols[..] == Listed(entries);
    var result := new NamedExportSymbol[count](_ => head);
    sorted := MergeSort(result, symbols, 0, count, entries);
    WholeSorted(entries, sorted, count);
    assert result[..count] == result[..];
    AreListed(result[..], sorted);
    Rearranged(entries, sorted);
    newHead := result[0];
    Relink(result, sorted);
  }

  method ToArray(head: NamedExportSymbol, count: nat, ghost symbols: Symbols) returns (r: array<NamedExportSymbol>)
    requires count > 0 && |symbols| == count && Linked(head, symbols)
    ensures fresh(r) && r[..] == symbols
  {
    r := new NamedExportSymbol[count](_ => head);
    var symbol: NamedExportSymbol? := head;
    for pos := 0 to count
      invariant Linked(head, symbols) && symbol == if pos < count then symbols[pos] else null
      invariant forall k :: 0 <= k < pos ==> r[k] == symbols[k]
    {
      NextOf(head, symbols, pos);
      r[pos] := symbol;
      symbol := symbol.next;
    }
  }

  method Relink(result: array<NamedExportSymbol>, ghost sorted: seq<Entry>)
    requires result.Length > 0 && result[..] == Listed(sorted) && Are(Listed(sorted), sorted) && Distinct(Listed(sorted))
    modifies Footprint(sorted)
    ensures Linked(result[0], Listed(sorted)) && Are(Listed(sorted), sorted)
  {
    hide Listed;
    var count := result.Length;
    ghost var symbols := Listed(sorted);
    for pos := 0 to count
      invariant forall k :: 0 <= k < pos ==> LeadsOn(symbols, k)
      invariant forall k :: 0 <= k < count ==> IsAt(symbols[k], sorted, k)
    {
      assert result[pos] == symbols[pos];
      if pos == count - 1 {
        result[pos].next := null;
      } else {
        assert result[pos + 1] == symbols[pos + 1];
        result[pos].next := result[pos + 1];
      }
    }
  }

  lemma WholeSorted(entries: seq<Entry>, sorted: seq<Entry>, count: nat)
    requires |entries| == count && PartSorted(entries, sorted, 0, count)
    ensures |sorted| == count && sorted[0..count] == sorted && Sorted(sorted) && multiset(sorted) == multiset(entries)
  {
    assert sorted[0..count] == sorted && entries[0..count] == entries;
  }

  lemma AreListed(symbols: Symbols, entries: seq<Entry>)
    requires Are(symbols, entries)
    ensures symbols == Listed(entries)
  {
  }

  /** A rearrangement has the same symbols, and each once. */
  lemma Rearranged(entries: seq<Entry>, sorted: seq<Entry>)
    requires multiset(sorted) == multiset(entries) && Distinct(Listed(entries))
    ensures Distinct(Listed(sorted)) && Footprint(sorted) == Footprint(entries) && |sorted| == |entries|
  {
    hide Listed;
    assert |sorted| == |multiset(sorted)| == |multiset(entries)|;
    Contained(entries, sorted);
    Contained(sorted, entries);
    forall i, j | 0 <= i < j < |sorted| ensures sorted[i].symbol != sorted[j].symbol {
      if sorted[i].symbol == sorted[j].symbol {
        Twice(sorted, i, j);
        Once(entries, sorted[i]);
      }
    }
  }

  lemma Contained(entries: seq<Entry>, sorted: seq<Entry>)
    requires multiset(sorted) == multiset(entries)
    ensures forall i :: 0 <= i < |sorted| ==> sorted[i] in entries
    ensures Footprint(sorted) <= Footprint(entries)
  {
    forall i | 0 <= i < |sorted| ensures sorted[i] in entries {
      assert sorted[i] in multiset(sorted);
    }
  }

  lemma Twice<T>(s: seq<T>, i: nat, j: nat)
    requires i < j < |s| && s[i] == s[j]
    ensures multiset(s)[s[i]] >= 2
  {
    assert s == s[..i] + [s[i]] + s[i + 1..j] + [s[j]] + s[j + 1..];
  }

  lemma {:induction false} Once(entries: seq<Entry>, entry: Entry)
    requires Distinct(Listed(entries))
    ensures multiset(entries)[entry] <= 1
  {
    if entries != [] {
      var n := |entries| - 1;
      assert forall i :: 0 <= i < n ==> Listed(entries[..n])[i] == Listed(entries)[i];
      Once(entries[..n], entry);
      assert entries == entries[..n] + [entries[n]];
      assert entries[n] !in entries[..n];
    }
  }

  lemma NextOf(head: NamedExportSymbol?, symbols: Symbols, i: nat)
    requires Linked(head, symbols) && i < |symbols|
    ensures symbols[i].next == if i + 1 < |symbols| then symbols[i + 1] else null
  {
    assert LeadsOn(symbols, i);
  }

  lemma LinkedOnce(head: NamedExportSymbol?, symbols: Symbols)
    requires Linked(head, symbols)
    ensures Distinct(symbols)
  {
  }
}
