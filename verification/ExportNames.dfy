/** Names for the exports of a DLL, which its export table gives by address only, and their places in
    the string table. */
module ExportNames {
  import opened Bytes

  /** An entry of the dynamic symbol table; `defined` if it is an object or a function. */
  datatype DynSym = DynSym(defined: bool, value: Word, name: seq<Byte>)

  /** A name and its offset in the string table. */
  datatype Place = Place(name: seq<Byte>, offset: nat)

  function Align4(n: nat): (r: nat)
    ensures r % 4 == 0 && n <= r < n + 4
  {
    (n + 3) / 4 * 4
  }

  /** The places so far, the size of the string table, the last offset in words and how many there are. */
  datatype Places = Places(of: seq<Option<Place>>, size: nat, last: nat, count: nat)

  function NoPlaces(n: nat): Places {
    Places(seq(n, _ => None), 0, 0, 0)
  }

  /** The first export with an address that has no name yet. */
  function FirstUnnamed(values: seq<Word>, places: seq<Option<Place>>, value: Word, from: nat): (i: nat)
    requires |places| == |values| && from <= |values|
    ensures from <= i <= |values|
    ensures i < |values| ==> places[i] == None && values[i] == value
    ensures forall k :: from <= k < i ==> places[k] != None || values[k] != value
    decreases |values| - from
  {
    if from == |values| || (places[from] == None && values[from] == value) then from
    else FirstUnnamed(values, places, value, from + 1)
  }

  function WithName(values: seq<Word>, p: Places, d: DynSym): (r: Places)
    requires |p.of| == |values|
    ensures |r.of| == |values|
  {
    var i := FirstUnnamed(values, p.of, d.value, 0);
    if !d.defined || i == |values| then p
    else Places(p.of[i := Some(Place(d.name, p.size))], Align4(p.size + |d.name| + 1), p.size / 4, p.count + 1)
  }

  /** The places after a dynamic symbol table. */
  function PlacesOf(values: seq<Word>, table: seq<DynSym>): (r: Places)
    ensures |r.of| == |values|
  {
    if table == [] then NoPlaces(|values|)
    else WithName(values, PlacesOf(values, table[..|table| - 1]), table[|table| - 1])
  }

  lemma PlacesNext(values: seq<Word>, table: seq<DynSym>, i: nat)
    requires i < |table|
    ensures PlacesOf(values, table[..i + 1]) == WithName(values, PlacesOf(values, table[..i]), table[i])
  {
    assert table[..i + 1][..i] == table[..i];
  }

  // What the places are

  /** A name of a symbol with the address of the export, within the table and at a whole word. */
  ghost predicate Suits(values: seq<Word>, table: seq<DynSym>, p: Places, i: nat)
    requires |p.of| == |values|
  {
    i < |values| && p.of[i].Some? ==>
      && p.of[i].value.offset % 4 == 0 && p.of[i].value.offset + |p.of[i].value.name| + 1 <= p.size
      && p.of[i].value.offset / 4 <= p.last
      && exists k :: 0 <= k < |table| && table[k].defined && table[k].value == values[i] && table[k].name == p.of[i].value.name
  }

  predicate Apart(a: Place, b: Place) {
    a.offset + |a.name| + 1 <= b.offset || b.offset + |b.name| + 1 <= a.offset
  }

  ghost predicate AllApart(p: Places) {
    forall i, j :: 0 <= i < j < |p.of| && p.of[i].Some? && p.of[j].Some? ==> Apart(p.of[i].value, p.of[j].value)
  }

  /** No two names overlap, and the last offset is the largest. */
  lemma {:induction false} PlacesAreApart(values: seq<Word>, table: seq<DynSym>)
    ensures var p := PlacesOf(values, table);
            p.size % 4 == 0 && AllApart(p) && forall i :: 0 <= i < |values| ==> Suits(values, table, p, i)
  {
    if table != [] {
      var n := |table| - 1;
      PlacesAreApart(values, table[..n]);
      var p, p', d := PlacesOf(values, table[..n]), PlacesOf(values, table), table[n];
      var at := FirstUnnamed(values, p.of, d.value, 0);
      forall i | 0 <= i < |values| ensures Suits(values, table, p', i) {
        assert Suits(values, table[..n], p, i);
        if p.of[i].Some? && i != at {
          var k :| 0 <= k < n && table[k].defined && table[k].value == values[i] && table[k].name == p.of[i].value.name;
        }
      }
      forall i, j | 0 <= i < j < |p'.of| && p'.of[i].Some? && p'.of[j].Some? ensures Apart(p'.of[i].value, p'.of[j].value) {
        assert Suits(values, table[..n], p, i) && Suits(values, table[..n], p, j);
      }
    }
  }

  /** How many of the exports with an address have a name, or have none. */
  function Having(values: seq<Word>, places: seq<Option<Place>>, value: Word, named: bool): nat
    requires |places| == |values|
  {
    if values == [] then 0
    else
      var n := |values| - 1;
      Having(values[..n], places[..n], value, named) + if values[n] == value && places[n].Some? == named then 1 else 0
  }

  /** How many symbols there are with an address. */
  function Defining(table: seq<DynSym>, value: Word): nat {
    if table == [] then 0
    else Defining(table[..|table| - 1], value) + if table[|table| - 1].defined && table[|table| - 1].value == value then 1 else 0
  }

  lemma {:induction false} HavingNext(values: seq<Word>, places: seq<Option<Place>>, i: nat, place: Place, value: Word, named: bool)
    requires |places| == |values| && i < |values| && places[i] == None
    ensures Having(values, places[i := Some(place)], value, named) ==
            Having(values, places, value, named) + if values[i] != value then 0 else if named then 1 else -1
  {
    var n := |values| - 1;
    var places' := places[i := Some(place)];
    if i < n {
      HavingNext(values[..n], places[..n], i, place, value, named);
      assert places'[..n] == places[..n][i := Some(place)];
    } else {
      assert places'[..n] == places[..n];
    }
  }

  lemma {:induction false} NoneHaving(values: seq<Word>, places: seq<Option<Place>>, value: Word)
    requires |places| == |values| && forall k :: 0 <= k < |values| ==> places[k] != None || values[k] != value
    ensures Having(values, places, value, false) == 0
  {
    if values != [] {
      NoneHaving(values[..|values| - 1], places[..|values| - 1], value);
    }
  }

  lemma {:induction false} SomeHaving(values: seq<Word>, places: seq<Option<Place>>, i: nat, named: bool)
    requires |places| == |values| && i < |values| && places[i].Some? == named
    ensures Having(values, places, values[i], named) > 0
  {
    var n := |values| - 1;
    if i < n {
      SomeHaving(values[..n], places[..n], i, named);
    }
  }

  lemma {:induction false} HavingNames(values: seq<Word>, table: seq<DynSym>, value: Word)
    ensures var of := PlacesOf(values, table).of;
            && Having(values, of, value, true) <= Defining(table, value)
            && (Having(values, of, value, false) > 0 ==> Having(values, of, value, true) == Defining(table, value))
  {
    if table == [] {
      NothingNamed(values, NoPlaces(|values|).of, value);
    } else {
      hide Having;
      var n := |table| - 1;
      HavingNames(values, table[..n], value);
      var p, d := PlacesOf(values, table[..n]), table[n];
      var i := FirstUnnamed(values, p.of, d.value, 0);
      if d.defined && i < |values| {
        HavingNext(values, p.of, i, Place(d.name, p.size), value, true);
        HavingNext(values, p.of, i, Place(d.name, p.size), value, false);
      } else if d.defined {
        NoneHaving(values, p.of, d.value);
      }
    }
  }

  lemma {:induction false} NothingNamed(values: seq<Word>, places: seq<Option<Place>>, value: Word)
    requires |places| == |values| && forall k :: 0 <= k < |places| ==> places[k] == None
    ensures Having(values, places, value, true) == 0
  {
    if values != [] {
      NothingNamed(values[..|values| - 1], places[..|values| - 1], value);
    }
  }

  function Occurrences(values: seq<Word>, value: Word): nat {
    if values == [] then 0
    else Occurrences(values[..|values| - 1], value) + if values[|values| - 1] == value then 1 else 0
  }

  lemma {:induction false} HavingAll(values: seq<Word>, places: seq<Option<Place>>, value: Word)
    requires |places| == |values|
    ensures Having(values, places, value, true) + Having(values, places, value, false) == Occurrences(values, value)
  {
    if values != [] {
      HavingAll(values[..|values| - 1], places[..|values| - 1], value);
    }
  }

  ghost predicate AllNamed(p: Places) {
    forall i :: 0 <= i < |p.of| ==> p.of[i].Some?
  }

  /** There are enough symbols for the exports of every address. */
  ghost predicate Enough(values: seq<Word>, table: seq<DynSym>) {
    forall i :: 0 <= i < |values| ==> Occurrences(values, values[i]) <= Defining(table, values[i])
  }

  /** Every export is named exactly if no address is exported more often than it is defined. */
  lemma AllNamedExactlyIf(values: seq<Word>, table: seq<DynSym>)
    ensures AllNamed(PlacesOf(values, table)) <==> Enough(values, table)
  {
    hide Having, Occurrences, PlacesOf, Defining;
    var of := PlacesOf(values, table).of;
    forall i | 0 <= i < |values|
      ensures AllNamed(PlacesOf(values, table)) ==> Occurrences(values, values[i]) <= Defining(table, values[i])
      ensures Occurrences(values, values[i]) <= Defining(table, values[i]) ==> of[i].Some?
    {
      HavingAll(values, of, values[i]);
      HavingNames(values, table, values[i]);
      if AllNamed(PlacesOf(values, table)) {
        NoneHaving(values, of, values[i]);
      } else if of[i] == None {
        SomeHaving(values, of, i, false);
      }
    }
  }

  function SomeCount(places: seq<Option<Place>>): (n: nat)
    ensures n <= |places|
    ensures n == |places| <==> forall i :: 0 <= i < |places| ==> places[i].Some?
  {
    if places == [] then 0
    else SomeCount(places[..|places| - 1]) + if places[|places| - 1].Some? then 1 else 0
  }

  lemma {:induction false} SomeCountNext(places: seq<Option<Place>>, i: nat, place: Place)
    requires i < |places| && places[i] == None
    ensures SomeCount(places[i := Some(place)]) == SomeCount(places) + 1
  {
    var n := |places| - 1;
    var places' := places[i := Some(place)];
    if i < n {
      SomeCountNext(places[..n], i, place);
      assert places'[..n] == places[..n][i := Some(place)];
    } else {
      assert places'[..n] == places[..n];
    }
  }

  lemma {:induction false} NothingCounted(places: seq<Option<Place>>)
    requires forall k :: 0 <= k < |places| ==> places[k] == None
    ensures SomeCount(places) == 0
  {
    if places != [] {
      NothingCounted(places[..|places| - 1]);
    }
  }

  /** The count of names is that of the exports exactly if all are named, and every name takes a word. */
  lemma {:induction false} PlacesAreCounted(values: seq<Word>, table: seq<DynSym>)
    ensures var p := PlacesOf(values, table);
            && p.count == SomeCount(p.of) && 4 * p.count <= p.size
            && (p.count > 0 ==> p.count - 1 <= p.last && 4 * p.last < p.size) && (p.count == 0 ==> p.last == 0)
  {
    hide SomeCount;
    if table == [] {
      NothingCounted(NoPlaces(|values|).of);
    } else {
      var n := |table| - 1;
      PlacesAreCounted(values, table[..n]);
      PlacesAreApart(values, table[..n]);
      var p, d := PlacesOf(values, table[..n]), table[n];
      var i := FirstUnnamed(values, p.of, d.value, 0);
      if d.defined && i < |values| {
        SomeCountNext(p.of, i, Place(d.name, p.size));
      }
    }
  }
  /** The octets that names take, each with its zero and filled up to a whole word. */
  function NamesSize(places: seq<Option<Place>>): nat {
    if places == [] then 0
    else
      NamesSize(places[..|places| - 1])
      + match places[|places| - 1]
        case None => 0
        case Some(place) => (|place.name| + 4) / 4 * 4
  }

  lemma {:induction false} NamesSizeNext(places: seq<Option<Place>>, i: nat, place: Place)
    requires i < |places| && places[i] == None
    ensures NamesSize(places[i := Some(place)]) == NamesSize(places) + (|place.name| + 4) / 4 * 4
  {
    var n := |places| - 1;
    var places' := places[i := Some(place)];
    if i < n {
      NamesSizeNext(places[..n], i, place);
      assert places'[..n] == places[..n][i := Some(place)];
    } else {
      assert places'[..n] == places[..n];
    }
  }

  lemma {:induction false} NoNamesSize(places: seq<Option<Place>>)
    requires forall k :: 0 <= k < |places| ==> places[k] == None
    ensures NamesSize(places) == 0
  {
    if places != [] {
      NoNamesSize(places[..|places| - 1]);
    }
  }

  /** The string table is no larger than its names need. */
  lemma {:induction false} TableIsFilled(values: seq<Word>, table: seq<DynSym>)
    ensures PlacesOf(values, table).size == NamesSize(PlacesOf(values, table).of)
  {
    hide NamesSize;
    if table == [] {
      NoNamesSize(NoPlaces(|values|).of);
    } else {
      var n := |table| - 1;
      TableIsFilled(values, table[..n]);
      PlacesAreApart(values, table[..n]);
      var p, d := PlacesOf(values, table[..n]), table[n];
      var i := FirstUnnamed(values, p.of, d.value, 0);
      if d.defined && i < |values| {
        NamesSizeNext(p.of, i, Place(d.name, p.size));
        NextPlace(p.size, |d.name|);
      }
    }
  }

  lemma NextPlace(size: nat, length: nat)
    requires size % 4 == 0
    ensures Align4(size + length + 1) == size + (length + 4) / 4 * 4
  {
  }
}
