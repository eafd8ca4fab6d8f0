/** The analytical rows of a Case and the way back from one of them to the preserved
    occurrences it stands for. */
module CaseOccurrences {
  import opened Wrappers
  import opened JsonValues
  import opened Sequences
  import opened CaseRecords

  datatype Container = Container(stationId: Text, artifactId: Text, origin: Text, rows: seq<Row>)

  /** An exact reference, or the fields that identify a row without one. */
  datatype Key = Reference(ref: Text) | Fields(source: Text, id: RowId, content: Json)

  /** An analytical row; `eventRef` is empty when the row it came from has no reference. */
  datatype Event = Event(id: int, eventRef: Text)

  datatype Occurrence = Occurrence(itemIndex: nat, index: nat, item: Container, row: Row)

  function RecordKey(row: Row, item: Container): Key {
    if row.eventRef != [] then Reference(row.eventRef)
    else
      var source := if row.path != [] then row.path else if item.artifactId != [] then item.artifactId else item.origin;
      Fields(source, row.id, row.content)
  }

  function KeyOf(o: Occurrence): Key {
    RecordKey(o.row, o.item)
  }

  // ---- scanning order

  /** Every occurrence from row `j` of the item at `i` on, item by item, row by row. */
  function OccurrencesFrom(items: seq<Container>, i: nat, j: nat): seq<Occurrence>
    requires i <= |items| && (i < |items| ==> j <= |items[i].rows|)
    decreases |items| - i, if i < |items| then |items[i].rows| - j else 0
  {
    if i == |items| then []
    else if j == |items[i].rows| then OccurrencesFrom(items, i + 1, 0)
    else [Occurrence(i, j, items[i], items[i].rows[j])] + OccurrencesFrom(items, i, j + 1)
  }

  function Occurrences(items: seq<Container>): seq<Occurrence> {
    OccurrencesFrom(items, 0, 0)
  }

  /** Does the analysis of `station` look at the occurrence? (`None` looks at all.) */
  predicate InScope(o: Occurrence, station: Option<Text>) {
    (station.Some? ==> o.item.stationId == station.value) && o.row.id.Integer?
  }

  function Scoped(occurrences: seq<Occurrence>, station: Option<Text>): seq<Occurrence> {
    if occurrences == [] then []
    else (if InScope(occurrences[0], station) then [occurrences[0]] else []) + Scoped(occurrences[1..], station)
  }

  /** The occurrences whose key has not come before, given the keys already seen. */
  function Firsts(occurrences: seq<Occurrence>, seen: set<Key>): seq<Occurrence> {
    if occurrences == [] then []
    else if KeyOf(occurrences[0]) in seen then Firsts(occurrences[1..], seen)
    else [occurrences[0]] + Firsts(occurrences[1..], seen + {KeyOf(occurrences[0])})
  }

  /** The rows that the analysis shows, one for each key. */
  function Rows(items: seq<Container>, station: Option<Text>): seq<Occurrence> {
    Firsts(Scoped(Occurrences(items), station), {})
  }

  /** Rows as events, numbered in order. */
  function Numbered(rows: seq<Occurrence>): (r: seq<Event>)
    ensures |r| == |rows|
  {
    if rows == [] then []
    else Numbered(rows[..|rows| - 1]) + [Event(|rows| - 1, rows[|rows| - 1].row.eventRef)]
  }

  function Events(items: seq<Container>, station: Option<Text>): seq<Event> {
    Numbered(Rows(items, station))
  }

  lemma {:induction false} NumberedAt(rows: seq<Occurrence>, i: nat)
    requires i < |rows|
    ensures Numbered(rows)[i] == Event(i, rows[i].row.eventRef)
    decreases |rows|
  {
    if i < |rows| - 1 {
      NumberedAt(rows[..|rows| - 1], i);
    }
  }

  lemma NumberedNext(rows: seq<Occurrence>, o: Occurrence)
    ensures Numbered(rows + [o]) == Numbered(rows) + [Event(|rows|, o.row.eventRef)]
  {
    assert (rows + [o])[..|rows|] == rows;
  }

  function Matching(occurrences: seq<Occurrence>, wanted: Key): seq<Occurrence> {
    if occurrences == [] then []
    else (if KeyOf(occurrences[0]) == wanted then [occurrences[0]] else []) + Matching(occurrences[1..], wanted)
  }

  // ---- the loops

  method CaseEvents(items: seq<Container>, station: Option<Text>) returns (events: seq<Event>)
    ensures events == Events(items, station)
  {
    events := [];
    var seen: set<Key> := {};
    ghost var rows: seq<Occurrence> := [];
    for i := 0 to |items|
      invariant rows + Ahead(items, i, 0, station, seen) == Rows(items, station)
      invariant events == Numbered(rows)
    {
      if station.Some? && items[i].stationId != station.value {
        SkipItem(items, i, 0, station, seen);
        continue;
      }
      seen, events, rows := EventsIn(items, i, station, seen, events, rows);
    }
    AheadEnds(items, station, seen, rows);
  }

  /** The new rows of one item, added to those found before. */
  method EventsIn(items: seq<Container>, i: nat, station: Option<Text>, before: set<Key>, found: seq<Event>,
                  ghost known: seq<Occurrence>)
    returns (seen: set<Key>, events: seq<Event>, ghost rows: seq<Occurrence>)
    requires i < |items| && (station.Some? ==> items[i].stationId == station.value) && found == Numbered(known)
    ensures rows + Ahead(items, i + 1, 0, station, seen) == known + Ahead(items, i, 0, station, before)
    ensures events == Numbered(rows)
  {
    var item := items[i];
    seen, events, rows := before, found, known;
    for j := 0 to |item.rows|
      invariant rows + Ahead(items, i, j, station, seen) == known + Ahead(items, i, 0, station, before)
      invariant events == Numbered(rows)
    {
      var row := item.rows[j];
      ScanStep(items, i, j, station, seen);
      if !row.id.Integer? {
        continue;
      }
      var key := RecordKey(row, item);
      if key in seen {
        continue;
      }
      ghost var o := Occurrence(i, j, item, row);
      seen := seen + {key};
      NumberedNext(rows, o);
      events := events + [Event(|events|, row.eventRef)];
      Rejoined(rows, [o], Ahead(items, i, j + 1, station, seen));
      rows := rows + [o];
    }
  }

  /** The new rows still to be met when the scan stands at row `j` of item `i`. */
  ghost function Ahead(items: seq<Container>, i: nat, j: nat, station: Option<Text>, seen: set<Key>): seq<Occurrence>
    requires i <= |items| && (i < |items| ==> j <= |items[i].rows|)
  {
    Firsts(Scoped(OccurrencesFrom(items, i, j), station), seen)
  }

  lemma AheadEnds(items: seq<Container>, station: Option<Text>, seen: set<Key>, rows: seq<Occurrence>)
    ensures rows + Ahead(items, |items|, 0, station, seen) == rows
  {
    assert OccurrencesFrom(items, |items|, 0) == [];
  }

  /** One occurrence of the scan: out of scope, a repetition, or a new row. */
  lemma ScanStep(items: seq<Container>, i: nat, j: nat, station: Option<Text>, seen: set<Key>)
    requires i < |items| && j < |items[i].rows|
    ensures var o := Occurrence(i, j, items[i], items[i].rows[j]);
            Ahead(items, i, j, station, seen) ==
            if !InScope(o, station) || KeyOf(o) in seen then Ahead(items, i, j + 1, station, seen)
            else [o] + Ahead(items, i, j + 1, station, seen + {KeyOf(o)})
  {
    var o := Occurrence(i, j, items[i], items[i].rows[j]);
    var rest := OccurrencesFrom(items, i, j + 1);
    assert ([o] + rest)[1..] == rest;
    var later := Scoped(rest, station);
    if InScope(o, station) {
      assert Scoped([o] + rest, station) == [o] + later;
      assert ([o] + later)[1..] == later;
    } else {
      assert Scoped([o] + rest, station) == later;
    }
  }

  lemma {:induction false} SkipItem(items: seq<Container>, i: nat, j: nat, station: Option<Text>, seen: set<Key>)
    requires i < |items| && j <= |items[i].rows|
    requires station.Some? && items[i].stationId != station.value
    ensures Ahead(items, i, j, station, seen) == Ahead(items, i + 1, 0, station, seen)
    decreases |items[i].rows| - j
  {
    if j < |items[i].rows| {
      ScanStep(items, i, j, station, seen);
      assert !InScope(Occurrence(i, j, items[i], items[i].rows[j]), station);
      SkipItem(items, i, j + 1, station, seen);
    }
  }

  /** The key that a dense identifier names: that of the `id`-th distinct row in scope. */
  function Wanted(items: seq<Container>, station: Option<Text>, id: nat): Option<Key> {
    var rows := Rows(items, station);
    if id < |rows| then Some(KeyOf(rows[id])) else None
  }

  /** Everything an analytical row stands for. */
  function Resolve(items: seq<Container>, event: Event, station: Option<Text>): seq<Occurrence> {
    if event.eventRef != [] then Matching(Occurrences(items), Reference(event.eventRef))
    else if event.id < 0 then []
    else
      var wanted := Wanted(items, station, event.id);
      if wanted.None? then [] else Matching(Occurrences(items), wanted.value)
  }

  method ResolveInPlace(items: seq<Container>, event: Event, station: Option<Text>) returns (result: seq<Occurrence>)
    ensures result == Resolve(items, event, station)
  {
    if event.eventRef != [] {
      result := FindMatching(items, Reference(event.eventRef));
      return;
    }
    if event.id < 0 {
      return [];
    }
    var wanted := FindWanted(items, event.id, station);
    if wanted.None? {
      return [];
    }
    result := FindMatching(items, wanted.value);
  }

  ghost function MatchingAhead(items: seq<Container>, i: nat, j: nat, wanted: Key): seq<Occurrence>
    requires i <= |items| && (i < |items| ==> j <= |items[i].rows|)
  {
    Matching(OccurrencesFrom(items, i, j), wanted)
  }

  lemma MatchStep(items: seq<Container>, i: nat, j: nat, wanted: Key)
    requires i < |items| && j < |items[i].rows|
    ensures var o := Occurrence(i, j, items[i], items[i].rows[j]);
            MatchingAhead(items, i, j, wanted) ==
            if KeyOf(o) == wanted then [o] + MatchingAhead(items, i, j + 1, wanted)
            else MatchingAhead(items, i, j + 1, wanted)
  {
    var o := Occurrence(i, j, items[i], items[i].rows[j]);
    assert ([o] + OccurrencesFrom(items, i, j + 1))[1..] == OccurrencesFrom(items, i, j + 1);
  }

  method FindMatching(items: seq<Container>, wanted: Key) returns (result: seq<Occurrence>)
    ensures result == Matching(Occurrences(items), wanted)
  {
    result := [];
    for i := 0 to |items|
      invariant result + MatchingAhead(items, i, 0, wanted) == MatchingAhead(items, 0, 0, wanted)
    {
      result := MatchingIn(items, i, wanted, result);
    }
  }

  /** The matches of one item, added to those found before. */
  method MatchingIn(items: seq<Container>, i: nat, wanted: Key, found: seq<Occurrence>)
    returns (result: seq<Occurrence>)
    requires i < |items|
    ensures result + MatchingAhead(items, i + 1, 0, wanted) == found + MatchingAhead(items, i, 0, wanted)
  {
    var item := items[i];
    result := found;
    for j := 0 to |item.rows|
      invariant result + MatchingAhead(items, i, j, wanted) == found + MatchingAhead(items, i, 0, wanted)
    {
      MatchStep(items, i, j, wanted);
      if RecordKey(item.rows[j], item) == wanted {
        var o := Occurrence(i, j, item, item.rows[j]);
        Rejoined(result, [o], MatchingAhead(items, i, j + 1, wanted));
        result := result + [o];
      }
    }
  }

  /** What the dense counter has come to after these rows. */
  ghost predicate Counted(id: nat, dense: nat, wanted: Option<Key>, rows: seq<Occurrence>) {
    dense == |rows| && wanted == if id < |rows| then Some(KeyOf(rows[id])) else None
  }

  /** The scan with its dense counter. */
  method FindWanted(items: seq<Container>, id: nat, station: Option<Text>) returns (wanted: Option<Key>)
    ensures wanted == Wanted(items, station, id)
  {
    wanted := None;
    var seen: set<Key>, dense := {}, 0;
    ghost var rows: seq<Occurrence> := [];
    for i := 0 to |items|
      invariant rows + Ahead(items, i, 0, station, seen) == Rows(items, station)
      invariant Counted(id, dense, wanted, rows)
    {
      if station.Some? && items[i].stationId != station.value {
        SkipItem(items, i, 0, station, seen);
        continue;
      }
      seen, dense, wanted, rows := WantedIn(items, i, id, station, seen, dense, wanted, rows);
    }
    AheadEnds(items, station, seen, rows);
  }

  method WantedIn(items: seq<Container>, i: nat, id: nat, station: Option<Text>, before: set<Key>, start: nat,
                  earlier: Option<Key>, ghost known: seq<Occurrence>)
    returns (seen: set<Key>, dense: nat, wanted: Option<Key>, ghost rows: seq<Occurrence>)
    requires i < |items| && (station.Some? ==> items[i].stationId == station.value)
             && Counted(id, start, earlier, known)
    ensures rows + Ahead(items, i + 1, 0, station, seen) == known + Ahead(items, i, 0, station, before)
    ensures Counted(id, dense, wanted, rows)
  {
    var item := items[i];
    seen, dense, wanted, rows := before, start, earlier, known;
    for j := 0 to |item.rows|
      invariant rows + Ahead(items, i, j, station, seen) == known + Ahead(items, i, 0, station, before)
      invariant Counted(id, dense, wanted, rows)
    {
      ScanStep(items, i, j, station, seen);
      if !item.rows[j].id.Integer? {
        continue;
      }
      var value := RecordKey(item.rows[j], item);
      if value in seen {
        continue;
      }
      ghost var o := Occurrence(i, j, item, item.rows[j]);
      seen := seen + {value};
      if dense == id {
        wanted := Some(value);
      }
      dense := dense + 1;
      Rejoined(rows, [o], Ahead(items, i, j + 1, station, seen));
      rows := rows + [o];
    }
  }

  // ---- the dense identifier is a faithful index

  lemma {:induction false} FirstsDistinct(occurrences: seq<Occurrence>, seen: set<Key>, i: nat)
    requires i < |Firsts(occurrences, seen)|
    ensures Firsts(occurrences, seen)[i] in occurrences
    ensures KeyOf(Firsts(occurrences, seen)[i]) !in seen
    ensures forall j :: 0 <= j < i ==> KeyOf(Firsts(occurrences, seen)[j]) != KeyOf(Firsts(occurrences, seen)[i])
    decreases |occurrences|
  {
    if KeyOf(occurrences[0]) in seen {
      FirstsDistinct(occurrences[1..], seen, i);
    } else if i > 0 {
      var seen' := seen + {KeyOf(occurrences[0])};
      FirstsDistinct(occurrences[1..], seen', i - 1);
      var later := Firsts(occurrences[1..], seen');
      assert Firsts(occurrences, seen) == [occurrences[0]] + later;
      forall j | 0 <= j < i ensures KeyOf(Firsts(occurrences, seen)[j]) != KeyOf(Firsts(occurrences, seen)[i]) {
        assert j > 0 ==> Firsts(occurrences, seen)[j] == later[j - 1];
      }
    }
  }

  lemma {:induction false} FirstsCover(occurrences: seq<Occurrence>, seen: set<Key>, o: Occurrence)
    requires o in occurrences && KeyOf(o) !in seen
    ensures exists f :: f in Firsts(occurrences, seen) && KeyOf(f) == KeyOf(o)
    decreases |occurrences|
  {
    if KeyOf(occurrences[0]) in seen {
      FirstsCover(occurrences[1..], seen, o);
    } else if KeyOf(occurrences[0]) == KeyOf(o) {
      assert occurrences[0] in Firsts(occurrences, seen);
    } else {
      FirstsCover(occurrences[1..], seen + {KeyOf(occurrences[0])}, o);
    }
  }

  lemma {:induction false} MatchingMember(occurrences: seq<Occurrence>, wanted: Key, o: Occurrence)
    ensures o in Matching(occurrences, wanted) <==> o in occurrences && KeyOf(o) == wanted
    decreases |occurrences|
  {
    if occurrences != [] {
      MatchingMember(occurrences[1..], wanted, o);
    }
  }

  lemma {:induction false} ScopedMember(occurrences: seq<Occurrence>, station: Option<Text>, o: Occurrence)
    ensures o in Scoped(occurrences, station) <==> o in occurrences && InScope(o, station)
    decreases |occurrences|
  {
    if occurrences != [] {
      ScopedMember(occurrences[1..], station, o);
    }
  }

  /** The analytical rows are one occurrence in scope for each key in scope. */
  lemma RowsAreRepresentatives(items: seq<Container>, station: Option<Text>, o: Occurrence, i: nat, j: nat)
    ensures o in Occurrences(items) && InScope(o, station) ==>
              exists f :: f in Rows(items, station) && KeyOf(f) == KeyOf(o)
    ensures i < |Rows(items, station)| ==>
              Rows(items, station)[i] in Occurrences(items) && InScope(Rows(items, station)[i], station)
    ensures i < j < |Rows(items, station)| ==> KeyOf(Rows(items, station)[i]) != KeyOf(Rows(items, station)[j])
  {
    var scoped := Scoped(Occurrences(items), station);
    ScopedMember(Occurrences(items), station, o);
    if o in scoped {
      FirstsCover(scoped, {}, o);
    }
    if i < |Rows(items, station)| {
      FirstsDistinct(scoped, {}, i);
      ScopedMember(Occurrences(items), station, Rows(items, station)[i]);
    }
    if i < j < |Rows(items, station)| {
      FirstsDistinct(scoped, {}, j);
    }
  }

  /** Resolving an analytical row gives the occurrences, in any station, that share the key
      of the row it came from: all of them, none else, and at least that one. */
  lemma DenseIdIsFaithful(items: seq<Container>, station: Option<Text>, i: nat, o: Occurrence)
    requires i < |Events(items, station)|
    ensures var source := Rows(items, station)[i];
            var resolved := Resolve(items, Events(items, station)[i], station);
            && (o in resolved <==> o in Occurrences(items) && KeyOf(o) == KeyOf(source))
            && source in resolved
  {
    RowsAreRepresentatives(items, station, o, i, i);
    var event, source := Events(items, station)[i], Rows(items, station)[i];
    NumberedAt(Rows(items, station), i);
    MatchingMember(Occurrences(items), KeyOf(source), o);
    MatchingMember(Occurrences(items), KeyOf(source), source);
  }

  /** A row with a reference resolves by that reference alone, whatever its number. */
  lemma ReferenceIsExact(items: seq<Container>, event: Event, station: Option<Text>, o: Occurrence)
    requires event.eventRef != []
    ensures o in Resolve(items, event, station) <==> o in Occurrences(items) && o.row.eventRef == event.eventRef
  {
    MatchingMember(Occurrences(items), Reference(event.eventRef), o);
  }

  /** The scan meets every row of every item. */
  lemma {:induction false} OccurrencesExactly(items: seq<Container>, i: nat, j: nat, o: Occurrence)
    requires i <= |items| && (i < |items| ==> j <= |items[i].rows|)
    ensures o in OccurrencesFrom(items, i, j) <==>
            && i <= o.itemIndex < |items| && o.item == items[o.itemIndex]
            && o.index < |o.item.rows| && o.row == o.item.rows[o.index]
            && (o.itemIndex == i ==> j <= o.index)
    decreases |items| - i, if i < |items| then |items[i].rows| - j else 0
  {
    if i < |items| {
      if j == |items[i].rows| {
        OccurrencesExactly(items, i + 1, 0, o);
      } else {
        OccurrencesExactly(items, i, j + 1, o);
      }
    }
  }
}
