/** The order in which the native side must deliver a page of the chronology: timed entries
    before untimed before unavailable ones, then by time, item and row. */
module TimelineOrder {
  import opened JsonValues

  type Place = seq<int>

  /** An entry by its identifier and its place: kind, time, item, row. */
  datatype Entry = Entry(id: Text, place: Place)

  const PARTS := 4

  /** Lexicographic order. */
  predicate AtMost(a: Place, b: Place)
    requires |a| == |b|
  {
    a == [] || a[0] < b[0] || (a[0] == b[0] && AtMost(a[1..], b[1..]))
  }

  predicate Placed(entries: seq<Entry>) {
    forall i :: 0 <= i < |entries| ==> |entries[i].place| == PARTS
  }

  /** All entries in order, not just neighbours, and no identifier twice. */
  predicate InOrder(entries: seq<Entry>)
    requires Placed(entries)
  {
    && (forall i, j :: 0 <= i < j < |entries| ==> AtMost(entries[i].place, entries[j].place))
    && forall i, j :: 0 <= i < j < |entries| ==> entries[i].id != entries[j].id
  }

  /** A part is smaller than in the previous place, and all parts before it are the same. */
  predicate FallsAt(place: Place, previous: Place, index: nat)
    requires index < |place| == |previous|
  {
    place[index] < previous[index] && place[..index] == previous[..index]
  }

  lemma {:induction false} FallsSomewhere(place: Place, previous: Place)
    requires |place| == |previous|
    ensures AtMost(previous, place) <==> forall index :: 0 <= index < |place| ==> !FallsAt(place, previous, index)
    decreases |place|
  {
    if place != [] {
      var tail, before := place[1..], previous[1..];
      FallsSomewhere(tail, before);
      if place[0] == previous[0] {
        forall index | 0 <= index < |tail|
          ensures FallsAt(tail, before, index) <==> FallsAt(place, previous, index + 1) {
          assert place[..index + 1] == [place[0]] + tail[..index]
                 && previous[..index + 1] == [previous[0]] + before[..index];
          assert tail[..index] == place[..index + 1][1..] && before[..index] == previous[..index + 1][1..];
        }
        assert !FallsAt(place, previous, 0);
        forall index | 0 < index < |place|
          ensures FallsAt(place, previous, index) <==> FallsAt(tail, before, index - 1) {
        }
      } else if place[0] < previous[0] {
        assert FallsAt(place, previous, 0);
      } else {
        forall index | 0 <= index < |place| ensures !FallsAt(place, previous, index) {
          assert index > 0 ==> place[..index][0] != previous[..index][0];
        }
      }
    }
  }

  lemma {:induction false} AtMostTransitive(a: Place, b: Place, c: Place)
    requires |a| == |b| == |c| && AtMost(a, b) && AtMost(b, c)
    ensures AtMost(a, c)
    decreases |a|
  {
    if a != [] && a[0] == b[0] == c[0] {
      AtMostTransitive(a[1..], b[1..], c[1..]);
    }
  }

  method Falls(place: Place, previous: Place) returns (falls: bool)
    requires |place| == |previous|
    ensures falls <==> !AtMost(previous, place)
  {
    FallsSomewhere(place, previous);
    falls := exists index :: 0 <= index < |place| && FallsAt(place, previous, index);
  }

  /** Comparing neighbours and remembering identifiers decides the whole order. */
  method OrderAccepted(entries: seq<Entry>) returns (accepted: bool)
    requires Placed(entries)
    ensures accepted <==> InOrder(entries)
  {
    var seen: set<Text> := {};
    for i := 0 to |entries|
      invariant InOrder(entries[..i])
      invariant forall id :: id in seen <==> exists j :: 0 <= j < i && entries[j].id == id
    {
      if entries[i].id in seen {
        return false;
      }
      if i > 0 {
        var falls := Falls(entries[i].place, entries[i - 1].place);
        if falls {
          return false;
        }
        forall j | 0 <= j < i ensures AtMost(entries[j].place, entries[i].place) {
          if j < i - 1 {
            assert AtMost(entries[..i][j].place, entries[..i][i - 1].place);
            AtMostTransitive(entries[j].place, entries[i - 1].place, entries[i].place);
          }
        }
      }
      seen := seen + {entries[i].id};
    }
    assert entries[..|entries|] == entries;
    accepted := true;
  }
}
