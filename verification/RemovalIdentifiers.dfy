/** What the identifiers of rows name after a removal. A row without reference and number is
    named by its place among the rows of its item, so taking out a row before it changes what
    its identifier names. */
module RemovalIdentifiers {
  import opened Wrappers
  import opened JsonValues
  import opened Sequences
  import opened TimelineMerge
  import opened RemovalPlan
  import opened RemovalPlanLaws
  import opened CaseRecords
  import opened RemovalItems
  import EvidenceRevision
  import RemovalPrepare

  // ---- where a kept row ends up

  /** How many positions from `from` up to `j` are kept. */
  function KeptBefore(removed: set<int>, from: nat, j: nat): nat
    decreases j - from
  {
    if from >= j then 0 else (if from in removed then 0 else 1) + KeptBefore(removed, from + 1, j)
  }

  lemma {:induction false} KeptLands(rows: seq<Row>, removed: set<int>, from: nat, j: nat)
    requires from <= j < from + |rows| && j !in removed
    ensures var p := KeptBefore(removed, from, j);
            p < |Remaining(rows, removed, from)| && Remaining(rows, removed, from)[p] == rows[j - from]
    decreases |rows|
  {
    if from < j {
      KeptLands(rows[1..], removed, from + 1, j);
    }
  }

  lemma {:induction false} KeptSource(rows: seq<Row>, removed: set<int>, from: nat, p: nat) returns (j: nat)
    requires p < |Remaining(rows, removed, from)|
    ensures from <= j < from + |rows| && j !in removed && KeptBefore(removed, from, j) == p
    ensures Remaining(rows, removed, from)[p] == rows[j - from]
    decreases |rows|
  {
    if from in removed {
      j := KeptSource(rows[1..], removed, from + 1, p);
    } else if p == 0 {
      j := from;
    } else {
      j := KeptSource(rows[1..], removed, from + 1, p - 1);
    }
  }

  /** A row stays at its place exactly when no row before it is taken out. */
  lemma {:induction false} StaysAtPlace(removed: set<int>, from: nat, j: nat)
    requires from <= j
    ensures KeptBefore(removed, from, j) <= j - from
    ensures KeptBefore(removed, from, j) == j - from <==> forall k :: from <= k < j ==> k !in removed
    decreases j - from
  {
    if from < j {
      StaysAtPlace(removed, from + 1, j);
    }
  }

  // ---- identifiers before and after

  function RowsAt(cut: Cut, i: nat): seq<Row>
    requires i < |cut.before|
  {
    if cut.before[i].rows.Some? then cut.before[i].rows.value.rows else []
  }

  function TakenFrom(cut: Cut, i: nat): set<int> {
    if i in cut.grouped then cut.grouped[i] else {}
  }

  /** Is the row at `j` of item `i` there, and does it stay? */
  predicate IsRow(cut: Cut, i: nat, j: nat) {
    i < |cut.before| && j < |RowsAt(cut, i)|
  }

  predicate Stays(cut: Cut, i: nat, j: nat) {
    IsRow(cut, i, j) && j !in TakenFrom(cut, i)
  }

  function IdBefore(cut: Cut, i: nat, j: nat): Text
    requires IsRow(cut, i, j)
    reads cut.before[i].item
  {
    TimelineId(cut.before[i].item.id, RowsAt(cut, i)[j], j)
  }

  /** The identifier of the same row once the others are gone. */
  function IdAfter(cut: Cut, i: nat, j: nat): Text
    requires IsRow(cut, i, j)
    reads cut.before[i].item
  {
    TimelineId(cut.before[i].item.id, RowsAt(cut, i)[j], KeptBefore(TakenFrom(cut, i), 0, j))
  }

  /** Is the row named by its place? */
  predicate ByPlace(row: Row) {
    row.eventRef == [] && row.id.NoId?
  }

  /** No row that stays behind one taken out of its item is named by its place. */
  ghost predicate Stable(cut: Cut) {
    forall i: nat, j: nat :: Stays(cut, i, j) && ByPlace(RowsAt(cut, i)[j]) ==>
      forall k :: 0 <= k < j ==> k !in TakenFrom(cut, i)
  }

  lemma PrintedOnce(a: nat, b: nat)
    ensures Printed(a) == Printed(b) <==> a == b
  {
    EvidenceRevision.DigitsCanonical(a);
    EvidenceRevision.DigitsCanonical(b);
  }

  lemma SameId(itemId: Text, row: Row, a: nat, b: nat)
    ensures TimelineId(itemId, row, a) == TimelineId(itemId, row, b) <==> !ByPlace(row) || a == b
  {
    if ByPlace(row) {
      var prefix := Ascii("e:") + itemId + Ascii(":");
      assert (prefix + Printed(a))[|prefix|..] == Printed(a) && (prefix + Printed(b))[|prefix|..] == Printed(b);
      PrintedOnce(a, b);
    }
  }

  /** A row keeps its identifier if and only if it is not named by its place or nothing before
      it is taken out. */
  lemma KeepsId(cut: Cut, i: nat, j: nat)
    requires Stays(cut, i, j)
    ensures IdAfter(cut, i, j) == IdBefore(cut, i, j) <==>
              !ByPlace(RowsAt(cut, i)[j]) || forall k :: 0 <= k < j ==> k !in TakenFrom(cut, i)
  {
    SameId(cut.before[i].item.id, RowsAt(cut, i)[j], KeptBefore(TakenFrom(cut, i), 0, j), j);
    StaysAtPlace(TakenFrom(cut, i), 0, j);
  }

  /** The identifiers that the plan counts with are those that the rows that stay have after. */
  lemma RemainingIsAfter(cut: Cut, id: Text)
    requires cut.Valid()
    ensures id in cut.RemainingIds() <==> exists i: nat, j: nat :: Stays(cut, i, j) && IdAfter(cut, i, j) == id
  {
    if id in cut.RemainingIds() {
      RemainingIsCarried(cut, id);
    }
    if i: nat, j: nat :| Stays(cut, i, j) && IdAfter(cut, i, j) == id {
      CarriedRemains(cut, i, j);
    }
  }

  lemma RemainingIsCarried(cut: Cut, id: Text)
    requires cut.Valid() && id in cut.RemainingIds()
    ensures exists i: nat, j: nat :: Stays(cut, i, j) && IdAfter(cut, i, j) == id
  {
    var i, p :| 0 <= i < |cut.before| && 0 <= p < |cut.RowsAfter(i)|
                && TimelineId(cut.before[i].item.id, cut.RowsAfter(i)[p], p) == id;
    RowsAfterAre(cut, i);
    var j := KeptSource(RowsAt(cut, i), TakenFrom(cut, i), 0, p);
    assert Stays(cut, i, j) && IdAfter(cut, i, j) == id;
  }

  lemma CarriedRemains(cut: Cut, i: nat, j: nat)
    requires cut.Valid() && Stays(cut, i, j)
    ensures IdAfter(cut, i, j) in cut.RemainingIds()
  {
    RowsAfterAre(cut, i);
    KeptLands(RowsAt(cut, i), TakenFrom(cut, i), 0, j);
    var p := KeptBefore(TakenFrom(cut, i), 0, j);
    assert TimelineId(cut.before[i].item.id, cut.RowsAfter(i)[p], p) == IdAfter(cut, i, j);
  }

  lemma RowsAfterAre(cut: Cut, i: nat)
    requires cut.Valid() && i < |cut.before|
    ensures cut.RowsAfter(i) == Remaining(RowsAt(cut, i), TakenFrom(cut, i), 0)
  {
    if i !in cut.grouped {
      NothingTaken(RowsAt(cut, i), 0);
    }
  }

  lemma {:induction false} NothingTaken(rows: seq<Row>, from: nat)
    ensures Remaining(rows, {}, from) == rows
    decreases |rows|
  {
    if rows != [] {
      NothingTaken(rows[1..], from + 1);
    }
  }

  // ---- the law

  /** Some row carries the identifier before and after. */
  ghost predicate Carried(cut: Cut, id: Text)
    reads set e <- cut.before :: e.item
  {
    exists i: nat, j: nat :: Stays(cut, i, j) && IdBefore(cut, i, j) == id && IdAfter(cut, i, j) == id
  }

  /** Every row that stays carries its identifier on, and the identifier of every row that is
      taken out counts as removed, unless a row that stays carried and carries it too. */
  ghost predicate IdsHold(cut: Cut, removed: set<Json>)
    reads set e <- cut.before :: e.item
  {
    && (forall i: nat, j: nat :: Stays(cut, i, j) ==> IdAfter(cut, i, j) == IdBefore(cut, i, j))
    && (forall i: nat, j: nat :: IsRow(cut, i, j) && !Stays(cut, i, j) ==>
          Str(IdBefore(cut, i, j)) in removed || Carried(cut, IdBefore(cut, i, j)))
  }

  /** The cut and the removed identifiers that a preparation works with. */
  ghost function CutOf(c: Case, targets: seq<Target>): Cut
    reads c, c.items
  {
    Cut(Shape(c.items), GroupTargets(targets))
  }

  ghost predicate Admitted(c: Case, targets: seq<Target>)
    reads c, c.items, set t <- targets :: t.item
  {
    Distinct(c.items) && forall t <- targets :: Points(c.items, t) && t.index >= 0
  }

  ghost function RemovedBy(c: Case, targets: seq<Target>, entryIds: set<Text>): set<Json>
    requires Admitted(c, targets)
    reads c, c.items, set t <- targets :: t.item, set e <- CutOf(c, targets).before :: e.item
  {
    RemovedIds(SelectedIds(targets), entryIds, CutOf(c, targets).RemainingIds())
  }

  /** A row that is taken out was selected under its identifier. */
  lemma TakenIsSelected(c: Case, targets: seq<Target>, i: nat, j: nat)
    requires Admitted(c, targets)
    requires var cut := CutOf(c, targets); IsRow(cut, i, j) && !Stays(cut, i, j)
    ensures IdBefore(CutOf(c, targets), i, j) in SelectedIds(targets)
  {
    GroupedExactly(targets, i, j);
    var t :| t in targets && t.itemIndex == i && t.index == j;
    assert Points(c.items, t);
    assert TimelineId(t.item.id, t.row, t.index) in SelectedIds(targets);
  }

  /** Row identifiers are never those of automatic runs. */
  lemma NoRun(itemId: Text, row: Row, index: nat)
    ensures !(Ascii("a:") <= TimelineId(itemId, row, index))
  {
    var id := TimelineId(itemId, row, index);
    assert |Ascii("a:")| == 2 && |Ascii("e:")| == 2;
    assert id[0] == Ascii("e:")[0] == 101 && Ascii("a:")[0] == 97;
  }

  /** A preparation keeps what identifiers name, if and only if no row that stays behind one
      taken out of its item is named by its place. */
  lemma IdentifiersHold(c: Case, targets: seq<Target>, entryIds: set<Text>)
    requires Admitted(c, targets)
    ensures IdsHold(CutOf(c, targets), RemovedBy(c, targets, entryIds)) <==> Stable(CutOf(c, targets))
  {
    var cut, removed := CutOf(c, targets), RemovedBy(c, targets, entryIds);
    RemovalPrepare.CutIsValid(c, targets);
    forall i: nat, j: nat | Stays(cut, i, j)
      ensures IdAfter(cut, i, j) == IdBefore(cut, i, j) <==>
                !ByPlace(RowsAt(cut, i)[j]) || forall k :: 0 <= k < j ==> k !in TakenFrom(cut, i) {
      KeepsId(cut, i, j);
    }
    if Stable(cut) {
      forall i: nat, j: nat | IsRow(cut, i, j) && !Stays(cut, i, j)
        ensures Str(IdBefore(cut, i, j)) in removed || Carried(cut, IdBefore(cut, i, j)) {
        TakenHolds(c, targets, entryIds, i, j);
      }
    }
  }

  lemma TakenHolds(c: Case, targets: seq<Target>, entryIds: set<Text>, i: nat, j: nat)
    requires Admitted(c, targets)
    requires var cut := CutOf(c, targets); IsRow(cut, i, j) && !Stays(cut, i, j)
    requires var cut := CutOf(c, targets);
             forall k: nat, l: nat :: Stays(cut, k, l) ==> IdAfter(cut, k, l) == IdBefore(cut, k, l)
    ensures var cut := CutOf(c, targets);
            Str(IdBefore(cut, i, j)) in RemovedBy(c, targets, entryIds) || Carried(cut, IdBefore(cut, i, j))
  {
    var cut := CutOf(c, targets);
    var id := IdBefore(cut, i, j);
    RemovalPrepare.CutIsValid(c, targets);
    TakenIsSelected(c, targets, i, j);
    NoRun(cut.before[i].item.id, RowsAt(cut, i)[j], j);
    RemainingIsAfter(cut, id);
  }

  // ---- references to rows

  ghost function GroupsOf(c: Case): seq<Json>
    reads c
  {
    c.timeline.GetOr(Timeline(None, None)).groups.GetOr([])
  }

  /** The identifier names a row of the Case as it was. */
  ghost predicate NamedRow(cut: Cut, target: Json)
    reads set e <- cut.before :: e.item
  {
    exists i: nat, j: nat :: IsRow(cut, i, j) && target == Str(IdBefore(cut, i, j))
  }

  /** No group goes by the name of a row. */
  ghost predicate GroupsApart(c: Case, cut: Cut)
    reads c, set e <- cut.before :: e.item
  {
    forall target <- GroupIds(GroupsOf(c)) :: !NamedRow(cut, target)
  }

  /** The list of groups leaves the fate of rows alone, so the finished plan holds exactly when
      its start does, if no group goes by the name of a row. */
  lemma PlanHolds(c: Case, targets: seq<Target>, entryIds: set<Text>)
    requires Admitted(c, targets) && GroupsApart(c, CutOf(c, targets))
    ensures var cut := CutOf(c, targets);
            IdsHold(cut, RemovalPrepare.Planned(c, cut, targets, entryIds).removed) <==> Stable(cut)
  {
    var cut, removed := CutOf(c, targets), RemovedBy(c, targets, entryIds);
    IdentifiersHold(c, targets, entryIds);
    forall i: nat, j: nat | IsRow(cut, i, j)
      ensures Str(IdBefore(cut, i, j)) in RemovalPrepare.Planned(c, cut, targets, entryIds).removed
              <==> Str(IdBefore(cut, i, j)) in removed {
      assert NamedRow(cut, Str(IdBefore(cut, i, j)));
      PlanGroupsRemoved(Plan([], removed, map[]), GroupsOf(c), Str(IdBefore(cut, i, j)));
    }
  }

  /** Does the timeline after the removal refer to `target`? */
  ghost predicate Refers(groups: seq<Json>, notes: seq<Json>, target: Json) {
    || (exists g :: g in groups && target in List(g, IDS))
    || (exists note :: note in notes && RefersFrom(note, target))
  }

  ghost predicate RefersFrom(note: Json, target: Json) {
    Prop(note, ANCHOR) == target || exists link :: link in List(note, LINKS) && Prop(link, TARGET_ID) == target
  }

  lemma ReferredIsClean(removed: set<Json>, groups: seq<Json>, notes: seq<Json>, target: Json)
    requires Flat(groups)
    requires var plan := PlanGroups(Plan([], removed, map[]), groups);
             Refers(plan.groups, PlanNotes(notes, plan), target)
    ensures Clean(target, PlanGroups(Plan([], removed, map[]), groups))
  {
    NoDanglingReferences(removed, groups, notes);
  }

  /** Every reference of the planned timeline that named a row names a row that carried the
      identifier before the removal and carries it after. */
  lemma ReferencesNameRows(c: Case, targets: seq<Target>, entryIds: set<Text>, target: Json)
    requires Admitted(c, targets) && Stable(CutOf(c, targets))
    requires Flat(GroupsOf(c)) && GroupsApart(c, CutOf(c, targets)) && NamedRow(CutOf(c, targets), target)
    requires var plan := RemovalPrepare.Planned(c, CutOf(c, targets), targets, entryIds);
             var notes := c.timeline.GetOr(Timeline(None, None)).annotations.GetOr([]);
             Refers(plan.groups, PlanNotes(notes, plan), target)
    ensures target.Str? && Carried(CutOf(c, targets), target.text)
  {
    var cut, removed := CutOf(c, targets), RemovedBy(c, targets, entryIds);
    var plan := RemovalPrepare.Planned(c, cut, targets, entryIds);
    ReferredIsClean(removed, GroupsOf(c), c.timeline.GetOr(Timeline(None, None)).annotations.GetOr([]), target);
    PlanHolds(c, targets, entryIds);
    var i: nat, j: nat :| IsRow(cut, i, j) && target == Str(IdBefore(cut, i, j));
    if Stays(cut, i, j) {
      assert IdAfter(cut, i, j) == IdBefore(cut, i, j);
    }
  }

  /** Of two rows named by their places, the first is taken out. Its identifier does not count
      as removed, since the second row goes by it from now on; the identifier that the second
      row had is carried by no row, and does not count as removed either. */
  lemma PlacesShift(c: Case, item: Item, first: Row, second: Row)
    requires c.items == [item] && item.rows.Some? && item.rows.value.rows == [first, second]
    requires ByPlace(first) && ByPlace(second)
    ensures var targets := [Target(0, 0, item, first)];
            Admitted(c, targets) && var cut := CutOf(c, targets);
            && RemovedBy(c, targets, {}) == {}
            && IsRow(cut, 0, 0) && !Stays(cut, 0, 0) && Stays(cut, 0, 1) && !Stable(cut)
            && IdAfter(cut, 0, 1) == IdBefore(cut, 0, 0)
            && cut.RemainingIds() == {IdBefore(cut, 0, 0)} && IdBefore(cut, 0, 1) != IdBefore(cut, 0, 0)
  {
    var t := Target(0, 0, item, first);
    var targets := [t];
    assert Points(c.items, t);
    assert forall u <- targets :: u == t;
    RemovalPrepare.CutIsValid(c, targets);
    var cut := CutOf(c, targets);
    assert targets[..0] == [] && GroupTargets([]) == map[];
    assert GroupTargets(targets) == map[0 := {} + {0}];
    assert cut.before == [Entry(item, item.rows)];
    assert KeptBefore({0}, 1, 1) == 0;
    assert KeptBefore({0}, 0, 1) == 0;
    assert Stays(cut, 0, 1);
    SameId(item.id, second, 0, 1);
    forall id ensures id in cut.RemainingIds() <==> id == IdBefore(cut, 0, 0) {
      RemainingIsAfter(cut, id);
    }
    assert SelectedIds(targets) == {IdBefore(cut, 0, 0)};
  }
}
