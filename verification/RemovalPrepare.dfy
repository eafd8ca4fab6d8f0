/** Preparing a removal: admitting the targets, cutting the containers, planning the timeline. */
module RemovalPrepare {
  import opened Wrappers
  import opened JsonValues
  import opened Sequences
  import opened RemovalPlan
  import opened TimelineText
  import opened RemovalItems
  import opened RemovalTransaction

  datatype Prepared = Refused | Ready(tx: Transaction)

  method GroupInPlace(items: seq<Item>, targets: seq<Target>) returns (ok: bool, grouped: map<int, set<int>>)
    ensures ok <==> targets != [] && forall t <- targets :: Points(items, t)
    ensures ok ==> grouped == GroupTargets(targets)
  {
    grouped, ok := map[], targets != [];
    if !ok {
      return;
    }
    for i := 0 to |targets|
      invariant ok && forall j :: 0 <= j < i ==> Points(items, targets[j])
      invariant grouped == GroupTargets(targets[..i])
    {
      var t := targets[i];
      if !Points(items, t) {
        return false, grouped;
      }
      assert targets[..i + 1][..i] == targets[..i];
      var indices := if t.itemIndex in grouped then grouped[t.itemIndex] else {};
      grouped := grouped[t.itemIndex := indices + {t.index}];
    }
    assert targets[..|targets|] == targets;
  }

  /** The containers that remain, with a fresh stand-in for each that loses some rows. */
  method BuildNext(cut: Cut) returns (nextItems: seq<Item>, replacements: map<int, Item>)
    requires cut.Valid()
    ensures cut.Replaces(replacements) && nextItems == cut.Next(replacements)
    ensures forall i <- replacements ::
              && fresh(replacements[i]) && cut.Shrinks(i)
              && ViewOf(replacements[i])
                   == ViewOf(cut.before[i].item).(rows := Some(cut.Left(i)), included := Some(|cut.Left(i)|))
  {
    nextItems, replacements := [], map[];
    for i := 0 to |cut.before|
      invariant forall j :: j in replacements <==> cut.Shrinks(j) && j < i
      invariant Injective(replacements)
      invariant nextItems == cut.NextUpTo(replacements, i)
      invariant forall j <- replacements ::
                  && fresh(replacements[j]) && cut.Shrinks(j)
                  && ViewOf(replacements[j])
                       == ViewOf(cut.before[j].item).(rows := Some(cut.Left(j)), included := Some(|cut.Left(j)|))
    {
      var item := cut.before[i].item;
      if i !in cut.grouped {
        nextItems := nextItems + [item];
      } else if cut.Left(i) != [] {
        var identity := new ArrayIdentity();
        var next := new Item(item.id, Some(RowList(identity, cut.Left(i))), Some(|cut.Left(i)|), item.other);
        cut.NextUnaffected(replacements, i, i, next);
        replacements := replacements[i := next];
        nextItems := nextItems + [next];
      }
    }
  }

  /** The plan for the timeline lists of a Case. */
  ghost function Planned(c: Case, cut: Cut, targets: seq<Target>, entryIds: set<Text>): Plan
    requires forall t <- targets :: t.index >= 0
    reads c`timeline, set t <- targets :: t.item, set e <- cut.before :: e.item
  {
    var removed := RemovedIds(SelectedIds(targets), entryIds, cut.RemainingIds());
    PlanGroups(Plan([], removed, map[]), c.timeline.GetOr(Timeline(None, None)).groups.GetOr([]))
  }

  /** The timeline lists of the plan. */
  method PlanTimeline(timeline: Timeline, removed: set<Json>) returns (groups: seq<Json>, annotations: seq<Json>)
    ensures var plan := PlanGroups(Plan([], removed, map[]), timeline.groups.GetOr([]));
            groups == plan.groups && annotations == PlanNotes(timeline.annotations.GetOr([]), plan)
  {
    var plan := PlanGroupsInPlace(removed, timeline.groups.GetOr([]));
    groups := plan.groups;
    annotations := PlanNotesInPlace(timeline.annotations.GetOr([]), plan);
  }

  method Assemble(c: Case, cut: Cut, removed: set<Json>, ghost plan: Plan) returns (tx: Transaction)
    requires Distinct(c.items) && cut.Valid() && cut.before == Shape(c.items)
    requires plan == PlanGroups(Plan([], removed, map[]), c.timeline.GetOr(Timeline(None, None)).groups.GetOr([]))
    ensures fresh(tx) && tx.Valid() && tx.c == c && tx.cut == cut
    ensures tx.was == ViewsOf(c.items) && tx.startText == c.TimelineStamp()
    ensures tx.groups == plan.groups
    ensures tx.annotations == PlanNotes(c.timeline.GetOr(Timeline(None, None)).annotations.GetOr([]), plan)
    ensures tx.endText == (if c.timeline.Some? then Timeline(Some(tx.groups), Some(tx.annotations)).Text()
                           else Stamp([], []))
    ensures !(c.timeline.Some? ==> Authored(c.timeline.value)) || tx.QuietStart()
  {
    var timeline := c.timeline.GetOr(Timeline(None, None));
    var groups, annotations := PlanTimeline(timeline, removed);
    var nextItems, replacements := BuildNext(cut);
    tx := new Transaction(c, cut, replacements, nextItems, groups, annotations);
    if c.timeline.Some? ==> Authored(c.timeline.value) {
      StartsQuiet(tx, removed);
    }
  }

  /** A removal is refused when nothing is selected or a target is stale, and touches nothing
      yet. The cut takes out exactly the selected rows. */
  method Prepare(c: Case, targets: seq<Target>, entryIds: set<Text>) returns (r: Prepared)
    requires Distinct(c.items)
    ensures r.Refused? <==> targets == [] || exists t <- targets :: !Points(c.items, t)
    ensures r.Ready? ==>
              && fresh(r.tx) && r.tx.Valid() && r.tx.c == c
              && r.tx.was == ViewsOf(c.items) && r.tx.startText == c.TimelineStamp()
              && r.tx.cut == Cut(Shape(c.items), GroupTargets(targets))
              && (forall t <- targets :: t.index >= 0)
    ensures r.Ready? ==>
              var plan := old(Planned(c, Cut(Shape(c.items), GroupTargets(targets)), targets, entryIds));
              && r.tx.groups == plan.groups
              && r.tx.annotations == PlanNotes(old(c.timeline).GetOr(Timeline(None, None)).annotations.GetOr([]), plan)
              && r.tx.endText == (if c.timeline.Some? then Timeline(Some(r.tx.groups), Some(r.tx.annotations)).Text()
                                  else Stamp([], []))
    ensures r.Ready? ==> !(c.timeline.Some? ==> Authored(c.timeline.value)) || r.tx.QuietStart()
  {
    var ok, grouped := GroupInPlace(c.items, targets);
    if !ok {
      return Refused;
    }
    var cut := Cut(Shape(c.items), grouped);
    ghost var plan := Planned(c, cut, targets, entryIds);
    assert plan == old(Planned(c, Cut(Shape(c.items), GroupTargets(targets)), targets, entryIds));
    var tx := PrepareAdmitted(c, targets, entryIds, cut, plan);
    r := Ready(tx);
  }

  /** The rest of `prepare`, once every target has been found where it says. */
  method PrepareAdmitted(c: Case, targets: seq<Target>, entryIds: set<Text>, cut: Cut, ghost plan: Plan)
    returns (tx: Transaction)
    requires Distinct(c.items) && forall t <- targets :: Points(c.items, t) && t.index >= 0
    requires cut == Cut(Shape(c.items), GroupTargets(targets)) && plan == Planned(c, cut, targets, entryIds)
    ensures fresh(tx) && tx.Valid() && tx.c == c && tx.cut == cut
    ensures tx.was == ViewsOf(c.items) && tx.startText == c.TimelineStamp()
    ensures tx.groups == plan.groups
    ensures tx.annotations == PlanNotes(c.timeline.GetOr(Timeline(None, None)).annotations.GetOr([]), plan)
    ensures tx.endText == (if c.timeline.Some? then Timeline(Some(tx.groups), Some(tx.annotations)).Text()
                           else Stamp([], []))
    ensures !(c.timeline.Some? ==> Authored(c.timeline.value)) || tx.QuietStart()
  {
    CutIsValid(c, targets);
    var removed := RemovedIds(SelectedIds(targets), entryIds, cut.RemainingIds());
    tx := Assemble(c, cut, removed, plan);
  }

  lemma CutIsValid(c: Case, targets: seq<Target>)
    requires Distinct(c.items) && forall t <- targets :: Points(c.items, t)
    ensures Cut(Shape(c.items), GroupTargets(targets)).Valid()
  {
    var cut := Cut(Shape(c.items), GroupTargets(targets));
    forall k <- cut.grouped
      ensures 0 <= k < |cut.before| && cut.before[k].rows.Some? && cut.grouped[k] != {}
              && forall j <- cut.grouped[k] :: 0 <= j < |cut.before[k].rows.value.rows|
    {
      GroupedExactly(targets, k, 0);
      var t :| t in targets && t.itemIndex == k;
      assert Points(c.items, t);
      forall j <- cut.grouped[k] ensures 0 <= j < |cut.before[k].rows.value.rows| {
        GroupedExactly(targets, k, j);
        var u :| u in targets && u.itemIndex == k && u.index == j;
        assert Points(c.items, u);
      }
    }
  }

  lemma StartsQuiet(tx: Transaction, removed: set<Json>)
    requires tx.Valid() && Distinct(tx.c.items) && !tx.applied && tx.after.None?
    requires Shape(tx.c.items) == tx.cut.before && tx.nextItems == tx.cut.Next(tx.replacements)
    requires tx.was == ViewsOf(tx.c.items)
    requires forall i <- tx.replacements :: tx.cut.Shrinks(i) &&
               ViewOf(tx.replacements[i])
                 == ViewOf(tx.cut.before[i].item).(rows := Some(tx.cut.Left(i)), included := Some(|tx.cut.Left(i)|))
    requires tx.prior == tx.c.timeline.GetOr(Timeline(None, None)) && tx.c.timeline.Some? ==> Authored(tx.prior)
    requires tx.prior == tx.c.timeline.GetOr(Timeline(None, None))
    requires tx.startText == tx.beforeTimeline == tx.c.TimelineStamp()
    requires tx.endText == if tx.c.timeline.Some? then Timeline(Some(tx.groups), Some(tx.annotations)).Text()
                           else Stamp([], [])
    requires var plan := PlanGroups(Plan([], removed, map[]), tx.prior.groups.GetOr([]));
             tx.groups == plan.groups && tx.annotations == PlanNotes(tx.prior.annotations.GetOr([]), plan)
    ensures tx.QuietStart()
  {
    var g, n := tx.prior.groups.GetOr([]), tx.prior.annotations.GetOr([]);
    if tx.c.timeline.Some? {
      PlanReversible(removed, g, n);
      TextReversible(g, tx.groups);
      TextReversible(n, tx.annotations);
    } else {
      TextReversible([], []);
    }
  }

  /** A whole run over a live Case that nobody else touches: the removal is prepared, applied,
      and reversed and redone any number of times, each time by an undo or by a rollback, as
      `rollbacks` says. Each reversal shows the Case as it was, items, rows, counts, fields and
      timeline text; each redo shows what the first application showed; and after the
      application and every redo the removal can be undone. */
  method Replay(c: Case, targets: seq<Target>, entryIds: set<Text>, rollbacks: seq<bool>)
    returns (r: Prepared, ghost history: seq<Moment>)
    requires Distinct(c.items) && (c.timeline.Some? ==> Authored(c.timeline.value))
    modifies c
    ensures r.Refused? <==> targets == [] || exists t <- targets :: !old(Points(c.items, t))
    ensures r.Refused? ==> unchanged(c) && history == []
    ensures r.Ready? ==>
              && r.tx.was == old(ViewsOf(c.items)) && r.tx.startText == old(c.TimelineStamp())
              && r.tx.c == c && r.tx.cut == Cut(old(Shape(c.items)), GroupTargets(targets))
    ensures r.Ready? ==>
              && r.tx.QuietAfter() && r.tx.Now() == r.tx.After()
              && history == [r.tx.After()]
                            + Alternating(Moment(old(ViewsOf(c.items)), old(c.TimelineStamp()), false),
                                          r.tx.After(), |rollbacks|)
  {
    history := [];
    r := Prepare(c, targets, entryIds);
    if r.Refused? {
      return;
    }
    var applied := r.tx.ApplyUndisturbed();
    ghost var first := r.tx.Now();
    ghost var rest := r.tx.Cycle(rollbacks);
    history := [first] + rest;
  }
}
