/** Groups are written with occurrences as members, but nothing stops a group from listing
    another group. This says exactly which nestings the removal plan gets right. */
module RemovalPlanExact {
  import opened JsonValues
  import opened Sequences
  import opened TimelineMerge
  import opened RemovalPlan
  import opened RemovalPlanLaws

  function Start(removed: set<Json>): Plan {
    Plan([], removed, map[])
  }

  /** Does a remaining group list `m`, or a cut group hand its references to it? */
  ghost predicate Exposed(plan: Plan, m: Json) {
    || (exists g :: g in plan.groups && m in List(g, IDS))
    || (exists k :: k in plan.retarget && plan.retarget[k] == m)
  }

  ghost predicate Safe(plan: Plan) {
    forall m :: Exposed(plan, m) ==> Clean(m, plan)
  }

  /** Nothing dangles after these identifiers are removed. */
  ghost predicate Unbroken(removed: set<Json>, groups: seq<Json>) {
    Safe(PlanGroups(Start(removed), groups))
  }

  /** A group that another one lists is empty, or comes earlier and has one member only. */
  predicate Sheltered(groups: seq<Json>) {
    forall i, j :: 0 <= i < |groups| && 0 <= j < |groups| && Prop(groups[j], ID) in List(groups[i], IDS) ==>
      List(groups[j], IDS) == [] || (j < i && |List(groups[j], IDS)| <= 1)
  }

  // ---- sheltered groups never dangle

  /** What lies ahead can do no harm to what the plan holds so far. */
  ghost predicate Ready(plan: Plan, groups: seq<Json>) {
    && Safe(plan) && Sheltered(groups)
    && (forall h <- groups :: List(h, IDS) != [] ==> !Exposed(plan, Prop(h, ID)))
    && (forall h <- groups, m <- List(h, IDS) :: m !in plan.retarget)
  }

  /** Everything that one more group exposes is one of its remaining members. */
  lemma NewlyExposed(plan: Plan, group: Json, m: Json)
    requires Exposed(PlanGroup(plan, group), m)
    ensures Exposed(plan, m) || (m in List(group, IDS) && m !in plan.removed)
  {
    var left := Without(List(group, IDS), plan.removed);
    WithList(group, left);
    var next := PlanGroup(plan, group);
    if g :| g in next.groups && m in List(g, IDS) {
      if g !in plan.groups {
        assert List(g, IDS) == left;
      }
    } else {
      var k :| k in next.retarget && next.retarget[k] == m;
      assert m in left || (k in plan.retarget && plan.retarget[k] == m);
    }
  }

  lemma StepReady(plan: Plan, groups: seq<Json>)
    requires groups != [] && Ready(plan, groups)
    ensures Ready(PlanGroup(plan, groups[0]), groups[1..])
  {
    var group, rest, next := groups[0], groups[1..], PlanGroup(plan, groups[0]);
    var id := Prop(group, ID);
    assert group in groups;
    ShelteredLater(groups);
    forall m | Exposed(next, m) ensures Clean(m, next) {
      NewlyExposed(plan, group, m);
    }
    forall h <- rest | List(h, IDS) != [] ensures !Exposed(next, Prop(h, ID)) {
      assert h in groups;
      var j :| 0 <= j < |rest| && rest[j] == h;
      assert groups[j + 1] == h && groups[0] == group;
      if Exposed(next, Prop(h, ID)) {
        NewlyExposed(plan, group, Prop(h, ID));
      }
    }
    forall h <- rest, m <- List(h, IDS) ensures m !in next.retarget {
      assert h in groups;
      var i :| 0 <= i < |rest| && rest[i] == h;
      assert groups[i + 1] == h && groups[0] == group;
    }
  }

  lemma ShelteredLater(groups: seq<Json>)
    requires groups != [] && Sheltered(groups)
    ensures Sheltered(groups[1..])
  {
    var rest := groups[1..];
    forall i, j | 0 <= i < |rest| && 0 <= j < |rest| && Prop(rest[j], ID) in List(rest[i], IDS)
      ensures List(rest[j], IDS) == [] || (j < i && |List(rest[j], IDS)| <= 1) {
      assert rest[i] == groups[i + 1] && rest[j] == groups[j + 1];
    }
  }

  lemma {:induction false} ReadyIsSafe(plan: Plan, groups: seq<Json>)
    requires Ready(plan, groups)
    ensures Safe(PlanGroups(plan, groups))
    decreases |groups|
  {
    if groups != [] {
      StepReady(plan, groups);
      ReadyIsSafe(PlanGroup(plan, groups[0]), groups[1..]);
    }
  }

  lemma ShelteredIsUnbroken(removed: set<Json>, groups: seq<Json>)
    requires Sheltered(groups)
    ensures Unbroken(removed, groups)
  {
    ReadyIsSafe(Start(removed), groups);
  }

  /** Sheltered nesting is as good as none: no group member, no anchor, no link target and no
      handed-over reference dangles. */
  lemma NothingDangles(removed: set<Json>, groups: seq<Json>, notes: seq<Json>)
    requires Sheltered(groups)
    ensures var plan := PlanGroups(Start(removed), groups);
            && (forall g <- plan.groups, m <- List(g, IDS) :: Clean(m, plan))
            && CleanTargets(plan)
            && (forall note <- PlanNotes(notes, plan) :: CleanNote(note, plan))
  {
    var plan := PlanGroups(Start(removed), groups);
    ShelteredIsUnbroken(removed, groups);
    forall g <- plan.groups, m <- List(g, IDS) ensures Clean(m, plan) {
      assert Exposed(plan, m);
    }
    forall k <- plan.retarget ensures Clean(plan.retarget[k], plan) {
      assert Exposed(plan, plan.retarget[k]);
    }
    PlanNotesClean(notes, plan);
  }

  // ---- and any other nesting dangles for some selection

  predicate DistinctGroups(groups: seq<Json>) {
    forall i, j :: 0 <= i < j < |groups| ==> Prop(groups[i], ID) != Prop(groups[j], ID)
  }

  /** A listed group lists occurrences only, none twice. */
  ghost predicate Shallow(groups: seq<Json>) {
    forall i, j :: 0 <= i < |groups| && 0 <= j < |groups| && Prop(groups[j], ID) in List(groups[i], IDS) ==>
      Distinct(List(groups[j], IDS)) && forall m <- List(groups[j], IDS) :: m !in GroupIds(groups)
  }

  lemma {:induction false} PlanAppend(plan: Plan, a: seq<Json>, b: seq<Json>)
    ensures PlanGroups(plan, a + b) == PlanGroups(PlanGroups(plan, a), b)
    decreases |a|
  {
    if a == [] {
      assert a + b == b;
    } else {
      assert (a + b)[1..] == a[1..] + b;
      PlanAppend(PlanGroup(plan, a[0]), a[1..], b);
    }
  }

  /** The plan before group `i`, at it and after it. */
  lemma PlanAt(plan: Plan, groups: seq<Json>, i: nat)
    requires i < |groups|
    ensures PlanGroups(plan, groups)
            == PlanGroups(PlanGroup(PlanGroups(plan, groups[..i]), groups[i]), groups[i + 1..])
  {
    assert groups == groups[..i] + groups[i..] && groups[i..][1..] == groups[i + 1..];
    PlanAppend(plan, groups[..i], groups[i..]);
  }

  lemma NotAmong(groups: seq<Json>, i: nat, lo: nat, hi: nat)
    requires DistinctGroups(groups) && i < |groups| && lo <= hi <= |groups| && !(lo <= i < hi)
    ensures Prop(groups[i], ID) !in GroupIds(groups[lo..hi])
  {
    forall g <- groups[lo..hi] ensures Prop(g, ID) != Prop(groups[i], ID) {
      var k :| 0 <= k < hi - lo && groups[lo..hi][k] == g;
      assert g == groups[lo + k];
    }
  }

  lemma FewerIds(groups: seq<Json>, lo: nat, hi: nat)
    requires lo <= hi <= |groups|
    ensures GroupIds(groups[lo..hi]) <= GroupIds(groups)
  {
    forall x <- GroupIds(groups[lo..hi]) ensures x in GroupIds(groups) {
      var g :| g in groups[lo..hi] && Prop(g, ID) == x;
      assert g in groups;
    }
  }

  /** What is exposed stays exposed, as long as no later group goes by the same name. */
  lemma {:induction false} StaysExposed(plan: Plan, groups: seq<Json>, m: Json)
    requires Exposed(plan, m) && DistinctGroups(groups) && plan.retarget.Keys !! GroupIds(groups)
    ensures Exposed(PlanGroups(plan, groups), m)
    decreases |groups|
  {
    if groups != [] {
      var group, rest, next := groups[0], groups[1..], PlanGroup(plan, groups[0]);
      assert group in groups && Prop(group, ID) in GroupIds(groups);
      FewerIds(groups, 1, |groups|);
      NotAmong(groups, 0, 1, |groups|);
      assert groups[1..|groups|] == rest;
      if g :| g in plan.groups && m in List(g, IDS) {
        assert g in next.groups;
      } else {
        var k :| k in plan.retarget && plan.retarget[k] == m;
        assert k in next.retarget && next.retarget[k] == m;
      }
      assert DistinctGroups(rest);
      StaysExposed(next, rest, m);
    }
  }

  /** Only groups that the plan has met hand their references over. */
  lemma {:induction false} OnlyMet(plan: Plan, groups: seq<Json>)
    ensures PlanGroups(plan, groups).retarget.Keys <= plan.retarget.Keys + GroupIds(groups)
    decreases |groups|
  {
    if groups != [] {
      assert groups[0] in groups && Prop(groups[0], ID) in GroupIds(groups);
      FewerIds(groups, 1, |groups|);
      assert groups[1..|groups|] == groups[1..];
      OnlyMet(PlanGroup(plan, groups[0]), groups[1..]);
    }
  }

  lemma {:induction false} WithoutHas(list: seq<Json>, removed: set<Json>, x: Json)
    ensures x in Without(list, removed) <==> x in list && x !in removed
    decreases |list|
  {
    if list != [] {
      WithoutHas(list[1..], removed, x);
    }
  }

  /** A group exposes a member that is not removed when its turn comes. */
  lemma ExposesMember(plan: Plan, group: Json, m: Json)
    requires m in List(group, IDS) && m !in plan.removed
    ensures Exposed(PlanGroup(plan, group), m)
  {
    var left := Without(List(group, IDS), plan.removed);
    WithoutHas(List(group, IDS), plan.removed, m);
    WithList(group, left);
    var next := PlanGroup(plan, group);
    if |left| == |List(group, IDS)| || |left| >= 2 {
      var last := next.groups[|next.groups| - 1];
      assert last in next.groups && m in List(last, IDS);
    } else {
      assert left[0] == m;
      assert Prop(group, ID) in next.retarget && next.retarget[Prop(group, ID)] == m;
    }
  }

  lemma PartsApart(groups: seq<Json>, i: nat)
    requires DistinctGroups(groups) && i < |groups|
    ensures GroupIds(groups[..i]) !! GroupIds(groups[i + 1..]) && Prop(groups[i], ID) !in GroupIds(groups[i + 1..])
    ensures DistinctGroups(groups[i + 1..])
  {
    assert groups[i + 1..|groups|] == groups[i + 1..];
    NotAmong(groups, i, i + 1, |groups|);
    forall k <- GroupIds(groups[..i]) ensures k !in GroupIds(groups[i + 1..]) {
      var g :| g in groups[..i] && Prop(g, ID) == k;
      var n :| 0 <= n < i && groups[n] == g;
      NotAmong(groups, n, i + 1, |groups|);
    }
  }

  /** A group that lists `m`, not removed before its turn, leaves `m` exposed in the end. */
  lemma ExposedInTheEnd(removed: set<Json>, groups: seq<Json>, i: nat, m: Json)
    requires DistinctGroups(groups) && i < |groups| && m in List(groups[i], IDS)
    requires m !in PlanGroups(Start(removed), groups[..i]).removed
    ensures Exposed(PlanGroups(Start(removed), groups), m)
  {
    var before, later := PlanGroups(Start(removed), groups[..i]), groups[i + 1..];
    var next := PlanGroup(before, groups[i]);
    ExposesMember(before, groups[i], m);
    OnlyMet(Start(removed), groups[..i]);
    PartsApart(groups, i);
    StaysExposed(next, later, m);
    PlanAt(Start(removed), groups, i);
  }

  /** The members of a shallow group are removed as selected when its turn comes. */
  lemma MembersAsSelected(removed: set<Json>, groups: seq<Json>, j: nat, x: Json)
    requires j <= |groups| && x !in GroupIds(groups)
    ensures x in PlanGroups(Start(removed), groups[..j]).removed <==> x in removed
  {
    FewerIds(groups, 0, j);
    assert groups[0..j] == groups[..j];
    PlanGroupsRemoved(Start(removed), groups[..j], x);
  }

  lemma {:induction false} WithoutAll(list: seq<Json>, removed: set<Json>)
    requires forall x <- list :: x in removed
    ensures Without(list, removed) == []
    decreases |list|
  {
    if list != [] {
      assert forall x <- list[1..] :: x in list;
      WithoutAll(list[1..], removed);
    }
  }

  lemma WithoutAllButFirst(list: seq<Json>, removed: set<Json>)
    requires list != [] && list[0] !in removed && forall x <- list[1..] :: x in removed
    ensures Without(list, removed) == [list[0]]
  {
    WithoutAll(list[1..], removed);
  }

  /** A later group with members is listed: selecting all its members drops it, but not the
      reference to it. */
  lemma LaterGroupDangles(groups: seq<Json>, i: nat, j: nat)
    requires DistinctGroups(groups) && Shallow(groups) && i < j < |groups|
    requires Prop(groups[j], ID) in List(groups[i], IDS) && List(groups[j], IDS) != []
    ensures !Unbroken((set m | m in List(groups[j], IDS)), groups)
  {
    var removed := set m | m in List(groups[j], IDS);
    var m, at := Prop(groups[j], ID), PlanGroups(Start(removed), groups[..j]);
    assert groups[j] in groups && m in GroupIds(groups);
    NotAmong(groups, j, 0, i);
    NotAmong(groups, j, j + 1, |groups|);
    assert groups[0..i] == groups[..i] && groups[j + 1..|groups|] == groups[j + 1..];
    PlanGroupsRemoved(Start(removed), groups[..i], m);
    ExposedInTheEnd(removed, groups, i, m);
    forall x <- List(groups[j], IDS) ensures x in at.removed {
      MembersAsSelected(removed, groups, j, x);
    }
    WithoutAll(List(groups[j], IDS), at.removed);
    PlanGroupsRemoved(PlanGroup(at, groups[j]), groups[j + 1..], m);
    PlanAt(Start(removed), groups, j);
  }

  /** With all but its first member selected, a shallow group hands its references over. */
  lemma HandsOver(groups: seq<Json>, j: nat)
    requires j < |groups| && |List(groups[j], IDS)| > 1 && Distinct(List(groups[j], IDS))
    requires forall x <- List(groups[j], IDS) :: x !in GroupIds(groups)
    ensures var removed := set m | m in List(groups[j], IDS)[1..];
            var at := PlanGroups(Start(removed), groups[..j]);
            PlanGroup(at, groups[j]) == at.(retarget := at.retarget[Prop(groups[j], ID) := List(groups[j], IDS)[0]])
  {
    var members := List(groups[j], IDS);
    var removed := set m | m in members[1..];
    var at := PlanGroups(Start(removed), groups[..j]);
    forall x <- members ensures x in at.removed <==> x in removed {
      MembersAsSelected(removed, groups, j, x);
    }
    assert members[0] !in members[1..];
    assert forall x <- members[1..] :: x in members;
    assert members[0] in members && members[0] !in removed;
    WithoutAllButFirst(members, at.removed);
  }

  /** An earlier group of several members is listed: selecting all but one of them hands its
      references over, but not this one. */
  lemma EarlierGroupDangles(groups: seq<Json>, i: nat, j: nat)
    requires DistinctGroups(groups) && Shallow(groups) && j < i < |groups|
    requires Prop(groups[j], ID) in List(groups[i], IDS) && |List(groups[j], IDS)| > 1
    ensures !Unbroken((set m | m in List(groups[j], IDS)[1..]), groups)
  {
    var removed := set m | m in List(groups[j], IDS)[1..];
    var m, at := Prop(groups[j], ID), PlanGroups(Start(removed), groups[..j]);
    var next := PlanGroup(at, groups[j]);
    assert groups[j] in groups && m in GroupIds(groups);
    assert forall x <- List(groups[j], IDS)[1..] :: x in List(groups[j], IDS);
    HandsOver(groups, j);
    NotAmong(groups, j, 0, j);
    NotAmong(groups, j, j + 1, i);
    PartsApart(groups, j);
    assert groups[0..j] == groups[..j];
    PlanGroupsRemoved(Start(removed), groups[..j], m);
    PlanGroupsRemoved(next, groups[j + 1..i], m);
    PlanGroupsRemoved(next, groups[j + 1..], m);
    PlanUpTo(Start(removed), groups, i, j);
    ExposedInTheEnd(removed, groups, i, m);
    PlanAt(Start(removed), groups, j);
  }

  lemma PlanUpTo(plan: Plan, groups: seq<Json>, i: nat, j: nat)
    requires j < i <= |groups|
    ensures PlanGroups(plan, groups[..i])
            == PlanGroups(PlanGroup(PlanGroups(plan, groups[..j]), groups[j]), groups[j + 1..i])
  {
    var front := groups[..i];
    assert front[..j] == groups[..j] && front[j] == groups[j] && front[j + 1..] == groups[j + 1..i];
    PlanAt(plan, front, j);
  }

  /** Exactly: where listed groups list occurrences only, no selection ever leaves a group or
      a handed-over reference dangling if and only if every listed group is empty, or comes
      before the group that lists it and has a single member. */
  lemma DanglesExactly(groups: seq<Json>)
    requires DistinctGroups(groups) && Shallow(groups)
    ensures Sheltered(groups) <==> forall removed :: Unbroken(removed, groups)
  {
    if Sheltered(groups) {
      forall removed ensures Unbroken(removed, groups) {
        ShelteredIsUnbroken(removed, groups);
      }
    } else {
      var i, j :| 0 <= i < |groups| && 0 <= j < |groups| && Prop(groups[j], ID) in List(groups[i], IDS)
                  && List(groups[j], IDS) != [] && !(j < i && |List(groups[j], IDS)| <= 1);
      assert groups[j] in groups && Prop(groups[j], ID) in GroupIds(groups);
      if i < j {
        LaterGroupDangles(groups, i, j);
      } else if j < i {
        EarlierGroupDangles(groups, i, j);
      }
    }
  }
}
