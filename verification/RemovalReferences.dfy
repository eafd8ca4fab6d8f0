/** What becomes of a reference when what it names is removed, stays, or is a group that lost
    members. A group that is cut to one member hands its references to that one, and a group
    that keeps more keeps them, unless the group was itself selected: it then still counts as
    removed, and references to it are lost although it, or its last member, is there. */
module RemovalReferences {
  import opened Wrappers
  import opened JsonValues
  import opened Sequences
  import opened Reinsertion
  import opened TimelineMerge
  import opened RemovalPlan
  import opened RemovalPlanLaws

  /** Groups as the program writes them: distinct identifiers, occurrences as members. */
  ghost predicate WellGrouped(groups: seq<Json>) {
    Distinct(Ids(By(ById), groups)) && Flat(groups)
  }

  function PlanOf(removed: set<Json>, groups: seq<Json>): Plan {
    PlanGroups(Plan([], removed, map[]), groups)
  }

  function FindGroup(groups: seq<Json>, id: Json): (r: Option<Json>)
    ensures r.Some? ==> r.value in groups && Prop(r.value, ID) == id
    ensures r.None? ==> forall g :: g in groups ==> Prop(g, ID) != id
  {
    if groups == [] then None
    else if Prop(groups[0], ID) == id then Some(groups[0])
    else FindGroup(groups[1..], id)
  }

  /** The members that stay. */
  function Left(removed: set<Json>, group: Json): seq<Json> {
    Without(List(group, IDS), removed)
  }

  predicate Lost(removed: set<Json>, group: Json) {
    |Left(removed, group)| < |List(group, IDS)|
  }

  // ---- where references should go

  /** Where a reference to `target` should lead: nowhere when the occurrence, or every member
      of the group, is gone; to the last member of a group that is cut to one; else where it
      leads now. */
  function Fate(removed: set<Json>, groups: seq<Json>, target: Json): Option<Json> {
    var group := FindGroup(groups, target);
    if group.None? then (if target in removed then None else Some(target))
    else if !Lost(removed, group.value) then Some(target)
    else
      var left := Left(removed, group.value);
      if left == [] then None else if |left| == 1 then Some(left[0]) else Some(target)
  }

  /** A group that keeps some of its members but was itself selected. */
  predicate Forgotten(removed: set<Json>, groups: seq<Json>, target: Json) {
    var group := FindGroup(groups, target);
    group.Some? && Lost(removed, group.value) && Left(removed, group.value) != [] && target in removed
  }

  /** Forgotten, and still a group. */
  predicate ForgottenGroup(removed: set<Json>, groups: seq<Json>, target: Json) {
    Forgotten(removed, groups, target) && Fate(removed, groups, target) == Some(target)
  }

  function Follow(link: Json, to: Json): Json {
    if to == Prop(link, TARGET_ID) then link else With(link, TARGET_ID, to)
  }

  /** The links with each reference led where it should go. */
  function FollowLinks(removed: set<Json>, groups: seq<Json>, links: seq<Json>): seq<Json> {
    if links == [] then []
    else
      var fate := Fate(removed, groups, Prop(links[0], TARGET_ID));
      (if fate.Some? then [Follow(links[0], fate.value)] else []) + FollowLinks(removed, groups, links[1..])
  }

  /** The note with all its references led where they should go; a note whose own occurrence
      is gone moves to its first link, or goes too. */
  function FollowNote(removed: set<Json>, groups: seq<Json>, note: Json): Planned {
    var next :=
      if Truthy(Prop(note, LINKS)) then With(note, LINKS, Arr(FollowLinks(removed, groups, List(note, LINKS))))
      else note;
    var anchor := Prop(note, ANCHOR);
    var fate := Fate(removed, groups, anchor);
    if fate.Some? then Kept(if fate.value == anchor then next else With(next, ANCHOR, fate.value))
    else
      var links := List(next, LINKS);
      if links == [] then Dropped
      else
        var moved := With(With(next, LINKS, Arr(links[1..])), ANCHOR, Prop(links[0], TARGET_ID));
        Kept(TakeLooks(moved, links[0], LOOKS))
  }

  // ---- what the plan knows of an identifier

  /** Which identifiers count as removed, and which are handed over, groups included. */
  lemma PlanKnows(removed: set<Json>, groups: seq<Json>, target: Json)
    requires WellGrouped(groups)
    ensures var plan, fate := PlanOf(removed, groups), Fate(removed, groups, target);
            && (target in plan.removed <==> fate.None? || Forgotten(removed, groups, target))
            && (target in plan.retarget <==> fate.Some? && fate.value != target)
            && (target in plan.retarget ==> plan.retarget[target] == fate.value)
  {
    var start, found := Plan([], removed, map[]), FindGroup(groups, target);
    if found.None? {
      PlanGroupsRemoved(start, groups, target);
    } else {
      var group := found.value;
      GroupOutcome(start, groups, group);
      if |Left(removed, group)| == 1 {
        assert Left(removed, group)[0] in List(group, IDS);
        assert Left(removed, group)[0] in MemberIds(groups) && target in GroupIds(groups);
      }
    }
  }

  /** What a removal makes of an identifier, whoever carries it. One that no group has counts as
      removed exactly when it was selected (or its entry was), no remaining row carries it and
      it is not the run of a remaining row. A group's does when the group lost members and
      either none is left or the group was selected in the same way. */
  lemma RemovedExactly(selected: set<Text>, entryIds: set<Text>, remaining: set<Text>, groups: seq<Json>, id: Text)
    requires WellGrouped(groups)
    ensures var removed := RemovedIds(selected, entryIds, remaining);
            var named := && (id in selected || id in entryIds) && id !in remaining
                         && forall rest :: rest in remaining ==> id != Ascii("a:") + rest;
            var group := FindGroup(groups, Str(id));
            && (Str(id) in removed <==> named)
            && (Str(id) in PlanOf(removed, groups).removed <==>
                  if group.None? then named
                  else Lost(removed, group.value) && (Left(removed, group.value) == [] || named))
  {
    var removed := RemovedIds(selected, entryIds, remaining);
    OccurrenceRemoved(selected, entryIds, remaining, [], id);
    PlanKnows(removed, groups, Str(id));
  }

  // ---- links

  /** Links lead where they should, all of them, if and only if none names a forgotten group;
      otherwise the links that do are missing. */
  lemma {:induction false} LinksFollow(removed: set<Json>, groups: seq<Json>, links: seq<Json>)
    requires WellGrouped(groups)
    ensures var planned, followed := PlanLinks(links, PlanOf(removed, groups)), FollowLinks(removed, groups, links);
            && |planned| <= |followed|
            && (planned == followed <==> forall link <- links :: !Forgotten(removed, groups, Prop(link, TARGET_ID)))
            && (planned != followed ==> |planned| < |followed|)
    decreases |links|
  {
    if links != [] {
      LinksFollow(removed, groups, links[1..]);
      PlanKnows(removed, groups, Prop(links[0], TARGET_ID));
      assert forall link :: link in links <==> link == links[0] || link in links[1..];
      var planned := PlanLinks(links[1..], PlanOf(removed, groups));
      var followed := FollowLinks(removed, groups, links[1..]);
      if Fate(removed, groups, Prop(links[0], TARGET_ID)).Some?
         && !Forgotten(removed, groups, Prop(links[0], TARGET_ID)) {
        var link := RetargetLink(links[0], PlanOf(removed, groups).retarget);
        assert ([link] + planned)[1..] == planned && ([link] + followed)[1..] == followed;
      } else {
        assert [] + planned == planned && [] + followed == followed;
      }
    }
  }

  // ---- notes

  /** The parts of a followed note, as `PlanNoteParts` reads those of a planned one. */
  lemma FollowNoteParts(removed: set<Json>, groups: seq<Json>, note: Json)
    ensures var followed := FollowNote(removed, groups, note);
            var links := if Truthy(Prop(note, LINKS)) then FollowLinks(removed, groups, List(note, LINKS))
                         else List(note, LINKS);
            var fate := Fate(removed, groups, Prop(note, ANCHOR));
            && (followed.Dropped? <==> fate.None? && links == [])
            && (followed.Kept? ==>
                  if fate.Some? then Prop(followed.note, ANCHOR) == fate.value && List(followed.note, LINKS) == links
                  else links != [] && Prop(followed.note, ANCHOR) == Prop(links[0], TARGET_ID)
                       && List(followed.note, LINKS) == links[1..])
  {
    assert |ANCHOR| == 6 && |LINKS| == 5;
    var linked := Arr(FollowLinks(removed, groups, List(note, LINKS)));
    var next := if Truthy(Prop(note, LINKS)) then With(note, LINKS, linked) else note;
    WithProp(note, LINKS, linked, LINKS);
    WithProp(note, LINKS, linked, ANCHOR);
    var fate := Fate(removed, groups, Prop(note, ANCHOR));
    if fate.Some? {
      WithProp(next, ANCHOR, fate.value, ANCHOR);
      WithProp(next, ANCHOR, fate.value, LINKS);
    } else if List(next, LINKS) != [] {
      PromotedParts(next, List(next, LINKS));
    }
  }

  ghost predicate Followed(removed: set<Json>, groups: seq<Json>, note: Json) {
    PlanNote(note, PlanOf(removed, groups)) == FollowNote(removed, groups, note)
  }

  /** No link of the note names a forgotten group, and its anchor names no forgotten group that
      is still one. */
  ghost predicate Remembered(removed: set<Json>, groups: seq<Json>, note: Json) {
    && (forall link <- List(note, LINKS) :: !Forgotten(removed, groups, Prop(link, TARGET_ID)))
    && !ForgottenGroup(removed, groups, Prop(note, ANCHOR))
  }

  lemma PlannedLinkKept(links: seq<Json>, plan: Plan, i: nat)
    requires i < |PlanLinks(links, plan)| && CleanTargets(plan)
    ensures Prop(PlanLinks(links, plan)[i], TARGET_ID) !in plan.removed
  {
    PlanLinksClean(links, plan);
    assert PlanLinks(links, plan)[i] in PlanLinks(links, plan);
  }

  /** The plan leads every reference of a note where it should go, and drops the note only if
      it should, if and only if no link names a selected group that keeps members, and the
      anchor names no selected group that keeps two or more. */
  lemma NoteFollows(removed: set<Json>, groups: seq<Json>, note: Json)
    requires WellGrouped(groups)
    ensures Followed(removed, groups, note) <==> Remembered(removed, groups, note)
  {
    var plan, anchor := PlanOf(removed, groups), Prop(note, ANCHOR);
    FlatGroupsClean(removed, groups);
    LinksFollow(removed, groups, List(note, LINKS));
    PlanKnows(removed, groups, anchor);
    if Remembered(removed, groups, note) {
      SameNote(removed, groups, note);
    } else {
      OtherNote(removed, groups, note);
    }
  }

  lemma SameNote(removed: set<Json>, groups: seq<Json>, note: Json)
    requires WellGrouped(groups) && Remembered(removed, groups, note)
    ensures Followed(removed, groups, note)
  {
    LinksFollow(removed, groups, List(note, LINKS));
    PlanKnows(removed, groups, Prop(note, ANCHOR));
  }

  lemma OtherNote(removed: set<Json>, groups: seq<Json>, note: Json)
    requires WellGrouped(groups) && !Remembered(removed, groups, note)
    ensures !Followed(removed, groups, note)
  {
    var plan, anchor := PlanOf(removed, groups), Prop(note, ANCHOR);
    var links := PlanLinks(List(note, LINKS), plan);
    FlatGroupsClean(removed, groups);
    LinksFollow(removed, groups, List(note, LINKS));
    PlanKnows(removed, groups, anchor);
    PlanNoteParts(note, plan);
    FollowNoteParts(removed, groups, note);
    if !Truthy(Prop(note, LINKS)) {
      assert List(note, LINKS) == [];
    }
    if ForgottenGroup(removed, groups, anchor) && links != [] {
      PlannedLinkKept(List(note, LINKS), plan, 0);
    }
  }

  /** References always follow, those of every note there could be, if and only if no group
      that keeps some of its lost membership was itself selected. */
  lemma ReferencesFollow(removed: set<Json>, groups: seq<Json>)
    requires WellGrouped(groups)
    ensures (forall note :: Followed(removed, groups, note)) <==>
              forall g <- groups :: !Forgotten(removed, groups, Prop(g, ID))
  {
    if g :| g in groups && Forgotten(removed, groups, Prop(g, ID)) {
      var link := Obj([Field(TARGET_ID, Prop(g, ID))]);
      var note := Obj([Field(LINKS, Arr([link]))]);
      assert List(note, LINKS) == [link] && Prop(link, TARGET_ID) == Prop(g, ID);
      assert link in List(note, LINKS);
      NoteFollows(removed, groups, note);
      assert !Followed(removed, groups, note);
    } else {
      forall note ensures Followed(removed, groups, note) {
        NoteFollows(removed, groups, note);
      }
    }
  }

  /** A reference that is followed leads to something that stays: an occurrence that is not
      removed, or a group that is still in the plan. */
  lemma FateStays(removed: set<Json>, groups: seq<Json>, target: Json)
    requires WellGrouped(groups)
    ensures var fate, plan := Fate(removed, groups, target), PlanOf(removed, groups);
            fate.Some? ==>
              || (fate.value !in GroupIds(groups) && fate.value !in plan.removed)
              || (exists g :: g in plan.groups && Prop(g, ID) == fate.value)
  {
    var start, found := Plan([], removed, map[]), FindGroup(groups, target);
    if found.None? {
      PlanGroupsRemoved(start, groups, target);
    } else {
      var group, left := found.value, Left(removed, found.value);
      GroupOutcome(start, groups, group);
      WithList(group, left);
      if |left| == 1 && Lost(removed, group) {
        assert left[0] in List(group, IDS) && left[0] in MemberIds(groups);
        PlanGroupsRemoved(start, groups, left[0]);
      }
    }
  }

  // ---- the two inputs

  function Group(id: Text, ids: seq<Json>): Json {
    Obj([Field(ID, Str(id)), Field(IDS, Arr(ids))])
  }

  function Link(target: Text): Json {
    Obj([Field(TARGET_ID, Str(target))])
  }

  function AnchoredNote(anchor: Text): Json {
    Obj([Field(ANCHOR, Str(anchor))])
  }

  lemma OneGroup(id: Text, ids: seq<Json>)
    requires Str(id) !in ids
    ensures WellGrouped([Group(id, ids)]) && FindGroup([Group(id, ids)], Str(id)) == Some(Group(id, ids))
    ensures List(Group(id, ids), IDS) == ids && Prop(Group(id, ids), ID) == Str(id)
  {
    ReadRecord(id, ids);
    var groups := [Group(id, ids)];
    assert forall g <- groups :: g == groups[0];
  }

  lemma PlanOne(plan: Plan, group: Json)
    ensures PlanGroups(plan, [group]) == PlanGroup(plan, group)
  {
    assert [group][1..] == [];
    assert PlanGroups(plan, [group]) == PlanGroups(PlanGroup(plan, group), []);
  }

  /** Selected with all members but one, a group hands its anchored notes over, but the links
      to it are lost. */
  lemma CutGroupLosesLinks(g: Text, x: Text, a: Text, b: Text)
    requires g != x && g != a && g != b && x != a && x != b
    ensures var groups, removed := [Group(g, [Str(x), Str(a), Str(b)])], {Str(a), Str(b), Str(g)};
            var plan := PlanOf(removed, groups);
            && plan.retarget == map[Str(g) := Str(x)] && Str(g) in plan.removed
            && PlanLinks([Link(g)], plan) == []
            && FollowLinks(removed, groups, [Link(g)]) == [With(Link(g), TARGET_ID, Str(x))]
  {
    var ids := [Str(x), Str(a), Str(b)];
    var groups, removed := [Group(g, ids)], {Str(a), Str(b), Str(g)};
    OneGroup(g, ids);
    assert ids[1..] == [Str(a), Str(b)] && ids[1..][1..] == [Str(b)] && ids[1..][1..][1..] == [];
    assert Without([Str(b)], removed) == [] && Without([Str(a), Str(b)], removed) == [];
    assert Left(removed, groups[0]) == [Str(x)];
    var start := Plan([], removed, map[]);
    PlanOne(start, groups[0]);
    assert [Link(g)][1..] == [];
  }

  /** Selected with some of its members, a group that keeps two is still there, and a note on
      it without links is dropped. */
  lemma ShortGroupDropsNotes(g: Text, x: Text, y: Text, a: Text)
    requires g != x && g != y && g != a && x != a && y != a
    ensures var groups, removed := [Group(g, [Str(x), Str(y), Str(a)])], {Str(a), Str(g)};
            var plan := PlanOf(removed, groups);
            && plan.groups == [With(groups[0], IDS, Arr([Str(x), Str(y)]))] && Str(g) in plan.removed
            && PlanNote(AnchoredNote(g), plan) == Dropped
            && FollowNote(removed, groups, AnchoredNote(g)) == Kept(AnchoredNote(g))
  {
    var ids := [Str(x), Str(y), Str(a)];
    var groups, removed := [Group(g, ids)], {Str(a), Str(g)};
    OneGroup(g, ids);
    assert ids[1..] == [Str(y), Str(a)] && ids[1..][1..] == [Str(a)] && ids[1..][1..][1..] == [];
    assert Without([Str(a)], removed) == [] && Without([Str(y), Str(a)], removed) == [Str(y)];
    assert Left(removed, groups[0]) == [Str(x), Str(y)];
    var start := Plan([], removed, map[]);
    PlanOne(start, groups[0]);
    ReadAnchored(g);
  }

  lemma ReadAnchored(anchor: Text)
    ensures Prop(AnchoredNote(anchor), ANCHOR) == Str(anchor) && Prop(AnchoredNote(anchor), LINKS) == Undefined
  {
    assert |ANCHOR| == 6 && |LINKS| == 5;
    var fields := AnchoredNote(anchor).fields;
    assert fields[0].key != LINKS && fields[1..] == [];
    assert Get(fields, LINKS) == Get(fields[1..], LINKS);
  }
}
