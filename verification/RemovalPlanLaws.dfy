/** The removal plan leaves no dangling reference, and is the kind of change that the
    timeline merge can take back exactly. */
module RemovalPlanLaws {
  import opened JsonValues
  import opened Sequences
  import opened Reinsertion
  import opened TimelineMerge
  import opened TimelineMergeLaws
  import opened RemovalPlan

  ghost function GroupIds(groups: seq<Json>): set<Json> {
    set g | g in groups :: Prop(g, ID)
  }

  ghost function MemberIds(groups: seq<Json>): set<Json> {
    set g, m | g in groups && m in List(g, IDS) :: m
  }

  /** Groups hold occurrences, never other groups. */
  ghost predicate Flat(groups: seq<Json>) {
    GroupIds(groups) !! MemberIds(groups)
  }

  // ---- groups

  /** What every step over the groups keeps. */
  ghost predicate Sound(plan: Plan, ids: set<Json>, members: set<Json>) {
    && (forall g <- plan.groups, m <- List(g, IDS) :: m in members && m !in plan.removed)
    && (forall k <- plan.retarget :: k in ids && plan.retarget[k] in members && plan.retarget[k] !in plan.removed)
  }

  lemma WithList(group: Json, left: seq<Json>)
    ensures List(With(group, IDS, Arr(left)), IDS) == left
    ensures Prop(With(group, IDS, Arr(left)), ID) == Prop(group, ID)
  {
    WithProp(group, IDS, Arr(left), IDS);
    WithProp(group, IDS, Arr(left), ID);
    assert |IDS| == 3 && |ID| == 2;
  }

  lemma PlanGroupSound(plan: Plan, group: Json, ids: set<Json>, members: set<Json>)
    requires Sound(plan, ids, members) && ids !! members
    requires Prop(group, ID) in ids && forall m <- List(group, IDS) :: m in members
    ensures Sound(PlanGroup(plan, group), ids, members)
  {
    var left := Without(List(group, IDS), plan.removed);
    WithList(group, left);
    var next := PlanGroup(plan, group);
    forall g <- next.groups, m <- List(g, IDS) ensures m in members && m !in next.removed {
      if g !in plan.groups {
        assert List(g, IDS) == left;
      }
    }
  }

  lemma {:induction false} PlanGroupsSound(plan: Plan, groups: seq<Json>, ids: set<Json>, members: set<Json>)
    requires Sound(plan, ids, members) && ids !! members
    requires GroupIds(groups) <= ids && MemberIds(groups) <= members
    ensures Sound(PlanGroups(plan, groups), ids, members)
    decreases |groups|
  {
    if groups != [] {
      assert groups[0] in groups;
      assert Prop(groups[0], ID) in GroupIds(groups);
      assert forall m <- List(groups[0], IDS) :: m in MemberIds(groups);
      assert forall g <- groups[1..] :: g in groups;
      PlanGroupSound(plan, groups[0], ids, members);
      PlanGroupsSound(PlanGroup(plan, groups[0]), groups[1..], ids, members);
    }
  }

  // ---- notes

  ghost predicate Clean(target: Json, plan: Plan) {
    target !in plan.removed && target !in plan.retarget
  }

  ghost predicate CleanLinks(links: seq<Json>, plan: Plan) {
    forall link <- links :: Clean(Prop(link, TARGET_ID), plan)
  }

  /** A note none of whose references points at something that went away. */
  ghost predicate CleanNote(note: Json, plan: Plan) {
    Clean(Prop(note, ANCHOR), plan) && CleanLinks(List(note, LINKS), plan)
  }

  ghost predicate CleanTargets(plan: Plan) {
    forall k <- plan.retarget :: Clean(plan.retarget[k], plan)
  }

  lemma {:induction false} PlanLinksClean(links: seq<Json>, plan: Plan)
    requires CleanTargets(plan)
    ensures CleanLinks(PlanLinks(links, plan), plan)
    decreases |links|
  {
    if links != [] {
      PlanLinksClean(links[1..], plan);
      var target := Prop(links[0], TARGET_ID);
      if target in plan.retarget {
        WithProp(links[0], TARGET_ID, plan.retarget[target], TARGET_ID);
      }
    }
  }

  lemma LookNames()
    ensures |LOOKS| == 5
    ensures forall name <- LOOKS :: name != ANCHOR && name != LINKS && name != ID
  {
    assert |ANCHOR| == 6 && |LINKS| == 5 && |ID| == 2;
    assert LINKS[0] == 108;
    assert LOOKS[0][0] == 97 && |LOOKS[1]| == 9 && LOOKS[2][0] == 99 && LOOKS[3][0] == 99 && |LOOKS[4]| == 9;
    assert |LOOKS[0]| == 5 && |LOOKS[2]| == 5 && |LOOKS[3]| == 5;
  }

  lemma {:induction false} TakeLooksKeeps(note: Json, link: Json, names: seq<Text>, key: Text)
    requires key !in names
    ensures Prop(TakeLooks(note, link, names), key) == Prop(note, key)
    decreases |names|
  {
    if names != [] {
      WithProp(note, names[0], Prop(link, names[0]), key);
      TakeLooksKeeps(With(note, names[0], Prop(link, names[0])), link, names[1..], key);
    }
  }

  /** Reading the parts of a planned note. */
  lemma PlanNoteParts(note: Json, plan: Plan)
    ensures var planned := PlanNote(note, plan);
            var links := if Truthy(Prop(note, LINKS)) then PlanLinks(List(note, LINKS), plan) else List(note, LINKS);
            var anchor := Prop(note, ANCHOR);
            && (planned.Dropped? <==> anchor !in plan.retarget && anchor in plan.removed && links == [])
            && (planned.Kept? ==>
                  && Prop(planned.note, ID) == Prop(note, ID)
                  && if anchor in plan.retarget then
                       Prop(planned.note, ANCHOR) == plan.retarget[anchor] && List(planned.note, LINKS) == links
                     else if anchor in plan.removed then
                       Prop(planned.note, ANCHOR) == Prop(links[0], TARGET_ID)
                       && List(planned.note, LINKS) == links[1..]
                     else Prop(planned.note, ANCHOR) == anchor && List(planned.note, LINKS) == links)
  {
    assert |ANCHOR| == 6 && |LINKS| == 5 && |ID| == 2;
    var linked := Arr(PlanLinks(List(note, LINKS), plan));
    var next := if Truthy(Prop(note, LINKS)) then With(note, LINKS, linked) else note;
    WithProp(note, LINKS, linked, LINKS);
    WithProp(note, LINKS, linked, ANCHOR);
    WithProp(note, LINKS, linked, ID);
    var anchor := Prop(note, ANCHOR);
    if anchor in plan.retarget {
      var to := plan.retarget[anchor];
      WithProp(next, ANCHOR, to, ANCHOR);
      WithProp(next, ANCHOR, to, LINKS);
      WithProp(next, ANCHOR, to, ID);
    } else if anchor in plan.removed && List(next, LINKS) != [] {
      PromotedParts(next, List(next, LINKS));
    }
  }

  lemma PromotedParts(next: Json, links: seq<Json>)
    requires links != []
    ensures var moved := With(With(next, LINKS, Arr(links[1..])), ANCHOR, Prop(links[0], TARGET_ID));
            var note := TakeLooks(moved, links[0], LOOKS);
            && Prop(note, ANCHOR) == Prop(links[0], TARGET_ID)
            && Prop(note, LINKS) == Arr(links[1..])
            && Prop(note, ID) == Prop(next, ID)
  {
    assert |ANCHOR| == 6 && |LINKS| == 5 && |ID| == 2;
    LookNames();
    var shifted := With(next, LINKS, Arr(links[1..]));
    var moved := With(shifted, ANCHOR, Prop(links[0], TARGET_ID));
    forall key | key == ANCHOR || key == LINKS || key == ID
      ensures Prop(TakeLooks(moved, links[0], LOOKS), key) == Prop(moved, key)
    {
      TakeLooksKeeps(moved, links[0], LOOKS, key);
    }
    WithProp(shifted, ANCHOR, Prop(links[0], TARGET_ID), ANCHOR);
    WithProp(shifted, ANCHOR, Prop(links[0], TARGET_ID), LINKS);
    WithProp(shifted, ANCHOR, Prop(links[0], TARGET_ID), ID);
    WithProp(next, LINKS, Arr(links[1..]), LINKS);
    WithProp(next, LINKS, Arr(links[1..]), ID);
  }

  lemma PlanNoteClean(note: Json, plan: Plan)
    requires CleanTargets(plan)
    ensures var planned := PlanNote(note, plan); planned.Kept? ==> CleanNote(planned.note, plan)
  {
    PlanNoteParts(note, plan);
    PlanLinksClean(List(note, LINKS), plan);
    if !Truthy(Prop(note, LINKS)) {
      assert List(note, LINKS) == [];
    }
  }

  lemma {:induction false} PlanNotesClean(notes: seq<Json>, plan: Plan)
    requires CleanTargets(plan)
    ensures forall note <- PlanNotes(notes, plan) :: CleanNote(note, plan)
    decreases |notes|
  {
    if notes != [] {
      PlanNoteClean(notes[0], plan);
      PlanNotesClean(notes[1..], plan);
    }
  }

  /** No dangling references. With groups that hold occurrences only, no member of a
      remaining group, no anchor and no link target of a remaining note names a removed
      identifier or a group that is gone; what a cut group hands its references to is one
      of the members it had, and stays. */
  lemma NoDanglingReferences(removed: set<Json>, groups: seq<Json>, notes: seq<Json>)
    requires Flat(groups)
    ensures var plan := PlanGroups(Plan([], removed, map[]), groups);
            && (forall g <- plan.groups, m <- List(g, IDS) :: Clean(m, plan))
            && (forall note <- PlanNotes(notes, plan) :: CleanNote(note, plan))
            && (forall k <- plan.retarget :: Clean(plan.retarget[k], plan) && plan.retarget[k] in MemberIds(groups))
  {
    FlatGroupsClean(removed, groups);
    PlanNotesClean(notes, PlanGroups(Plan([], removed, map[]), groups));
  }

  /** The groups' part: nothing that they list, or hand their references to, went away. */
  lemma FlatGroupsClean(removed: set<Json>, groups: seq<Json>)
    requires Flat(groups)
    ensures var plan := PlanGroups(Plan([], removed, map[]), groups);
            && (forall g <- plan.groups, m <- List(g, IDS) :: Clean(m, plan))
            && CleanTargets(plan) && forall k <- plan.retarget :: plan.retarget[k] in MemberIds(groups)
  {
    PlanGroupsSound(Plan([], removed, map[]), groups, GroupIds(groups), MemberIds(groups));
  }

  /** Flatness is needed: a group that lists a later group keeps the reference when that
      group loses its only occurrence. */
  lemma NestedGroupDangles(outer: Text, inner: Text, a: Text, b: Text)
    requires outer != inner && a !in {outer, inner, b} && b != inner
    ensures var record := (id: Text, ids: seq<Json>) => Obj([Field(ID, Str(id)), Field(IDS, Arr(ids))]);
            var groups := [record(outer, [Str(inner), Str(b)]), record(inner, [Str(a)])];
            var plan := PlanGroups(Plan([], {Str(a)}, map[]), groups);
            plan.groups == [groups[0]] && Str(inner) in List(groups[0], IDS) && Str(inner) in plan.removed
  {
    assert |IDS| == 3 && |ID| == 2;
    var record := (id: Text, ids: seq<Json>) => Obj([Field(ID, Str(id)), Field(IDS, Arr(ids))]);
    var g0, g1 := record(outer, [Str(inner), Str(b)]), record(inner, [Str(a)]);
    var start := Plan([], {Str(a)}, map[]);
    ReadRecord(outer, [Str(inner), Str(b)]);
    ReadRecord(inner, [Str(a)]);
    assert [Str(inner), Str(b)][1..] == [Str(b)] && [Str(b)][1..] == [];
    assert Without([Str(b)], {Str(a)}) == [Str(b)];
    assert Without([Str(inner), Str(b)], {Str(a)}) == [Str(inner), Str(b)];
    var first := PlanGroup(start, g0);
    assert first.groups == [g0] && Str(a) in first.removed && Str(inner) !in first.removed;
    assert [Str(a)][1..] == [];
    assert Without([Str(a)], first.removed) == [];
    var last := PlanGroup(first, g1);
    assert last.groups == [g0] && Str(inner) in last.removed;
    assert [g0, g1][1..] == [g1] && [g1][1..] == [];
    assert PlanGroups(start, [g0, g1]) == PlanGroups(first, [g1]) == PlanGroups(last, []) == last;
  }

  lemma ReadRecord(id: Text, ids: seq<Json>)
    ensures var r := Obj([Field(ID, Str(id)), Field(IDS, Arr(ids))]);
            Prop(r, ID) == Str(id) && Prop(r, IDS) == Arr(ids)
  {
    assert |IDS| == 3 && |ID| == 2;
    var fields := [Field(ID, Str(id)), Field(IDS, Arr(ids))];
    assert fields[1..] == [Field(IDS, Arr(ids))];
    assert Get(fields[1..], IDS) == Arr(ids);
    assert fields[0].key != IDS;
  }

  // ---- what became of each group and identifier

  /** Identifiers that are not groups are removed exactly as selected. */
  lemma {:induction false} PlanGroupsRemoved(plan: Plan, groups: seq<Json>, x: Json)
    requires x !in GroupIds(groups)
    ensures x in PlanGroups(plan, groups).removed <==> x in plan.removed
    ensures x in PlanGroups(plan, groups).retarget <==> x in plan.retarget
    ensures x in plan.retarget ==> PlanGroups(plan, groups).retarget[x] == plan.retarget[x]
    decreases |groups|
  {
    if groups != [] {
      assert groups[0] in groups && Prop(groups[0], ID) in GroupIds(groups);
      forall y <- GroupIds(groups[1..]) ensures y in GroupIds(groups) {
        var g :| g in groups[1..] && Prop(g, ID) == y;
        assert g in groups;
      }
      PlanGroupsRemoved(PlanGroup(plan, groups[0]), groups[1..], x);
    }
  }

  /** An occurrence counts as removed exactly when it was selected (or its entry was), no
      remaining row carries it, and it is not the automatic run of a remaining row. */
  lemma OccurrenceRemoved(selected: set<Text>, entryIds: set<Text>, remaining: set<Text>, groups: seq<Json>, id: Text)
    requires Str(id) !in GroupIds(groups)
    ensures var plan := PlanGroups(Plan([], RemovedIds(selected, entryIds, remaining), map[]), groups);
            Str(id) in plan.removed <==>
              && (id in selected || id in entryIds)
              && id !in remaining
              && forall rest :: rest in remaining ==> id != Ascii("a:") + rest
  {
    var start := Plan([], RemovedIds(selected, entryIds, remaining), map[]);
    PlanGroupsRemoved(start, groups, Str(id));
    assert |Ascii("a:")| == 2;
    if Ascii("a:") <= id {
      assert id == Ascii("a:") + id[2..];
    }
    forall rest | rest in remaining && id == Ascii("a:") + rest ensures Ascii("a:") <= id && id[2..] == rest {
    }
  }

  lemma {:induction false} PlanGroupsKeeps(plan: Plan, groups: seq<Json>, g: Json)
    requires g in plan.groups
    ensures g in PlanGroups(plan, groups).groups
    decreases |groups|
  {
    if groups != [] {
      PlanGroupsKeeps(PlanGroup(plan, groups[0]), groups[1..], g);
    }
  }

  lemma {:induction false} WithoutAgree(list: seq<Json>, a: set<Json>, b: set<Json>)
    requires forall x <- list :: x in a <==> x in b
    ensures Without(list, a) == Without(list, b)
    decreases |list|
  {
    if list != [] {
      assert list[0] in list;
      assert forall x <- list[1..] :: x in list;
      WithoutAgree(list[1..], a, b);
    }
  }

  /** The fate of one group, whatever the groups around it: untouched, shortened in place,
      handed over to its one remaining member, or gone. Its own identifier counts as removed
      when it is gone, but also when it lost members and was itself selected. */
  lemma {:induction false} GroupOutcome(plan: Plan, groups: seq<Json>, group: Json)
    requires group in groups && Distinct(Ids(By(ById), groups)) && Flat(groups)
    ensures var members := List(group, IDS);
            var left := Without(members, plan.removed);
            var result := PlanGroups(plan, groups);
            && (|left| == |members| ==> group in result.groups)
            && (2 <= |left| < |members| ==> With(group, IDS, Arr(left)) in result.groups)
            && (1 == |left| < |members| ==>
                  Prop(group, ID) in result.retarget && result.retarget[Prop(group, ID)] == left[0])
            && (Prop(group, ID) in result.retarget <==> 1 == |left| < |members| || Prop(group, ID) in plan.retarget)
            && (Prop(group, ID) in result.removed <==>
                  |left| < |members| && (left == [] || Prop(group, ID) in plan.removed))
    decreases |groups|
  {
    if group == groups[0] {
      FirstOutcome(plan, groups);
    } else {
      LaterGroup(plan, groups, group);
      GroupOutcome(PlanGroup(plan, groups[0]), groups[1..], group);
    }
  }

  /** The first group leaves a later one as it finds it. */
  lemma LaterGroup(plan: Plan, groups: seq<Json>, group: Json)
    requires group in groups && group != groups[0] && Distinct(Ids(By(ById), groups)) && Flat(groups)
    ensures var next := PlanGroup(plan, groups[0]);
            && group in groups[1..] && Distinct(Ids(By(ById), groups[1..])) && Flat(groups[1..])
            && Without(List(group, IDS), next.removed) == Without(List(group, IDS), plan.removed)
            && (Prop(group, ID) in next.removed <==> Prop(group, ID) in plan.removed)
            && (Prop(group, ID) in next.retarget <==> Prop(group, ID) in plan.retarget)
  {
    LaterApart(groups, group);
    var next := PlanGroup(plan, groups[0]);
    assert groups[0] in groups && Prop(groups[0], ID) in GroupIds(groups);
    forall m <- List(group, IDS) ensures m in plan.removed <==> m in next.removed {
      assert m in MemberIds(groups);
    }
    WithoutAgree(List(group, IDS), plan.removed, next.removed);
  }

  lemma LaterApart(groups: seq<Json>, group: Json)
    requires group in groups && group != groups[0] && Distinct(Ids(By(ById), groups)) && Flat(groups)
    ensures group in groups[1..] && Prop(group, ID) != Prop(groups[0], ID)
    ensures Distinct(Ids(By(ById), groups[1..])) && Flat(groups[1..])
  {
    var ids, rest := Ids(By(ById), groups), groups[1..];
    IdsTail(By(ById), groups);
    var k :| 0 <= k < |rest| && rest[k] == group;
    assert ids[0] != ids[k + 1];
    TailFlat(groups);
  }

  /** The fate of the first group, which the later ones, with their own identifiers, keep. */
  lemma FirstOutcome(plan: Plan, groups: seq<Json>)
    requires groups != [] && Distinct(Ids(By(ById), groups))
    ensures var group, result := groups[0], PlanGroups(plan, groups);
            var members, left := List(group, IDS), Without(List(group, IDS), plan.removed);
            && (|left| == |members| ==> group in result.groups)
            && (2 <= |left| < |members| ==> With(group, IDS, Arr(left)) in result.groups)
            && (1 == |left| < |members| ==>
                  Prop(group, ID) in result.retarget && result.retarget[Prop(group, ID)] == left[0])
            && (Prop(group, ID) in result.retarget <==> 1 == |left| < |members| || Prop(group, ID) in plan.retarget)
            && (Prop(group, ID) in result.removed <==>
                  |left| < |members| && (left == [] || Prop(group, ID) in plan.removed))
  {
    var group, rest, next := groups[0], groups[1..], PlanGroup(plan, groups[0]);
    var left := Without(List(group, IDS), plan.removed);
    forall g <- rest ensures Prop(g, ID) != Prop(group, ID) {
      var k :| 0 <= k < |rest| && rest[k] == g;
      assert Ids(By(ById), groups)[0] != Ids(By(ById), groups)[k + 1];
    }
    PlanGroupsRemoved(next, rest, Prop(group, ID));
    if |left| == |List(group, IDS)| {
      assert next.groups[|plan.groups|] == group;
      PlanGroupsKeeps(next, rest, group);
    } else if |left| >= 2 {
      assert next.groups[|plan.groups|] == With(group, IDS, Arr(left));
      PlanGroupsKeeps(next, rest, With(group, IDS, Arr(left)));
    }
  }

  lemma TailFlat(groups: seq<Json>)
    requires groups != [] && Flat(groups)
    ensures Flat(groups[1..])
  {
    assert forall g <- groups[1..] :: g in groups;
    assert GroupIds(groups[1..]) <= GroupIds(groups);
    assert MemberIds(groups[1..]) <= MemberIds(groups);
  }

  // ---- the plan is a change the merge can take back

  lemma PlanGroupPiece(plan: Plan, group: Json) returns (piece: seq<Json>)
    ensures PlanGroup(plan, group).groups == plan.groups + piece
    ensures piece == [] || (|piece| == 1 && Prop(piece[0], ID) == Prop(group, ID))
  {
    var left := Without(List(group, IDS), plan.removed);
    WithList(group, left);
    piece := if |left| == |List(group, IDS)| then [group]
             else if |left| >= 2 then [With(group, IDS, Arr(left))]
             else [];
  }

  /** One more group in front: its own identity, or nothing. */
  lemma IdsInFront(piece: seq<Json>, later: seq<Json>, group: Json, rest: seq<Json>)
    requires piece == [] || (|piece| == 1 && Prop(piece[0], ID) == Prop(group, ID))
    requires Subsequence(Ids(By(ById), later), Ids(By(ById), rest))
    ensures Subsequence(Ids(By(ById), piece + later), Ids(By(ById), [group] + rest))
  {
    var ids, all := Ids(By(ById), piece + later), Ids(By(ById), [group] + rest);
    IdsConcat(By(ById), piece, later);
    IdsConcat(By(ById), [group], rest);
    assert all[1..] == Ids(By(ById), rest);
    if piece != [] {
      assert ids[0] == all[0] && ids[1..] == Ids(By(ById), later);
    } else {
      assert ids == Ids(By(ById), later);
      SkipFirst(ids, all);
    }
  }

  lemma {:induction false} PlanGroupsIds(plan: Plan, groups: seq<Json>) returns (tail: seq<Json>)
    ensures PlanGroups(plan, groups).groups == plan.groups + tail
    ensures Subsequence(Ids(By(ById), tail), Ids(By(ById), groups))
    decreases |groups|
  {
    if groups == [] {
      tail := [];
    } else {
      var group, rest := groups[0], groups[1..];
      var next := PlanGroup(plan, group);
      assert PlanGroups(plan, groups) == PlanGroups(next, rest);
      var piece := PlanGroupPiece(plan, group);
      var later := PlanGroupsIds(next, rest);
      Rejoined(plan.groups, piece, later);
      IdsInFront(piece, later, group, rest);
      assert groups == [group] + rest;
      tail := piece + later;
    }
  }

  /** A subsequence of the tail is one of the whole. */
  lemma {:induction false} SkipFirst<T>(a: seq<T>, b: seq<T>)
    requires b != [] && Subsequence(a, b[1..])
    ensures Subsequence(a, b)
    decreases |b|, 0
  {
    if a != [] && a[0] == b[0] {
      DropFirst(a, b[1..]);
    }
  }

  lemma {:induction false} DropFirst<T>(a: seq<T>, b: seq<T>)
    requires a != [] && Subsequence(a, b)
    ensures Subsequence(a[1..], b)
    decreases |b|, 1
  {
    if a[0] == b[0] {
      SkipFirst(a[1..], b);
    } else {
      DropFirst(a, b[1..]);
      if a[1..] != [] && a[1] == b[0] {
        DropFirst(a[1..], b[1..]);
        assert a[1..][1..] == a[2..];
      }
    }
  }

  lemma {:induction false} PlanNotesIds(notes: seq<Json>, plan: Plan)
    ensures Subsequence(Ids(By(ById), PlanNotes(notes, plan)), Ids(By(ById), notes))
    decreases |notes|
  {
    if notes != [] {
      var planned := PlanNote(notes[0], plan);
      var later := PlanNotes(notes[1..], plan);
      PlanNotesIds(notes[1..], plan);
      PlanNoteParts(notes[0], plan);
      IdsTail(By(ById), notes);
      if planned.Kept? {
        IdsTail(By(ById), [planned.note] + later);
        assert ([planned.note] + later)[1..] == later;
      } else {
        assert PlanNotes(notes, plan) == later;
        SkipFirst(Ids(By(ById), later), Ids(By(ById), notes));
      }
    }
  }

  /** Both lists the plan produces keep the identities they keep in order. */
  lemma PlanOnlyDeletes(removed: set<Json>, groups: seq<Json>, notes: seq<Json>)
    ensures var plan := PlanGroups(Plan([], removed, map[]), groups);
            && Subsequence(Ids(By(ById), plan.groups), Ids(By(ById), groups))
            && Subsequence(Ids(By(ById), PlanNotes(notes, plan)), Ids(By(ById), notes))
  {
    var plan := PlanGroups(Plan([], removed, map[]), groups);
    var tail := PlanGroupsIds(Plan([], removed, map[]), groups);
    assert [] + tail == tail;
    PlanNotesIds(notes, plan);
  }

  // ---- a look that a rollback cannot give back

  lemma {:induction false} TakeLooksReads(note: Json, link: Json, names: seq<Text>, key: Text)
    requires key in names && Distinct(names)
    ensures TakeLooks(note, link, names).Obj?
    ensures Has(TakeLooks(note, link, names).fields, key)
    ensures Prop(TakeLooks(note, link, names), key) == Prop(link, key)
    decreases |names|
  {
    var first := With(note, names[0], Prop(link, names[0]));
    WithProp(note, names[0], Prop(link, names[0]), names[0]);
    PutGet(if note.Obj? then note.fields else [], names[0], Prop(link, names[0]), names[0]);
    if key == names[0] {
      assert key !in names[1..];
      TakeLooksKeepsHas(first, link, names[1..], key);
      TakeLooksKeeps(first, link, names[1..], key);
    } else {
      TakeLooksReads(first, link, names[1..], key);
    }
  }

  lemma {:induction false} TakeLooksKeepsHas(note: Json, link: Json, names: seq<Text>, key: Text)
    requires note.Obj? && Has(note.fields, key)
    ensures TakeLooks(note, link, names).Obj? && Has(TakeLooks(note, link, names).fields, key)
    decreases |names|
  {
    if names != [] {
      PutGet(note.fields, names[0], Prop(link, names[0]), key);
      TakeLooksKeepsHas(With(note, names[0], Prop(link, names[0])), link, names[1..], key);
    }
  }

  lemma {:induction false} TakeLooksDistinct(note: Json, link: Json, names: seq<Text>)
    requires note.Obj? && DistinctKeys(note.fields)
    ensures TakeLooks(note, link, names).Obj? && DistinctKeys(TakeLooks(note, link, names).fields)
    decreases |names|
  {
    if names != [] {
      PutDistinct(note.fields, names[0], Prop(link, names[0]));
      TakeLooksDistinct(With(note, names[0], Prop(link, names[0])), link, names[1..]);
    }
  }

  /** A note whose anchor was removed takes the look of its first remaining link. Where that
      link has no such look the note is left with an own undefined field, and a rollback
      after any other edit of the note does not bring its look back, although nobody has
      changed what the JSON text says about it. */
  lemma LostLook(note: Json, plan: Plan, edited: Json, look: Text)
    requires look in LOOKS && note.Obj? && DistinctKeys(note.fields)
    requires Prop(note, ANCHOR) in plan.removed && Prop(note, ANCHOR) !in plan.retarget
    requires var links := PlanLinks(List(note, LINKS), plan); links != [] && Prop(links[0], look) == Undefined
    requires edited.Obj? && DistinctKeys(edited.fields)
    requires Has(edited.fields, look) && Get(edited.fields, look) == Undefined
    requires PlanNote(note, plan).Kept? && !Equal(edited, PlanNote(note, plan).note)
    ensures var left := Wire(PlanNote(note, plan).note);
            && Equal(Prop(edited, look), Prop(left, look))
            && Prop(RestoreFields(edited, left, Wire(note)), look) == Undefined
  {
    var planned := PlanNote(note, plan).note;
    TakenLook(note, plan, look);
    WireGet(planned.fields, look);
    WireIdempotent(planned);
    FieldLaw(edited, Wire(planned), Wire(note), look);
  }

  /** A note that a link takes over owns each look of that link, if only as undefined. */
  lemma TakenLook(note: Json, plan: Plan, look: Text)
    requires look in LOOKS && note.Obj? && DistinctKeys(note.fields)
    requires Prop(note, ANCHOR) in plan.removed && Prop(note, ANCHOR) !in plan.retarget
    requires PlanLinks(List(note, LINKS), plan) != [] && PlanNote(note, plan).Kept?
    ensures var planned := PlanNote(note, plan).note;
            && planned.Obj? && DistinctKeys(planned.fields) && Has(planned.fields, look)
            && Prop(planned, look) == Prop(PlanLinks(List(note, LINKS), plan)[0], look)
  {
    var links := PlanLinks(List(note, LINKS), plan);
    assert List(note, LINKS) != [];
    var next := With(note, LINKS, Arr(links));
    WithProp(note, LINKS, Arr(links), LINKS);
    PutDistinct(note.fields, LINKS, Arr(links));
    PutDistinct(next.fields, LINKS, Arr(links[1..]));
    var shifted := With(next, LINKS, Arr(links[1..]));
    PutDistinct(shifted.fields, ANCHOR, Prop(links[0], TARGET_ID));
    var moved := With(shifted, ANCHOR, Prop(links[0], TARGET_ID));
    assert TakeLooks(moved, links[0], LOOKS) == PlanNote(note, plan).note;
    LooksDistinct();
    TakeLooksDistinct(moved, links[0], LOOKS);
    TakeLooksReads(moved, links[0], LOOKS, look);
  }

  lemma LooksDistinct()
    ensures Distinct(LOOKS)
  {
    assert |LOOKS[0]| == 5 && |LOOKS[1]| == 9 && |LOOKS[2]| == 5 && |LOOKS[3]| == 5 && |LOOKS[4]| == 9;
    assert LOOKS[0][0] == 97 && LOOKS[2][0] == 99 && LOOKS[3][0] == 99;
    assert LOOKS[1][0] == 108 && LOOKS[4][0] == 101;
    assert LOOKS[2][1] == 111 && LOOKS[3][1] == 117;
  }
}
