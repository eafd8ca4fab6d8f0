/** When the links of a note still name different targets after a removal. A group that is cut
    to one member hands its links to it, so a link to the group and a link to that member, or
    links to two groups cut to the same one, come to name the same target. The merge tells
    links apart by target; once they repeat, a rollback after another edit repeats them too. */
module RemovalLinks {
  import opened Wrappers
  import opened JsonValues
  import opened Sequences
  import opened Reinsertion
  import opened TimelineMerge
  import opened TimelineMergeLaws
  import opened RemovalPlan
  import opened RemovalPlanLaws
  import opened RemovalReferences

  /** Does the plan keep a reference to `target`, led on if need be? */
  predicate Kept(removed: set<Json>, groups: seq<Json>, target: Json) {
    Fate(removed, groups, target).Some? && !Forgotten(removed, groups, target)
  }

  /** The last member of a group that is cut to one. */
  function CutTo(removed: set<Json>, groups: seq<Json>, target: Json): Option<Json> {
    var fate := Fate(removed, groups, target);
    if fate.Some? && fate.value != target then fate else None
  }

  /** One names a cut group and the other its last member, or both name groups cut to the same. */
  predicate Meet(removed: set<Json>, groups: seq<Json>, t: Json, u: Json) {
    || CutTo(removed, groups, t) == Some(u)
    || CutTo(removed, groups, u) == Some(t)
    || (CutTo(removed, groups, t).Some? && CutTo(removed, groups, t) == CutTo(removed, groups, u))
  }

  /** No two of the links that are kept meet. */
  ghost predicate Apart(removed: set<Json>, groups: seq<Json>, links: seq<Json>) {
    forall i, j :: 0 <= i < j < |links| ==>
      var (t, u) := (Prop(links[i], TARGET_ID), Prop(links[j], TARGET_ID));
      Kept(removed, groups, t) && Kept(removed, groups, u) ==> !Meet(removed, groups, t, u)
  }

  /** The members of groups are occurrences, named by text. */
  ghost predicate TextMembers(groups: seq<Json>) {
    forall m <- MemberIds(groups) :: m.Str?
  }

  /** The last member of a cut group is an occurrence that stays. */
  lemma CutIsOccurrence(removed: set<Json>, groups: seq<Json>, t: Json)
    requires WellGrouped(groups) && CutTo(removed, groups, t).Some?
    ensures var x := CutTo(removed, groups, t).value;
            x in MemberIds(groups) && Fate(removed, groups, x) == Some(x)
  {
    var group := FindGroup(groups, t).value;
    var x := Left(removed, group)[0];
    assert x in List(group, IDS) && x in MemberIds(groups);
    forall g <- groups ensures Prop(g, ID) != x {
      assert Prop(g, ID) in GroupIds(groups);
    }
  }

  /** Different targets are led to the same one exactly when they meet. */
  lemma SameFate(removed: set<Json>, groups: seq<Json>, t: Json, u: Json)
    requires WellGrouped(groups)
    requires t != u && Fate(removed, groups, t).Some? && Fate(removed, groups, u).Some?
    ensures Fate(removed, groups, t) == Fate(removed, groups, u) <==> Meet(removed, groups, t, u)
  {
    LedOn(removed, groups, t, u);
    LedOn(removed, groups, u, t);
  }

  /** What a reference is led on to is not led on further. */
  lemma LedOn(removed: set<Json>, groups: seq<Json>, t: Json, u: Json)
    requires WellGrouped(groups) && t != u
    ensures CutTo(removed, groups, t) == Some(u) ==>
              Fate(removed, groups, u) == Some(u) && CutTo(removed, groups, u) == None
  {
    if CutTo(removed, groups, t) == Some(u) {
      CutIsOccurrence(removed, groups, t);
    }
  }

  // ---- what the planned links name

  /** The targets of the planned links, in order. */
  lemma {:induction false} PlannedTarget(removed: set<Json>, groups: seq<Json>, links: seq<Json>, x: Json)
    requires WellGrouped(groups)
    ensures x in Ids(By(ByTarget), PlanLinks(links, PlanOf(removed, groups))) <==>
              exists link :: link in links && Kept(removed, groups, Prop(link, TARGET_ID))
                             && Fate(removed, groups, Prop(link, TARGET_ID)) == Some(x)
    decreases |links|
  {
    if links != [] {
      PlannedTarget(removed, groups, links[1..], x);
      PlannedHead(removed, groups, links);
      assert forall link :: link in links <==> link == links[0] || link in links[1..];
    }
  }

  /** What the first link adds to the targets. */
  lemma PlannedHead(removed: set<Json>, groups: seq<Json>, links: seq<Json>)
    requires WellGrouped(groups) && links != []
    ensures var (plan, target) := (PlanOf(removed, groups), Prop(links[0], TARGET_ID));
            Ids(By(ByTarget), PlanLinks(links, plan))
            == (if Kept(removed, groups, target) then [Fate(removed, groups, target).value] else [])
               + Ids(By(ByTarget), PlanLinks(links[1..], plan))
  {
    var plan, target := PlanOf(removed, groups), Prop(links[0], TARGET_ID);
    PlanKnows(removed, groups, target);
    var head := if target in plan.removed then [] else [RetargetLink(links[0], plan.retarget)];
    if target in plan.retarget {
      WithProp(links[0], TARGET_ID, plan.retarget[target], TARGET_ID);
    }
    IdsConcat(By(ByTarget), head, PlanLinks(links[1..], plan));
    assert Ids(By(ByTarget), head)
           == if Kept(removed, groups, target) then [Fate(removed, groups, target).value] else [];
  }

  lemma FirstDistinct<T>(x: T, rest: seq<T>)
    ensures Distinct([x] + rest) <==> x !in rest && Distinct(rest)
  {
    var all := [x] + rest;
    if Distinct(all) {
      forall i, j | 0 <= i < j < |rest| ensures rest[i] != rest[j] {
        assert all[i + 1] != all[j + 1];
      }
      forall i | 0 <= i < |rest| ensures rest[i] != x {
        assert all[0] != all[i + 1];
      }
    }
  }

  /** Planned links name different targets if and only if no two links that are kept meet. */
  lemma {:induction false} LinksStayDistinct(removed: set<Json>, groups: seq<Json>, links: seq<Json>)
    requires WellGrouped(groups) && Distinct(Ids(By(ByTarget), links))
    ensures Distinct(Ids(By(ByTarget), PlanLinks(links, PlanOf(removed, groups)))) <==> Apart(removed, groups, links)
    decreases |links|
  {
    if links != [] {
      var (plan, rest, t) := (PlanOf(removed, groups), links[1..], Prop(links[0], TARGET_ID));
      FirstApart(By(ByTarget), links);
      IdsTail(By(ByTarget), links);
      assert Distinct(Ids(By(ByTarget), rest)) by {
        assert Ids(By(ByTarget), links) == [t] + Ids(By(ByTarget), rest);
        FirstDistinct(t, Ids(By(ByTarget), rest));
      }
      LinksStayDistinct(removed, groups, rest);
      PlannedHead(removed, groups, links);
      ApartFirst(removed, groups, links);
      var later := Ids(By(ByTarget), PlanLinks(rest, plan));
      if Kept(removed, groups, t) {
        var x := Fate(removed, groups, t).value;
        FirstDistinct(x, later);
        PlannedTarget(removed, groups, rest, x);
        FirstMeets(removed, groups, links);
      } else {
        assert [] + later == later;
      }
    }
  }

  /** Does the first link meet no later one? */
  ghost predicate FirstIsApart(removed: set<Json>, groups: seq<Json>, links: seq<Json>)
    requires links != []
  {
    Kept(removed, groups, Prop(links[0], TARGET_ID)) ==>
      forall link :: link in links[1..] && Kept(removed, groups, Prop(link, TARGET_ID)) ==>
        !Meet(removed, groups, Prop(links[0], TARGET_ID), Prop(link, TARGET_ID))
  }

  lemma ApartFirst(removed: set<Json>, groups: seq<Json>, links: seq<Json>)
    requires links != []
    ensures Apart(removed, groups, links) <==>
              FirstIsApart(removed, groups, links) && Apart(removed, groups, links[1..])
  {
    var rest := links[1..];
    if Apart(removed, groups, links) {
      forall link | link in rest && Kept(removed, groups, Prop(links[0], TARGET_ID))
             && Kept(removed, groups, Prop(link, TARGET_ID))
        ensures !Meet(removed, groups, Prop(links[0], TARGET_ID), Prop(link, TARGET_ID)) {
        var j :| 0 <= j < |rest| && rest[j] == link;
        assert links[j + 1] == link;
      }
      forall i, j | 0 <= i < j < |rest| && Kept(removed, groups, Prop(rest[i], TARGET_ID))
             && Kept(removed, groups, Prop(rest[j], TARGET_ID))
        ensures !Meet(removed, groups, Prop(rest[i], TARGET_ID), Prop(rest[j], TARGET_ID)) {
        assert rest[i] == links[i + 1] && rest[j] == links[j + 1];
      }
    }
    if FirstIsApart(removed, groups, links) && Apart(removed, groups, rest) {
      forall i, j | 0 <= i < j < |links| && Kept(removed, groups, Prop(links[i], TARGET_ID))
             && Kept(removed, groups, Prop(links[j], TARGET_ID))
        ensures !Meet(removed, groups, Prop(links[i], TARGET_ID), Prop(links[j], TARGET_ID)) {
        assert links[j] == rest[j - 1];
        assert i > 0 ==> links[i] == rest[i - 1];
        assert links[j] in rest;
      }
    }
  }

  lemma FirstMeets(removed: set<Json>, groups: seq<Json>, links: seq<Json>)
    requires WellGrouped(groups) && links != [] && Distinct(Ids(By(ByTarget), links))
    requires Kept(removed, groups, Prop(links[0], TARGET_ID))
    ensures FirstIsApart(removed, groups, links) <==>
              !exists link :: link in links[1..] && Kept(removed, groups, Prop(link, TARGET_ID))
                              && Fate(removed, groups, Prop(link, TARGET_ID))
                                   == Fate(removed, groups, Prop(links[0], TARGET_ID))
  {
    FirstApart(By(ByTarget), links);
    forall link | link in links[1..] && Kept(removed, groups, Prop(link, TARGET_ID))
      ensures Fate(removed, groups, Prop(link, TARGET_ID)) == Fate(removed, groups, Prop(links[0], TARGET_ID)) <==>
                Meet(removed, groups, Prop(links[0], TARGET_ID), Prop(link, TARGET_ID)) {
      var j :| 0 <= j < |links[1..]| && links[1..][j] == link;
      assert Ids(By(ByTarget), links[1..])[j] == Prop(link, TARGET_ID);
      SameFate(removed, groups, Prop(links[0], TARGET_ID), Prop(link, TARGET_ID));
    }
  }

  /** The same, for lists that the merge is written for. */
  lemma LinksStayKeyed(removed: set<Json>, groups: seq<Json>, links: seq<Json>)
    requires WellGrouped(groups) && TextMembers(groups) && Keyed(ByTarget, links)
    ensures Keyed(ByTarget, PlanLinks(links, PlanOf(removed, groups))) <==> Apart(removed, groups, links)
  {
    var targets := Ids(By(ByTarget), PlanLinks(links, PlanOf(removed, groups)));
    LinksStayDistinct(removed, groups, links);
    forall x <- targets ensures x.Str? {
      PlannedTarget(removed, groups, links, x);
      var link :| link in links && Fate(removed, groups, Prop(link, TARGET_ID)) == Some(x);
      var i :| 0 <= i < |links| && links[i] == link;
      assert Ids(By(ByTarget), links)[i] == Prop(link, TARGET_ID);
      if CutTo(removed, groups, Prop(link, TARGET_ID)).Some? {
        CutIsOccurrence(removed, groups, Prop(link, TARGET_ID));
      }
    }
  }

  // ---- the links of a whole note

  /** The links behind the first one that is kept. */
  function BehindFirst(links: seq<Json>, plan: Plan): seq<Json> {
    if links == [] then []
    else if Prop(links[0], TARGET_ID) in plan.removed then BehindFirst(links[1..], plan)
    else links[1..]
  }

  lemma {:induction false} BehindFirstPlanned(links: seq<Json>, plan: Plan)
    ensures PlanLinks(links, plan) != [] ==> PlanLinks(BehindFirst(links, plan), plan) == PlanLinks(links, plan)[1..]
    ensures Keyed(ByTarget, links) ==> Keyed(ByTarget, BehindFirst(links, plan))
    decreases |links|
  {
    if links != [] {
      BehindFirstPlanned(links[1..], plan);
      if Keyed(ByTarget, links) {
        assert [links[0]] + links[1..] == links;
        TailKeyed(ByTarget, [links[0]], links[1..]);
      }
    }
  }

  /** The links that a planned note still has as links: all, or those behind the one that
      becomes its anchor. */
  function Remaining(note: Json, plan: Plan): seq<Json> {
    var anchor := Prop(note, ANCHOR);
    if anchor !in plan.retarget && anchor in plan.removed then BehindFirst(List(note, LINKS), plan)
    else List(note, LINKS)
  }

  lemma NoteLinks(note: Json, plan: Plan)
    requires PlanNote(note, plan).Kept?
    ensures List(PlanNote(note, plan).note, LINKS) == PlanLinks(Remaining(note, plan), plan)
    ensures Keyed(ByTarget, List(note, LINKS)) ==> Keyed(ByTarget, Remaining(note, plan))
  {
    PlanNoteParts(note, plan);
    BehindFirstPlanned(List(note, LINKS), plan);
    if !Truthy(Prop(note, LINKS)) {
      assert List(note, LINKS) == [];
    }
  }

  /** A planned note's links name different targets if and only if no two of those it keeps as
      links meet. */
  lemma NoteStaysKeyed(removed: set<Json>, groups: seq<Json>, note: Json)
    requires WellGrouped(groups) && TextMembers(groups) && Keyed(ByTarget, List(note, LINKS))
    requires PlanNote(note, PlanOf(removed, groups)).Kept?
    ensures var plan := PlanOf(removed, groups);
            Keyed(ByTarget, List(PlanNote(note, plan).note, LINKS)) <==> Apart(removed, groups, Remaining(note, plan))
  {
    NoteLinks(note, PlanOf(removed, groups));
    LinksStayKeyed(removed, groups, Remaining(note, PlanOf(removed, groups)));
  }

  /** Then a rollback merges the links of the note, whatever the user made of them, to exactly
      the live ones and the deleted ones, each once, the live ones in their order. */
  lemma LinksMerge(removed: set<Json>, groups: seq<Json>, note: Json, live: seq<Json>)
    requires WellGrouped(groups) && TextMembers(groups) && Keyed(ByTarget, List(note, LINKS)) && Keyed(ByTarget, live)
    requires PlanNote(note, PlanOf(removed, groups)).Kept?
    requires Apart(removed, groups, Remaining(note, PlanOf(removed, groups)))
    ensures var links, planned := List(note, LINKS), List(PlanNote(note, PlanOf(removed, groups)).note, LINKS);
            var survivors := SurvivorIds(ByTarget, live, planned, links);
            Merged(Ids(By(ByTarget), RestoreTimeline(ByTarget, live, planned, links)),
                   Restrict(Ids(By(ByTarget), live), survivors), Ids(By(ByTarget), links),
                   survivors, IdSet(By(ByTarget), planned))
  {
    NoteStaysKeyed(removed, groups, note);
    MergeIdentities(ByTarget, live, List(PlanNote(note, PlanOf(removed, groups)).note, LINKS), List(note, LINKS));
  }

  // ---- the run in which links repeat

  lemma LinkTarget(t: Text)
    ensures Prop(Link(t), TARGET_ID) == Str(t) && IdentityOf(ByTarget, Link(t)) == Str(t)
  {
  }

  /** A note links to a group and to the member that the group is cut to: its planned links
      name that member twice. */
  lemma LinksMeet(g: Text, x: Text, a: Text)
    requires g != x && g != a && x != a
    ensures var groups, removed, links := [Group(g, [Str(x), Str(a)])], {Str(a)}, [Link(g), Link(x)];
            && Keyed(ByTarget, links) && WellGrouped(groups)
            && PlanLinks(links, PlanOf(removed, groups)) == [Link(x), Link(x)]
  {
    var groups, removed, links := [Group(g, [Str(x), Str(a)])], {Str(a)}, [Link(g), Link(x)];
    var ids, start := [Str(x), Str(a)], Plan([], removed, map[]);
    OneGroup(g, ids);
    assert ids[1..] == [Str(a)] && ids[1..][1..] == [];
    assert Without([Str(a)], removed) == [] && Left(removed, groups[0]) == [Str(x)];
    PlanOne(start, groups[0]);
    var plan := PlanOf(removed, groups);
    assert plan == Plan([], removed, map[Str(g) := Str(x)]);
    LinkTarget(g);
    LinkTarget(x);
    assert links[1..] == [Link(x)] && links[1..][1..] == [];
    assert RetargetLink(Link(g), plan.retarget) == Link(x);
    assert PlanLinks([Link(x)], plan) == [Link(x)];
    assert Ids(By(ByTarget), links) == [Str(g), Str(x)];
  }

  /** The user then adds a link to `y`, and the rollback gives each of the two repeated links
      the deleted one: five links to three targets, where there were two. */
  lemma RollbackRepeatsLinks(g: Text, x: Text, y: Text)
    requires g != x && g != y && x != y
    ensures RestoreTimeline(ByTarget, [Link(x), Link(x), Link(y)], [Link(x), Link(x)], [Link(g), Link(x)])
            == [Link(g), Link(x), Link(g), Link(x), Link(y)]
  {
    var live, changed, original := [Link(x), Link(x), Link(y)], [Link(x), Link(x)], [Link(g), Link(x)];
    LinkTarget(g);
    LinkTarget(x);
    LinkTarget(y);
    assert Ids(By(ByTarget), changed) == [Str(x), Str(x)] && Ids(By(ByTarget), original) == [Str(g), Str(x)];
    assert Lookup(ByTarget, changed, Str(x)) == Link(x) && Lookup(ByTarget, original, Str(x)) == Link(x);
    KeptAsIs(x, y, changed, original);
    var present, gone := IdSet(By(ByTarget), live), IdSet(By(ByTarget), changed);
    assert Ids(By(ByTarget), live) == [Str(x), Str(x), Str(y)];
    PlaceTwo(Link(g), Link(x), present, gone);
    WeaveThree(Place(By(ByTarget), original, present, gone, Null).buckets, Link(x), Link(y), Link(g));
  }

  lemma PlaceTwo(g: Json, x: Json, present: set<Json>, gone: set<Json>)
    requires IdentityOf(ByTarget, x) in present && IdentityOf(ByTarget, g) !in present
             && IdentityOf(ByTarget, g) !in gone
    ensures Place(By(ByTarget), [g, x], present, gone, Null).buckets == map[IdentityOf(ByTarget, x) := [g]]
  {
    assert [g, x][1..] == [x] && [x][1..] == [];
    var empty := Place(By(ByTarget), [], present, gone, Null);
    assert Place(By(ByTarget), [x], present, gone, Null) == empty.(following := IdentityOf(ByTarget, x));
    assert [g] + Bucket(empty.buckets, IdentityOf(ByTarget, x)) == [g];
  }

  lemma KeptAsIs(x: Text, y: Text, changed: seq<Json>, original: seq<Json>)
    requires x != y && Ids(By(ByTarget), changed) == [Str(x), Str(x)] && Str(x) in Ids(By(ByTarget), original)
    requires Lookup(ByTarget, changed, Str(x)) == Link(x) && Lookup(ByTarget, original, Str(x)) == Link(x)
    ensures var live := [Link(x), Link(x), Link(y)]; KeptEntries(ByTarget, live, changed, original) == live
  {
    LinkTarget(x);
    LinkTarget(y);
    var live := [Link(x), Link(x), Link(y)];
    assert live[1..] == [Link(x), Link(y)] && live[1..][1..] == [Link(y)] && [Link(y)][1..] == [];
    assert MergeEntry(ByTarget, Link(x), changed, original) == Link(x);
    assert MergeEntry(ByTarget, Link(y), changed, original) == Link(y);
    assert KeptEntries(ByTarget, [Link(y)], changed, original) == [Link(y)];
    assert KeptEntries(ByTarget, live[1..], changed, original) == [Link(x)] + [Link(y)];
  }

  lemma WeaveThree(buckets: map<Json, seq<Json>>, x: Json, y: Json, g: Json)
    requires IdentityOf(ByTarget, x) != IdentityOf(ByTarget, y) && IdentityOf(ByTarget, x) != Null
    requires buckets == map[IdentityOf(ByTarget, x) := [g]]
    ensures Weave(By(ByTarget), [x, x, y], buckets, Null) == [g, x, g, x, y] || IdentityOf(ByTarget, y) == Null
  {
    var all := [x, x, y];
    assert all[1..] == [x, y] && all[1..][1..] == [y] && [y][1..] == [];
    if IdentityOf(ByTarget, y) != Null {
      assert Weave(By(ByTarget), [y], buckets, Null) == [y];
      assert Weave(By(ByTarget), [x, y], buckets, Null) == [g, x, y];
    }
  }
}
