/** Timelines through their JSON text, the form in which a transaction remembers them. */
module TimelineText {
  import opened JsonValues
  import opened Reinsertion
  import opened TimelineMerge
  import opened TimelineMergeLaws
  import opened TimelineMergeInverse
  import opened RemovalPlan
  import opened RemovalPlanLaws

  /** Groups or notes as the program writes them: records with distinct string ids. */
  ghost predicate Recorded(list: seq<Json>) {
    && Keyed(ById, list)
    && forall i :: 0 <= i < |list| ==> list[i].Obj? && DistinctKeys(list[i].fields)
  }

  lemma {:induction false} WireFieldsDistinct(fields: seq<Field>)
    requires DistinctKeys(fields)
    ensures DistinctKeys(WireFields(fields))
    decreases |fields|
  {
    if fields != [] {
      WireFieldsDistinct(fields[1..]);
      WireGet(fields[1..], fields[0].key);
      AbsentIsUndefined(fields[1..], fields[0].key);
      if Wire(fields[0].value) != Undefined {
        assert WireFields(fields)[1..] == WireFields(fields[1..]);
      } else {
        assert WireFields(fields) == WireFields(fields[1..]);
      }
    }
  }

  lemma {:induction false} WireItemsAt(list: seq<Json>, i: nat)
    requires i < |list| && Wire(list[i]) != Undefined
    ensures WireItems(list)[i] == Wire(list[i])
    decreases |list|
  {
    if i > 0 {
      WireItemsAt(list[1..], i - 1);
    }
  }

  /** A timeline read back from its text has the same identities and the same text. */
  lemma RecordedText(list: seq<Json>)
    requires Recorded(list)
    ensures Ids(By(ById), WireItems(list)) == Ids(By(ById), list)
    ensures Recorded(WireItems(list)) && SameText(ById, list, WireItems(list))
  {
    var text := WireItems(list);
    forall i | 0 <= i < |list|
      ensures IdentityOf(ById, text[i]) == IdentityOf(ById, list[i])
      ensures text[i].Obj? && DistinctKeys(text[i].fields) && Equal(list[i], text[i])
    {
      WireItemsAt(list, i);
      WireGet(list[i].fields, ID);
      WireFieldsDistinct(list[i].fields);
      WireIdempotent(list[i]);
      assert Ids(By(ById), list)[i].Str?;
    }
    assert Ids(By(ById), text) == Ids(By(ById), list);
  }

  lemma SameTextAs(a: seq<Json>, b: seq<Json>)
    requires Recorded(a) && Recorded(b) && WireItems(a) == WireItems(b)
    ensures SameText(ById, a, WireItems(b))
  {
    RecordedText(a);
    RecordedText(b);
  }

  // ---- the plan keeps timelines recorded

  lemma SubsequenceKeyed(a: seq<Json>, b: seq<Json>)
    requires Keyed(ById, b) && Subsequence(Ids(By(ById), a), Ids(By(ById), b))
    ensures Keyed(ById, a)
  {
    var f := (x: Json) => x;
    var ids := Ids(By(ById), a);
    assert Ids(f, ids) == ids && Ids(f, Ids(By(ById), b)) == Ids(By(ById), b);
    SubsequenceDistinct(f, ids, Ids(By(ById), b));
    forall id <- ids ensures id.Str? {
      SubsequenceMember(ids, Ids(By(ById), b), id);
    }
  }

  ghost predicate Records(list: seq<Json>) {
    forall i :: 0 <= i < |list| ==> list[i].Obj? && DistinctKeys(list[i].fields)
  }

  lemma {:induction false} PlanGroupsRecords(plan: Plan, groups: seq<Json>)
    requires Records(plan.groups) && Records(groups)
    ensures Records(PlanGroups(plan, groups).groups)
    decreases |groups|
  {
    if groups != [] {
      var left := Without(List(groups[0], IDS), plan.removed);
      PutDistinct(groups[0].fields, IDS, Arr(left));
      assert Records(groups[1..]);
      PlanGroupsRecords(PlanGroup(plan, groups[0]), groups[1..]);
    }
  }

  lemma PlanNoteRecord(note: Json, plan: Plan)
    requires note.Obj? && DistinctKeys(note.fields) && PlanNote(note, plan).Kept?
    ensures var kept := PlanNote(note, plan).note; kept.Obj? && DistinctKeys(kept.fields)
  {
    var linked := Arr(PlanLinks(List(note, LINKS), plan));
    PutDistinct(note.fields, LINKS, linked);
    var next := if Truthy(Prop(note, LINKS)) then With(note, LINKS, linked) else note;
    var anchor := Prop(note, ANCHOR);
    if anchor in plan.retarget {
      PutDistinct(next.fields, ANCHOR, plan.retarget[anchor]);
    } else if anchor in plan.removed {
      var links := List(next, LINKS);
      PutDistinct(next.fields, LINKS, Arr(links[1..]));
      var shifted := With(next, LINKS, Arr(links[1..]));
      PutDistinct(shifted.fields, ANCHOR, Prop(links[0], TARGET_ID));
      TakeLooksDistinct(With(shifted, ANCHOR, Prop(links[0], TARGET_ID)), links[0], LOOKS);
    }
  }

  lemma {:induction false} PlanNotesRecords(notes: seq<Json>, plan: Plan)
    requires Records(notes)
    ensures Records(PlanNotes(notes, plan))
    decreases |notes|
  {
    if notes != [] {
      assert Records(notes[1..]);
      PlanNotesRecords(notes[1..], plan);
      if PlanNote(notes[0], plan).Kept? {
        PlanNoteRecord(notes[0], plan);
      }
    }
  }

  /** From one recorded list to another that only leaves entries out: the merges of a
      rollback and of a redo are exact in both directions. */
  ghost predicate Reversible(before: seq<Json>, after: seq<Json>) {
    && Recorded(before) && Recorded(after)
    && Subsequence(Ids(By(ById), after), Ids(By(ById), before))
  }

  lemma PlanReversible(removed: set<Json>, groups: seq<Json>, notes: seq<Json>)
    requires Recorded(groups) && Recorded(notes)
    ensures var plan := PlanGroups(Plan([], removed, map[]), groups);
            Reversible(groups, plan.groups) && Reversible(notes, PlanNotes(notes, plan))
  {
    var plan := PlanGroups(Plan([], removed, map[]), groups);
    PlanOnlyDeletes(removed, groups, notes);
    PlanGroupsRecords(Plan([], removed, map[]), groups);
    PlanNotesRecords(notes, plan);
    SubsequenceKeyed(plan.groups, groups);
    SubsequenceKeyed(PlanNotes(notes, plan), notes);
  }

  /** Undoing from the remembered texts: what reads like `after` becomes the text of `before`. */
  lemma TextUndone(current: seq<Json>, before: seq<Json>, after: seq<Json>)
    requires Reversible(before, after) && Recorded(current) && WireItems(current) == WireItems(after)
    ensures RestoreTimeline(ById, current, WireItems(after), WireItems(before)) == WireItems(before)
  {
    RecordedText(before);
    RecordedText(after);
    SameTextAs(current, after);
    RemovalUndone(ById, current, WireItems(after), WireItems(before));
  }

  /** Redoing: what reads like `before` becomes the text of `after`. */
  lemma TextRedone(current: seq<Json>, before: seq<Json>, after: seq<Json>)
    requires Reversible(before, after) && Recorded(current) && WireItems(current) == WireItems(before)
    ensures RestoreTimeline(ById, current, WireItems(before), WireItems(after)) == WireItems(after)
  {
    RecordedText(before);
    RecordedText(after);
    SameTextAs(current, before);
    RemovalRedone(ById, current, WireItems(before), WireItems(after));
  }

  /** Read back from their texts, reversible lists are reversible. */
  lemma TextReversible(before: seq<Json>, after: seq<Json>)
    requires Reversible(before, after)
    ensures Reversible(WireItems(before), WireItems(after))
    ensures WireItems(WireItems(before)) == WireItems(before) && WireItems(WireItems(after)) == WireItems(after)
  {
    RecordedText(before);
    RecordedText(after);
    WireItemsIdempotent(before);
    WireItemsIdempotent(after);
  }
}
