/** What a removal does to the authored timeline: which identifiers disappear, which groups
    shrink, vanish or hand their references over, and what happens to the notes. */
module RemovalPlan {
  import opened JsonValues
  import opened TimelineMerge

  const ANCHOR := Ascii("anchor")

  /** The look of a note's arrow, taken over from the link that becomes its anchor. */
  const LOOKS: seq<Text> := [Ascii("arrow"), Ascii("lineStyle"), Ascii("color"), Ascii("curve"), Ascii("endpoints")]

  /** `{ ...record, key: value }`, or `record.key = value`. */
  function With(record: Json, key: Text, value: Json): Json {
    Obj(Put(if record.Obj? then record.fields else [], key, value))
  }

  function Put(fields: seq<Field>, key: Text, value: Json): seq<Field> {
    if fields == [] then [Field(key, value)]
    else if fields[0].key == key then [Field(key, value)] + fields[1..]
    else [fields[0]] + Put(fields[1..], key, value)
  }

  lemma {:induction false} PutGet(fields: seq<Field>, key: Text, value: Json, other: Text)
    ensures Get(Put(fields, key, value), other) == if other == key then value else Get(fields, other)
    ensures Has(Put(fields, key, value), other) <==> other == key || Has(fields, other)
    decreases |fields|
  {
    if fields != [] && fields[0].key != key {
      PutGet(fields[1..], key, value, other);
    }
  }

  lemma {:induction false} PutDistinct(fields: seq<Field>, key: Text, value: Json)
    requires DistinctKeys(fields)
    ensures DistinctKeys(Put(fields, key, value))
    decreases |fields|
  {
    if fields != [] && fields[0].key != key {
      PutDistinct(fields[1..], key, value);
      PutGet(fields[1..], key, value, fields[0].key);
    }
  }

  lemma WithProp(record: Json, key: Text, value: Json, other: Text)
    ensures Prop(With(record, key, value), other) == if other == key then value else Prop(record, other)
  {
    PutGet(if record.Obj? then record.fields else [], key, value, other);
  }

  /** `record.key || []` for a list field. */
  function List(record: Json, key: Text): seq<Json> {
    if Prop(record, key).Arr? then Prop(record, key).items else []
  }

  // ---- removed identifiers

  /** An identifier is removed only when no remaining row carries it, not even under the
      automatic run that its first occurrence names. */
  function RemovedIds(selected: set<Text>, entryIds: set<Text>, remaining: set<Text>): set<Json> {
    set id | id in selected + entryIds && id !in remaining && !(Ascii("a:") <= id && id[2..] in remaining) :: Str(id)
  }

  // ---- groups

  datatype Plan = Plan(groups: seq<Json>, removed: set<Json>, retarget: map<Json, Json>)

  function Without(list: seq<Json>, removed: set<Json>): (r: seq<Json>)
    ensures |r| <= |list|
    ensures |r| == |list| ==> r == list
    ensures forall x <- r :: x in list && x !in removed
  {
    if list == [] then []
    else (if list[0] in removed then [] else [list[0]]) + Without(list[1..], removed)
  }

  function PlanGroup(plan: Plan, group: Json): Plan {
    var members := List(group, IDS);
    var left := Without(members, plan.removed);
    var id := Prop(group, ID);
    if |left| == |members| then plan.(groups := plan.groups + [group], removed := plan.removed - {id})
    else if |left| >= 2 then plan.(groups := plan.groups + [With(group, IDS, Arr(left))])
    else if |left| == 1 then plan.(retarget := plan.retarget[id := left[0]])
    else plan.(removed := plan.removed + {id})
  }

  /** The groups in order, threading the removed identifiers through. */
  function PlanGroups(plan: Plan, groups: seq<Json>): Plan
    decreases |groups|
  {
    if groups == [] then plan else PlanGroups(PlanGroup(plan, groups[0]), groups[1..])
  }

  // ---- notes

  datatype Planned = Dropped | Kept(note: Json)

  function RetargetLink(link: Json, retarget: map<Json, Json>): Json {
    var target := Prop(link, TARGET_ID);
    if target in retarget then With(link, TARGET_ID, retarget[target]) else link
  }

  function PlanLinks(links: seq<Json>, plan: Plan): seq<Json> {
    if links == [] then []
    else
      (if Prop(links[0], TARGET_ID) in plan.removed then [] else [RetargetLink(links[0], plan.retarget)])
      + PlanLinks(links[1..], plan)
  }

  /** `for (const name of [...]) next[name] = link[name]`: a look the link lacks becomes an
      own field holding undefined. */
  function TakeLooks(note: Json, link: Json, names: seq<Text>): Json
    decreases |names|
  {
    if names == [] then note
    else TakeLooks(With(note, names[0], Prop(link, names[0])), link, names[1..])
  }

  function PlanNote(note: Json, plan: Plan): Planned {
    var next := if Truthy(Prop(note, LINKS)) then With(note, LINKS, Arr(PlanLinks(List(note, LINKS), plan))) else note;
    var anchor := Prop(note, ANCHOR);
    if anchor in plan.retarget then Kept(With(next, ANCHOR, plan.retarget[anchor]))
    else if anchor in plan.removed then
      var links := List(next, LINKS);
      if links == [] then Dropped
      else
        var moved := With(With(next, LINKS, Arr(links[1..])), ANCHOR, Prop(links[0], TARGET_ID));
        Kept(TakeLooks(moved, links[0], LOOKS))
    else Kept(next)
  }

  function PlanNotes(notes: seq<Json>, plan: Plan): seq<Json> {
    if notes == [] then []
    else
      var planned := PlanNote(notes[0], plan);
      (if planned.Kept? then [planned.note] else []) + PlanNotes(notes[1..], plan)
  }

  // ---- the loops

  method PlanGroupsInPlace(removed: set<Json>, prior: seq<Json>) returns (plan: Plan)
    ensures plan == PlanGroups(Plan([], removed, map[]), prior)
  {
    var groups: seq<Json>, removedIds, retarget: map<Json, Json> := [], removed, map[];
    for i := 0 to |prior|
      invariant PlanGroups(Plan(groups, removedIds, retarget), prior[i..])
                == PlanGroups(Plan([], removed, map[]), prior)
    {
      var group := prior[i];
      assert prior[i..][0] == group && prior[i..][1..] == prior[i + 1..];
      var ids := Without(List(group, IDS), removedIds);
      if |ids| == |List(group, IDS)| {
        groups := groups + [group];
        removedIds := removedIds - {Prop(group, ID)};
      } else if |ids| >= 2 {
        groups := groups + [With(group, IDS, Arr(ids))];
      } else if |ids| == 1 {
        retarget := retarget[Prop(group, ID) := ids[0]];
      } else {
        removedIds := removedIds + {Prop(group, ID)};
      }
    }
    plan := Plan(groups, removedIds, retarget);
  }

  method PlanNotesInPlace(prior: seq<Json>, plan: Plan) returns (annotations: seq<Json>)
    ensures annotations == PlanNotes(prior, plan)
  {
    annotations := [];
    for i := 0 to |prior|
      invariant annotations + PlanNotes(prior[i..], plan) == PlanNotes(prior, plan)
    {
      assert prior[i..][0] == prior[i] && prior[i..][1..] == prior[i + 1..];
      var planned := PlanNote(prior[i], plan);
      if planned.Kept? {
        annotations := annotations + [planned.note];
      }
    }
  }
}
