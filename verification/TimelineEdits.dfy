/** Removals among other edits: a timeline list that the user edits freely while a removal is
    rolled back and redone over it, any number of times and in any order. */
module TimelineEdits {
  import opened Wrappers
  import opened JsonValues
  import opened Reinsertion
  import opened TimelineMerge
  import opened TimelineMergeLaws
  import opened TimelineMergeInverse
  import opened TimelineText

  /** The live list, and the remembered texts of the list before and after the removal. */
  datatype Live = Live(current: seq<Json>, before: seq<Json>, after: seq<Json>)

  datatype Event = Edit(list: seq<Json>) | Rollback | Redo

  function Step(s: Live, e: Event): Live {
    match e
    case Edit(list) => s.(current := list)
    case Rollback => s.(current := RestoreTimeline(ById, s.current, s.after, s.before))
    case Redo =>
      var merged := RestoreTimeline(ById, s.current, s.before, s.after);
      Live(merged, WireItems(s.current), WireItems(merged))
  }

  function Run(s: Live, events: seq<Event>): Live
    decreases |events|
  {
    if events == [] then s else Run(Step(s, events[0]), events[1..])
  }

  /** The list as the user left it last. */
  function Latest(current: seq<Json>, events: seq<Event>): seq<Json>
    decreases |events|
  {
    if events == [] then current
    else Latest(if events[0].Edit? then events[0].list else current, events[1..])
  }

  ghost predicate EditsRecorded(events: seq<Event>) {
    forall i :: 0 <= i < |events| && events[i].Edit? ==> Recorded(events[i].list)
  }

  ghost predicate Settled(s: Live) {
    && Recorded(s.current) && Recorded(s.before) && Recorded(s.after)
    && WireItems(s.before) == s.before && WireItems(s.after) == s.after
  }

  /** The JSON text of a field of the entry `id`; `None` when there is no such entry. */
  function FieldAt(list: seq<Json>, id: Json, key: Text): Option<Json> {
    if id in Ids(By(ById), list) then Some(Wire(Prop(Lookup(ById, list, id), key))) else None
  }

  /** The removal has nothing to do with the field: it reads the same on both sides. */
  predicate Foreign(s: Live, id: Json, key: Text) {
    FieldAt(s.before, id, key) == FieldAt(s.after, id, key)
  }

  // ---- merged records are records

  lemma {:induction false} MergedKeys(pending: seq<Field>, changed: seq<Field>, original: seq<Field>, key: Text)
    ensures Has(MergeFields(pending, changed, original), key) ==> Has(pending, key)
    decreases |pending|
  {
    if pending != [] {
      MergedKeys(pending[1..], changed, original, key);
      HasConcat(MergeField(pending[0], changed, original), MergeFields(pending[1..], changed, original), key);
      var head := MergeField(pending[0], changed, original);
      assert |head| == 1 ==> head[1..] == [];
    }
  }

  lemma {:induction false} HasConcat(a: seq<Field>, b: seq<Field>, key: Text)
    ensures Has(a + b, key) <==> Has(a, key) || Has(b, key)
    decreases |a|
  {
    if a == [] {
      assert a + b == b;
    } else {
      assert (a + b)[1..] == a[1..] + b;
      HasConcat(a[1..], b, key);
    }
  }

  lemma {:induction false} DistinctConcat(a: seq<Field>, b: seq<Field>)
    requires DistinctKeys(a) && DistinctKeys(b) && forall key :: Has(a, key) ==> !Has(b, key)
    ensures DistinctKeys(a + b)
    decreases |a|
  {
    if a == [] {
      assert a + b == b;
    } else {
      assert (a + b)[1..] == a[1..] + b;
      HasConcat(a[1..], b, a[0].key);
      assert Has(a, a[0].key);
      forall key | Has(a[1..], key) ensures !Has(b, key) {
        assert Has(a, key);
      }
      DistinctConcat(a[1..], b);
    }
  }

  lemma {:induction false} MergedDistinct(pending: seq<Field>, changed: seq<Field>, original: seq<Field>)
    requires DistinctKeys(pending)
    ensures DistinctKeys(MergeFields(pending, changed, original))
    decreases |pending|
  {
    if pending != [] {
      var head, rest := MergeField(pending[0], changed, original), MergeFields(pending[1..], changed, original);
      MergedDistinct(pending[1..], changed, original);
      MergedKeys(pending[1..], changed, original, pending[0].key);
      if head == [] {
        assert head + rest == rest;
      } else {
        assert (head + rest)[1..] == rest;
      }
    }
  }

  lemma {:induction false} AddedDistinct(pending: seq<Field>, current: seq<Field>, changed: seq<Field>, key: Text)
    requires DistinctKeys(pending)
    ensures DistinctKeys(AddedFields(pending, current, changed))
    ensures Has(AddedFields(pending, current, changed), key) ==> Has(pending, key) && !Has(current, key)
    decreases |pending|
  {
    if pending != [] {
      var rest := AddedFields(pending[1..], current, changed);
      AddedDistinct(pending[1..], current, changed, key);
      AddedDistinct(pending[1..], current, changed, pending[0].key);
      if !Has(current, pending[0].key) && !Has(changed, pending[0].key) {
        assert ([pending[0]] + rest)[1..] == rest;
      } else {
        assert [] + rest == rest;
      }
    }
  }

  predicate Record(entry: Json) {
    entry.Obj? && DistinctKeys(entry.fields)
  }

  lemma MergedRecord(current: Json, changed: Json, original: Json)
    requires Record(current) && Record(changed) && Record(original)
    ensures Record(RestoreFields(current, changed, original))
  {
    if !Equal(current, changed) {
      var kept := MergeFields(current.fields, changed.fields, original.fields);
      var added := AddedFields(original.fields, current.fields, changed.fields);
      MergedDistinct(current.fields, changed.fields, original.fields);
      AddedDistinct(original.fields, current.fields, changed.fields, ID);
      forall key | Has(kept, key) ensures !Has(added, key) {
        MergedKeys(current.fields, changed.fields, original.fields, key);
        AddedDistinct(original.fields, current.fields, changed.fields, key);
      }
      DistinctConcat(kept, added);
    }
  }

  lemma LookupRecord(list: seq<Json>, id: Json)
    requires Recorded(list) && id in Ids(By(ById), list)
    ensures Record(Lookup(ById, list, id))
  {
    var entry := Lookup(ById, list, id);
    var i :| 0 <= i < |list| && list[i] == entry;
  }

  lemma MergedRecorded(current: seq<Json>, changed: seq<Json>, original: seq<Json>)
    requires Recorded(current) && Recorded(changed) && Recorded(original)
    ensures Recorded(RestoreTimeline(ById, current, changed, original))
  {
    var merged := RestoreTimeline(ById, current, changed, original);
    MergeIdentities(ById, current, changed, original);
    forall id <- Ids(By(ById), merged) ensures id.Str? {
      if id in SurvivorIds(ById, current, changed, original) {
        SurvivorIsLive(ById, current, changed, original, id);
      }
    }
    forall i | 0 <= i < |merged| ensures Record(merged[i]) {
      MergeEntries(ById, current, changed, original, merged[i]);
      assert merged[i] in merged;
      if live :| && live in current && Survives(ById, live, changed, original)
                 && merged[i] == MergeEntry(ById, live, changed, original) {
        var id := IdentityOf(ById, live);
        assert Record(live);
        if id in Ids(By(ById), original) && id in Ids(By(ById), changed) {
          LookupRecord(changed, id);
          LookupRecord(original, id);
          MergedRecord(live, Lookup(ById, changed, id), Lookup(ById, original, id));
        }
      } else {
        assert merged[i] in original;
      }
    }
  }

  // ---- one merge

  /** A field that reads the same on both sides keeps the text that the live record gives it. */
  lemma ForeignField(current: Json, changed: Json, original: Json, key: Text)
    requires Record(current) && Record(changed) && Record(original)
    requires Prop(changed, key) == Prop(original, key)
    ensures Equal(Prop(RestoreFields(current, changed, original), key), Prop(current, key))
  {
    if Equal(current, changed) {
      WireGet(current.fields, key);
      WireGet(changed.fields, key);
    } else {
      var (c, n, o) := (current.fields, changed.fields, original.fields);
      FieldLaw(current, changed, original, key);
      if !Has(c, key) {
        AbsentIsUndefined(c, key);
        var merged := RestoreFields(current, changed, original).fields;
        if !Has(merged, key) { AbsentIsUndefined(merged, key); }
      } else if !Untouched(c, n, key) && Has(n, key) && Has(o, key) {
        NothingMergedValue(key, Get(c, key), o);
      }
    }
  }

  lemma PlainRecord(entry: Json, key: Text)
    requires Record(entry) && Wire(entry) == entry
    ensures Wire(Prop(entry, key)) == Prop(entry, key)
  {
    WireGet(entry.fields, key);
  }

  lemma TextRecord(entry: Json, key: Text)
    requires Record(entry)
    ensures Wire(entry).Obj? && Prop(Wire(entry), key) == Wire(Prop(entry, key))
    ensures Wire(Prop(Wire(entry), key)) == Wire(Prop(entry, key))
  {
    WireGet(entry.fields, key);
    WireIdempotent(Prop(entry, key));
  }

  /** In a list that is its own text, equal texts are equal values. */
  lemma PlainField(list: seq<Json>, id: Json, key: Text)
    requires Recorded(list) && WireItems(list) == list && id in Ids(By(ById), list)
    ensures FieldAt(list, id, key) == Some(Prop(Lookup(ById, list, id), key))
  {
    var entry := Lookup(ById, list, id);
    LookupRecord(list, id);
    var i :| 0 <= i < |list| && list[i] == entry;
    PlainAt(list, i, key);
  }

  lemma PlainAt(list: seq<Json>, i: nat, key: Text)
    requires i < |list| && Record(list[i]) && WireItems(list) == list
    ensures Wire(Prop(list[i], key)) == Prop(list[i], key)
  {
    WireItemsAt(list, i);
    PlainRecord(list[i], key);
  }

  lemma FoundAt(list: seq<Json>, entry: Json)
    requires Keyed(ById, list) && entry in list
    ensures IdentityOf(ById, entry) in Ids(By(ById), list) && Lookup(ById, list, IdentityOf(ById, entry)) == entry
  {
    var i :| 0 <= i < |list| && list[i] == entry;
    LookupUnique(ById, list, i);
  }

  lemma ForeignKept(current: seq<Json>, changed: seq<Json>, original: seq<Json>, id: Json, key: Text)
    requires Recorded(current) && Recorded(changed) && Recorded(original)
    requires WireItems(changed) == changed && WireItems(original) == original
    requires FieldAt(changed, id, key) == FieldAt(original, id, key)
    ensures FieldAt(RestoreTimeline(ById, current, changed, original), id, key) == FieldAt(current, id, key)
  {
    var merged := RestoreTimeline(ById, current, changed, original);
    MergedRecorded(current, changed, original);
    MergeIdentities(ById, current, changed, original);
    if id in Ids(By(ById), current) {
      var live := Lookup(ById, current, id);
      var entry := MergeEntry(ById, live, changed, original);
      assert Survives(ById, live, changed, original);
      MergeEntries(ById, current, changed, original, entry);
      MergeEntryId(ById, live, changed, original);
      FoundAt(merged, entry);
      LookupRecord(current, id);
      if id in Ids(By(ById), changed) {
        PlainField(changed, id, key);
        PlainField(original, id, key);
        LookupRecord(changed, id);
        LookupRecord(original, id);
        ForeignField(live, Lookup(ById, changed, id), Lookup(ById, original, id), key);
      }
    } else if id in SurvivorIds(ById, current, changed, original) {
      SurvivorIsLive(ById, current, changed, original, id);
    }
  }

  lemma TextAt(list: seq<Json>, i: nat, key: Text)
    requires i < |list| && Record(list[i])
    ensures Wire(Prop(WireItems(list)[i], key)) == Wire(Prop(list[i], key))
  {
    WireItemsAt(list, i);
    TextRecord(list[i], key);
  }

  /** Reading a list back from its text changes no field's text. */
  lemma TextField(list: seq<Json>, id: Json, key: Text)
    requires Recorded(list)
    ensures FieldAt(WireItems(list), id, key) == FieldAt(list, id, key)
  {
    RecordedText(list);
    if id in Ids(By(ById), list) {
      var entry, text := Lookup(ById, list, id), WireItems(list);
      LookupRecord(list, id);
      var i :| 0 <= i < |list| && list[i] == entry;
      assert IdentityOf(ById, text[i]) == Ids(By(ById), text)[i] == Ids(By(ById), list)[i] == id;
      FoundAt(text, text[i]);
      TextAt(list, i, key);
    }
  }

  // ---- runs

  lemma StepKeeps(s: Live, e: Event, id: Json, key: Text)
    requires Settled(s) && Foreign(s, id, key) && (e.Edit? ==> Recorded(e.list))
    ensures Settled(Step(s, e)) && Foreign(Step(s, e), id, key)
    ensures FieldAt(Step(s, e).current, id, key) == FieldAt(if e.Edit? then e.list else s.current, id, key)
  {
    match e
    case Edit(list) =>
    case Rollback =>
      MergedRecorded(s.current, s.after, s.before);
      ForeignKept(s.current, s.after, s.before, id, key);
    case Redo =>
      var merged := RestoreTimeline(ById, s.current, s.before, s.after);
      MergedRecorded(s.current, s.before, s.after);
      ForeignKept(s.current, s.before, s.after, id, key);
      RecordedText(s.current);
      RecordedText(merged);
      WireItemsIdempotent(s.current);
      WireItemsIdempotent(merged);
      TextField(s.current, id, key);
      TextField(merged, id, key);
  }

  /** Through any run of edits, rollbacks and redos, every field that the removal has nothing
      to do with reads as the user left it last, and an entry with such a field is there if
      and only if the user left it there. */
  lemma {:induction false} UserHasTheLastWord(s: Live, events: seq<Event>, id: Json, key: Text)
    requires Settled(s) && Foreign(s, id, key) && EditsRecorded(events)
    ensures FieldAt(Run(s, events).current, id, key) == FieldAt(Latest(s.current, events), id, key)
    decreases |events|
  {
    if events != [] {
      var next := Step(s, events[0]);
      StepKeeps(s, events[0], id, key);
      assert EditsRecorded(events[1..]);
      UserHasTheLastWord(next, events[1..], id, key);
      if !events[0].Edit? {
        SameField(next.current, s.current, events[1..], id, key);
      }
    }
  }

  lemma {:induction false} SameField(a: seq<Json>, b: seq<Json>, events: seq<Event>, id: Json, key: Text)
    requires FieldAt(a, id, key) == FieldAt(b, id, key)
    ensures FieldAt(Latest(a, events), id, key) == FieldAt(Latest(b, events), id, key)
    decreases |events|
  {
    if events != [] && !events[0].Edit? {
      SameField(a, b, events[1..], id, key);
    }
  }
}
