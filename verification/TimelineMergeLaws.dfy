/** What the timeline merge promises whatever the live timeline has become. */
module TimelineMergeLaws {
  import opened JsonValues
  import opened Sequences
  import opened Reinsertion
  import opened ReinsertionPlaces
  import opened TimelineMerge

  // ---- field by field

  lemma {:induction false} MergeFieldsGet(pending: seq<Field>, changed: seq<Field>, original: seq<Field>, key: Text)
    requires DistinctKeys(pending)
    ensures var merged := MergeFields(pending, changed, original);
            var reverts := Has(changed, key) && Equal(Get(pending, key), Get(changed, key));
            && (Has(merged, key) <==> Has(pending, key) && (reverts ==> Has(original, key)))
            && (Has(merged, key) ==>
                  Get(merged, key) ==
                  if reverts then Get(original, key)
                  else if Has(changed, key) && Has(original, key) then
                    MergeValue(key, Get(pending, key), Get(changed, key), original)
                  else Get(pending, key))
    decreases |pending|
  {
    if pending != [] {
      MergeFieldsGet(pending[1..], changed, original, key);
      var head := MergeField(pending[0], changed, original);
      GetConcat(head, MergeFields(pending[1..], changed, original), key);
      if head != [] {
        assert head[1..] == [];
      }
    }
  }

  lemma {:induction false} AddedFieldsGet(pending: seq<Field>, current: seq<Field>, changed: seq<Field>, key: Text)
    ensures var added := AddedFields(pending, current, changed);
            && (Has(added, key) <==> Has(pending, key) && !Has(current, key) && !Has(changed, key))
            && (Has(added, key) ==> Get(added, key) == Get(pending, key))
    decreases |pending|
  {
    if pending != [] {
      AddedFieldsGet(pending[1..], current, changed, key);
      if !Has(current, pending[0].key) && !Has(changed, pending[0].key) {
        assert AddedFields(pending, current, changed)[1..] == AddedFields(pending[1..], current, changed);
      } else {
        assert AddedFields(pending, current, changed) == AddedFields(pending[1..], current, changed);
      }
    }
  }

  lemma {:induction false} GetConcat(a: seq<Field>, b: seq<Field>, key: Text)
    ensures Has(a + b, key) <==> Has(a, key) || Has(b, key)
    ensures Get(a + b, key) == if Has(a, key) then Get(a, key) else Get(b, key)
    decreases |a|
  {
    if a == [] {
      assert a + b == b;
    } else {
      GetConcat(a[1..], b, key);
      assert (a + b)[1..] == a[1..] + b;
    }
  }

  /** Was the field left alone since the removal, as the merge judges it? */
  predicate Untouched(current: seq<Field>, changed: seq<Field>, key: Text) {
    Has(current, key) == Has(changed, key) && Equal(Get(current, key), Get(changed, key))
  }

  /** The field law: an untouched field goes back to its original value or absence; a field
      that somebody set, deleted, or wrote where another side has none stays as the user
      left it; a field that all three sides hold merges one level deeper. */
  lemma FieldLaw(current: Json, changed: Json, original: Json, key: Text)
    requires current.Obj? && changed.Obj? && original.Obj? && !Equal(current, changed)
    requires DistinctKeys(current.fields)
    ensures var merged := RestoreFields(current, changed, original);
            var (c, n, o) := (current.fields, changed.fields, original.fields);
            && merged.Obj?
            && (Untouched(c, n, key) ==>
                  Has(merged.fields, key) == Has(o, key) && Get(merged.fields, key) == Get(o, key))
            && (!Untouched(c, n, key) ==> Has(merged.fields, key) == Has(c, key))
            && (!Untouched(c, n, key) && Has(c, key) ==>
                  Get(merged.fields, key) ==
                  if Has(n, key) && Has(o, key) then MergeValue(key, Get(c, key), Get(n, key), o) else Get(c, key))
  {
    var (c, n, o) := (current.fields, changed.fields, original.fields);
    MergeFieldsGet(c, n, o, key);
    AddedFieldsGet(o, c, n, key);
    GetConcat(MergeFields(c, n, o), AddedFields(o, c, n), key);
    if !Has(c, key) { AbsentIsUndefined(c, key); }
    if !Has(n, key) { AbsentIsUndefined(n, key); }
    if !Has(o, key) { AbsentIsUndefined(o, key); }
    var merged := MergeFields(c, n, o) + AddedFields(o, c, n);
    if !Has(merged, key) { AbsentIsUndefined(merged, key); }
  }

  /** A field whose JSON text nobody changed reverts exactly when it was held on both sides
      or on neither (or had the original value already). Holding `undefined` where the text
      has no field counts as an edit. */
  lemma UntouchedTextReverts(current: Json, changed: Json, original: Json, key: Text)
    requires current.Obj? && changed.Obj? && original.Obj? && !Equal(current, changed)
    requires DistinctKeys(current.fields)
    requires Equal(Get(current.fields, key), Get(changed.fields, key))
    ensures var merged := RestoreFields(current, changed, original);
            var alike := Has(current.fields, key) == Has(changed.fields, key);
            var already := Has(current.fields, key) == Has(original.fields, key)
                           && Get(current.fields, key) == Get(original.fields, key);
            merged.Obj? &&
            (Has(merged.fields, key) == Has(original.fields, key)
             && Get(merged.fields, key) == Get(original.fields, key)
             <==> alike || already)
  {
    FieldLaw(current, changed, original, key);
    var (c, n, o) := (current.fields, changed.fields, original.fields);
    var merged := RestoreFields(current, changed, original);
    if !Has(c, key) { AbsentIsUndefined(c, key); }
    if !Has(n, key) { AbsentIsUndefined(n, key); }
    if !Has(o, key) { AbsentIsUndefined(o, key); }
    if !Has(merged.fields, key) { AbsentIsUndefined(merged.fields, key); }
  }

  // ---- identities survive the field merge

  lemma {:induction false} MergeFieldsKeepsAgreed(pending: seq<Field>, changed: seq<Field>, original: seq<Field>,
                                                  key: Text)
    requires Get(pending, key) == Get(changed, key) == Get(original, key) != Undefined
    ensures Has(MergeFields(pending, changed, original), key)
    ensures Get(MergeFields(pending, changed, original), key) == Get(original, key)
    decreases |pending|
  {
    if !Has(changed, key) { AbsentIsUndefined(changed, key); }
    if !Has(original, key) { AbsentIsUndefined(original, key); }
    var merged := MergeFields(pending, changed, original);
    if pending[0].key != key {
      MergeFieldsKeepsAgreed(pending[1..], changed, original, key);
      var rest := MergeFields(pending[1..], changed, original);
      assert merged == rest || (merged != [] && merged[0].key != key && merged[1..] == rest);
    }
  }

  lemma PropKept(current: Json, changed: Json, original: Json, key: Text)
    requires Prop(current, key) == Prop(changed, key) == Prop(original, key) != Undefined
    ensures Prop(RestoreFields(current, changed, original), key) == Prop(original, key)
  {
    if !Equal(current, changed) {
      var (c, n, o) := (current.fields, changed.fields, original.fields);
      MergeFieldsKeepsAgreed(c, n, o, key);
      GetConcat(MergeFields(c, n, o), AddedFields(o, c, n), key);
    }
  }

  lemma IdentityKept(kind: Identity, current: Json, changed: Json, original: Json)
    requires IdentityOf(kind, current) == IdentityOf(kind, changed) == IdentityOf(kind, original) != Undefined
    ensures IdentityOf(kind, RestoreFields(current, changed, original)) == IdentityOf(kind, original)
  {
    match kind
    case ById => PropKept(current, changed, original, ID);
    case ByTarget => PropKept(current, changed, original, TARGET_ID);
    case BySelf =>
  }

  // ---- lists: which entries, once each, in which order

  /** The lists the merge is written for: every entry has its own string identity. */
  ghost predicate Keyed(kind: Identity, list: seq<Json>) {
    Distinct(Ids(By(kind), list)) && forall id <- Ids(By(kind), list) :: id.Str?
  }

  ghost function SurvivorIds(kind: Identity, current: seq<Json>, changed: seq<Json>, original: seq<Json>): set<Json> {
    set i | 0 <= i < |current| && Survives(kind, current[i], changed, original) :: IdentityOf(kind, current[i])
  }

  /** The entries kept are the survivors, in their live order, under their own identities. */
  lemma {:induction false} KeptIds(kind: Identity, pending: seq<Json>, changed: seq<Json>, original: seq<Json>)
    requires Distinct(Ids(By(kind), pending))
    requires forall id <- Ids(By(kind), changed) :: id.Str?
    ensures Ids(By(kind), KeptEntries(kind, pending, changed, original))
            == Restrict(Ids(By(kind), pending), SurvivorIds(kind, pending, changed, original))
    decreases |pending|
  {
    if pending != [] {
      var (e, rest) := (pending[0], pending[1..]);
      var survivors := SurvivorIds(kind, pending, changed, original);
      IdsTail(By(kind), pending);
      assert Ids(By(kind), pending)[1..] == Ids(By(kind), rest);
      KeptIds(kind, rest, changed, original);
      TailSurvives(kind, pending, changed, original);
      FirstSurvives(kind, pending, changed, original);
      MergeEntryId(kind, e, changed, original);
      var head := if Survives(kind, e, changed, original) then [MergeEntry(kind, e, changed, original)] else [];
      assert Ids(By(kind), head) == if IdentityOf(kind, e) in survivors then [IdentityOf(kind, e)] else [];
      IdsConcat(By(kind), head, KeptEntries(kind, rest, changed, original));
    }
  }

  lemma FirstSurvives(kind: Identity, pending: seq<Json>, changed: seq<Json>, original: seq<Json>)
    requires pending != [] && Distinct(Ids(By(kind), pending))
    ensures IdentityOf(kind, pending[0]) in SurvivorIds(kind, pending, changed, original) <==>
              Survives(kind, pending[0], changed, original)
  {
    var id := IdentityOf(kind, pending[0]);
    if id in SurvivorIds(kind, pending, changed, original) {
      var i :| 0 <= i < |pending| && Survives(kind, pending[i], changed, original)
               && IdentityOf(kind, pending[i]) == id;
      assert Ids(By(kind), pending)[i] == Ids(By(kind), pending)[0];
    }
  }

  lemma TailSurvives(kind: Identity, pending: seq<Json>, changed: seq<Json>, original: seq<Json>)
    requires pending != [] && Distinct(Ids(By(kind), pending))
    ensures var ids := Ids(By(kind), pending[1..]);
            Restrict(ids, SurvivorIds(kind, pending[1..], changed, original))
            == Restrict(ids, SurvivorIds(kind, pending, changed, original))
  {
    var ids, survivors := Ids(By(kind), pending[1..]), SurvivorIds(kind, pending, changed, original);
    forall x <- ids ensures x in SurvivorIds(kind, pending[1..], changed, original) <==> x in survivors {
      SurvivorsOfTail(kind, pending, changed, original, x);
    }
    RestrictAgree(ids, SurvivorIds(kind, pending[1..], changed, original), survivors);
  }

  lemma SurvivorsOfTail(kind: Identity, pending: seq<Json>, changed: seq<Json>, original: seq<Json>, x: Json)
    requires pending != [] && Distinct(Ids(By(kind), pending)) && x in Ids(By(kind), pending[1..])
    ensures x in SurvivorIds(kind, pending[1..], changed, original) <==>
              x in SurvivorIds(kind, pending, changed, original)
  {
    var ids := Ids(By(kind), pending);
    assert ids[1..] == Ids(By(kind), pending[1..]);
    if x in SurvivorIds(kind, pending, changed, original) {
      var i :| 0 <= i < |pending| && Survives(kind, pending[i], changed, original) && IdentityOf(kind, pending[i]) == x;
      var j :| 0 <= j < |ids[1..]| && ids[1..][j] == x;
      assert ids[i] == ids[j + 1];
      assert pending[1..][i - 1] == pending[i];
    }
    if x in SurvivorIds(kind, pending[1..], changed, original) {
      var i :| 0 <= i < |pending[1..]| && Survives(kind, pending[1..][i], changed, original)
               && IdentityOf(kind, pending[1..][i]) == x;
      assert pending[1..][i] == pending[i + 1];
    }
  }

  lemma MergeEntryId(kind: Identity, entry: Json, changed: seq<Json>, original: seq<Json>)
    requires forall id <- Ids(By(kind), changed) :: id.Str?
    ensures IdentityOf(kind, MergeEntry(kind, entry, changed, original)) == IdentityOf(kind, entry)
  {
    var id := IdentityOf(kind, entry);
    if id in Ids(By(kind), original) && id in Ids(By(kind), changed) {
      IdentityKept(kind, entry, Lookup(kind, changed, id), Lookup(kind, original, id));
    }
  }

  // ---- the main result

  lemma KeptIdSet(kind: Identity, current: seq<Json>, changed: seq<Json>, original: seq<Json>)
    requires Keyed(kind, current) && Keyed(kind, changed)
    ensures var kept := Ids(By(kind), KeptEntries(kind, current, changed, original));
            var survivors := SurvivorIds(kind, current, changed, original);
            && kept == Restrict(Ids(By(kind), current), survivors)
            && Distinct(kept) && Null !in kept
            && IdSet(By(kind), KeptEntries(kind, current, changed, original)) == survivors
  {
    var survivors := SurvivorIds(kind, current, changed, original);
    var kept := KeptEntries(kind, current, changed, original);
    KeptIds(kind, current, changed, original);
    RestrictDistinct(Ids(By(kind), current), survivors);
    RestrictMember(Ids(By(kind), current), survivors, Null);
    forall x ensures x in IdSet(By(kind), kept) <==> x in survivors {
      RestrictMember(Ids(By(kind), current), survivors, x);
      if x in survivors {
        SurvivorIsLive(kind, current, changed, original, x);
      }
    }
  }

  /** The merge under concurrent edits. Its identities are exactly the live ones, less what
      the removal added and nobody edited, plus what the removal deleted; each occurs once;
      the surviving live entries keep their relative order. */
  lemma MergeIdentities(kind: Identity, current: seq<Json>, changed: seq<Json>, original: seq<Json>)
    requires Keyed(kind, current) && Keyed(kind, changed) && Keyed(kind, original)
    ensures var survivors := SurvivorIds(kind, current, changed, original);
            Merged(Ids(By(kind), RestoreTimeline(kind, current, changed, original)),
                   Restrict(Ids(By(kind), current), survivors), Ids(By(kind), original),
                   survivors, IdSet(By(kind), changed))
  {
    KeptIdSet(kind, current, changed, original);
    ReinsertIds(By(kind), KeptEntries(kind, current, changed, original), original, IdSet(By(kind), changed), Null);
  }

  /** Where deleted entries come back, whatever the user has done to the order of the others.
      The original list is `front`, a run of entries that are not live, and `rest`, which is
      empty or begins with a live entry: the deleted entries of the run come back in one piece,
      in their order, right before that entry, or at the end of the list. */
  lemma MergePlaces(kind: Identity, current: seq<Json>, changed: seq<Json>, front: seq<Json>, run: seq<Json>,
                    rest: seq<Json>)
    returns (before: seq<Json>, after: seq<Json>)
    requires Keyed(kind, current) && Keyed(kind, changed) && Keyed(kind, front + (run + rest))
    requires var survivors := SurvivorIds(kind, current, changed, front + (run + rest));
             && (rest != [] ==> IdentityOf(kind, rest[0]) in survivors)
             && forall e <- run :: IdentityOf(kind, e) !in survivors
    ensures RestoreTimeline(kind, current, changed, front + (run + rest))
            == before + (Returning(By(kind), run, IdSet(By(kind), changed)) + after)
    ensures rest == [] ==> after == []
    ensures rest != [] ==> after != [] && IdentityOf(kind, after[0]) == IdentityOf(kind, rest[0])
  {
    var original := front + (run + rest);
    KeptIdSet(kind, current, changed, original);
    Rejoined(front, run, rest);
    TailKeyed(kind, front + run, rest);
    before, after := RunsReturnTogether(By(kind), KeptEntries(kind, current, changed, original),
                                        front, run, rest, IdSet(By(kind), changed), Null);
  }

  lemma TailKeyed(kind: Identity, front: seq<Json>, tail: seq<Json>)
    requires Keyed(kind, front + tail)
    ensures Keyed(kind, tail)
  {
    IdsConcat(By(kind), front, tail);
    TailDistinct(Ids(By(kind), front), Ids(By(kind), tail));
  }

  lemma TailDistinct<K>(a: seq<K>, b: seq<K>)
    requires Distinct(a + b)
    ensures Distinct(b) && forall x <- b :: x in a + b
  {
    forall i, j | 0 <= i < j < |b| ensures b[i] != b[j] {
      assert (a + b)[|a| + i] != (a + b)[|a| + j];
    }
  }

  lemma SurvivorIsLive(kind: Identity, current: seq<Json>, changed: seq<Json>, original: seq<Json>, id: Json)
    requires id in SurvivorIds(kind, current, changed, original)
    ensures id in Ids(By(kind), current)
  {
    var i :| 0 <= i < |current| && Survives(kind, current[i], changed, original) && IdentityOf(kind, current[i]) == id;
    assert Ids(By(kind), current)[i] == id;
  }

  /** What the user deleted stays deleted, and what the removal never touched stays there. */
  lemma NoResurrection(kind: Identity, current: seq<Json>, changed: seq<Json>, original: seq<Json>, id: Json)
    requires Keyed(kind, current) && Keyed(kind, changed) && Keyed(kind, original)
    ensures id in Ids(By(kind), changed) && id !in Ids(By(kind), current) ==>
              id !in Ids(By(kind), RestoreTimeline(kind, current, changed, original))
    ensures id in Ids(By(kind), current) && id !in Ids(By(kind), changed) ==>
              id in Ids(By(kind), RestoreTimeline(kind, current, changed, original))
  {
    MergeIdentities(kind, current, changed, original);
    if id in Ids(By(kind), current) && id !in Ids(By(kind), changed) {
      var i :| 0 <= i < |current| && Ids(By(kind), current)[i] == id;
      assert Survives(kind, current[i], changed, original);
    }
    if id in SurvivorIds(kind, current, changed, original) {
      var i :| 0 <= i < |current| && Survives(kind, current[i], changed, original)
               && IdentityOf(kind, current[i]) == id;
      assert Ids(By(kind), current)[i] == id;
    }
  }

  lemma {:induction false} KeptEntry(kind: Identity, pending: seq<Json>, changed: seq<Json>, original: seq<Json>,
                                     e: Json)
    ensures e in KeptEntries(kind, pending, changed, original) <==>
            exists live <- pending ::
              Survives(kind, live, changed, original) && e == MergeEntry(kind, live, changed, original)
    decreases |pending|
  {
    if pending != [] {
      KeptEntry(kind, pending[1..], changed, original, e);
      assert forall x :: x in pending <==> x == pending[0] || x in pending[1..];
    }
  }

  /** Entry by entry: the result holds the surviving live entries, each merged with its own
      two sides, and the deleted entries exactly as they were; nothing else. */
  lemma MergeEntries(kind: Identity, current: seq<Json>, changed: seq<Json>, original: seq<Json>, e: Json)
    requires Keyed(kind, current) && Keyed(kind, changed) && Keyed(kind, original)
    ensures e in RestoreTimeline(kind, current, changed, original) <==>
            || (exists live <- current ::
                  Survives(kind, live, changed, original) && e == MergeEntry(kind, live, changed, original))
            || (e in original && IdentityOf(kind, e) !in Ids(By(kind), changed)
                && IdentityOf(kind, e) !in SurvivorIds(kind, current, changed, original))
  {
    KeptIdSet(kind, current, changed, original);
    var kept := KeptEntries(kind, current, changed, original);
    KeptEntry(kind, current, changed, original, e);
    WovenEntries(By(kind), kept, original, IdSet(By(kind), kept), IdSet(By(kind), changed), Null);
  }

  /** An entry the removal never touched comes through unchanged. */
  lemma ForeignUnchanged(kind: Identity, current: seq<Json>, changed: seq<Json>, original: seq<Json>, e: Json)
    requires Keyed(kind, current) && Keyed(kind, changed) && Keyed(kind, original)
    requires e in current && IdentityOf(kind, e) !in Ids(By(kind), changed)
    ensures e in RestoreTimeline(kind, current, changed, original)
  {
    MergeEntries(kind, current, changed, original, e);
    assert Survives(kind, e, changed, original) && e == MergeEntry(kind, e, changed, original);
  }
}
