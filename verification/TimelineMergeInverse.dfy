/** The merge as an inverse: taking a removal back, or doing it again, when nothing else
    happened in between, and merging a removal that changed nothing. */
module TimelineMergeInverse {
  import opened JsonValues
  import opened Sequences
  import opened Reinsertion
  import opened TimelineMerge
  import opened TimelineMergeLaws

  /** Same entries, told apart only by what JSON text cannot show. */
  ghost predicate SameText(kind: Identity, a: seq<Json>, b: seq<Json>) {
    && |a| == |b|
    && Ids(By(kind), a) == Ids(By(kind), b)
    && forall i :: 0 <= i < |a| ==> Equal(a[i], b[i])
  }

  lemma {:induction false} LookupUnique(kind: Identity, list: seq<Json>, i: nat)
    requires i < |list| && Distinct(Ids(By(kind), list))
    ensures IdentityOf(kind, list[i]) in Ids(By(kind), list)
    ensures Lookup(kind, list, IdentityOf(kind, list[i])) == list[i]
  {
    var id := IdentityOf(kind, list[i]);
    assert Ids(By(kind), list)[i] == id;
    var found := Lookup(kind, list, id);
    var j :| 0 <= j < |list| && list[j] == found;
    assert Ids(By(kind), list)[j] == id;
  }

  lemma IdentifiedTruthy(kind: Identity, entry: Json)
    requires IdentityOf(kind, entry).Str?
    ensures Truthy(entry) || (kind == BySelf && entry == IdentityOf(kind, entry))
  {
  }

  /** A live entry that still reads as the removal left it merges to the original entry. */
  lemma UneditedEntry(kind: Identity, current: seq<Json>, changed: seq<Json>, original: seq<Json>, i: nat, j: nat)
    requires SameText(kind, current, changed) && Keyed(kind, changed) && Keyed(kind, original)
    requires i < |current| && j < |original| && IdentityOf(kind, current[i]) == IdentityOf(kind, original[j])
    ensures Survives(kind, current[i], changed, original)
    ensures MergeEntry(kind, current[i], changed, original) == original[j]
  {
    var id := IdentityOf(kind, current[i]);
    assert Ids(By(kind), current)[i] == id && Ids(By(kind), changed)[i] == id;
    LookupUnique(kind, changed, i);
    LookupUnique(kind, original, j);
    IdentifiedTruthy(kind, changed[i]);
    IdentifiedTruthy(kind, original[j]);
  }

  /** Every entry kept from an unedited timeline is an entry of the target list. */
  lemma UneditedKept(kind: Identity, current: seq<Json>, changed: seq<Json>, original: seq<Json>, e: Json)
    requires SameText(kind, current, changed) && Keyed(kind, changed) && Keyed(kind, original)
    requires e in KeptEntries(kind, current, changed, original)
    ensures e in original
  {
    KeptEntry(kind, current, changed, original, e);
    var live :| live in current && Survives(kind, live, changed, original)
                && e == MergeEntry(kind, live, changed, original);
    var i :| 0 <= i < |current| && current[i] == live;
    var id := Ids(By(kind), current)[i];
    assert id == Ids(By(kind), changed)[i];
    LookupUnique(kind, changed, i);
    assert id in Ids(By(kind), original);
    var j :| 0 <= j < |original| && Ids(By(kind), original)[j] == id;
    UneditedEntry(kind, current, changed, original, i, j);
  }

  /** In an unedited timeline, the survivors are the entries that the target list has. */
  lemma UneditedSurvivors(kind: Identity, current: seq<Json>, changed: seq<Json>, original: seq<Json>, id: Json)
    requires SameText(kind, current, changed) && Keyed(kind, changed) && Keyed(kind, original)
    requires id in Ids(By(kind), current)
    ensures id in SurvivorIds(kind, current, changed, original) <==> id in Ids(By(kind), original)
  {
    var i :| 0 <= i < |current| && Ids(By(kind), current)[i] == id;
    assert id == Ids(By(kind), changed)[i];
    LookupUnique(kind, changed, i);
    if id in SurvivorIds(kind, current, changed, original) {
      var j :| 0 <= j < |current| && Survives(kind, current[j], changed, original)
               && IdentityOf(kind, current[j]) == id;
      assert Ids(By(kind), current)[j] == id;
      assert j == i;
    }
    if id in Ids(By(kind), original) {
      assert Survives(kind, current[i], changed, original);
    }
  }

  /** Exact inverse. When what is there still reads as the removal left it, and the removal
      only deleted entries and edited others in place, the merge gives back the original
      list: every field of every entry, and every deleted run in its own position. */
  lemma RemovalUndone(kind: Identity, current: seq<Json>, changed: seq<Json>, original: seq<Json>)
    requires SameText(kind, current, changed) && Keyed(kind, changed) && Keyed(kind, original)
    requires Subsequence(Ids(By(kind), changed), Ids(By(kind), original))
    ensures RestoreTimeline(kind, current, changed, original) == original
  {
    var kept := KeptEntries(kind, current, changed, original);
    UneditedKeepsAll(kind, current, changed, original);
    LiftSubsequence(By(kind), kept, original);
    forall e <- original ensures e in kept || IdentityOf(kind, e) !in IdSet(By(kind), changed) {
      if IdentityOf(kind, e) in Ids(By(kind), kept) {
        var i :| 0 <= i < |kept| && Ids(By(kind), kept)[i] == IdentityOf(kind, e);
        SameIdentity(By(kind), original, kept[i], e);
      }
    }
    ReinsertRestores(By(kind), kept, original, IdSet(By(kind), changed), Null);
  }

  /** Of an unedited timeline every entry is kept, each as the target list has it. */
  lemma UneditedKeepsAll(kind: Identity, current: seq<Json>, changed: seq<Json>, original: seq<Json>)
    requires SameText(kind, current, changed) && Keyed(kind, changed) && Keyed(kind, original)
    requires Subsequence(Ids(By(kind), changed), Ids(By(kind), original))
    ensures var kept := KeptEntries(kind, current, changed, original);
            && Ids(By(kind), kept) == Ids(By(kind), changed)
            && Distinct(Ids(By(kind), kept)) && Null !in Ids(By(kind), kept)
            && IdSet(By(kind), kept) == IdSet(By(kind), changed)
            && forall e <- kept :: e in original
  {
    var kept := KeptEntries(kind, current, changed, original);
    KeptIdSet(kind, current, changed, original);
    forall id <- Ids(By(kind), current) ensures id in SurvivorIds(kind, current, changed, original) {
      SubsequenceMember(Ids(By(kind), changed), Ids(By(kind), original), id);
      UneditedSurvivors(kind, current, changed, original, id);
    }
    RestrictAll(Ids(By(kind), current), SurvivorIds(kind, current, changed, original));
    forall e <- kept ensures e in original {
      UneditedKept(kind, current, changed, original, e);
    }
  }

  lemma RedoneKept(kind: Identity, current: seq<Json>, before: seq<Json>, after: seq<Json>)
    requires SameText(kind, current, before) && Keyed(kind, before) && Keyed(kind, after)
    requires Subsequence(Ids(By(kind), after), Ids(By(kind), before))
    ensures KeptEntries(kind, current, before, after) == after
  {
    var kept := KeptEntries(kind, current, before, after);
    var ids := Ids(By(kind), after);
    KeptIdSet(kind, current, before, after);
    forall id <- Ids(By(kind), current) ensures id in SurvivorIds(kind, current, before, after) <==> id in ids {
      UneditedSurvivors(kind, current, before, after, id);
    }
    RestrictToSubsequence(ids, Ids(By(kind), current), SurvivorIds(kind, current, before, after));
    assert Ids(By(kind), kept) == ids;
    forall i | 0 <= i < |kept| ensures kept[i] == after[i] {
      UneditedKept(kind, current, before, after, kept[i]);
      assert Ids(By(kind), kept)[i] == ids[i];
      SameIdentity(By(kind), after, kept[i], after[i]);
    }
  }

  /** The same merge with the two sides swapped: from a timeline that reads as it did before
      the removal, it produces exactly what the removal left. */
  lemma RemovalRedone(kind: Identity, current: seq<Json>, before: seq<Json>, after: seq<Json>)
    requires SameText(kind, current, before) && Keyed(kind, before) && Keyed(kind, after)
    requires Subsequence(Ids(By(kind), after), Ids(By(kind), before))
    ensures RestoreTimeline(kind, current, before, after) == after
  {
    RedoneKept(kind, current, before, after);
    SubsequenceOfItself(after);
    ReinsertRestores(By(kind), after, after, IdSet(By(kind), before), Null);
  }

  // ---- a removal that changed nothing

  /** Merging with two equal sides changes nothing that JSON text can show. */
  lemma {:induction false} NothingRemovedFields(current: Json, side: Json)
    ensures Equal(RestoreFields(current, side, side), current)
    decreases Size(side), 0, 0
  {
    if !Equal(current, side) && current.Obj? && side.Obj? {
      NothingMerged(current.fields, side.fields);
      HasOwn(side.fields);
      NothingAdded(side.fields, current.fields, side.fields);
      assert MergeFields(current.fields, side.fields, side.fields) + []
             == MergeFields(current.fields, side.fields, side.fields);
    }
  }

  lemma {:induction false} NothingAdded(pending: seq<Field>, current: seq<Field>, side: seq<Field>)
    requires forall f <- pending :: Has(side, f.key)
    ensures AddedFields(pending, current, side) == []
    decreases |pending|
  {
    if pending != [] {
      assert pending[0] in pending;
      NothingAdded(pending[1..], current, side);
    }
  }

  lemma {:induction false} HasOwn(fields: seq<Field>)
    ensures forall f <- fields :: Has(fields, f.key)
    decreases |fields|
  {
    if fields != [] {
      HasOwn(fields[1..]);
    }
  }

  lemma {:induction false} NothingMerged(pending: seq<Field>, side: seq<Field>)
    ensures WireFields(MergeFields(pending, side, side)) == WireFields(pending)
    decreases FieldsSize(side), 3, |pending|
  {
    if pending != [] {
      var f := pending[0];
      NothingMerged(pending[1..], side);
      if Has(side, f.key) && !Equal(f.value, Get(side, f.key)) {
        NothingMergedValue(f.key, f.value, side);
      }
      var head := MergeField(f, side, side);
      assert |head| == 1 && Equal(head[0].value, f.value);
      assert MergeFields(pending, side, side)[1..] == MergeFields(pending[1..], side, side);
    }
  }

  lemma {:induction false} NothingMergedValue(key: Text, current: Json, side: seq<Field>)
    requires Has(side, key)
    ensures Equal(MergeValue(key, current, Get(side, key), side), current)
    decreases FieldsSize(side), 1, 0
  {
    GetIsSmaller(side, key);
    var prior := Get(side, key);
    if key == LINKS && Mergeable(ByTarget, current) && Mergeable(ByTarget, prior) {
      NothingRemoved(ByTarget, current.items, prior.items);
    } else if key == IDS && Mergeable(BySelf, current) && Mergeable(BySelf, prior) {
      NothingRemoved(BySelf, current.items, prior.items);
    } else {
      NothingRemovedFields(current, prior);
    }
  }

  lemma {:induction false} NothingKept(kind: Identity, pending: seq<Json>, side: seq<Json>)
    ensures WireItems(KeptEntries(kind, pending, side, side)) == WireItems(pending)
    decreases ItemsSize(side), 1, |pending| + 1
  {
    if pending != [] {
      var e := pending[0];
      var id := IdentityOf(kind, e);
      if id in Ids(By(kind), side) {
        LookupIsSmaller(kind, side, id);
        NothingRemovedFields(e, Lookup(kind, side, id));
      }
      NothingKept(kind, pending[1..], side);
      assert KeptEntries(kind, pending, side, side)[1..] == KeptEntries(kind, pending[1..], side, side);
    }
  }

  lemma {:induction false} NothingPlaced(kind: Identity, original: seq<Json>, present: set<Json>, gone: set<Json>)
    requires forall id <- Ids(By(kind), original) :: id in gone
    ensures Place(By(kind), original, present, gone, Null).buckets == map[]
    decreases |original|
  {
    if original != [] {
      IdsTail(By(kind), original);
      NothingPlaced(kind, original[1..], present, gone);
    }
  }

  /** No requirement on the lists at all: the merge of a removal that changed nothing leaves
      the live timeline with the JSON text it had. */
  lemma {:induction false} NothingRemoved(kind: Identity, current: seq<Json>, side: seq<Json>)
    ensures WireItems(RestoreTimeline(kind, current, side, side)) == WireItems(current)
    decreases ItemsSize(side), 2, 0
  {
    var kept := KeptEntries(kind, current, side, side);
    NothingKept(kind, current, side);
    NothingPlaced(kind, side, IdSet(By(kind), kept), IdSet(By(kind), side));
    WeaveNothing(By(kind), kept, Null);
  }
}
