/** The list merge as the source runs it: insertion buckets filled by pushing from the back
    of the original list, then emitted, reversed, while walking the kept entries. */
module TimelineMergeLoops {
  import opened JsonValues
  import opened Reinsertion
  import opened TimelineMerge

  function Reversed<T>(s: seq<T>): seq<T> {
    if s == [] then [] else Reversed(s[1..]) + [s[0]]
  }

  lemma {:induction false} ReversedPush<T>(s: seq<T>, x: T)
    ensures Reversed(s + [x]) == [x] + Reversed(s)
    decreases |s|
  {
    if s == [] {
      assert s + [x] == [x];
      assert [x][1..] == [];
    } else {
      ReversedPush(s[1..], x);
      assert (s + [x])[1..] == s[1..] + [x];
      assert Reversed(s + [x]) == ([x] + Reversed(s[1..])) + [s[0]];
    }
  }

  /** The buckets of the source hold their runs back to front. */
  ghost predicate HoldsReversed<T(!new), K(!new)>(insertions: map<K, seq<T>>, buckets: map<K, seq<T>>) {
    && insertions.Keys == buckets.Keys
    && forall k <- insertions :: Reversed(insertions[k]) == buckets[k]
  }

  method FillInsertions<T(!new), K(==, !new)>(identity: T -> K, original: seq<T>, present: set<K>, gone: set<K>, end: K)
    returns (insertions: map<K, seq<T>>)
    ensures HoldsReversed(insertions, Place(identity, original, present, gone, end).buckets)
  {
    insertions := map[];
    var i, following := |original|, end;
    while i > 0
      invariant 0 <= i <= |original|
      invariant following == Place(identity, original[i..], present, gone, end).following
      invariant HoldsReversed(insertions, Place(identity, original[i..], present, gone, end).buckets)
    {
      i := i - 1;
      var entry := original[i];
      assert original[i..][0] == entry && original[i..][1..] == original[i + 1..];
      if identity(entry) in present {
        following := identity(entry);
      } else if identity(entry) !in gone {
        var run := if following in insertions then insertions[following] else [];
        ReversedPush(run, entry);
        insertions := insertions[following := run + [entry]];
      }
    }
    assert original[0..] == original;
  }

  lemma WeaveStep<T, K>(identity: T -> K, kept: seq<T>, j: nat, buckets: map<K, seq<T>>, end: K)
    requires j < |kept|
    ensures Weave(identity, kept[j..], buckets, end)
            == Bucket(buckets, identity(kept[j])) + [kept[j]] + Weave(identity, kept[j + 1..], buckets, end)
  {
    assert kept[j..][1..] == kept[j + 1..];
  }

  lemma Regroup<T>(a: seq<T>, b: seq<T>, c: seq<T>, d: seq<T>)
    ensures a + (b + c + d) == a + b + c + d
  {
  }

  method EmitWithInsertions<T(!new), K(==, !new)>(identity: T -> K, kept: seq<T>, insertions: map<K, seq<T>>,
                                                  ghost buckets: map<K, seq<T>>, end: K)
    returns (emitted: seq<T>)
    requires HoldsReversed(insertions, buckets)
    ensures emitted == Weave(identity, kept, buckets, end)
  {
    emitted := [];
    for j := 0 to |kept|
      invariant emitted + Weave(identity, kept[j..], buckets, end) == Weave(identity, kept, buckets, end)
    {
      var id := identity(kept[j]);
      var run := if id in insertions then Reversed(insertions[id]) else [];
      assert run == Bucket(buckets, id);
      WeaveStep(identity, kept, j, buckets, end);
      Regroup(emitted, run, [kept[j]], Weave(identity, kept[j + 1..], buckets, end));
      emitted := emitted + run + [kept[j]];
    }
    assert kept[|kept|..] == [];
    emitted := emitted + (if end in insertions then Reversed(insertions[end]) else []);
  }

  method RestoreTimelineInPlace(kind: Identity, current: seq<Json>, changed: seq<Json>, original: seq<Json>)
    returns (merged: seq<Json>)
    ensures merged == RestoreTimeline(kind, current, changed, original)
  {
    var kept := KeptEntries(kind, current, changed, original);
    var present, gone := IdSet(By(kind), kept), IdSet(By(kind), changed);
    var insertions := FillInsertions(By(kind), original, present, gone, Null);
    ghost var buckets := Place(By(kind), original, present, gone, Null).buckets;
    merged := EmitWithInsertions(By(kind), kept, insertions, buckets, Null);
  }
}
