/** Where a reinsertion puts the entries that come back, whatever has happened to the order of
    the others: each run of missing entries goes, in its original order, right before the next
    original entry that is present, or to the end when there is none. */
module ReinsertionPlaces {
  import opened Sequences
  import opened Reinsertion

  /** The entries of a run that come back. */
  function Returning<T, K(==)>(identity: T -> K, run: seq<T>, gone: set<K>): seq<T> {
    if run == [] then []
    else (if identity(run[0]) in gone then [] else [run[0]]) + Returning(identity, run[1..], gone)
  }

  /** The group of the first present entry of `list`. */
  function KeyOf<T, K(==)>(identity: T -> K, list: seq<T>, end: K): K {
    if list == [] then end else identity(list[0])
  }

  lemma {:induction false} BucketKeys<T, K>(identity: T -> K, list: seq<T>, present: set<K>, gone: set<K>, end: K)
    ensures var p := Place(identity, list, present, gone, end);
            && (p.following == end || p.following in Ids(identity, list))
            && forall k <- p.buckets :: k == end || k in Ids(identity, list)
    decreases |list|
  {
    if list != [] {
      BucketKeys(identity, list[1..], present, gone, end);
      assert forall k <- Ids(identity, list[1..]) :: k in Ids(identity, list) by {
        IdsTail(identity, list);
      }
      assert Ids(identity, list)[0] == identity(list[0]);
    }
  }

  /** At the start of what follows a run, its group is still empty. */
  lemma NothingYet<T, K>(identity: T -> K, rest: seq<T>, present: set<K>, gone: set<K>, end: K)
    requires Distinct(Ids(identity, rest)) && end !in Ids(identity, rest)
    requires rest == [] || identity(rest[0]) in present
    ensures var p := Place(identity, rest, present, gone, end);
            p.following == KeyOf(identity, rest, end) && Bucket(p.buckets, p.following) == []
  {
    if rest != [] {
      BucketKeys(identity, rest[1..], present, gone, end);
      FirstApart(identity, rest);
      assert Ids(identity, rest)[0] == identity(rest[0]);
    }
  }

  /** The group holds the run, and in front of it what came before. */
  lemma {:induction false} RunPlaced<T, K>(identity: T -> K, run: seq<T>, rest: seq<T>, present: set<K>, gone: set<K>,
                                           end: K)
    requires Distinct(Ids(identity, rest)) && end !in Ids(identity, rest)
    requires rest == [] || identity(rest[0]) in present
    requires forall e <- run :: identity(e) !in present
    ensures var p := Place(identity, run + rest, present, gone, end);
            p.following == KeyOf(identity, rest, end)
            && Bucket(p.buckets, p.following) == Returning(identity, run, gone)
    decreases |run|
  {
    if run == [] {
      assert run + rest == rest;
      NothingYet(identity, rest, present, gone, end);
    } else {
      assert (run + rest)[1..] == run[1..] + rest;
      RunPlaced(identity, run[1..], rest, present, gone, end);
    }
  }

  lemma {:induction false} GroupGrows<T, K>(identity: T -> K, front: seq<T>, tail: seq<T>, present: set<K>,
                                            gone: set<K>, end: K, k: K)
    returns (more: seq<T>)
    ensures Bucket(Place(identity, front + tail, present, gone, end).buckets, k)
            == more + Bucket(Place(identity, tail, present, gone, end).buckets, k)
    decreases |front|
  {
    if front == [] {
      assert front + tail == tail;
      more := [];
    } else {
      assert (front + tail)[1..] == front[1..] + tail;
      more := GroupGrows(identity, front[1..], tail, present, gone, end, k);
      var p := Place(identity, front[1..] + tail, present, gone, end);
      var id := identity(front[0]);
      if id !in present && id !in gone && p.following == k {
        Rejoined([front[0]], more, Bucket(Place(identity, tail, present, gone, end).buckets, k));
        more := [front[0]] + more;
      }
    }
  }

  /** A group is woven right before its entry. */
  lemma {:induction false} WovenBefore<T, K>(identity: T -> K, kept: seq<T>, buckets: map<K, seq<T>>, end: K, t: nat)
    returns (before: seq<T>, after: seq<T>)
    requires t < |kept|
    ensures Weave(identity, kept, buckets, end) == before + (Bucket(buckets, identity(kept[t])) + ([kept[t]] + after))
    decreases t
  {
    var group, later := Bucket(buckets, identity(kept[0])), Weave(identity, kept[1..], buckets, end);
    if t == 0 {
      before, after := [], later;
      Rejoined(group, [kept[0]], later);
      assert [] + (group + ([kept[0]] + later)) == group + ([kept[0]] + later);
    } else {
      before, after := WovenBefore(identity, kept[1..], buckets, end, t - 1);
      Rejoined(group + [kept[0]], before, Bucket(buckets, identity(kept[t])) + ([kept[t]] + after));
      before := group + [kept[0]] + before;
    }
  }

  lemma {:induction false} WovenLast<T, K>(identity: T -> K, kept: seq<T>, buckets: map<K, seq<T>>, end: K)
    returns (before: seq<T>)
    ensures Weave(identity, kept, buckets, end) == before + Bucket(buckets, end)
    decreases |kept|
  {
    before := [];
    if kept != [] {
      var rest := WovenLast(identity, kept[1..], buckets, end);
      before := Bucket(buckets, identity(kept[0])) + [kept[0]] + rest;
      Rejoined(Bucket(buckets, identity(kept[0])) + [kept[0]], rest, Bucket(buckets, end));
    } else {
      assert [] + Bucket(buckets, end) == Bucket(buckets, end);
    }
  }

  /** The original list is `front`, a run of missing entries, and `rest`, which is empty or
      begins with a present entry. The run comes back in one piece, in its order, right before
      the kept entry that stands for that one, or at the end. */
  lemma RunsReturnTogether<T, K>(identity: T -> K, kept: seq<T>, front: seq<T>, run: seq<T>, rest: seq<T>,
                                 gone: set<K>, end: K)
    returns (before: seq<T>, after: seq<T>)
    requires Distinct(Ids(identity, rest)) && end !in Ids(identity, rest)
    requires rest == [] || identity(rest[0]) in IdSet(identity, kept)
    requires forall e <- run :: identity(e) !in IdSet(identity, kept)
    ensures Reinsert(identity, kept, front + (run + rest), gone, end)
              == before + (Returning(identity, run, gone) + after)
    ensures rest == [] ==> after == []
    ensures rest != [] ==> after != [] && after[0] in kept && identity(after[0]) == identity(rest[0])
  {
    var present := IdSet(identity, kept);
    var key := KeyOf(identity, rest, end);
    var p := Place(identity, front + (run + rest), present, gone, end);
    RunPlaced(identity, run, rest, present, gone, end);
    var earlier := GroupGrows(identity, front, run + rest, present, gone, end, key);
    var block := Returning(identity, run, gone);
    if rest == [] {
      before := WovenLast(identity, kept, p.buckets, end);
      after := [];
      Rejoined(before, earlier, block);
      assert block + [] == block;
    } else {
      var t :| 0 <= t < |kept| && Ids(identity, kept)[t] == key;
      before, after := WovenBefore(identity, kept, p.buckets, end, t);
      after := [kept[t]] + after;
      Rejoined(earlier, block, after);
      Rejoined(before, earlier, block + after);
    }
    before := before + earlier;
  }
}
