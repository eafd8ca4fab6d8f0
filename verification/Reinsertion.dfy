/** Putting deleted entries of an ordered list back into a list that went on living.

    An entry that is not present goes just before the nearest later entry of the original
    order that still is, or to the end. Timelines recognise their entries by an identity
    they carry, item lists by the object itself, so identities come from a function. */
module Reinsertion {
  import opened Sequences

  function Ids<T, K>(identity: T -> K, list: seq<T>): (r: seq<K>)
    ensures |r| == |list|
    ensures forall i :: 0 <= i < |list| ==> r[i] == identity(list[i])
  {
    seq(|list|, i requires 0 <= i < |list| => identity(list[i]))
  }

  function IdSet<T, K(==)>(identity: T -> K, list: seq<T>): set<K> {
    set id | id in Ids(identity, list)
  }

  /** The reinserted entries, grouped by the identity of the entry they go before; the group
      of `end` goes last. `following` is the identity of the first present entry. */
  datatype Placement<T, K> = Placement(following: K, buckets: map<K, seq<T>>)

  function Bucket<T, K>(buckets: map<K, seq<T>>, id: K): seq<T> {
    if id in buckets then buckets[id] else []
  }

  function Place<T, K(==)>(identity: T -> K, original: seq<T>, present: set<K>, gone: set<K>, end: K): Placement<T, K> {
    if original == [] then Placement(end, map[])
    else
      var p := Place(identity, original[1..], present, gone, end);
      var id := identity(original[0]);
      if id in present then p.(following := id)
      else if id in gone then p
      else p.(buckets := p.buckets[p.following := [original[0]] + Bucket(p.buckets, p.following)])
  }

  function Weave<T, K(==)>(identity: T -> K, kept: seq<T>, buckets: map<K, seq<T>>, end: K): seq<T> {
    if kept == [] then Bucket(buckets, end)
    else Bucket(buckets, identity(kept[0])) + [kept[0]] + Weave(identity, kept[1..], buckets, end)
  }

  /** The whole operation. */
  function Reinsert<T, K(==)>(identity: T -> K, kept: seq<T>, original: seq<T>, gone: set<K>, end: K): seq<T> {
    Weave(identity, kept, Place(identity, original, IdSet(identity, kept), gone, end).buckets, end)
  }

  // ---- restriction of a sequence

  /** `s` without the elements outside `keep`. */
  ghost function Restrict<T>(s: seq<T>, keep: set<T>): seq<T> {
    if s == [] then []
    else (if s[0] in keep then [s[0]] else []) + Restrict(s[1..], keep)
  }

  lemma {:induction false} RestrictConcat<T>(a: seq<T>, b: seq<T>, keep: set<T>)
    ensures Restrict(a + b, keep) == Restrict(a, keep) + Restrict(b, keep)
    decreases |a|
  {
    if a == [] {
      assert a + b == b;
    } else {
      RestrictConcat(a[1..], b, keep);
      assert (a + b)[1..] == a[1..] + b;
    }
  }

  lemma {:induction false} RestrictAll<T>(s: seq<T>, keep: set<T>)
    requires forall x <- s :: x in keep
    ensures Restrict(s, keep) == s
    decreases |s|
  {
    if s != [] {
      assert forall x <- s[1..] :: x in s;
      RestrictAll(s[1..], keep);
    }
  }

  lemma {:induction false} RestrictMember<T>(s: seq<T>, keep: set<T>, x: T)
    ensures x in Restrict(s, keep) <==> x in s && x in keep
    decreases |s|
  {
    if s != [] {
      RestrictMember(s[1..], keep, x);
      assert x in s <==> x == s[0] || x in s[1..];
    }
  }

  lemma {:induction false} RestrictDistinct<T>(s: seq<T>, keep: set<T>)
    requires Distinct(s)
    ensures Distinct(Restrict(s, keep))
    decreases |s|
  {
    if s != [] {
      RestrictDistinct(s[1..], keep);
      RestrictMember(s[1..], keep, s[0]);
    }
  }

  lemma {:induction false} RestrictAgree<T>(s: seq<T>, a: set<T>, b: set<T>)
    requires forall x <- s :: x in a <==> x in b
    ensures Restrict(s, a) == Restrict(s, b)
    decreases |s|
  {
    if s != [] {
      assert forall x <- s[1..] :: x in s;
      RestrictAgree(s[1..], a, b);
    }
  }

  lemma IdsConcat<T, K>(identity: T -> K, a: seq<T>, b: seq<T>)
    ensures Ids(identity, a + b) == Ids(identity, a) + Ids(identity, b)
  {
  }

  lemma IdsTail<T, K>(identity: T -> K, list: seq<T>)
    requires list != []
    ensures Ids(identity, list)[1..] == Ids(identity, list[1..])
    ensures Ids(identity, list) == [identity(list[0])] + Ids(identity, list[1..])
  {
  }

  // ---- weaving, one reinserted entry at a time

  lemma {:induction false} WeaveAgree<T, K>(identity: T -> K, kept: seq<T>, a: map<K, seq<T>>, b: map<K, seq<T>>,
                                            end: K)
    requires Bucket(a, end) == Bucket(b, end)
    requires forall id <- Ids(identity, kept) :: Bucket(a, id) == Bucket(b, id)
    ensures Weave(identity, kept, a, end) == Weave(identity, kept, b, end)
    decreases |kept|
  {
    if kept != [] {
      IdsTail(identity, kept);
      WeaveAgree(identity, kept[1..], a, b, end);
    }
  }

  lemma {:induction false} WeaveNothing<T, K>(identity: T -> K, kept: seq<T>, end: K)
    ensures Weave(identity, kept, map[], end) == kept
    decreases |kept|
  {
    if kept != [] {
      WeaveNothing(identity, kept[1..], end);
    }
  }

  /** Does the entry at `i` begin the run that goes before `key`, or `key` itself? */
  ghost predicate RunStarts<T, K>(identity: T -> K, woven: seq<T>, i: nat, run: seq<T>, key: K, end: K) {
    if run != [] then i < |woven| && woven[i] == run[0]
    else if key == end then i == |woven|
    else i < |woven| && identity(woven[i]) == key
  }

  /** Giving one more entry to a bucket inserts it once in the woven list, where the run of
      that bucket starts. */
  lemma {:induction false} WeaveInsert<T, K>(identity: T -> K, kept: seq<T>, buckets: map<K, seq<T>>, key: K, e: T,
                                             end: K)
    returns (i: nat)
    requires Distinct(Ids(identity, kept)) && end !in Ids(identity, kept)
    requires key == end || key in Ids(identity, kept)
    ensures var before := Weave(identity, kept, buckets, end);
            var grown := buckets[key := [e] + Bucket(buckets, key)];
            && i <= |before| && Weave(identity, kept, grown, end) == before[..i] + [e] + before[i..]
            && RunStarts(identity, before, i, Bucket(buckets, key), key, end)
    decreases |kept|
  {
    var grown := buckets[key := [e] + Bucket(buckets, key)];
    var before := Weave(identity, kept, buckets, end);
    if kept == [] {
      i := 0;
      assert before[..0] + [e] + before[0..] == [e] + before;
    } else {
      IdsTail(identity, kept);
      var id := identity(kept[0]);
      if id == key {
        i := 0;
        WeaveInsertHere(identity, kept, buckets, e, end);
      } else {
        var j := WeaveInsert(identity, kept[1..], buckets, key, e, end);
        var head := Bucket(buckets, id) + [kept[0]];
        var tail := Weave(identity, kept[1..], buckets, end);
        i := InsertBehind(head, tail, j, e);
        assert i < |before| ==> before[i] == tail[j];
      }
    }
  }

  /** A new entry for the first group goes first. */
  lemma WeaveInsertHere<T, K>(identity: T -> K, kept: seq<T>, buckets: map<K, seq<T>>, e: T, end: K)
    requires kept != [] && Distinct(Ids(identity, kept)) && end !in Ids(identity, kept)
    ensures var before, key := Weave(identity, kept, buckets, end), identity(kept[0]);
            Weave(identity, kept, buckets[key := [e] + Bucket(buckets, key)], end) == before[..0] + [e] + before[0..]
  {
    var key := identity(kept[0]);
    var grown := buckets[key := [e] + Bucket(buckets, key)];
    WeaveLater(identity, kept, buckets, grown, end);
    var group, later := Bucket(buckets, key), Weave(identity, kept[1..], buckets, end);
    assert ([e] + group) + [kept[0]] + later == [e] + (group + [kept[0]] + later);
    var before := group + [kept[0]] + later;
    assert before[..0] + [e] + before[0..] == [e] + before;
  }

  lemma InsertBehind<T>(head: seq<T>, tail: seq<T>, j: nat, e: T) returns (i: nat)
    requires j <= |tail|
    ensures i == |head| + j
    ensures head + (tail[..j] + [e] + tail[j..]) == (head + tail)[..i] + [e] + (head + tail)[i..]
  {
    i := |head| + j;
    assert (head + tail)[..i] == head + tail[..j];
    assert (head + tail)[i..] == tail[j..];
  }

  lemma {:induction false} FollowingPresent<T, K>(identity: T -> K, original: seq<T>, present: set<K>, gone: set<K>,
                                                  end: K)
    ensures var f := Place(identity, original, present, gone, end).following;
            f == end || (f in present && f in Ids(identity, original))
    decreases |original|
  {
    if original != [] {
      FollowingPresent(identity, original[1..], present, gone, end);
      IdsTail(identity, original);
    }
  }

  lemma InsertedMembers<T>(s: seq<T>, i: nat, x: T)
    requires i <= |s|
    ensures forall y :: y in s[..i] + [x] + s[i..] <==> y == x || y in s
  {
    assert s == s[..i] + s[i..];
  }

  lemma InsertedDistinct<T>(s: seq<T>, i: nat, x: T)
    requires i <= |s| && Distinct(s) && x !in s
    ensures Distinct(s[..i] + [x] + s[i..])
  {
    var whole := s[..i] + [x] + s[i..];
    forall j, k | 0 <= j < k < |whole| ensures whole[j] != whole[k] {
      assert j < i ==> whole[j] == s[j];
      assert j > i ==> whole[j] == s[j - 1];
      assert k < i ==> whole[k] == s[k];
      assert k > i ==> whole[k] == s[k - 1];
    }
  }

  lemma InsertedRestrict<T>(s: seq<T>, i: nat, x: T, keep: set<T>)
    requires i <= |s| && x !in keep
    ensures Restrict(s[..i] + [x] + s[i..], keep) == Restrict(s, keep)
  {
    var a, b := s[..i], s[i..];
    var tail := [x] + b;
    assert tail[1..] == b;
    assert s == a + b;
    assert a + [x] + b == a + tail;
    RestrictConcat(a, b, keep);
    RestrictConcat(a, tail, keep);
  }

  /** The identities a reinsertion must end with: the kept ones and the missing ones that
      are not gone, each once, the kept ones in their order. */
  ghost predicate Merged<K>(ids: seq<K>, kept: seq<K>, original: seq<K>, present: set<K>, gone: set<K>) {
    && (forall x <- ids :: x in present || (x in original && x !in gone))
    && (forall x <- present :: x in ids)
    && (forall x <- original :: x !in gone ==> x in ids)
    && Distinct(ids)
    && Restrict(ids, present) == kept
  }

  lemma {:induction false} WovenIds<T, K>(identity: T -> K, kept: seq<T>, original: seq<T>, present: set<K>,
                                          gone: set<K>, end: K)
    requires present == IdSet(identity, kept)
    requires Distinct(Ids(identity, kept)) && Distinct(Ids(identity, original))
    requires end !in Ids(identity, kept)
    ensures Merged(Ids(identity, Weave(identity, kept, Place(identity, original, present, gone, end).buckets, end)),
                   Ids(identity, kept), Ids(identity, original), present, gone)
    decreases |original|
  {
    if original == [] {
      WeaveNothing(identity, kept, end);
      RestrictAll(Ids(identity, kept), present);
    } else {
      var rest := original[1..];
      var id := identity(original[0]);
      IdsTail(identity, original);
      WovenIds(identity, kept, rest, present, gone, end);
      FirstApart(identity, original);
      var p := Place(identity, rest, present, gone, end);
      if id !in present && id !in gone {
        FollowingPresent(identity, rest, present, gone, end);
        var before := Weave(identity, kept, p.buckets, end);
        var i := WeaveInsert(identity, kept, p.buckets, p.following, original[0], end);
        IdsInserted(identity, before, i, original[0]);
        MergedInserted(Ids(identity, before), i, id, Ids(identity, kept), Ids(identity, rest), present, gone);
      } else {
        var same := Weave(identity, kept, p.buckets, end);
        MergedSkipped(Ids(identity, same), id, Ids(identity, kept), Ids(identity, rest), present, gone);
      }
      assert Ids(identity, original) == [id] + Ids(identity, rest);
    }
  }

  lemma IdsInserted<T, K>(identity: T -> K, s: seq<T>, i: nat, x: T)
    requires i <= |s|
    ensures Ids(identity, s[..i] + [x] + s[i..]) == Ids(identity, s)[..i] + [identity(x)] + Ids(identity, s)[i..]
  {
  }

  lemma MergedInserted<K>(ids: seq<K>, i: nat, id: K, kept: seq<K>, rest: seq<K>, present: set<K>, gone: set<K>)
    requires Merged(ids, kept, rest, present, gone) && i <= |ids|
    requires id !in rest && id !in present && id !in gone
    ensures Merged(ids[..i] + [id] + ids[i..], kept, [id] + rest, present, gone)
  {
    assert id !in ids;
    InsertedMembers(ids, i, id);
    InsertedDistinct(ids, i, id);
    InsertedRestrict(ids, i, id, present);
  }

  lemma MergedSkipped<K>(ids: seq<K>, id: K, kept: seq<K>, rest: seq<K>, present: set<K>, gone: set<K>)
    requires Merged(ids, kept, rest, present, gone) && (id in present || id in gone)
    ensures Merged(ids, kept, [id] + rest, present, gone)
  {
  }

  lemma ReinsertIds<T, K>(identity: T -> K, kept: seq<T>, original: seq<T>, gone: set<K>, end: K)
    requires Distinct(Ids(identity, kept)) && Distinct(Ids(identity, original))
    requires end !in Ids(identity, kept)
    ensures Merged(Ids(identity, Reinsert(identity, kept, original, gone, end)), Ids(identity, kept),
                   Ids(identity, original), IdSet(identity, kept), gone)
  {
    WovenIds(identity, kept, original, IdSet(identity, kept), gone, end);
  }

  /** The same, entry by entry: kept entries as kept, reinserted ones as they were. */
  lemma {:induction false} WovenEntries<T, K>(identity: T -> K, kept: seq<T>, original: seq<T>, present: set<K>,
                                              gone: set<K>, end: K)
    requires present == IdSet(identity, kept)
    requires Distinct(Ids(identity, kept)) && end !in Ids(identity, kept)
    ensures var woven := Weave(identity, kept, Place(identity, original, present, gone, end).buckets, end);
            forall e :: e in woven <==> e in kept || (e in original && identity(e) !in present && identity(e) !in gone)
    decreases |original|
  {
    if original == [] {
      WeaveNothing(identity, kept, end);
    } else {
      var rest := original[1..];
      WovenEntries(identity, kept, rest, present, gone, end);
      assert forall e :: e in original <==> e == original[0] || e in rest;
      var p := Place(identity, rest, present, gone, end);
      var id := identity(original[0]);
      if id !in present && id !in gone {
        FollowingPresent(identity, rest, present, gone, end);
        var before := Weave(identity, kept, p.buckets, end);
        var i := WeaveInsert(identity, kept, p.buckets, p.following, original[0], end);
        InsertedMembers(before, i, original[0]);
      }
    }
  }

  // ---- nothing else happened: the original list comes back

  /** `kept` is `original` with some entries left out, in order. */
  ghost predicate Subsequence<T>(kept: seq<T>, original: seq<T>) {
    if kept == [] then true
    else if original == [] then false
    else if kept[0] == original[0] then Subsequence(kept[1..], original[1..])
    else Subsequence(kept, original[1..])
  }

  lemma {:induction false} SubsequenceMember<T>(kept: seq<T>, original: seq<T>, x: T)
    requires Subsequence(kept, original) && x in kept
    ensures x in original
    decreases |original|
  {
    if kept[0] == original[0] {
      if x != kept[0] { SubsequenceMember(kept[1..], original[1..], x); }
    } else {
      SubsequenceMember(kept, original[1..], x);
    }
  }

  lemma FirstApart<T, K>(identity: T -> K, s: seq<T>)
    requires s != [] && Distinct(Ids(identity, s))
    ensures forall x <- s[1..] :: x in s && x != s[0]
    ensures identity(s[0]) !in Ids(identity, s[1..])
  {
    IdsTail(identity, s);
    forall i | 0 <= i < |s[1..]| ensures identity(s[1..][i]) != identity(s[0]) {
      assert Ids(identity, s)[i + 1] == identity(s[i + 1]) && Ids(identity, s)[0] == identity(s[0]);
    }
  }

  /** What a placement of `original` around its subsequence `kept` must come to. */
  ghost predicate Placed<T, K>(identity: T -> K, kept: seq<T>, original: seq<T>, p: Placement<T, K>, end: K) {
    && p.following == (if kept == [] then end else identity(kept[0]))
    && (forall k <- p.buckets :: k == end || k in Ids(identity, original))
    && Weave(identity, kept, p.buckets, end) == original
  }

  lemma PlacedKept<T, K>(identity: T -> K, kept: seq<T>, original: seq<T>, p: Placement<T, K>, end: K)
    requires kept != [] && original != [] && kept[0] == original[0]
             && Placed(identity, kept[1..], original[1..], p, end)
    requires Distinct(Ids(identity, original)) && end !in Ids(identity, original)
    ensures Placed(identity, kept, original, p.(following := identity(kept[0])), end)
  {
    FirstApart(identity, original);
    IdsTail(identity, original);
    assert Ids(identity, original)[0] == identity(kept[0]);
    assert Bucket(p.buckets, identity(kept[0])) == [];
    NoGroup(kept[0], original[1..]);
    assert [original[0]] + original[1..] == original;
  }

  lemma NoGroup<T>(e: T, later: seq<T>)
    ensures [] + [e] + later == [e] + later
  {
  }

  lemma PlacedMissing<T, K>(identity: T -> K, kept: seq<T>, original: seq<T>, p: Placement<T, K>, end: K)
    requires original != [] && Placed(identity, kept, original[1..], p, end) && Subsequence(kept, original[1..])
    requires Distinct(Ids(identity, original)) && end !in Ids(identity, original)
    ensures Placed(identity, kept, original,
                   p.(buckets := p.buckets[p.following := [original[0]] + Bucket(p.buckets, p.following)]), end)
  {
    var rest := original[1..];
    IdsTail(identity, original);
    SubsequenceIds(identity, kept, rest);
    SubsequenceDistinct(identity, kept, rest);
    WeaveGrownFront(identity, kept, rest, p, original[0], end);
    assert original == [original[0]] + rest;
    assert p.following == end || p.following in Ids(identity, kept);
  }

  lemma InTail<T>(kept: seq<T>, rest: seq<T>)
    requires kept != [] && kept[0] !in rest
    ensures kept[0] in kept && forall x <- rest :: x in kept <==> x in kept[1..]
  {
    assert kept == [kept[0]] + kept[1..];
  }

  lemma {:induction false} PlaceSequence<T, K>(identity: T -> K, kept: seq<T>, original: seq<T>, present: set<K>,
                                               gone: set<K>, end: K)
    requires Subsequence(kept, original) && Distinct(Ids(identity, original))
    requires end !in Ids(identity, original)
    requires forall e <- original :: identity(e) in present <==> e in kept
    requires forall e <- original :: e in kept || identity(e) !in gone
    ensures Placed(identity, kept, original, Place(identity, original, present, gone, end), end)
    decreases |original|
  {
    if original != [] {
      var e, rest := original[0], original[1..];
      var p := Place(identity, rest, present, gone, end);
      IdsTail(identity, original);
      FirstApart(identity, original);
      if kept != [] && kept[0] == e {
        InTail(kept, rest);
        PlaceSequence(identity, kept[1..], rest, present, gone, end);
        PlacedKept(identity, kept, original, p, end);
      } else {
        if e in kept {
          SubsequenceMember(kept, rest, e);
        }
        PlaceSequence(identity, kept, rest, present, gone, end);
        PlacedMissing(identity, kept, original, p, end);
      }
    }
  }

  lemma WeaveGrownFront<T, K>(identity: T -> K, kept: seq<T>, rest: seq<T>, p: Placement<T, K>, e: T, end: K)
    requires Distinct(Ids(identity, kept)) && end !in Ids(identity, kept)
    requires p.following == (if kept == [] then end else identity(kept[0]))
    requires Weave(identity, kept, p.buckets, end) == rest
    ensures Weave(identity, kept, p.buckets[p.following := [e] + Bucket(p.buckets, p.following)], end) == [e] + rest
  {
    var grown := p.buckets[p.following := [e] + Bucket(p.buckets, p.following)];
    if kept != [] {
      WeaveLater(identity, kept, p.buckets, grown, end);
      PushFront(e, Bucket(p.buckets, p.following), [kept[0]], Weave(identity, kept[1..], p.buckets, end));
    }
  }

  /** What is woven behind the first entry does not depend on the bucket before it. */
  lemma WeaveLater<T, K>(identity: T -> K, kept: seq<T>, before: map<K, seq<T>>, after: map<K, seq<T>>, end: K)
    requires kept != [] && Distinct(Ids(identity, kept)) && end !in Ids(identity, kept)
    requires forall k :: k != identity(kept[0]) ==> Bucket(before, k) == Bucket(after, k)
    ensures Weave(identity, kept[1..], after, end) == Weave(identity, kept[1..], before, end)
  {
    IdsTail(identity, kept);
    FirstApart(identity, kept);
    WeaveAgree(identity, kept[1..], before, after, end);
  }

  lemma PushFront<T>(e: T, a: seq<T>, b: seq<T>, c: seq<T>)
    ensures [e] + a + b + c == [e] + (a + b + c)
  {
  }

  lemma SubsequenceIds<T, K>(identity: T -> K, kept: seq<T>, original: seq<T>)
    requires Subsequence(kept, original)
    ensures forall x <- Ids(identity, kept) :: x in Ids(identity, original)
  {
    forall x <- Ids(identity, kept) ensures x in Ids(identity, original) {
      var i :| 0 <= i < |kept| && identity(kept[i]) == x;
      SubsequenceMember(kept, original, kept[i]);
      var j :| 0 <= j < |original| && original[j] == kept[i];
      assert Ids(identity, original)[j] == x;
    }
  }

  lemma {:induction false} SubsequenceDistinct<T, K>(identity: T -> K, kept: seq<T>, original: seq<T>)
    requires Subsequence(kept, original) && Distinct(Ids(identity, original))
    ensures Distinct(Ids(identity, kept))
    decreases |original|
  {
    if kept != [] {
      IdsTail(identity, original);
      IdsTail(identity, kept);
      if kept[0] == original[0] {
        SubsequenceDistinct(identity, kept[1..], original[1..]);
        forall i | 0 < i < |kept| ensures Ids(identity, kept)[i] != identity(kept[0]) {
          SubsequenceMember(kept[1..], original[1..], kept[1..][i - 1]);
          var j :| 0 <= j < |original[1..]| && original[1..][j] == kept[i];
          assert Ids(identity, original)[j + 1] == identity(kept[i]);
          assert Ids(identity, original)[0] == identity(kept[0]);
        }
      } else {
        SubsequenceDistinct(identity, kept, original[1..]);
      }
    }
  }

  lemma {:induction false} SubsequenceOfItself<T>(s: seq<T>)
    ensures Subsequence(s, s)
    decreases |s|
  {
    if s != [] {
      SubsequenceOfItself(s[1..]);
    }
  }

  /** Entries of `original` whose identities come in its order come in its order. */
  lemma {:induction false} LiftSubsequence<T, K>(identity: T -> K, kept: seq<T>, original: seq<T>)
    requires Subsequence(Ids(identity, kept), Ids(identity, original)) && Distinct(Ids(identity, original))
    requires forall e <- kept :: e in original
    ensures Subsequence(kept, original)
    decreases |original|
  {
    if kept != [] {
      IdsTail(identity, kept);
      IdsTail(identity, original);
      var ids, rest := Ids(identity, kept), original[1..];
      var first := identity(original[0]);
      var waiting := if ids[0] == first then kept[1..] else kept;
      assert Subsequence(Ids(identity, waiting), Ids(identity, rest));
      forall e <- waiting ensures e in rest {
        var i :| 0 <= i < |waiting| && waiting[i] == e;
        assert e in kept;
        var id := Ids(identity, waiting)[i];
        SubsequenceMember(Ids(identity, waiting), Ids(identity, rest), id);
        var k :| 0 <= k < |rest| && Ids(identity, rest)[k] == id;
        assert Ids(identity, original)[k + 1] == id && Ids(identity, original)[0] == first;
      }
      LiftSubsequence(identity, waiting, rest);
      if ids[0] == first {
        SameIdentity(identity, original, kept[0], original[0]);
      }
    }
  }

  lemma SameIdentity<T, K>(identity: T -> K, list: seq<T>, a: T, b: T)
    requires Distinct(Ids(identity, list)) && a in list && b in list && identity(a) == identity(b)
    ensures a == b
  {
    var i :| 0 <= i < |list| && list[i] == a;
    var j :| 0 <= j < |list| && list[j] == b;
    assert Ids(identity, list)[i] == Ids(identity, list)[j];
  }

  /** Restricting to the members of a subsequence gives the subsequence. */
  lemma {:induction false} RestrictToSubsequence<T>(a: seq<T>, b: seq<T>, keep: set<T>)
    requires Subsequence(a, b) && Distinct(b)
    requires forall x <- b :: x in keep <==> x in a
    ensures Restrict(b, keep) == a
    decreases |b|
  {
    if b != [] {
      var rest := b[1..];
      assert forall x <- rest :: x in b && x != b[0];
      if a != [] && a[0] == b[0] {
        assert b[0] in a && b[0] in keep;
        RestrictToSubsequence(a[1..], rest, keep);
      } else {
        if b[0] in a {
          SubsequenceMember(a, rest, b[0]);
        }
        RestrictToSubsequence(a, rest, keep);
      }
    }
  }

  /** When the kept entries are the original ones with some left out, every run goes back
      exactly where it was. */
  lemma ReinsertRestores<T, K>(identity: T -> K, kept: seq<T>, original: seq<T>, gone: set<K>, end: K)
    requires Subsequence(kept, original) && Distinct(Ids(identity, original)) && end !in Ids(identity, original)
    requires forall e <- original :: e in kept || identity(e) !in gone
    ensures Reinsert(identity, kept, original, gone, end) == original
  {
    var present := IdSet(identity, kept);
    forall e <- original ensures identity(e) in present <==> e in kept {
      if e in kept {
        var i :| 0 <= i < |kept| && kept[i] == e;
        assert Ids(identity, kept)[i] == identity(e);
      }
      if identity(e) in present {
        var i :| 0 <= i < |kept| && Ids(identity, kept)[i] == identity(e);
        SubsequenceMember(kept, original, kept[i]);
        var j :| 0 <= j < |original| && original[j] == kept[i];
        var k :| 0 <= k < |original| && original[k] == e;
        assert Ids(identity, original)[j] == Ids(identity, original)[k];
      }
    }
    PlaceSequence(identity, kept, original, present, gone, end);
  }
}
