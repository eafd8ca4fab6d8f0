/** Reinsertion by splicing one list: the way removed containers return to a Case. */
module Splicing {
  import opened Wrappers
  import opened Sequences
  import opened Reinsertion

  /** Containers are recognised by the object itself. */
  function Itself<T>(): T -> Option<T> {
    x => Some(x)
  }

  function IndexOf<T(==)>(s: seq<T>, x: T): (i: int)
    ensures -1 <= i < |s|
    ensures i == -1 <==> x !in s
    ensures i >= 0 ==> s[i] == x && x !in s[..i]
  {
    if s == [] then -1
    else if s[0] == x then 0
    else
      var i := IndexOf(s[1..], x);
      assert s == [s[0]] + s[1..];
      assert i >= 0 ==> s[..i + 1] == [s[0]] + s[1..][..i];
      if i < 0 then -1 else i + 1
  }

  function Keys<T(==)>(s: set<T>): set<Option<T>> {
    set x | x in s :: Some(x)
  }

  lemma DistinctItself<T>(s: seq<T>)
    ensures Distinct(s) <==> Distinct(Ids(Itself(), s))
    ensures forall x :: x in s <==> Some(x) in Ids(Itself(), s)
    ensures None !in Ids(Itself(), s)
  {
    if Distinct(s) {
      forall i, j | 0 <= i < j < |s| ensures Ids(Itself(), s)[i] != Ids(Itself(), s)[j] {
        assert s[i] != s[j];
      }
    }
    if Distinct(Ids(Itself(), s)) {
      forall i, j | 0 <= i < j < |s| ensures s[i] != s[j] {
        assert Ids(Itself(), s)[i] != Ids(Itself(), s)[j];
      }
    }
    forall x ensures x in s <==> Some(x) in Ids(Itself(), s) {
      if x in s {
        var i :| 0 <= i < |s| && s[i] == x;
        assert Ids(Itself(), s)[i] == Some(x);
      }
    }
  }

  lemma DistinctIndex<T>(s: seq<T>, i: nat)
    requires Distinct(s) && i < |s|
    ensures IndexOf(s, s[i]) == i
  {
    var j := IndexOf(s, s[i]);
    assert s[j] == s[i];
  }

  /** The head of the run that the next reinserted element joins. */
  function Following<T(==)>(p: Placement<T, Option<T>>): Option<T> {
    var run := Bucket(p.buckets, p.following);
    if run != [] then Some(run[0]) else p.following
  }

  /** Walk the order from the back; put each missing element that is not `gone` right before
      the element last seen or put. */
  method SpliceMissing<T(==)>(kept: seq<T>, order: seq<T>, gone: set<T>) returns (current: seq<T>)
    requires Distinct(kept) && Distinct(order)
    ensures current == Reinsert(Itself(), kept, order, Keys(gone), None)
  {
    current := kept;
    ghost var present := IdSet(Itself(), kept);
    var i, following := |order|, None;
    DistinctItself(kept);
    WeaveNothing(Itself(), kept, None);
    while i > 0
      invariant 0 <= i <= |order|
      invariant current == Weave(Itself(), kept, Place(Itself(), order[i..], present, Keys(gone), None).buckets, None)
      invariant following == Following(Place(Itself(), order[i..], present, Keys(gone), None))
    {
      i := i - 1;
      var live := order[i];
      ghost var rest := order[i + 1..];
      assert order[i..][0] == live && order[i..][1..] == rest;
      SpliceStep(kept, rest, live, gone);
      if live in current {
        following := Some(live);
      } else if live !in gone {
        var at := if following.Some? then IndexOf(current, following.value) else |current|;
        at := if at < 0 then |current| else at;
        current := current[..at] + [live] + current[at..];
        following := Some(live);
      }
    }
    assert order[0..] == order;
  }

  /** One step of the walk, seen on the placement. */
  lemma SpliceStep<T>(kept: seq<T>, rest: seq<T>, live: T, gone: set<T>)
    requires Distinct(kept) && Distinct([live] + rest)
    ensures var present := IdSet(Itself(), kept);
            var p := Place(Itself(), rest, present, Keys(gone), None);
            var current := Weave(Itself(), kept, p.buckets, None);
            var p' := Place(Itself(), [live] + rest, present, Keys(gone), None);
            var next := Weave(Itself(), kept, p'.buckets, None);
            && (live in current <==> Some(live) in present)
            && (live in current ==> next == current && Following(p') == Some(live))
            && (live !in current && live in gone ==> next == current && Following(p') == Following(p))
            && (live !in current && live !in gone ==>
                  Following(p') == Some(live) &&
                  var at := if Following(p).Some? then IndexOf(current, Following(p).value) else |current|;
                  0 <= at <= |current| && next == current[..at] + [live] + current[at..])
  {
    var present := IdSet(Itself(), kept);
    var p := Place(Itself(), rest, present, Keys(gone), None);
    var current := Weave(Itself(), kept, p.buckets, None);
    assert ([live] + rest)[1..] == rest;
    assert live !in rest && Distinct(rest) by {
      var all := [live] + rest;
      assert all[0] == live;
      forall i | 0 <= i < |rest| ensures rest[i] == all[i + 1] && rest[i] != live {
      }
    }
    DistinctItself(kept);
    DistinctItself(rest);
    DistinctItself(current);
    WovenIds(Itself(), kept, rest, present, Keys(gone), None);
    FollowingPresent(Itself(), rest, present, Keys(gone), None);
    if Some(live) in present {
      NoOwnBucket(rest, live, present, Keys(gone));
    } else if live !in gone {
      var at := WeaveInsert(Itself(), kept, p.buckets, p.following, live, None);
      if at < |current| {
        DistinctIndex(current, at);
      }
    }
  }

  /** Nothing later in the order is waiting for an element that comes before it. */
  lemma {:induction false} NoOwnBucket<T>(rest: seq<T>, live: T, present: set<Option<T>>, gone: set<Option<T>>)
    requires live !in rest
    ensures Bucket(Place(Itself(), rest, present, gone, None).buckets, Some(live)) == []
    ensures Place(Itself(), rest, present, gone, None).following != Some(live)
    decreases |rest|
  {
    if rest != [] {
      NoOwnBucket(rest[1..], live, present, gone);
    }
  }

  lemma {:induction false} RestrictItself<T>(s: seq<T>, keep: set<T>)
    ensures Restrict(Ids(Itself(), s), Keys(keep)) == Ids(Itself(), Restrict(s, keep))
    decreases |s|
  {
    if s != [] {
      IdsTail(Itself(), s);
      RestrictItself(s[1..], keep);
      var head := if s[0] in keep then [s[0]] else [];
      IdsConcat(Itself(), head, Restrict(s[1..], keep));
    }
  }

  /** Splicing in the reader's terms: what was there stays, in its order; what was missing
      and is wanted comes back; nothing else appears, and nothing twice. */
  lemma SpliceConserves<T>(kept: seq<T>, order: seq<T>, gone: set<T>)
    requires Distinct(kept) && Distinct(order)
    ensures var spliced := Reinsert(Itself(), kept, order, Keys(gone), None);
            && Distinct(spliced)
            && (forall x :: x in spliced <==> x in kept || (x in order && x !in gone))
            && Restrict(spliced, set x | x in kept) == kept
  {
    var spliced := Reinsert(Itself(), kept, order, Keys(gone), None);
    var there := set x | x in kept;
    DistinctItself(kept);
    DistinctItself(order);
    DistinctItself(spliced);
    ReinsertIds(Itself(), kept, order, Keys(gone), None);
    WovenEntries(Itself(), kept, order, IdSet(Itself(), kept), Keys(gone), None);
    assert Keys(there) == IdSet(Itself(), kept);
    RestrictItself(spliced, there);
    forall i | 0 <= i < |kept| ensures Restrict(spliced, there)[i] == kept[i] {
      assert Ids(Itself(), kept)[i] == Some(kept[i]);
    }
  }

  /** When what is there is the order with some elements left out, and all of those are
      wanted, the order comes back. */
  lemma SpliceRestores<T>(kept: seq<T>, order: seq<T>, gone: set<T>)
    requires Distinct(order) && Subsequence(kept, order)
    requires forall x <- order :: x in kept || x !in gone
    ensures Reinsert(Itself(), kept, order, Keys(gone), None) == order
  {
    DistinctItself(order);
    ReinsertRestores(Itself(), kept, order, Keys(gone), None);
  }
}
