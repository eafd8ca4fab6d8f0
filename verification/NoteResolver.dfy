/** Which occurrence a note is about: notes hang on occurrences or on other notes, and the
    resolver follows them with a memo that all its queries share. */
module NoteResolver {
  import opened Wrappers
  import opened JsonValues

  /** An absent anchor is the empty text. */
  datatype Note = Note(id: Text, anchor: Text)

  // ---- the plain meaning

  /** The note graph: the first note of each identifier counts. */
  function Links(notes: seq<Note>): map<Text, Text> {
    if notes == [] then map[] else Links(notes[1..])[notes[0].id := notes[0].anchor]
  }

  /** Where `n` hops lead; the empty text once there is nowhere to go. */
  function Walk(links: map<Text, Text>, id: Text, n: nat): Text {
    if n == 0 then id
    else
      var before := Walk(links, id, n - 1);
      if before != [] && before in links then links[before] else []
  }

  predicate Anchored<V>(anchors: map<Text, V>, id: Text) {
    id != [] && id in anchors
  }

  /** `n` hops lead to an anchor and no fewer do. */
  predicate AnchoredAfter<V>(links: map<Text, Text>, anchors: map<Text, V>, id: Text, n: nat) {
    Anchored(anchors, Walk(links, id, n)) && forall k: nat :: k < n ==> !Anchored(anchors, Walk(links, id, k))
  }

  /** Following the links from `id` first meets an anchor of this value, or never meets one. */
  ghost predicate Means<V>(links: map<Text, Text>, anchors: map<Text, V>, id: Text, value: Option<V>) {
    match value
    case Some(v) => exists n: nat :: AnchoredAfter(links, anchors, id, n) && anchors[Walk(links, id, n)] == v
    case None => forall n: nat :: !Anchored(anchors, Walk(links, id, n))
  }

  /** A note graph gives every identifier exactly one meaning. */
  lemma ExactlyOneMeaning<V>(links: map<Text, Text>, anchors: map<Text, V>, id: Text) returns (value: Option<V>)
    ensures forall other: Option<V> :: Means(links, anchors, id, other) <==> other == value
  {
    if n: nat :| Anchored(anchors, Walk(links, id, n)) {
      var least := LeastAnchored(links, anchors, id, n);
      value := Some(anchors[Walk(links, id, least)]);
      assert AnchoredAfter(links, anchors, id, least);
      forall m: nat | AnchoredAfter(links, anchors, id, m) ensures m == least {
      }
    } else {
      value := None;
    }
  }

  lemma {:induction false} LeastAnchored<V>(links: map<Text, Text>, anchors: map<Text, V>, id: Text, n: nat)
    returns (least: nat)
    requires Anchored(anchors, Walk(links, id, n))
    ensures AnchoredAfter(links, anchors, id, least)
    decreases n
  {
    if m: nat :| m < n && Anchored(anchors, Walk(links, id, m)) {
      least := LeastAnchored(links, anchors, id, m);
    } else {
      least := n;
    }
  }

  // ---- walking

  lemma {:induction false} WalkOn(links: map<Text, Text>, id: Text, m: nat, n: nat)
    ensures Walk(links, Walk(links, id, m), n) == Walk(links, id, m + n)
    decreases n
  {
    if n > 0 {
      WalkOn(links, id, m, n - 1);
    }
  }

  lemma {:induction false} WalkNowhere(links: map<Text, Text>, n: nat)
    ensures Walk(links, [], n) == []
    decreases n
  {
    if n > 0 {
      WalkNowhere(links, n - 1);
    }
  }

  /** Nothing ever comes of an empty identifier. */
  lemma NowhereMeansNone<V>(links: map<Text, Text>, anchors: map<Text, V>)
    ensures Means(links, anchors, [], None)
  {
    forall n: nat ensures !Anchored(anchors, Walk(links, [], n)) {
      WalkNowhere(links, n);
    }
  }

  /** A set of notes that lead only to each other never lets a walk out. */
  lemma {:induction false} WalkStays(links: map<Text, Text>, closed: set<Text>, id: Text, n: nat)
    requires id in closed
    requires forall x :: x in closed ==> x != [] && x in links && links[x] in closed
    ensures Walk(links, id, n) in closed
    decreases n
  {
    if n > 0 {
      WalkStays(links, closed, id, n - 1);
    }
  }

  lemma CycleMeansNone<V>(links: map<Text, Text>, anchors: map<Text, V>, closed: set<Text>, id: Text)
    requires id in closed
    requires forall x :: x in closed ==> x != [] && x in links && links[x] in closed && x !in anchors
    ensures Means(links, anchors, id, None)
  {
    forall n: nat ensures !Anchored(anchors, Walk(links, id, n)) {
      WalkStays(links, closed, id, n);
    }
  }

  lemma UnanchoredAlong<V>(links: map<Text, Text>, anchors: map<Text, V>, id: Text, m: nat, middle: Text, n: nat)
    requires middle == Walk(links, id, m)
    requires forall k: nat :: k < m ==> !Anchored(anchors, Walk(links, id, k))
    requires forall k: nat :: k < n ==> !Anchored(anchors, Walk(links, middle, k))
    ensures forall k: nat :: k < m + n ==> !Anchored(anchors, Walk(links, id, k))
  {
    forall k: nat | k < m + n ensures !Anchored(anchors, Walk(links, id, k)) {
      if k >= m {
        WalkOn(links, id, m, k - m);
        assert Walk(links, middle, k - m) == Walk(links, id, k);
      }
    }
  }

  /** What a walk comes to, each note on the way comes to. */
  lemma MeansAlong<V>(links: map<Text, Text>, anchors: map<Text, V>, id: Text, m: nat, value: Option<V>)
    requires forall k: nat :: k < m ==> !Anchored(anchors, Walk(links, id, k))
    requires Means(links, anchors, Walk(links, id, m), value)
    ensures Means(links, anchors, id, value)
  {
    if value.Some? {
      var n: nat :| && AnchoredAfter(links, anchors, Walk(links, id, m), n)
                    && anchors[Walk(links, Walk(links, id, m), n)] == value.value;
      WalkOn(links, id, m, n);
      UnanchoredAlong(links, anchors, id, m, Walk(links, id, m), n);
      assert AnchoredAfter(links, anchors, id, m + n) && anchors[Walk(links, id, m + n)] == value.value;
    } else {
      NeverAlong(links, anchors, id, m, Walk(links, id, m));
    }
  }

  lemma NeverAlong<V>(links: map<Text, Text>, anchors: map<Text, V>, id: Text, m: nat, middle: Text)
    requires middle == Walk(links, id, m)
    requires forall k: nat :: k < m ==> !Anchored(anchors, Walk(links, id, k))
    requires forall n: nat :: !Anchored(anchors, Walk(links, middle, n))
    ensures forall n: nat :: !Anchored(anchors, Walk(links, id, n))
  {
    forall n: nat ensures !Anchored(anchors, Walk(links, id, n)) {
      if n >= m {
        WalkOn(links, id, m, n - m);
        assert Walk(links, middle, n - m) == Walk(links, id, n);
      }
    }
  }

  lemma UnanchoredFrom<V>(links: map<Text, Text>, anchors: map<Text, V>, id: Text, k: nat, middle: Text, m: nat)
    requires k <= m && middle == Walk(links, id, k) && forall i: nat :: i < m ==> !Anchored(anchors, Walk(links, id, i))
    ensures forall i: nat :: i < m - k ==> !Anchored(anchors, Walk(links, middle, i))
  {
    forall i: nat | i < m - k ensures !Anchored(anchors, Walk(links, middle, i)) {
      WalkOn(links, id, k, i);
      assert Walk(links, middle, i) == Walk(links, id, k + i);
    }
  }

  lemma MeansBetween<V>(links: map<Text, Text>, anchors: map<Text, V>, id: Text, k: nat, m: nat, value: Option<V>)
    requires k <= m && forall i: nat :: i < m ==> !Anchored(anchors, Walk(links, id, i))
    requires Means(links, anchors, Walk(links, id, m), value)
    ensures Means(links, anchors, Walk(links, id, k), value)
  {
    var middle := Walk(links, id, k);
    UnanchoredFrom(links, anchors, id, k, middle, m);
    MeansFrom(links, anchors, middle, Walk(links, id, m), m - k, value) by {
      WalkOn(links, id, k, m - k);
    }
  }

  lemma MeansFrom<V>(links: map<Text, Text>, anchors: map<Text, V>, id: Text, end: Text, n: nat, value: Option<V>)
    requires end == Walk(links, id, n) && forall i: nat :: i < n ==> !Anchored(anchors, Walk(links, id, i))
    requires Means(links, anchors, end, value)
    ensures Means(links, anchors, id, value)
  {
    MeansAlong(links, anchors, id, n, value);
  }

  lemma AnchorMeans<V>(links: map<Text, Text>, anchors: map<Text, V>, id: Text)
    requires Anchored(anchors, id)
    ensures Means(links, anchors, id, Some(anchors[id]))
  {
    assert Walk(links, id, 0) == id;
    assert AnchoredAfter(links, anchors, id, 0);
  }

  lemma MissingMeansNone<V>(links: map<Text, Text>, anchors: map<Text, V>, id: Text)
    requires id !in links && id !in anchors
    ensures Means(links, anchors, id, None)
  {
    assert Walk(links, id, 0) == id && Walk(links, id, 1) == [];
    NowhereMeansNone(links, anchors);
    MeansAlong(links, anchors, id, 1, None);
  }

  /** The notes walked so far, none of them an anchor, each with a next one. */
  predicate Trail<V>(links: map<Text, Text>, anchors: map<Text, V>, target: Text, chain: seq<Text>) {
    forall k: nat :: k < |chain| ==>
      chain[k] == Walk(links, target, k) && chain[k] != [] && chain[k] !in anchors && chain[k] in links
  }

  lemma TrailCycle<V>(links: map<Text, Text>, anchors: map<Text, V>, target: Text, chain: seq<Text>)
    requires Trail(links, anchors, target, chain) && Walk(links, target, |chain|) in chain
    ensures Means(links, anchors, Walk(links, target, |chain|), None)
  {
    var closed := set x | x in chain;
    forall x | x in closed ensures x != [] && x in links && links[x] in closed && x !in anchors {
      var k: nat :| k < |chain| && chain[k] == x;
      assert links[x] == Walk(links, target, k + 1);
      assert k + 1 < |chain| ==> chain[k + 1] == links[x];
    }
    CycleMeansNone(links, anchors, closed, Walk(links, target, |chain|));
  }

  lemma {:induction false} LinksNext(notes: seq<Note>, note: Note)
    ensures Links(notes + [note])
            == if note.id in Links(notes) then Links(notes) else Links(notes)[note.id := note.anchor]
    decreases |notes|
  {
    if notes == [] {
      assert [note][1..] == [];
    } else {
      assert (notes + [note])[1..] == notes[1..] + [note];
      LinksNext(notes[1..], note);
    }
  }

  // ---- the resolver

  class Resolver<V(==)> {
    const anchors: map<Text, V>
    var first: map<Text, Text>
    var memo: map<Text, Option<V>>

    /** Everything remembered is what it means. */
    ghost predicate Valid()
      reads this
    {
      forall id :: id in memo ==> Means(first, anchors, id, memo[id])
    }

    constructor (notes: seq<Note>, anchors: map<Text, V>)
      ensures Valid() && this.anchors == anchors && first == Links(notes)
    {
      this.anchors := anchors;
      memo := map[];
      var links: map<Text, Text> := map[];
      assert notes[..0] == [];
      for i := 0 to |notes|
        invariant links == Links(notes[..i])
      {
        LinksNext(notes[..i], notes[i]);
        assert notes[..i] + [notes[i]] == notes[..i + 1];
        if notes[i].id !in links {
          links := links[notes[i].id := notes[i].anchor];
        }
      }
      assert notes[..|notes|] == notes;
      first := links;
    }

    /** Walks until something settles the value; `m` is the hop at which it does. */
    method Follow(target: Text) returns (chain: seq<Text>, value: Option<V>, ghost m: nat)
      requires Valid()
      ensures Means(first, anchors, Walk(first, target, m), value)
      ensures forall k: nat :: k < m ==> !Anchored(anchors, Walk(first, target, k))
      ensures |chain| <= m + 1 && forall k: nat :: k < |chain| ==> chain[k] == Walk(first, target, k)
    {
      chain, value := [], None;
      var seen: set<Text>, id := {}, target;
      while id != []
        invariant id == Walk(first, target, |chain|)
        invariant Trail(first, anchors, target, chain)
        invariant forall x :: x in seen <==> x in chain
        invariant seen <= first.Keys && value == None
        decreases first.Keys - seen
      {
        if id in anchors {
          AnchorMeans(first, anchors, id);
          return chain, Some(anchors[id]), |chain|;
        }
        if id in memo {
          return chain, memo[id], |chain|;
        }
        if id in seen {
          TrailCycle(first, anchors, target, chain);
          return chain, None, |chain|;
        }
        if id !in first {
          MissingMeansNone(first, anchors, id);
          return chain + [id], None, |chain|;
        }
        seen, chain, id := seen + {id}, chain + [id], first[id];
      }
      NowhereMeansNone(first, anchors);
      m := |chain|;
    }

    method Resolve(target: Text) returns (value: Option<V>)
      requires Valid()
      modifies this`memo
      ensures Valid()
      ensures Means(first, anchors, target, value)
    {
      var chain;
      ghost var m;
      chain, value, m := Follow(target);
      MeansBetween(first, anchors, target, 0, m, value);
      for i := 0 to |chain|
        invariant Valid()
      {
        MeansBetween(first, anchors, target, i, m, value);
        memo := memo[chain[i] := value];
      }
    }
  }

  /** Any sequence of queries through one resolver, each answered with its plain meaning. */
  method ResolveAll<V(==)>(notes: seq<Note>, anchors: map<Text, V>, targets: seq<Text>) returns (values: seq<Option<V>>)
    ensures |values| == |targets|
    ensures forall i :: 0 <= i < |targets| ==> Means(Links(notes), anchors, targets[i], values[i])
  {
    var resolver := new Resolver<V>(notes, anchors);
    values := [];
    for i := 0 to |targets|
      invariant |values| == i && fresh(resolver) && resolver.Valid() && resolver.anchors == anchors
                && resolver.first == Links(notes)
      invariant forall j :: 0 <= j < i ==> Means(Links(notes), anchors, targets[j], values[j])
    {
      var value := resolver.Resolve(targets[i]);
      values := values + [value];
    }
  }
}
