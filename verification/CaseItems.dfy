/** Which items of a Case an authored trail means: by native container, by identifier, or by
    the identifiers of an older version. */
module CaseItems {
  import opened Wrappers
  import opened JsonValues

  datatype Kind = ContainerKind | ItemKind | UnresolvedContainer | UnresolvedLegacy | OtherKind(name: Text)

  datatype State = Unique | Missing | Ambiguous | Unsupported | Unavailable

  /** A stored reference. `extra` says that it has fields its kind does not know, or lacks a
      null that its kind must spell out. */
  datatype Ref = Ref(kind: Kind, containerId: Option<Text>, itemId: Option<Text>, state: Option<State>, extra: bool)

  /** An item with the containers of its rows and of its events. */
  datatype Item = Item(id: Text, containers: seq<Text>)

  /** The state of a reference, the reference itself, and the item it names. */
  datatype Resolved = Resolved(state: State, reference: Ref, index: Option<nat>)

  datatype Key = Key(kind: Kind, containerId: Option<Text>, itemId: Option<Text>, state: Option<State>)

  /** The references of a trail, if it has any; `Unusable` stands for a field that is no list. */
  datatype References = Absent | Unusable | Listed(refs: seq<Ref>)

  /** A legacy entry; `None` is one that is no text. */
  type Legacy = Option<Text>

  datatype Case = Case(items: seq<Item>, blocked: map<Text, State>)

  function KeyOf(r: Ref): Key {
    Key(r.kind, r.containerId, r.itemId, r.state)
  }

  function ToContainer(id: Text): Ref {
    Ref(ContainerKind, Some(id), None, None, false)
  }

  function ToItem(id: Text): Ref {
    Ref(ItemKind, None, Some(id), None, false)
  }

  function ToLegacy(id: Option<Text>, state: State): Ref {
    Ref(UnresolvedLegacy, None, id, Some(state), false)
  }

  predicate ValidRef(r: Ref) {
    && !r.extra && r.state.None?
    && match r.kind
       case ContainerKind => r.containerId.Some? && r.containerId.value != [] && r.itemId.None?
       case ItemKind => r.itemId.Some? && r.itemId.value != [] && r.containerId.None?
       case _ => false
  }

  predicate UnresolvedRef(r: Ref) {
    && !r.extra
    && match r.kind
       case UnresolvedContainer =>
         r.containerId.Some? && r.containerId.value != [] && r.state == Some(Missing) && r.itemId.None?
       case UnresolvedLegacy =>
         r.containerId.None?
         && (if r.itemId.Some? then r.state == Some(Missing) || r.state == Some(Ambiguous)
             else r.state == Some(Unsupported))
       case _ => false
  }

  /** The native side blocks a legacy identifier as missing or ambiguous. */
  predicate ValidCase(c: Case) {
    forall id :: id in c.blocked ==> c.blocked[id] == Missing || c.blocked[id] == Ambiguous
  }

  // ---- lookup

  function Times(containers: seq<Text>, id: Text, position: nat): seq<nat> {
    if containers == [] then []
    else (if containers[0] == id then [position] else []) + Times(containers[1..], id, position)
  }

  /** The items, from position `n` on, that have the container, once for each time they have it. */
  function WithContainer(items: seq<Item>, id: Text, n: nat): seq<nat>
    requires n <= |items|
    decreases |items| - n
  {
    if n == |items| then [] else Times(items[n].containers, id, n) + WithContainer(items, id, n + 1)
  }

  /** The items with the identifier; outside legacy use only those without containers. */
  function WithId(items: seq<Item>, id: Text, legacy: bool, n: nat): seq<nat>
    requires n <= |items|
    decreases |items| - n
  {
    if n == |items| then []
    else
      (if items[n].id == id && (legacy || items[n].containers == []) then [n] else [])
      + WithId(items, id, legacy, n + 1)
  }

  function Matches(c: Case, r: Ref, legacy: bool): seq<nat>
    requires ValidRef(r)
  {
    if r.kind == ContainerKind then WithContainer(c.items, r.containerId.value, 0)
    else WithId(c.items, r.itemId.value, legacy, 0)
  }

  function Resolve(c: Case, r: Ref, legacy: bool): Resolved {
    if UnresolvedRef(r) then Resolved(r.state.value, r, None)
    else if legacy && r.itemId.Some? && r.itemId.value in c.blocked then
      var state := c.blocked[r.itemId.value];
      Resolved(state, ToLegacy(r.itemId, state), None)
    else if !ValidRef(r) then Resolved(Unavailable, r, None)
    else
      var matches := Matches(c, r, legacy);
      if |matches| == 1 then Resolved(Unique, r, Some(matches[0]))
      else Resolved(if matches == [] then Missing else Ambiguous, r, None)
  }

  /** The reference that names the item at `position`; `None` when it would be ambiguous. */
  function ForItem(c: Case, position: nat): Option<Ref>
    requires position < |c.items|
  {
    var item := c.items[position];
    var reference := if item.containers != [] then ToContainer(item.containers[0]) else ToItem(item.id);
    if Resolve(c, reference, false).index == Some(position) then Some(reference) else None
  }

  function Migrated(c: Case, legacy: Legacy): Option<Resolved> {
    if legacy.None? then Some(Resolve(c, ToLegacy(None, Unsupported), false))
    else
      var result := Resolve(c, ToItem(legacy.value), true);
      if result.state == Unique && result.index.Some? && result.index.value < |c.items| then
        var reference := ForItem(c, result.index.value);
        if reference.None? then None else Some(result.(reference := reference.value))
      else Some(result.(reference := ToLegacy(legacy, if result.state == Ambiguous then Ambiguous else Missing)))
  }

  function MigratedAll(c: Case, ids: seq<Legacy>): (r: Option<seq<Resolved>>)
    ensures r.Some? ==> |r.value| == |ids|
  {
    if ids == [] then Some([])
    else
      var head, rest := Migrated(c, ids[0]), MigratedAll(c, ids[1..]);
      if head.None? || rest.None? then None else Some([head.value] + rest.value)
  }

  function ResolveAll(c: Case, refs: seq<Ref>): (r: seq<Resolved>)
    ensures |r| == |refs| && forall i :: 0 <= i < |refs| ==> r[i] == Resolve(c, refs[i], false)
  {
    seq(|refs|, i requires 0 <= i < |refs| => Resolve(c, refs[i], false))
  }

  /** What a trail means; `None` when an item of it has no reference of its own. */
  function Associations(c: Case, references: References, ids: seq<Legacy>): Option<seq<Resolved>> {
    match references
    case Unusable => Some([Resolved(Unavailable, Ref(OtherKind([]), None, None, None, true), None)])
    case Listed(refs) => Some(ResolveAll(c, refs))
    case Absent => MigratedAll(c, ids)
  }

  function ReferencesOf(resolved: seq<Resolved>): (refs: seq<Ref>)
    ensures |refs| == |resolved| && forall i :: 0 <= i < |refs| ==> refs[i] == resolved[i].reference
  {
    seq(|resolved|, i requires 0 <= i < |resolved| => resolved[i].reference)
  }

  // ---- lookups are what they should be

  lemma {:induction false} TimesMember(containers: seq<Text>, id: Text, position: nat)
    ensures forall p :: p in Times(containers, id, position) ==> p == position
    ensures Times(containers, id, position) != [] <==> id in containers
    ensures |Times(containers, id, position)| == multiset(containers)[id]
    decreases |containers|
  {
    if containers != [] {
      TimesMember(containers[1..], id, position);
      assert containers == [containers[0]] + containers[1..];
    }
  }

  lemma {:induction false} WithContainerMember(items: seq<Item>, id: Text, n: nat, p: nat)
    requires n <= |items|
    ensures p in WithContainer(items, id, n) <==> n <= p < |items| && id in items[p].containers
    decreases |items| - n
  {
    if n < |items| {
      WithContainerMember(items, id, n + 1, p);
      TimesContains(items[n].containers, id, n, p);
      var here, later := Times(items[n].containers, id, n), WithContainer(items, id, n + 1);
      assert p in WithContainer(items, id, n) <==> p in here || p in later;
    }
  }

  lemma TimesContains(containers: seq<Text>, id: Text, position: nat, p: nat)
    ensures p in Times(containers, id, position) <==> p == position && id in containers
  {
    var times := Times(containers, id, position);
    TimesMember(containers, id, position);
    assert times != [] ==> times[0] in times;
  }

  lemma {:induction false} WithIdMember(items: seq<Item>, id: Text, legacy: bool, n: nat, p: nat)
    requires n <= |items|
    ensures p in WithId(items, id, legacy, n) <==>
              n <= p < |items| && items[p].id == id && (legacy || items[p].containers == [])
    decreases |items| - n
  {
    if n < |items| {
      WithIdMember(items, id, legacy, n + 1, p);
      var here := if items[n].id == id && (legacy || items[n].containers == []) then [n] else [];
      assert WithId(items, id, legacy, n) == here + WithId(items, id, legacy, n + 1);
    }
  }

  /** Each container of a valid document is bound to one place. */
  predicate ContainersOnce(items: seq<Item>) {
    && (forall i, j, id ::
          0 <= i < |items| && 0 <= j < |items| && id in items[i].containers && id in items[j].containers ==> i == j)
    && forall i, id :: 0 <= i < |items| && id in items[i].containers ==>
         multiset(items[i].containers)[id] == 1 && id != []
  }

  lemma OnceAt(items: seq<Item>, id: Text, n: nat, p: nat)
    requires n < |items| && p < |items| && ContainersOnce(items) && id in items[p].containers
    ensures Times(items[n].containers, id, n) == if n == p then [p] else []
  {
    var times := Times(items[n].containers, id, n);
    TimesMember(items[n].containers, id, n);
    if n == p {
      assert |times| == 1 && times[0] in times;
    } else {
      assert id !in items[n].containers;
    }
  }

  predicate HeldOnce(items: seq<Item>, id: Text, k: nat, p: nat)
    requires k < |items|
  {
    Times(items[k].containers, id, k) == if k == p then [p] else []
  }

  lemma {:induction false} BoundAt(items: seq<Item>, id: Text, n: nat, p: nat)
    requires n <= |items| && p < |items|
    requires forall k :: 0 <= k < |items| ==> HeldOnce(items, id, k, p)
    ensures WithContainer(items, id, n) == if n <= p then [p] else []
    decreases |items| - n
  {
    if n < |items| {
      BoundAt(items, id, n + 1, p);
      assert HeldOnce(items, id, n, p);
      assert WithContainer(items, id, n) == Times(items[n].containers, id, n) + WithContainer(items, id, n + 1);
    }
  }

  lemma BoundOnce(items: seq<Item>, id: Text, p: nat)
    requires p < |items| && ContainersOnce(items) && id in items[p].containers
    ensures WithContainer(items, id, 0) == [p]
  {
    forall k | 0 <= k < |items| ensures HeldOnce(items, id, k, p) {
      OnceAt(items, id, k, p);
    }
    BoundAt(items, id, 0, p);
  }

  lemma {:induction false} FewerWithId(items: seq<Item>, id: Text, n: nat)
    requires n <= |items|
    ensures |WithId(items, id, false, n)| <= |WithId(items, id, true, n)|
    decreases |items| - n
  {
    if n < |items| {
      FewerWithId(items, id, n + 1);
    }
  }

  /** In a valid document the item that a legacy identifier names alone has its own reference. */
  lemma OwnReference(c: Case, id: Text, p: nat)
    requires ContainersOnce(c.items) && id != [] && WithId(c.items, id, true, 0) == [p]
    ensures p < |c.items| && ForItem(c, p).Some?
            && Resolve(c, ForItem(c, p).value, false) == Resolved(Unique, ForItem(c, p).value, Some(p))
  {
    WithIdMember(c.items, id, true, 0, p);
    assert p in [p];
    var item := c.items[p];
    if item.containers != [] {
      assert item.containers[0] in item.containers;
      BoundOnce(c.items, item.containers[0], p);
    } else {
      WithIdMember(c.items, id, false, 0, p);
      FewerWithId(c.items, id, 0);
      var found := WithId(c.items, id, false, 0);
      assert |found| == 1 && p in found;
    }
  }

  lemma {:induction false} MigratedAllAt(c: Case, ids: seq<Legacy>, i: nat)
    requires i < |ids| && MigratedAll(c, ids).Some?
    ensures Migrated(c, ids[i]) == Some(MigratedAll(c, ids).value[i])
  {
    if i > 0 {
      MigratedAllAt(c, ids[1..], i - 1);
    }
  }

  lemma {:induction false} MigratesAll(c: Case, ids: seq<Legacy>)
    requires ContainersOnce(c.items) && ValidCase(c)
    ensures MigratedAll(c, ids).Some?
  {
    if ids != [] {
      MigratesAll(c, ids[1..]);
      MigratedKeeps(c, ids[0]);
    }
  }

  lemma MigratedKeeps(c: Case, legacy: Legacy)
    requires ContainersOnce(c.items) && ValidCase(c)
    ensures Migrated(c, legacy).Some?
    ensures var before := Migrated(c, legacy).value;
            var after := Resolve(c, before.reference, false);
            && after.reference == before.reference && after.index == before.index
            && (after.state == before.state <==> legacy.None? || legacy.value != [] || [] in c.blocked)
            && (after.state != before.state ==> before.state == Unavailable && after.state == Missing)
  {
    if legacy.Some? {
      var result := Resolve(c, ToItem(legacy.value), true);
      if result.state == Unique {
        var p := WithId(c.items, legacy.value, true, 0)[0];
        assert WithId(c.items, legacy.value, true, 0) == [p];
        OwnReference(c, legacy.value, p);
      }
    }
  }

  /** In a valid document, storing the references that legacy associations resolve to and
      resolving those again gives the same items in the same order, entry by entry. An entry
      keeps its state too if and only if it is not an empty identifier that nothing blocks;
      such an entry turns from unavailable to missing. */
  lemma MigrationKeepsMeaning(c: Case, ids: seq<Legacy>, i: nat)
    requires ContainersOnce(c.items) && ValidCase(c) && i < |ids|
    ensures MigratedAll(c, ids).Some?
    ensures var before := MigratedAll(c, ids).value;
            var after := Associations(c, Listed(ReferencesOf(before)), ids).value;
            && |after| == |before| == |ids|
            && after[i].index == before[i].index && after[i].reference == before[i].reference
            && (after[i].state == before[i].state <==> ids[i].None? || ids[i].value != [] || [] in c.blocked)
  {
    MigratesAll(c, ids);
    MigratedAllAt(c, ids, i);
    MigratedKeeps(c, ids[i]);
  }

  /** Migrated once, a trail stays as it is. */
  lemma MigrationIsStable(c: Case, ids: seq<Legacy>)
    requires ContainersOnce(c.items) && ValidCase(c)
    ensures var refs := ReferencesOf(MigratedAll(c, ids).GetOr([]));
            ReferencesOf(ResolveAll(c, refs)) == refs
  {
    MigratesAll(c, ids);
    var before := MigratedAll(c, ids).value;
    forall i | 0 <= i < |before| ensures Resolve(c, before[i].reference, false).reference == before[i].reference {
      MigratedAllAt(c, ids, i);
      MigratedKeeps(c, ids[i]);
    }
  }

  // ---- editing

  function Count(refs: seq<Ref>, key: Key): nat {
    if refs == [] then 0 else Count(refs[..|refs| - 1], key) + if KeyOf(refs[|refs| - 1]) == key then 1 else 0
  }

  function Max(a: nat, b: nat): nat {
    if a < b then b else a
  }

  predicate WellFormed(r: Ref) {
    UnresolvedRef(r) || ValidRef(r)
  }

  /** May `references` replace associations whose references are `prior`? */
  predicate Admitted(c: Case, prior: seq<Ref>, references: seq<Ref>) {
    forall i :: 0 <= i < |references| ==>
      var key := KeyOf(references[i]);
      && Count(references, key) <= Max(1, Count(prior, key))
      && (Resolve(c, references[i], false).state == Unique
          || (WellFormed(references[i]) && Count(references, key) <= Count(prior, key)))
  }

  /** The check at one place of the list, with the count so far. */
  predicate AdmittedAt(c: Case, prior: seq<Ref>, references: seq<Ref>, i: nat)
    requires i < |references|
  {
    var key := KeyOf(references[i]);
    var count := Count(references[..i + 1], key);
    && (Resolve(c, references[i], false).state == Unique || (WellFormed(references[i]) && count <= Count(prior, key)))
    && count <= Max(1, Count(prior, key))
  }

  method CountKeys(refs: seq<Ref>) returns (counts: map<Key, nat>)
    ensures forall key :: (if key in counts then counts[key] else 0) == Count(refs, key)
  {
    counts := map[];
    for i := 0 to |refs|
      invariant forall key :: (if key in counts then counts[key] else 0) == Count(refs[..i], key)
    {
      assert refs[..i + 1][..i] == refs[..i];
      var key := KeyOf(refs[i]);
      counts := counts[key := (if key in counts then counts[key] else 0) + 1];
    }
    assert refs[..|refs|] == refs;
  }

  /** The test that `edit` makes before it changes anything. */
  method MayReplace(c: Case, prior: seq<Ref>, references: seq<Ref>) returns (ok: bool)
    ensures ok <==> Admitted(c, prior, references)
  {
    var known := CountKeys(prior);
    var seen: map<Key, nat> := map[];
    for i := 0 to |references|
      invariant forall key :: (if key in seen then seen[key] else 0) == Count(references[..i], key)
      invariant forall j :: 0 <= j < i ==> AdmittedAt(c, prior, references, j)
    {
      assert references[..i + 1][..i] == references[..i];
      var reference := references[i];
      var key := KeyOf(reference);
      var count := (if key in seen then seen[key] else 0) + 1;
      var before := if key in known then known[key] else 0;
      assert before == Count(prior, key) && count == Count(references[..i + 1], key);
      if (Resolve(c, reference, false).state != Unique && !(WellFormed(reference) && count <= before))
         || count > Max(1, before) {
        NotAdmitted(c, prior, references, i);
        return false;
      }
      seen := seen[key := count];
    }
    AllAdmitted(c, prior, references);
    ok := true;
  }

  lemma {:induction false} CountGrows(refs: seq<Ref>, key: Key, n: nat)
    requires n <= |refs|
    ensures Count(refs[..n], key) <= Count(refs, key)
    decreases |refs| - n
  {
    if n == |refs| {
      assert refs[..n] == refs;
    } else {
      assert refs[..n + 1][..n] == refs[..n];
      CountGrows(refs, key, n + 1);
    }
  }

  /** Where the key occurs last, its count is complete. */
  lemma {:induction false} LastOccurrence(refs: seq<Ref>, key: Key, n: nat) returns (i: nat)
    requires n <= |refs| && Count(refs[..n], key) > 0
    ensures i < n && KeyOf(refs[i]) == key && Count(refs[..i + 1], key) == Count(refs[..n], key)
    decreases n
  {
    assert refs[..n][..n - 1] == refs[..n - 1];
    if KeyOf(refs[n - 1]) == key {
      i := n - 1;
    } else {
      i := LastOccurrence(refs, key, n - 1);
    }
  }

  lemma {:induction false} Occurs(refs: seq<Ref>, i: nat)
    requires i < |refs|
    ensures Count(refs, KeyOf(refs[i])) > 0
    decreases |refs|
  {
    if i < |refs| - 1 {
      assert refs[..|refs| - 1][i] == refs[i];
      Occurs(refs[..|refs| - 1], i);
    }
  }

  lemma NotAdmitted(c: Case, prior: seq<Ref>, references: seq<Ref>, i: nat)
    requires i < |references| && !AdmittedAt(c, prior, references, i)
    ensures !Admitted(c, prior, references)
  {
    CountGrows(references, KeyOf(references[i]), i + 1);
  }

  lemma AllAdmitted(c: Case, prior: seq<Ref>, references: seq<Ref>)
    requires forall i :: 0 <= i < |references| ==> AdmittedAt(c, prior, references, i)
    ensures Admitted(c, prior, references)
  {
    assert references[..|references|] == references;
    forall i | 0 <= i < |references|
      ensures var key := KeyOf(references[i]);
              && Count(references, key) <= Max(1, Count(prior, key))
              && (Resolve(c, references[i], false).state == Unique
                  || (WellFormed(references[i]) && Count(references, key) <= Count(prior, key))) {
      var key := KeyOf(references[i]);
      Occurs(references, i);
      var last := LastOccurrence(references, key, |references|);
      assert AdmittedAt(c, prior, references, i) && AdmittedAt(c, prior, references, last);
      if Resolve(c, references[i], false).state != Unique {
        assert WellFormed(references[i]);
        SameKey(references[i], references[last]);
        UniqueIsWellFormed(c, references[last]);
      }
    }
  }

  lemma UniqueIsWellFormed(c: Case, r: Ref)
    ensures Resolve(c, r, false).state == Unique ==> ValidRef(r)
  {
  }

  lemma SameKey(a: Ref, b: Ref)
    requires KeyOf(a) == KeyOf(b)
    ensures WellFormed(a) && WellFormed(b) ==> a == b
  {
  }

  /** Every reordering and every part of well-formed prior references may be applied. */
  lemma PartsAreAdmitted(c: Case, prior: seq<Ref>, references: seq<Ref>)
    requires forall i :: 0 <= i < |references| ==>
               WellFormed(references[i])
               && Count(references, KeyOf(references[i])) <= Count(prior, KeyOf(references[i]))
    ensures Admitted(c, prior, references)
  {
  }

  /** No edit repeats a reference more often than it was, or more than once if it was not. */
  lemma NoMultiplying(c: Case, prior: seq<Ref>, references: seq<Ref>, key: Key)
    requires Admitted(c, prior, references)
    ensures Count(references, key) <= Max(1, Count(prior, key))
  {
    if Count(references, key) > 0 {
      assert references[..|references|] == references;
      var i := LastOccurrence(references, key, |references|);
    }
  }
}
