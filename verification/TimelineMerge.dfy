/** The three-way merge that takes a removal back out of a Case timeline while other edits
    may have reached it. `changed` is what the removal left, `original` is what was there
    before it, `current` is what is there now. */
module TimelineMerge {
  import opened JsonValues
  import opened Reinsertion

  const ID := Ascii("id")
  const TARGET_ID := Ascii("targetId")
  const LINKS := Ascii("links")
  const IDS := Ascii("ids")

  /** How the entries of a list are recognised: a group or note by `id`, a link by
      `targetId`, a member of a group by itself. */
  datatype Identity = ById | ByTarget | BySelf

  function Prop(v: Json, key: Text): Json {
    if v.Obj? then Get(v.fields, key) else Undefined
  }

  function IdentityOf(kind: Identity, entry: Json): Json {
    match kind
    case ById => Prop(entry, ID)
    case ByTarget => Prop(entry, TARGET_ID)
    case BySelf => entry
  }

  /** The `identity` parameter of the source. */
  function By(kind: Identity): Json -> Json {
    (entry: Json) => IdentityOf(kind, entry)
  }

  predicate Truthy(v: Json) {
    match v
    case Undefined => false
    case Null => false
    case Bool(b) => b
    case Num(digits) => digits != Ascii("0") && digits != Ascii("NaN")
    case Str(text) => text != []
    case _ => true
  }

  /** `new Map(list.map(entry => [identity(entry), entry])).get(id)`: the last entry wins. */
  function Lookup(kind: Identity, list: seq<Json>, id: Json): (r: Json)
    requires id in Ids(By(kind), list)
    ensures r in list && IdentityOf(kind, r) == id
  {
    var last := |list| - 1;
    if IdentityOf(kind, list[last]) == id then list[last]
    else
      assert Ids(By(kind), list) == Ids(By(kind), list[..last]) + [IdentityOf(kind, list[last])];
      Lookup(kind, list[..last], id)
  }

  lemma LookupIsSmaller(kind: Identity, list: seq<Json>, id: Json)
    requires id in Ids(By(kind), list)
    ensures Size(Lookup(kind, list, id)) <= ItemsSize(list)
  {
    var i :| 0 <= i < |list| && list[i] == Lookup(kind, list, id);
    ItemIsSmaller(list, i);
  }

  // ---- records

  /** Does the list qualify for a merge by identity? */
  predicate Mergeable(kind: Identity, v: Json) {
    v.Arr? && forall entry <- v.items :: IdentityOf(kind, entry).Str?
  }

  function RestoreFields(current: Json, changed: Json, original: Json): Json
    decreases Size(original), 0, 0
  {
    if Equal(current, changed) then original
    else if !(current.Obj? && changed.Obj? && original.Obj?) then current
    else Obj(MergeFields(current.fields, changed.fields, original.fields)
             + AddedFields(original.fields, current.fields, changed.fields))
  }

  /** The fields of the live record that survive the merge, in their live order. */
  function MergeFields(pending: seq<Field>, changed: seq<Field>, original: seq<Field>): seq<Field>
    decreases FieldsSize(original), 3, |pending|
  {
    if pending == [] then []
    else MergeField(pending[0], changed, original) + MergeFields(pending[1..], changed, original)
  }

  function MergeField(live: Field, changed: seq<Field>, original: seq<Field>): (r: seq<Field>)
    ensures |r| <= 1 && forall f <- r :: f.key == live.key
    decreases FieldsSize(original), 2, 0
  {
    var key := live.key;
    if Has(changed, key) && Equal(live.value, Get(changed, key)) then
      if Has(original, key) then [Field(key, Get(original, key))] else []
    else if Has(changed, key) && Has(original, key) then
      [Field(key, MergeValue(key, live.value, Get(changed, key), original))]
    else [live]
  }

  /** The merged value of a field that all three records have. */
  function MergeValue(key: Text, current: Json, changed: Json, original: seq<Field>): Json
    requires Has(original, key)
    decreases FieldsSize(original), 1, 0
  {
    GetIsSmaller(original, key);
    var prior := Get(original, key);
    if key == LINKS && Mergeable(ByTarget, current) && Mergeable(ByTarget, changed) && Mergeable(ByTarget, prior) then
      Arr(RestoreTimeline(ByTarget, current.items, changed.items, prior.items))
    else if key == IDS && Mergeable(BySelf, current) && Mergeable(BySelf, changed) && Mergeable(BySelf, prior) then
      Arr(RestoreTimeline(BySelf, current.items, changed.items, prior.items))
    else RestoreFields(current, changed, prior)
  }

  /** Fields that the removal had deleted and nobody has set since. */
  function AddedFields(pending: seq<Field>, current: seq<Field>, changed: seq<Field>): seq<Field> {
    if pending == [] then []
    else
      (if !Has(current, pending[0].key) && !Has(changed, pending[0].key) then [pending[0]] else [])
      + AddedFields(pending[1..], current, changed)
  }

  // ---- lists

  function RestoreTimeline(kind: Identity, current: seq<Json>, changed: seq<Json>, original: seq<Json>): seq<Json>
    decreases ItemsSize(original), 2, 0
  {
    Reinsert(By(kind), KeptEntries(kind, current, changed, original), original, IdSet(By(kind), changed), Null)
  }

  /** Does the live entry outlive the merge? Only what the removal itself added, and nobody
      has edited, is taken away. */
  predicate Survives(kind: Identity, entry: Json, changed: seq<Json>, original: seq<Json>) {
    var id := IdentityOf(kind, entry);
    id !in Ids(By(kind), changed) || id in Ids(By(kind), original) || !Equal(entry, Lookup(kind, changed, id))
  }

  function MergeEntry(kind: Identity, entry: Json, changed: seq<Json>, original: seq<Json>): Json
    decreases ItemsSize(original), 1, 0
  {
    var id := IdentityOf(kind, entry);
    if id in Ids(By(kind), original) && id in Ids(By(kind), changed)
       && Truthy(Lookup(kind, original, id)) && Truthy(Lookup(kind, changed, id)) then
      LookupIsSmaller(kind, original, id);
      RestoreFields(entry, Lookup(kind, changed, id), Lookup(kind, original, id))
    else entry
  }

  function KeptEntries(kind: Identity, pending: seq<Json>, changed: seq<Json>, original: seq<Json>): seq<Json>
    decreases ItemsSize(original), 1, |pending| + 1
  {
    if pending == [] then []
    else
      (if Survives(kind, pending[0], changed, original) then [MergeEntry(kind, pending[0], changed, original)] else [])
      + KeptEntries(kind, pending[1..], changed, original)
  }
}
