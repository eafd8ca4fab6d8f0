/** The containers of a Case, what a removal takes out of them, and the lists of containers
    before the removal, after it, and after it has been taken back. */
module RemovalItems {
  import opened Wrappers
  import opened JsonValues
  import opened Sequences
  import opened Reinsertion
  import opened Splicing
  import opened CaseRecords

  /** The identity of an array object. */
  class ArrayIdentity {
    constructor () {}
  }

  /** An item's row list: which array it is, and what the array holds. An in-place edit of
      the array keeps the identity and changes the rows. */
  datatype RowList = RowList(identity: ArrayIdentity, rows: seq<Row>)

  /** A container of preserved rows. `rows` is missing when it is not a plain array; `other`
      holds the fields that removals never touch. */
  class Item {
    var id: Text
    var rows: Option<RowList>
    var included: Option<int>
    var other: seq<Field>

    constructor (id: Text, rows: Option<RowList>, included: Option<int>, other: seq<Field>)
      ensures this.id == id && this.rows == rows && this.included == included && this.other == other
    {
      this.id, this.rows, this.included, this.other := id, rows, included, other;
    }
  }

  /** The JSON text of a timeline, read back. */
  datatype Stamp = Stamp(groups: seq<Json>, annotations: seq<Json>)

  /** The authored lists of a timeline; either may be missing. */
  datatype Timeline = Timeline(groups: Option<seq<Json>>, annotations: Option<seq<Json>>) {
    function Text(): Stamp {
      Stamp(WireItems(groups.GetOr([])), WireItems(annotations.GetOr([])))
    }
  }

  class Case {
    var items: seq<Item>
    var timeline: Option<Timeline>

    function TimelineStamp(): Stamp
      reads this`timeline
    {
      timeline.GetOr(Timeline(None, None)).Text()
    }
  }

  datatype Entry = Entry(item: Item, rows: Option<RowList>)

  function Shape(items: seq<Item>): (r: seq<Entry>)
    reads items
    ensures |r| == |items|
    ensures forall i :: 0 <= i < |items| ==> r[i] == Entry(items[i], items[i].rows)
  {
    if items == [] then []
    else [Entry(items[0], items[0].rows)] + Shape(items[1..])
  }

  function FindEntry(snapshot: seq<Entry>, item: Item): (r: Option<Entry>)
    ensures r.Some? ==> r.value in snapshot && r.value.item == item
    ensures r.None? ==> forall e <- snapshot :: e.item != item
  {
    if snapshot == [] then None
    else if snapshot[0].item == item then Some(snapshot[0])
    else FindEntry(snapshot[1..], item)
  }

  // ---- what is selected

  datatype Target = Target(itemIndex: int, index: int, item: Item, row: Row)

  /** Does the target still point at its row? */
  predicate Points(items: seq<Item>, t: Target)
    reads t.item
  {
    && 0 <= t.itemIndex < |items| && items[t.itemIndex] == t.item
    && t.item.rows.Some? && 0 <= t.index < |t.item.rows.value.rows| && t.item.rows.value.rows[t.index] == t.row
  }

  function SelectedIds(targets: seq<Target>): set<Text>
    requires forall t <- targets :: t.index >= 0
    reads set t <- targets :: t.item
  {
    set t <- targets :: TimelineId(t.item.id, t.row, t.index)
  }

  /** The rows that stay, in order. */
  function Remaining(rows: seq<Row>, removed: set<int>, from: nat := 0): (r: seq<Row>)
    decreases |rows|
  {
    if rows == [] then []
    else (if from in removed then [] else [rows[0]]) + Remaining(rows[1..], removed, from + 1)
  }

  /** The unselected positions from `from` on, `n` of them considered. */
  ghost function Positions(n: nat, removed: set<int>, from: nat): seq<nat> {
    if n == 0 then [] else (if from in removed then [] else [from]) + Positions(n - 1, removed, from + 1)
  }

  lemma {:induction false} PositionsExactly(n: nat, removed: set<int>, from: nat, k: nat)
    ensures k in Positions(n, removed, from) <==> from <= k < from + n && k !in removed
    decreases n
  {
    if n > 0 {
      PositionsExactly(n - 1, removed, from + 1, k);
      var head, rest := if from in removed then [] else [from], Positions(n - 1, removed, from + 1);
      assert k in head + rest <==> k in head || k in rest;
    }
  }

  lemma {:induction false} PositionsAscend(n: nat, removed: set<int>, from: nat, p: nat, q: nat)
    requires p < q < |Positions(n, removed, from)|
    ensures Positions(n, removed, from)[p] < Positions(n, removed, from)[q]
    decreases n
  {
    if from in removed {
      PositionsAscend(n - 1, removed, from + 1, p, q);
    } else if p > 0 {
      PositionsAscend(n - 1, removed, from + 1, p - 1, q - 1);
    } else {
      var later := Positions(n - 1, removed, from + 1);
      PositionsExactly(n - 1, removed, from + 1, later[q - 1]);
    }
  }

  /** The rows that stay are those at the unselected positions, in order. */
  lemma {:induction false} RemainingExactly(rows: seq<Row>, removed: set<int>, from: nat, p: nat)
    requires p < |Positions(|rows|, removed, from)|
    ensures |Remaining(rows, removed, from)| == |Positions(|rows|, removed, from)|
    ensures from <= Positions(|rows|, removed, from)[p] < from + |rows|
    ensures Remaining(rows, removed, from)[p] == rows[Positions(|rows|, removed, from)[p] - from]
    decreases |rows|
  {
    var positions, rest := Positions(|rows| - 1, removed, from + 1), Remaining(rows[1..], removed, from + 1);
    RemainingCount(rows, removed, from);
    if from in removed {
      RemainingExactly(rows[1..], removed, from + 1, p);
      assert Positions(|rows|, removed, from) == positions && Remaining(rows, removed, from) == rest;
    } else {
      assert Positions(|rows|, removed, from) == [from] + positions
             && Remaining(rows, removed, from) == [rows[0]] + rest;
      if p > 0 {
        RemainingExactly(rows[1..], removed, from + 1, p - 1);
      }
    }
  }

  lemma {:induction false} RemainingCount(rows: seq<Row>, removed: set<int>, from: nat)
    ensures |Remaining(rows, removed, from)| == |Positions(|rows|, removed, from)|
    decreases |rows|
  {
    if rows != [] {
      RemainingCount(rows[1..], removed, from + 1);
    }
  }

  function GroupTargets(targets: seq<Target>): (m: map<int, set<int>>) {
    if targets == [] then map[]
    else
      var last := targets[|targets| - 1];
      var m := GroupTargets(targets[..|targets| - 1]);
      m[last.itemIndex := (if last.itemIndex in m then m[last.itemIndex] else {}) + {last.index}]
  }

  /** Grouping keeps exactly the selected positions. */
  lemma {:induction false} GroupedExactly(targets: seq<Target>, k: int, j: int)
    ensures var m := GroupTargets(targets);
            && (k in m <==> exists t <- targets :: t.itemIndex == k)
            && (k in m && j in m[k] <==> exists t <- targets :: t.itemIndex == k && t.index == j)
            && (k in m ==> m[k] != {})
    decreases |targets|
  {
    if targets != [] {
      var front, last := targets[..|targets| - 1], targets[|targets| - 1];
      GroupedExactly(front, k, j);
      assert targets == front + [last];
      assert forall t :: t in targets <==> t in front || t == last;
    }
  }

  // ---- the shape of the item list before and after

  /** The removal as fixed when it was prepared: the items as they were, and the positions
      taken out of each touched container. */
  datatype Cut = Cut(before: seq<Entry>, grouped: map<int, set<int>>) {
    ghost predicate Valid() {
      && (forall i, j :: 0 <= i < j < |before| ==> before[i].item != before[j].item)
      && (forall k <- grouped :: 0 <= k < |before| && before[k].rows.Some? && grouped[k] != {}
                                 && forall j <- grouped[k] :: 0 <= j < |before[k].rows.value.rows|)
    }

    /** Does the removal leave rows in the container at `i`? */
    predicate Shrinks(i: int) {
      0 <= i < |before| && i in grouped && before[i].rows.Some? && Left(i) != []
    }

    function Left(i: int): seq<Row>
      requires 0 <= i < |before| && i in grouped && before[i].rows.Some?
    {
      Remaining(before[i].rows.value.rows, grouped[i])
    }

    /** The container standing at `i` once the removal is undone. */
    function LiveAt(replacements: map<int, Item>, i: int): Item
      requires 0 <= i < |before|
    {
      if i in replacements then replacements[i] else before[i].item
    }

    function LiveUpTo(replacements: map<int, Item>, n: nat): (r: seq<Item>)
      requires n <= |before|
      ensures |r| == n && forall i :: 0 <= i < n ==> r[i] == LiveAt(replacements, i)
    {
      if n == 0 then [] else LiveUpTo(replacements, n - 1) + [LiveAt(replacements, n - 1)]
    }

    function Live(replacements: map<int, Item>): seq<Item> {
      LiveUpTo(replacements, |before|)
    }

    /** The containers that remain after the removal. */
    function NextUpTo(replacements: map<int, Item>, n: nat): seq<Item>
      requires n <= |before|
    {
      if n == 0 then []
      else
        NextUpTo(replacements, n - 1) +
        if (n - 1) in grouped && (n - 1) !in replacements then [] else [LiveAt(replacements, n - 1)]
    }

    function Next(replacements: map<int, Item>): seq<Item> {
      NextUpTo(replacements, |before|)
    }

    lemma {:induction false} NextUnaffected(replacements: map<int, Item>, n: nat, i: int, value: Item)
      requires n <= |before| && n <= i
      ensures NextUpTo(replacements[i := value], n) == NextUpTo(replacements, n)
      decreases n
    {
      if n > 0 {
        NextUnaffected(replacements, n - 1, i, value);
      }
    }

    /** The rows at `i` after the removal. */
    function RowsAfter(i: int): seq<Row>
      requires 0 <= i < |before|
    {
      if before[i].rows.None? then []
      else if i in grouped then Left(i)
      else before[i].rows.value.rows
    }

    /** The identifiers that some remaining row carries. */
    function RemainingIds(): set<Text>
      reads set e <- before :: e.item
    {
      set i, j | 0 <= i < |before| && 0 <= j < |RowsAfter(i)| :: TimelineId(before[i].item.id, RowsAfter(i)[j], j)
    }

    /** Containers that a restore must not put back: the untouched ones, and those that only
        lost some rows. */
    function Gone(replacements: map<int, Item>): set<Item> {
      set i | 0 <= i < |before| && (i !in grouped || i in replacements) :: LiveAt(replacements, i)
    }

    /** Exactly the shrunken containers have a stand-in, each its own, never an item that was
        there before. */
    ghost predicate Replaces(replacements: map<int, Item>) {
      && (forall i :: i in replacements <==> Shrinks(i))
      && Injective(replacements)
      && (forall i <- replacements, j :: 0 <= j < |before| ==> replacements[i] != before[j].item)
    }

    lemma LiveDistinct(replacements: map<int, Item>)
      requires Valid() && Replaces(replacements)
      ensures Distinct(Live(replacements))
    {
    }

    lemma LiveApart(replacements: map<int, Item>, i: int, j: int)
      requires Valid() && Replaces(replacements) && 0 <= i < |before| && 0 <= j < |before|
      ensures LiveAt(replacements, i) == LiveAt(replacements, j) <==> i == j
    {
      LiveDistinct(replacements);
      assert Live(replacements)[i] == LiveAt(replacements, i) && Live(replacements)[j] == LiveAt(replacements, j);
    }

    lemma {:induction false} NextInLive(replacements: map<int, Item>, n: nat)
      requires Valid() && n <= |before|
      ensures Subsequence(NextUpTo(replacements, n), LiveUpTo(replacements, n))
      decreases n
    {
      if n > 0 {
        NextInLive(replacements, n - 1);
        var live := LiveAt(replacements, n - 1);
        if (n - 1) in grouped && (n - 1) !in replacements {
          SubsequenceAppend(NextUpTo(replacements, n - 1), LiveUpTo(replacements, n - 1), [], live);
          assert NextUpTo(replacements, n - 1) + [] == NextUpTo(replacements, n - 1);
        } else {
          SubsequenceAppend(NextUpTo(replacements, n - 1), LiveUpTo(replacements, n - 1), [live], live);
        }
      }
    }

    lemma {:induction false} NextMembers(replacements: map<int, Item>, n: nat, i: int)
      requires Valid() && Replaces(replacements) && n <= |before| && 0 <= i < |before|
      ensures LiveAt(replacements, i) in NextUpTo(replacements, n) <==>
              i < n && (i !in grouped || i in replacements)
      decreases n
    {
      if n > 0 {
        NextMembers(replacements, n - 1, i);
        LiveApart(replacements, i, n - 1);
        var last := if (n - 1) in grouped && (n - 1) !in replacements then [] else [LiveAt(replacements, n - 1)];
        assert NextUpTo(replacements, n) == NextUpTo(replacements, n - 1) + last;
      }
    }

    lemma StandAt(from: map<int, Item>, to: map<int, Item>, i: int)
      requires Valid() && Replaces(from) && from.Keys == to.Keys && 0 <= i < |before|
      ensures Stand(LiveAt(from, i), from, to) == LiveAt(to, i)
    {
      if i in to {
        StandIs(from, to, i);
      } else {
        StandIsNot(from, to, LiveAt(from, i));
      }
    }

    /** Exchanging the stand-ins in an untouched remainder gives the remainder with the new
        stand-ins. */
    lemma {:induction false} ExchangedNext(from: map<int, Item>, to: map<int, Item>, n: nat)
      requires Valid() && Replaces(from) && from.Keys == to.Keys && n <= |before|
      ensures Exchange(NextUpTo(from, n), from, to) == NextUpTo(to, n)
      decreases n
    {
      if n > 0 {
        ExchangedNext(from, to, n - 1);
        StandAt(from, to, n - 1);
        var last := if (n - 1) in grouped && (n - 1) !in from then [] else [LiveAt(from, n - 1)];
        ExchangeConcat(NextUpTo(from, n - 1), last, from, to);
        assert last != [] ==> last[1..] == [];
      }
    }

    lemma {:induction false} ExchangedLive(from: map<int, Item>, to: map<int, Item>, n: nat)
      requires Valid() && Replaces(from) && from.Keys == to.Keys && n <= |before|
      ensures Exchange(LiveUpTo(from, n), from, to) == LiveUpTo(to, n)
      decreases n
    {
      if n > 0 {
        ExchangedLive(from, to, n - 1);
        StandAt(from, to, n - 1);
        var last := [LiveAt(from, n - 1)];
        ExchangeConcat(LiveUpTo(from, n - 1), last, from, to);
        assert last[1..] == [];
      }
    }

    /** The containers that a removal empties, among the first `n`. */
    ghost function EmptiedUpTo(n: int): set<Item>
      requires n <= |before|
    {
      set i | 0 <= i < n && i in grouped && !Shrinks(i) :: before[i].item
    }

    lemma EmptiedStep(i: int)
      requires Valid() && 0 <= i < |before|
      ensures i in grouped && !Shrinks(i) ==> EmptiedUpTo(i + 1) == EmptiedUpTo(i) + {before[i].item}
      ensures i !in grouped || Shrinks(i) ==> EmptiedUpTo(i + 1) == EmptiedUpTo(i)
      ensures before[i].item !in EmptiedUpTo(i)
    {
    }

    ghost function Emptied(): set<Item> {
      EmptiedUpTo(|before|)
    }

    lemma {:induction false} DroppedLive(replacements: map<int, Item>, n: nat)
      requires Valid() && Replaces(replacements) && n <= |before|
      ensures Dropping(LiveUpTo(replacements, n), Emptied()) == NextUpTo(replacements, n)
      decreases n
    {
      if n > 0 {
        DroppedLive(replacements, n - 1);
        var live := LiveAt(replacements, n - 1);
        DroppingConcat(LiveUpTo(replacements, n - 1), [live], Emptied());
        assert [live][1..] == [];
        if live in Emptied() {
          var j :| 0 <= j < |before| && j in grouped && !Shrinks(j) && before[j].item == live;
          assert j == n - 1;
        }
      }
    }

    /** Restoring the members of a Case that nobody else changed gives the original order. */
    lemma RestoredOrder(replacements: map<int, Item>)
      requires Valid() && Replaces(replacements)
      ensures Reinsert(Itself(), Next(replacements), Live(replacements), Keys(Gone(replacements)), None)
                == Live(replacements)
    {
      LiveDistinct(replacements);
      NextInLive(replacements, |before|);
      forall x <- Live(replacements) ensures x in Next(replacements) || x !in Gone(replacements) {
        var i :| 0 <= i < |before| && Live(replacements)[i] == x;
        NextMembers(replacements, |before|, i);
        if x in Gone(replacements) {
          var j :| 0 <= j < |before| && (j !in grouped || j in replacements) && LiveAt(replacements, j) == x;
          NextMembers(replacements, |before|, j);
        }
      }
      SpliceRestores(Next(replacements), Live(replacements), Gone(replacements));
    }
  }

  lemma {:induction false} SubsequenceAppend<T>(a: seq<T>, b: seq<T>, x: seq<T>, y: T)
    requires Subsequence(a, b) && (x == [] || x == [y])
    ensures Subsequence(a + x, b + [y])
    decreases |b|
  {
    if b == [] {
      assert a + x == x && b + [y] == [y];
      assert [y][1..] == [];
    } else {
      assert (b + [y])[1..] == b[1..] + [y];
      if a == [] {
        assert a + x == x;
        SubsequenceAppend(a, b[1..], x, y);
        if x != [] && y == b[0] {
          assert x[1..] == [];
        }
      } else if a[0] == b[0] {
        assert (a + x)[1..] == a[1..] + x;
        SubsequenceAppend(a[1..], b[1..], x, y);
      } else {
        SubsequenceAppend(a, b[1..], x, y);
      }
    }
  }

  // ---- replacing items in a list

  ghost predicate Injective(m: map<int, Item>) {
    forall i <- m, j <- m :: m[i] == m[j] ==> i == j
  }

  /** What takes the place of `x` when each `from[i]` is exchanged for `to[i]`. */
  ghost function Stand(x: Item, from: map<int, Item>, to: map<int, Item>): Item {
    if exists i :: i in to && i in from && from[i] == x then
      var i :| i in to && i in from && from[i] == x;
      to[i]
    else x
  }

  ghost function Exchange(items: seq<Item>, from: map<int, Item>, to: map<int, Item>): (r: seq<Item>)
    ensures |r| == |items|
  {
    if items == [] then [] else [Stand(items[0], from, to)] + Exchange(items[1..], from, to)
  }

  lemma StandIs(from: map<int, Item>, to: map<int, Item>, i: int)
    requires Injective(from) && i in from && i in to
    ensures Stand(from[i], from, to) == to[i]
  {
  }

  lemma StandIsNot(from: map<int, Item>, to: map<int, Item>, x: Item)
    requires forall i <- to :: i in from ==> from[i] != x
    ensures Stand(x, from, to) == x
  {
  }

  lemma {:induction false} ExchangeAt(items: seq<Item>, from: map<int, Item>, to: map<int, Item>, p: nat)
    requires p < |items|
    ensures Exchange(items, from, to)[p] == Stand(items[p], from, to)
    decreases |items|
  {
    if p > 0 {
      ExchangeAt(items[1..], from, to, p - 1);
    }
  }

  lemma {:induction false} ExchangeConcat(a: seq<Item>, b: seq<Item>, from: map<int, Item>, to: map<int, Item>)
    ensures Exchange(a + b, from, to) == Exchange(a, from, to) + Exchange(b, from, to)
    decreases |a|
  {
    if a == [] {
      assert a + b == b;
    } else {
      ExchangeConcat(a[1..], b, from, to);
      assert (a + b)[1..] == a[1..] + b;
    }
  }

  lemma {:induction false} ExchangeNone(items: seq<Item>, from: map<int, Item>)
    ensures Exchange(items, from, map[]) == items
    decreases |items|
  {
    if items != [] {
      ExchangeNone(items[1..], from);
    }
  }

  /** Fresh stand-ins keep a list free of repetitions. */
  lemma ExchangedDistinct(items: seq<Item>, from: map<int, Item>, to: map<int, Item>)
    requires Distinct(items) && Injective(to) && forall i <- to :: to[i] !in items
    ensures Distinct(Exchange(items, from, to))
  {
    forall p, q | 0 <= p < q < |items| ensures Exchange(items, from, to)[p] != Exchange(items, from, to)[q] {
      ExchangeAt(items, from, to, p);
      ExchangeAt(items, from, to, q);
    }
  }

  /** Exchanging one more item, found where it still stands. */
  lemma ExchangeOne(items: seq<Item>, from: map<int, Item>, to: map<int, Item>, i: int, value: Item)
    requires Distinct(items) && Injective(from) && i in from && i !in to
    requires forall j <- to :: j in from && to[j] != from[i]
    ensures var current := Exchange(items, from, to); var at := IndexOf(current, from[i]);
            && (at >= 0 <==> from[i] in items)
            && (at >= 0 ==> current[at := value] == Exchange(items, from, to[i := value]))
  {
    var current, grown := Exchange(items, from, to), to[i := value];
    var at := IndexOf(current, from[i]);
    StandIsNot(from, to, from[i]);
    if from[i] in items {
      var p :| 0 <= p < |items| && items[p] == from[i];
      ExchangeAt(items, from, to, p);
    }
    if at >= 0 {
      ExchangeAt(items, from, to, at);
      StandIs(from, grown, i);
      assert items[at] == from[i];
      forall p | 0 <= p < |items| ensures current[at := value][p] == Exchange(items, from, grown)[p] {
        ExchangeAt(items, from, to, p);
        ExchangeAt(items, from, grown, p);
        if p != at {
          GrownStand(items[p], from, to, i, value);
        }
      }
    }
  }

  lemma GrownStand(x: Item, from: map<int, Item>, to: map<int, Item>, i: int, value: Item)
    requires Injective(from) && i in from && i !in to && x != from[i]
    ensures Stand(x, from, to[i := value]) == Stand(x, from, to)
  {
    if exists j :: j in to && j in from && from[j] == x {
      var j :| j in to && j in from && from[j] == x;
      StandIs(from, to, j);
      StandIs(from, to[i := value], j);
    } else {
      StandIsNot(from, to, x);
      StandIsNot(from, to[i := value], x);
    }
  }

  lemma {:induction false} DroppingConcat(a: seq<Item>, b: seq<Item>, dropped: set<Item>)
    ensures Dropping(a + b, dropped) == Dropping(a, dropped) + Dropping(b, dropped)
    decreases |a|
  {
    if a == [] {
      assert a + b == b;
    } else {
      assert (a + b)[1..] == a[1..] + b;
      DroppingConcat(a[1..], b, dropped);
      Rejoined(if a[0] in dropped then [] else [a[0]], Dropping(a[1..], dropped), Dropping(b, dropped));
    }
  }

  lemma {:induction false} DroppingNone(items: seq<Item>)
    ensures Dropping(items, {}) == items
    decreases |items|
  {
    if items != [] {
      DroppingNone(items[1..]);
    }
  }

  lemma {:induction false} DroppingMember(items: seq<Item>, dropped: set<Item>, x: Item)
    ensures x in Dropping(items, dropped) <==> x in items && x !in dropped
    decreases |items|
  {
    if items != [] {
      DroppingMember(items[1..], dropped, x);
      assert x in items <==> x == items[0] || x in items[1..];
    }
  }

  lemma {:induction false} NotThere(items: seq<Item>, dropped: set<Item>, x: Item)
    requires x !in items
    ensures Dropping(items, dropped + {x}) == Dropping(items, dropped)
    decreases |items|
  {
    if items != [] {
      NotThere(items[1..], dropped, x);
    }
  }

  lemma DroppingThree(a: seq<Item>, x: Item, b: seq<Item>, dropped: set<Item>)
    ensures Dropping(a + [x] + b, dropped)
            == Dropping(a, dropped) + (if x in dropped then [] else [x]) + Dropping(b, dropped)
  {
    DroppingConcat(a + [x], b, dropped);
    DroppingConcat(a, [x], dropped);
    assert [x][1..] == [];
  }

  lemma {:induction false} IndexBehind(a: seq<Item>, x: Item, b: seq<Item>)
    requires x !in a
    ensures IndexOf(a + [x] + b, x) == |a|
    decreases |a|
  {
    if a != [] {
      IndexBehind(a[1..], x, b);
      assert (a + [x] + b)[1..] == a[1..] + [x] + b;
    }
  }

  lemma Between(front: seq<Item>, x: Item, back: seq<Item>, value: Item)
    ensures var rest := front + [x] + back;
            && rest[..|front|] + rest[|front| + 1..] == front + [] + back
            && rest[|front| := value] == front + [value] + back
  {
  }

  lemma RemainderBetween(a: seq<Item>, x: Item, b: seq<Item>, dropped: set<Item>)
    requires x !in a && x !in dropped
    ensures Dropping(a + [x] + b, dropped) == Dropping(a, dropped) + [x] + Dropping(b, dropped)
    ensures IndexOf(Dropping(a + [x] + b, dropped), x) == |Dropping(a, dropped)|
  {
    DroppingThree(a, x, b, dropped);
    DroppingMember(a, dropped, x);
    IndexBehind(Dropping(a, dropped), x, Dropping(b, dropped));
  }

  lemma SpliceBetween(a: seq<Item>, x: Item, b: seq<Item>, dropped: set<Item>)
    requires x !in a && x !in b && x !in dropped
    ensures var rest := Dropping(a + [x] + b, dropped); var at := IndexOf(rest, x);
            0 <= at < |rest| && Dropping(a + [x] + b, dropped + {x}) == rest[..at] + rest[at + 1..]
  {
    RemainderBetween(a, x, b, dropped);
    DroppingThree(a, x, b, dropped + {x});
    NotThere(a, dropped, x);
    NotThere(b, dropped, x);
    Between(Dropping(a, dropped), x, Dropping(b, dropped), x);
  }

  lemma ExchangeBetween(a: seq<Item>, x: Item, b: seq<Item>, dropped: set<Item>, value: Item)
    requires x !in a && x !in dropped && value !in dropped
    ensures var rest := Dropping(a + [x] + b, dropped); var at := IndexOf(rest, x);
            0 <= at < |rest| && Dropping(a + [value] + b, dropped) == rest[at := value]
  {
    RemainderBetween(a, x, b, dropped);
    DroppingThree(a, value, b, dropped);
    Between(Dropping(a, dropped), x, Dropping(b, dropped), value);
  }

  /** One item of a list and of its remainder: spliced out, or exchanged. */
  lemma OneOfRemainder(items: seq<Item>, dropped: set<Item>, x: Item, value: Item)
    requires Distinct(items) && x in items && x !in dropped && value !in dropped
    ensures var rest := Dropping(items, dropped); var at := IndexOf(rest, x);
            && 0 <= at < |rest|
            && Dropping(items, dropped + {x}) == rest[..at] + rest[at + 1..]
            && Dropping(items[IndexOf(items, x) := value], dropped) == rest[at := value]
  {
    var p := IndexOf(items, x);
    var a, b := items[..p], items[p + 1..];
    assert items == a + [x] + b && items[p := value] == a + [value] + b;
    assert x !in b by {
      forall k | 0 <= k < |b| ensures b[k] != x {
        assert b[k] == items[p + 1 + k];
      }
    }
    SpliceBetween(a, x, b, dropped);
    ExchangeBetween(a, x, b, dropped, value);
  }

  function Dropping(items: seq<Item>, dropped: set<Item>): seq<Item> {
    if items == [] then []
    else (if items[0] in dropped then [] else [items[0]]) + Dropping(items[1..], dropped)
  }

  /** A redo reaches a container that it shrinks. */
  lemma RedoShrinks(items: seq<Item>, from: map<int, Item>, to: map<int, Item>, dropped: set<Item>, i: int, value: Item)
    requires Distinct(items) && Injective(from) && Injective(to) && i in from && i !in to
    requires forall j <- to :: j in from && to[j] != from[i] && to[j] !in items
    requires from[i] !in dropped && value !in dropped
    ensures var current := Dropping(Exchange(items, from, to), dropped); var at := IndexOf(current, from[i]);
            && (at >= 0 <==> from[i] in items)
            && (at >= 0 ==> current[at := value] == Dropping(Exchange(items, from, to[i := value]), dropped))
  {
    var whole := Exchange(items, from, to);
    ExchangedDistinct(items, from, to);
    ExchangeOne(items, from, to, i, value);
    DroppingMember(whole, dropped, from[i]);
    if from[i] in items {
      OneOfRemainder(whole, dropped, from[i], value);
    }
  }

  /** A redo reaches a container that it empties. */
  lemma RedoEmpties(items: seq<Item>, from: map<int, Item>, to: map<int, Item>, dropped: set<Item>, x: Item)
    requires Distinct(items) && Injective(from) && Injective(to) && x !in dropped
    requires forall j <- to :: j in from && from[j] != x && to[j] != x && to[j] !in items
    ensures var current := Dropping(Exchange(items, from, to), dropped); var at := IndexOf(current, x);
            && (at >= 0 <==> x in items)
            && (at >= 0 ==> current[..at] + current[at + 1..] == Dropping(Exchange(items, from, to), dropped + {x}))
  {
    var whole := Exchange(items, from, to);
    ExchangedDistinct(items, from, to);
    StillThere(items, from, to, x);
    DroppingMember(whole, dropped, x);
    if x in items {
      OneOfRemainder(whole, dropped, x, x);
    }
  }

  /** An exchange leaves alone an item that has no part in it. */
  lemma StillThere(items: seq<Item>, from: map<int, Item>, to: map<int, Item>, x: Item)
    requires forall j <- to :: j in from && from[j] != x && to[j] != x
    ensures x in Exchange(items, from, to) <==> x in items
  {
    var whole := Exchange(items, from, to);
    StandIsNot(from, to, x);
    if x in items {
      var p :| 0 <= p < |items| && items[p] == x;
      ExchangeAt(items, from, to, p);
      assert whole[p] in whole;
    }
    if x in whole {
      var p :| 0 <= p < |whole| && whole[p] == x;
      ExchangeAt(items, from, to, p);
    }
  }
}
