/** A removal of preserved occurrences as a transaction over a live Case: applied, undone
    when nothing else happened, rolled back around concurrent edits, and redone. */
module RemovalTransaction {
  import opened Wrappers
  import opened JsonValues
  import opened Sequences
  import opened Reinsertion
  import opened Splicing
  import opened TimelineMerge
  import opened TimelineText
  import opened CaseRecords
  import opened RemovalItems

  datatype View = View(id: Text, rows: Option<seq<Row>>, included: Option<int>, other: seq<Field>)

  /** What a reader of the Case sees at one moment of a run. */
  datatype Moment = Moment(views: seq<View>, text: Stamp, undoable: bool)

  ghost function ViewOf(x: Item): View
    reads x
  {
    View(x.id, if x.rows.Some? then Some(x.rows.value.rows) else None, x.included, x.other)
  }

  ghost function ViewsOf(items: seq<Item>): (r: seq<View>)
    reads items
    ensures |r| == |items|
    ensures forall i :: 0 <= i < |items| ==> r[i] == ViewOf(items[i])
  {
    if items == [] then [] else [ViewOf(items[0])] + ViewsOf(items[1..])
  }

  ghost predicate Shows(items: seq<Item>, views: seq<View>)
    reads items
  {
    |views| == |items| && forall i :: 0 <= i < |items| ==> views[i] == ViewOf(items[i])
  }

  lemma ShowsConcat(a: seq<Item>, b: seq<Item>, shownA: seq<View>, shownB: seq<View>)
    requires Shows(a, shownA) && Shows(b, shownB)
    ensures Shows(a + b, shownA + shownB)
  {
  }

  ghost predicate Authored(t: Timeline) {
    Recorded(t.groups.GetOr([])) && Recorded(t.annotations.GetOr([]))
  }

  ghost predicate TextsReversible(start: Stamp, end: Stamp) {
    && Reversible(start.groups, end.groups) && Reversible(start.annotations, end.annotations)
    && WireItems(start.groups) == start.groups && WireItems(start.annotations) == start.annotations
    && WireItems(end.groups) == end.groups && WireItems(end.annotations) == end.annotations
  }

  class Transaction {
    // What the Case showed when the removal was prepared, and the two timeline texts.
    ghost const was: seq<View>
    ghost const startText: Stamp
    ghost const endText: Stamp

    const c: Case
    const cut: Cut
    const nextItems: seq<Item>
    const groups: seq<Json>
    const annotations: seq<Json>
    var replacements: map<int, Item>
    var prior: Timeline
    var beforeTimeline: Stamp
    var after: Option<seq<Entry>>
    var afterTimeline: Stamp
    var undone: Option<seq<Entry>>
    var applied: bool

    constructor (c: Case, cut: Cut, replacements: map<int, Item>, nextItems: seq<Item>,
                 groups: seq<Json>, annotations: seq<Json>)
      ensures was == ViewsOf(c.items) && startText == c.TimelineStamp()
      ensures endText == if c.timeline.Some? then Timeline(Some(groups), Some(annotations)).Text() else Stamp([], [])
      ensures this.c == c && this.cut == cut && this.replacements == replacements && this.nextItems == nextItems
      ensures this.groups == groups && this.annotations == annotations
      ensures prior == c.timeline.GetOr(Timeline(None, None)) && beforeTimeline == c.TimelineStamp()
      ensures after.None? && undone.None? && !applied
    {
      was, startText := ViewsOf(c.items), c.TimelineStamp();
      endText := if c.timeline.Some? then Timeline(Some(groups), Some(annotations)).Text() else Stamp([], []);
      this.c, this.cut, this.replacements, this.nextItems := c, cut, replacements, nextItems;
      this.groups, this.annotations := groups, annotations;
      prior, beforeTimeline := c.timeline.GetOr(Timeline(None, None)), c.TimelineStamp();
      after, afterTimeline, undone, applied := None, Stamp([], []), None, false;
    }

    ghost predicate Valid()
      reads this
    {
      && cut.Valid()
      && cut.Replaces(replacements)
      && (applied ==> after.Some?)
      && (undone.Some? ==> after.Some?)
    }

    /** Does the snapshot hold the container exactly as it is now, in the live list? */
    predicate Intact(snapshot: seq<Entry>, item: Item)
      reads c`items, item
    {
      item in c.items && FindEntry(snapshot, item) == Some(Entry(item, item.rows))
    }

    /** May the members be restored? Every shrunken container must be where and as the
        removal left it. */
    ghost predicate MembersIntact()
      requires Valid() && after.Some?
      reads this, c, replacements.Values
    {
      forall i <- replacements :: Intact(after.value, replacements[i])
    }

    /** `value` is the container at `i` with its rows back; everything else about it is as the
        live container `live` has it, edits included. */
    ghost predicate Revived(i: int, value: Item, live: Item)
      requires 0 <= i < |cut.before| && cut.before[i].rows.Some?
      reads cut.before[i].item, value, live
    {
      && value.rows.Some? && value.rows.value.rows == cut.before[i].rows.value.rows
      && value.included == cut.before[i].item.included
      && value.id == live.id && value.other == live.other
    }

    /** The stand-ins made for the first `n` containers. */
    ghost predicate Reviving(n: int, restored: map<int, Item>)
      requires Valid() && after.Some?
      reads this, c`items, replacements.Values, restored.Values, set e <- cut.before :: e.item
    {
      && (forall j :: j in restored <==> j in replacements && j < n)
      && (forall j <- restored :: Intact(after.value, replacements[j]))
      && (forall j <- restored :: cut.Shrinks(j) && Revived(j, restored[j], replacements[j]))
      && Injective(restored)
    }

    /** First half of a restore: a fresh container for each shrunken one, in its place. */
    method ReviveMembers() returns (ok: bool, current: seq<Item>, restored: map<int, Item>)
      requires Valid() && after.Some? && Distinct(c.items)
      ensures ok == MembersIntact()
      ensures ok ==> Reviving(|cut.before|, restored) && restored.Keys == replacements.Keys
      ensures ok ==> current == Exchange(c.items, replacements, restored)
      ensures ok ==> forall j <- restored :: fresh(restored[j])
    {
      current, restored, ok := c.items, map[], true;
      ExchangeNone(c.items, replacements);
      for i := 0 to |cut.before|
        invariant ok && Reviving(i, restored)
        invariant current == Exchange(c.items, replacements, restored)
        invariant forall j <- restored :: fresh(restored[j])
      {
        if i in replacements {
          ok, current, restored := ReviveOne(i, current, restored);
          if !ok {
            return;
          }
        }
      }
      assert forall i :: i in restored <==> i in replacements;
      assert restored.Keys == replacements.Keys;
    }

    method ReviveOne(i: int, current: seq<Item>, restored: map<int, Item>)
      returns (ok: bool, next: seq<Item>, grown: map<int, Item>)
      requires Valid() && after.Some? && Distinct(c.items) && i in replacements
      requires Reviving(i, restored) && current == Exchange(c.items, replacements, restored)
      requires forall j <- restored, k <- replacements :: restored[j] != replacements[k]
      ensures ok == Intact(after.value, replacements[i])
      ensures ok ==> Reviving(i + 1, grown) && next == Exchange(c.items, replacements, grown)
      ensures ok ==>
                && grown.Keys == restored.Keys + {i} && fresh(grown[i])
                && forall j <- restored :: grown[j] == restored[j]
    {
      var replacement := replacements[i];
      var liveIndex := IndexOf(current, replacement);
      var expected := FindEntry(after.value, replacement);
      ExchangeOne(c.items, replacements, restored, i, replacement);
      if liveIndex < 0 || expected.None? || replacement.rows != expected.value.rows {
        return false, current, restored;
      }
      var value := Copy(i);
      ExchangeOne(c.items, replacements, restored, i, value);
      RevivingStep(i, restored, value);
      return true, current[liveIndex := value], restored[i := value];
    }

    method Copy(i: int) returns (value: Item)
      requires Valid() && i in replacements && cut.Shrinks(i)
      ensures fresh(value) && Revived(i, value, replacements[i])
    {
      var identity := new ArrayIdentity();
      value := new Item(replacements[i].id, Some(RowList(identity, cut.before[i].rows.value.rows)),
                        cut.before[i].item.included, replacements[i].other);
    }

    lemma RevivingStep(i: int, restored: map<int, Item>, value: Item)
      requires Valid() && after.Some? && i in replacements && Reviving(i, restored)
      requires Intact(after.value, replacements[i]) && Revived(i, value, replacements[i])
      requires forall j <- restored :: restored[j] != value
      ensures Reviving(i + 1, restored[i := value])
    {
    }

    /** Each of the `values` is its container with its rows back, otherwise as in `live`. */
    ghost predicate AllRevived(values: map<int, Item>, live: map<int, Item>)
      requires cut.Valid()
      reads values.Values, live.Values, set e <- cut.before :: e.item
    {
      forall i <- values :: i in live && cut.Shrinks(i) && Revived(i, values[i], live[i])
    }

    /** The containers have been restored from `items`, where `from` stood in for them:
        each shrunken one exchanged for one with its rows back, each emptied one put back
        in its place among those. */
    ghost predicate Restored(items: seq<Item>, from: map<int, Item>)
      requires cut.Valid()
      reads this`replacements, c`items, replacements.Values, from.Values, set e <- cut.before :: e.item
    {
      && replacements.Keys == from.Keys && AllRevived(replacements, from)
      && c.items == Reinsert(Itself(), Exchange(items, from, replacements), cut.Live(replacements),
                             Keys(cut.Gone(replacements)), None)
    }

    /** The restored list and the new stand-ins, ready to be installed. Nothing that was
        there before is touched. */
    method RestoreMembers() returns (ok: bool, items: seq<Item>, restored: map<int, Item>)
      requires Valid() && after.Some? && Distinct(c.items)
      ensures ok == MembersIntact()
      ensures ok ==> cut.Replaces(restored) && restored.Keys == replacements.Keys
      ensures ok ==>
                forall i <- restored ::
                  fresh(restored[i]) && cut.Shrinks(i) && Revived(i, restored[i], replacements[i])
      ensures ok ==> items == Reinsert(Itself(), Exchange(c.items, replacements, restored), cut.Live(restored),
                                       Keys(cut.Gone(restored)), None)
    {
      ok, items, restored := ReviveMembers();
      if ok {
        ExchangedDistinct(c.items, replacements, restored);
        cut.LiveDistinct(restored);
        items := SpliceMissing(items, cut.Live(restored), cut.Gone(restored));
      }
    }

    // ---- the states of a run that nobody disturbs

    /** The containers as they were, where the removal did not shrink them; of a shrunken one
        only the recorded count still matters. */
    ghost predicate ViewsKept()
      requires cut.Valid()
      reads set e <- cut.before :: e.item
    {
      && |was| == |cut.before|
      && forall i :: 0 <= i < |cut.before| ==>
           if cut.Shrinks(i) then
             was[i].included == cut.before[i].item.included && was[i].rows == Some(cut.before[i].rows.value.rows)
           else ViewOf(cut.before[i].item) == was[i]
    }

    ghost function ReducedView(i: int): View
      requires 0 <= i < |was| && cut.Shrinks(i)
    {
      was[i].(rows := Some(cut.Left(i)), included := Some(|cut.Left(i)|))
    }

    ghost predicate TimelineIs(text: Stamp)
      reads this`afterTimeline, this`beforeTimeline, this`prior, c`timeline
    {
      && TextsReversible(startText, endText)
      && afterTimeline == endText && beforeTimeline == startText
      && c.TimelineStamp() == text
      && Authored(prior) && prior.Text() == startText
      && if c.timeline.Some? then Authored(c.timeline.value) else startText == endText
    }

    /** The removal is in force and the Case is just what it left. */
    ghost predicate QuietAfter()
      reads this, c, c.items, replacements.Values, set e <- cut.before :: e.item
    {
      && Valid() && Distinct(c.items)
      && applied && after == Some(Shape(c.items))
      && c.items == cut.Next(replacements)
      && ViewsKept() && (forall i <- replacements :: cut.Shrinks(i) && ViewOf(replacements[i]) == ReducedView(i))
      && TimelineIs(endText)
    }

    /** The containers are back, each showing what it showed. */
    ghost predicate MembersBack()
      reads this`replacements, c`items, replacements.Values, set e <- cut.before :: e.item
    {
      && cut.Valid() && cut.Replaces(replacements) && Distinct(c.items)
      && c.items == cut.Live(replacements)
      && ViewsKept() && (forall i <- replacements :: cut.Shrinks(i) && ViewOf(replacements[i]) == was[i])
    }

    /** The removal is undone and the Case is just what it was. */
    ghost predicate QuietBefore()
      reads this, c, c.items, replacements.Values, set e <- cut.before :: e.item
    {
      && Valid() && MembersBack()
      && !applied && after.Some? && undone == Some(Shape(c.items))
      && TimelineIs(startText)
    }

    predicate CanUndo()
      requires applied ==> after.Some?
      reads this, c, c.items
    {
      applied && Shape(c.items) == after.value && c.TimelineStamp() == afterTimeline
    }

    lemma QuietIsIntact()
      requires QuietAfter()
      ensures MembersIntact() && CanUndo()
    {
      forall i <- replacements ensures Intact(after.value, replacements[i]) {
        cut.NextMembers(replacements, |cut.before|, i);
        IntactNow(c.items, replacements[i]);
      }
    }

    lemma {:induction false} IntactNow(items: seq<Item>, x: Item)
      requires x in items
      ensures FindEntry(Shape(items), x) == Some(Entry(x, x.rows))
      decreases |items|
    {
      if items[0] != x {
        IntactNow(items[1..], x);
      }
    }

    /** Restored from what the removal left, the containers are in their original order and
        show what they showed. */
    lemma QuietRestored(items: seq<Item>, from: map<int, Item>)
      requires Valid() && cut.Replaces(from) && Restored(items, from) && items == cut.Next(from)
      requires ViewsKept() && forall i <- from :: cut.Shrinks(i) && ViewOf(from[i]) == ReducedView(i)
      ensures MembersBack()
    {
      cut.ExchangedNext(from, replacements, |cut.before|);
      cut.RestoredOrder(replacements);
      cut.LiveDistinct(replacements);
    }

    /** Undo is refused unless the Case is, in membership and timeline text, what the removal
        left; then the containers are restored, with whatever else was edited on them, and
        the timeline is put back. */
    method Undo() returns (ok: bool)
      requires Valid() && Distinct(c.items)
      modifies this`replacements, this`applied, this`undone, c`items, c`timeline
      ensures Valid()
      ensures ok == old(CanUndo() && MembersIntact())
      ensures !ok ==> unchanged(c) && unchanged(this)
      ensures ok ==> !applied && undone == Some(Shape(c.items))
      ensures ok ==> forall i <- replacements :: fresh(replacements[i])
      ensures !ok || Restored(old(c.items), old(replacements))
      ensures ok ==> c.timeline == if old(c.timeline).Some? then Some(prior) else None
    {
      if !CanUndo() {
        return false;
      }
      var items, restored;
      ok, items, restored := RestoreMembers();
      if ok {
        Install(items, restored, if c.timeline.Some? then Some(prior) else None);
      }
    }

    method Install(items: seq<Item>, restored: map<int, Item>, timeline: Option<Timeline>)
      requires cut.Valid() && after.Some? && cut.Replaces(restored) && restored.Keys == replacements.Keys
      requires AllRevived(restored, replacements)
      requires items == Reinsert(Itself(), Exchange(c.items, replacements, restored), cut.Live(restored),
                                 Keys(cut.Gone(restored)), None)
      modifies this`replacements, this`applied, this`undone, c`items, c`timeline
      ensures replacements == restored && !applied
      ensures undone == Some(Shape(c.items))
      ensures c.timeline == timeline
      ensures Restored(old(c.items), old(replacements))
    {
      c.timeline := timeline;
      applied := false;
      PutBack(items, restored);
    }

    method PutBack(items: seq<Item>, restored: map<int, Item>)
      requires cut.Valid() && restored.Keys == replacements.Keys
      requires AllRevived(restored, replacements)
      requires items == Reinsert(Itself(), Exchange(c.items, replacements, restored), cut.Live(restored),
                                 Keys(cut.Gone(restored)), None)
      modifies this`replacements, this`undone, c`items
      ensures replacements == restored && undone == Some(Shape(c.items))
      ensures Restored(old(c.items), old(replacements))
    {
      c.items := items;
      replacements := restored;
      undone := Some(Shape(c.items));
    }

    function MergedBack(live: Timeline): Timeline
      reads this`beforeTimeline, this`afterTimeline
    {
      Timeline(Some(RestoreTimeline(ById, live.groups.GetOr([]), afterTimeline.groups, beforeTimeline.groups)),
               Some(RestoreTimeline(ById, live.annotations.GetOr([]),
                                    afterTimeline.annotations, beforeTimeline.annotations)))
    }

    /** Rollback is all or nothing: refused, with nothing changed, when a shrunken container
        is gone or was edited; otherwise the containers are restored around whatever else
        happened, and the timeline is merged back. */
    method Rollback() returns (ok: bool)
      requires Valid() && Distinct(c.items)
      modifies this`replacements, this`applied, this`undone, c`items, c`timeline
      ensures Valid()
      ensures ok == old(applied && MembersIntact())
      ensures !ok ==> unchanged(c) && unchanged(this)
      ensures ok ==> !applied && undone == Some(Shape(c.items))
      ensures ok ==> forall i <- replacements :: fresh(replacements[i])
      ensures !ok || Restored(old(c.items), old(replacements))
      ensures ok ==> c.timeline == if old(c.timeline).Some? then Some(old(MergedBack(c.timeline.value))) else None
    {
      if !applied {
        return false;
      }
      var items, restored;
      ok, items, restored := RestoreMembers();
      if ok {
        Install(items, restored, if c.timeline.Some? then Some(MergedBack(c.timeline.value)) else None);
      }
    }

    /** What a restore keeps and brings back, whatever the Case looked like. Every container
        of the removal is there again; what was there is still there, a stand-in exchanged
        for its restored container, in the same relative order; nothing else appears. */
    lemma RestoreConserves(items: seq<Item>, from: map<int, Item>)
      requires cut.Valid() && cut.Replaces(from) && cut.Replaces(replacements) && Distinct(items)
      requires Restored(items, from)
      requires forall i <- from :: from[i] in items && replacements[i] !in items
      ensures Distinct(c.items)
      ensures forall i <- cut.grouped :: cut.LiveAt(replacements, i) in c.items
      ensures forall x <- items :: Stand(x, from, replacements) in c.items
      ensures forall x <- c.items ::
                || (exists y :: y in items && x == Stand(y, from, replacements))
                || (exists i :: i in cut.grouped && !cut.Shrinks(i) && 0 <= i < |cut.before| && x == cut.before[i].item)
      ensures var kept := Exchange(items, from, replacements); Restrict(c.items, set x | x in kept) == kept
    {
      var kept := Exchange(items, from, replacements);
      ExchangedDistinct(items, from, replacements);
      cut.LiveDistinct(replacements);
      SpliceConserves(kept, cut.Live(replacements), cut.Gone(replacements));
      forall x <- items ensures Stand(x, from, replacements) in kept {
        var p :| 0 <= p < |items| && items[p] == x;
        ExchangeAt(items, from, replacements, p);
      }
      forall i <- cut.grouped ensures cut.LiveAt(replacements, i) in c.items {
        if i in replacements {
          StandIs(from, replacements, i);
          assert Stand(from[i], from, replacements) in kept;
        } else {
          EmptiedIsWanted(i);
        }
      }
      forall x <- c.items
        ensures || (exists y :: y in items && x == Stand(y, from, replacements))
                || (exists i :: i in cut.grouped && !cut.Shrinks(i) && 0 <= i < |cut.before| && x == cut.before[i].item)
      {
        if x in kept {
          var p :| 0 <= p < |kept| && kept[p] == x;
          ExchangeAt(items, from, replacements, p);
        } else {
          var i :| 0 <= i < |cut.before| && cut.Live(replacements)[i] == x;
          assert i in cut.grouped && i !in replacements;
        }
      }
    }

    lemma EmptiedIsWanted(i: int)
      requires cut.Valid() && cut.Replaces(replacements) && i in cut.grouped && i !in replacements
      ensures cut.LiveAt(replacements, i) in cut.Live(replacements)
      ensures cut.LiveAt(replacements, i) !in cut.Gone(replacements)
    {
      var x := cut.LiveAt(replacements, i);
      assert cut.Live(replacements)[i] == x;
      cut.LiveDistinct(replacements);
      forall j | 0 <= j < |cut.before| && (j !in cut.grouped || j in replacements)
        ensures cut.LiveAt(replacements, j) != x
      {
        assert cut.Live(replacements)[j] == cut.LiveAt(replacements, j);
      }
    }

    /** Undone, the Case shows item by item what it showed. */
    lemma UndoneShows()
      requires QuietBefore()
      ensures ViewsOf(c.items) == was
    {
    }

    /** What the remaining containers show: the shrunken ones with fewer rows, the others as
        they were. */
    ghost function LeftViews(n: nat): seq<View>
      requires n <= |cut.before| == |was|
    {
      if n == 0 then [] else LeftViews(n - 1) + LastViews(n)
    }

    /** What is shown of the `n`th of the original containers. */
    ghost function LastViews(n: nat): seq<View>
      requires 0 < n <= |cut.before| == |was|
    {
      if cut.Shrinks(n - 1) then [ReducedView(n - 1)] else if (n - 1) in cut.grouped then [] else [was[n - 1]]
    }

    /** What is there of it once the removal is in force. */
    ghost function LastItems(n: nat): seq<Item>
      requires 0 < n <= |cut.before|
      reads this`replacements
    {
      if (n - 1) in cut.grouped && (n - 1) !in replacements then [] else [cut.LiveAt(replacements, n - 1)]
    }

    /** Applied, or redone any number of times, the Case shows the same. */
    lemma AppliedShows()
      requires QuietAfter()
      ensures ViewsOf(c.items) == LeftViews(|cut.before|)
    {
      LeftShows(|cut.before|);
    }

    lemma {:induction false} LeftShows(n: nat)
      requires cut.Valid() && cut.Replaces(replacements) && n <= |cut.before|
      requires ViewsKept() && forall i <- replacements :: cut.Shrinks(i) && ViewOf(replacements[i]) == ReducedView(i)
      ensures Shows(cut.NextUpTo(replacements, n), LeftViews(n))
      decreases n
    {
      if n > 0 {
        LeftShows(n - 1);
        LastShows(n);
        ShowsConcat(cut.NextUpTo(replacements, n - 1), LastItems(n), LeftViews(n - 1), LastViews(n));
      }
    }

    lemma LastShows(n: nat)
      requires cut.Valid() && cut.Replaces(replacements) && 0 < n <= |cut.before|
      requires ViewsKept() && forall i <- replacements :: cut.Shrinks(i) && ViewOf(replacements[i]) == ReducedView(i)
      ensures Shows(LastItems(n), LastViews(n))
    {
    }

    // ---- doing it again

    /** `value` is the container at `i` without the removed rows; the rest is as `live` has it. */
    ghost predicate Shrunk(i: int, value: Item, live: Item)
      requires 0 <= i < |cut.before| && i in cut.grouped && cut.before[i].rows.Some?
      reads value, live
    {
      && value.rows.Some? && value.rows.value.rows == cut.Left(i)
      && value.included == Some(|cut.Left(i)|)
      && value.id == live.id && value.other == live.other
    }

    /** Every container the removal touches is where and as the undo left it. */
    ghost predicate RedoIntact()
      requires Valid() && undone.Some?
      reads this, c, replacements.Values, set e <- cut.before :: e.item
    {
      forall i <- cut.grouped :: Intact(undone.value, cut.LiveAt(replacements, i))
    }

    /** The stand-ins made for the first `n` containers. */
    ghost predicate Redoing(n: int, updated: map<int, Item>)
      requires Valid() && undone.Some?
      reads this, c, replacements.Values, updated.Values, set e <- cut.before :: e.item
    {
      && (forall j :: j in updated <==> j in replacements && j < n)
      && (forall j <- cut.grouped :: j < n ==> Intact(undone.value, cut.LiveAt(replacements, j)))
      && (forall j <- updated :: cut.Shrinks(j) && Shrunk(j, updated[j], replacements[j]))
      && Injective(updated)
    }

    /** The running list of a redo that has come to the container at `n`. */
    ghost function RedoneUpTo(n: int, updated: map<int, Item>): seq<Item>
      requires n <= |cut.before|
      reads this`replacements, c`items
    {
      Dropping(Exchange(c.items, replacements, updated), cut.EmptiedUpTo(n))
    }

    method RedoMembers() returns (ok: bool, items: seq<Item>, updated: map<int, Item>)
      requires Valid() && undone.Some? && Distinct(c.items)
      ensures ok == RedoIntact()
      ensures !ok || (Redoing(|cut.before|, updated) && updated.Keys == replacements.Keys)
      ensures ok ==> forall i <- updated :: fresh(updated[i])
      ensures ok ==> items == RedoneUpTo(|cut.before|, updated)
    {
      items, updated, ok := c.items, map[], true;
      RedoStarts();
      for i := 0 to |cut.before|
        invariant ok && Redoing(i, updated)
        invariant items == RedoneUpTo(i, updated) && Apart(updated)
        invariant forall j <- updated :: fresh(updated[j])
      {
        if i in cut.grouped {
          ok, items, updated := RedoOne(i, items, updated);
          if !ok {
            return;
          }
        } else {
          UntouchedRedone(i, updated);
        }
      }
      AllRedone(updated);
    }

    lemma UntouchedRedone(i: int, updated: map<int, Item>)
      requires Valid() && undone.Some? && 0 <= i < |cut.before| && i !in cut.grouped && Redoing(i, updated)
      ensures Redoing(i + 1, updated) && RedoneUpTo(i + 1, updated) == RedoneUpTo(i, updated)
    {
      cut.EmptiedStep(i);
    }

    lemma AllRedone(updated: map<int, Item>)
      requires Valid() && undone.Some? && Redoing(|cut.before|, updated)
      ensures RedoIntact() && updated.Keys == replacements.Keys
    {
      assert forall i :: i in updated <==> i in replacements;
    }

    lemma RedoStarts()
      requires Valid()
      ensures RedoneUpTo(0, map[]) == c.items
    {
      ExchangeNone(c.items, replacements);
      DroppingNone(c.items);
      assert cut.EmptiedUpTo(0) == {};
    }

    /** The new stand-ins are none of the containers that were there. */
    ghost predicate Apart(updated: map<int, Item>)
      reads this`replacements, c`items
    {
      && (forall j <- updated, k :: 0 <= k < |cut.before| ==> updated[j] != cut.LiveAt(replacements, k))
      && (forall j <- updated :: updated[j] !in c.items)
    }

    method RedoOne(i: int, current: seq<Item>, updated: map<int, Item>)
      returns (ok: bool, next: seq<Item>, grown: map<int, Item>)
      requires Valid() && undone.Some? && Distinct(c.items) && i in cut.grouped && Redoing(i, updated)
      requires current == RedoneUpTo(i, updated) && Apart(updated)
      ensures ok == Intact(undone.value, cut.LiveAt(replacements, i))
      ensures !ok || Redoing(i + 1, grown)
      ensures !ok || (next == RedoneUpTo(i + 1, grown) && Apart(grown))
      ensures ok ==> forall j <- grown :: fresh(grown[j]) || (j in updated && grown[j] == updated[j])
    {
      var live := cut.LiveAt(replacements, i);
      var index := IndexOf(current, live);
      var expected := FindEntry(undone.value, live);
      RedoFinds(i, updated);
      if index < 0 || expected.None? || live.rows != expected.value.rows {
        return false, current, updated;
      }
      ok := true;
      next, grown := RedoFound(i, current, updated, index);
    }

    /** The container at `i` is there: it is shrunk, or spliced out. */
    method RedoFound(i: int, current: seq<Item>, updated: map<int, Item>, index: int)
      returns (next: seq<Item>, grown: map<int, Item>)
      requires Valid() && undone.Some? && Distinct(c.items) && i in cut.grouped && Redoing(i, updated)
      requires current == RedoneUpTo(i, updated) && Apart(updated)
      requires Intact(undone.value, cut.LiveAt(replacements, i))
      requires index == IndexOf(current, cut.LiveAt(replacements, i)) >= 0
      ensures Redoing(i + 1, grown)
      ensures next == RedoneUpTo(i + 1, grown) && Apart(grown)
      ensures forall j <- grown :: fresh(grown[j]) || (j in updated && grown[j] == updated[j])
    {
      if cut.Left(i) != [] {
        var value := RedoShrink(i, updated);
        next, grown := current[index := value], updated[i := value];
      } else {
        RedoneEmptied(i, updated);
        next, grown := current[..index] + current[index + 1..], updated;
      }
    }

    method RedoShrink(i: int, updated: map<int, Item>) returns (value: Item)
      requires Valid() && undone.Some? && Distinct(c.items) && i in replacements && cut.Shrinks(i)
               && Redoing(i, updated)
      requires Apart(updated) && Intact(undone.value, replacements[i])
      ensures fresh(value) && Apart(updated[i := value])
      ensures Redoing(i + 1, updated[i := value])
      ensures var at := IndexOf(RedoneUpTo(i, updated), replacements[i]);
              at >= 0 && RedoneUpTo(i, updated)[at := value] == RedoneUpTo(i + 1, updated[i := value])
    {
      value := Shrink(i);
      ApartGrows(i, updated, value);
      RedoingShrunk(i, updated, value);
      RedoneShrunk(i, updated, value);
    }

    lemma ApartGrows(i: int, updated: map<int, Item>, value: Item)
      requires Apart(updated) && value !in c.items
      requires forall k :: 0 <= k < |cut.before| ==> value != cut.LiveAt(replacements, k)
      ensures Apart(updated[i := value])
    {
    }

    /** A container of the removal is found in the running list exactly when it is live. */
    lemma RedoFinds(i: int, updated: map<int, Item>)
      requires Valid() && undone.Some? && Distinct(c.items) && i in cut.grouped && Redoing(i, updated)
      requires Apart(updated)
      ensures IndexOf(RedoneUpTo(i, updated), cut.LiveAt(replacements, i)) >= 0 <==>
                cut.LiveAt(replacements, i) in c.items
    {
      cut.EmptiedStep(i);
      var live := cut.LiveAt(replacements, i);
      if cut.Shrinks(i) {
        RedoShrinks(c.items, replacements, updated, cut.EmptiedUpTo(i), i, live);
      } else {
        RedoEmpties(c.items, replacements, updated, cut.EmptiedUpTo(i), live);
      }
    }

    lemma RedoingShrunk(i: int, updated: map<int, Item>, value: Item)
      requires Valid() && undone.Some? && i in replacements && cut.Shrinks(i) && Redoing(i, updated)
      requires forall j <- updated :: updated[j] != value
      requires Shrunk(i, value, replacements[i]) && Intact(undone.value, replacements[i])
      ensures Redoing(i + 1, updated[i := value])
    {
    }

    lemma RedoneShrunk(i: int, updated: map<int, Item>, value: Item)
      requires Valid() && undone.Some? && Distinct(c.items) && i in replacements && cut.Shrinks(i)
               && Redoing(i, updated)
      requires Apart(updated)
      requires value !in cut.EmptiedUpTo(i) && replacements[i] in c.items
      ensures var at := IndexOf(RedoneUpTo(i, updated), replacements[i]);
              at >= 0 && RedoneUpTo(i, updated)[at := value] == RedoneUpTo(i + 1, updated[i := value])
    {
      cut.EmptiedStep(i);
      RedoShrinks(c.items, replacements, updated, cut.EmptiedUpTo(i), i, value);
    }

    lemma EmptiedIsApart(i: int, updated: map<int, Item>)
      requires Valid() && undone.Some? && i in cut.grouped && !cut.Shrinks(i) && Redoing(i, updated) && Apart(updated)
      ensures forall j <- updated ::
                j in replacements && replacements[j] != cut.before[i].item && updated[j] != cut.before[i].item
    {
      forall j <- updated ensures replacements[j] != cut.before[i].item && updated[j] != cut.before[i].item {
        assert cut.LiveAt(replacements, i) == cut.before[i].item;
      }
    }

    lemma RedoneEmptied(i: int, updated: map<int, Item>)
      requires Valid() && undone.Some? && Distinct(c.items) && i in cut.grouped && !cut.Shrinks(i)
               && Redoing(i, updated)
      requires Apart(updated)
      requires cut.before[i].item in c.items
      ensures var current := RedoneUpTo(i, updated); var at := IndexOf(current, cut.before[i].item);
              at >= 0 && current[..at] + current[at + 1..] == RedoneUpTo(i + 1, updated)
    {
      cut.EmptiedStep(i);
      EmptiedIsApart(i, updated);
      RedoEmpties(c.items, replacements, updated, cut.EmptiedUpTo(i), cut.before[i].item);
      assert RedoneUpTo(i + 1, updated)
             == Dropping(Exchange(c.items, replacements, updated), cut.EmptiedUpTo(i) + {cut.before[i].item});
    }

    method Shrink(i: int) returns (value: Item)
      requires Valid() && i in replacements && cut.Shrinks(i)
      ensures fresh(value) && Shrunk(i, value, replacements[i])
    {
      var identity := new ArrayIdentity();
      value := new Item(replacements[i].id, Some(RowList(identity, cut.Left(i))), Some(|cut.Left(i)|),
                        replacements[i].other);
    }

    function MergedForward(live: Timeline): Timeline
      reads this`beforeTimeline, this`afterTimeline
    {
      Timeline(Some(RestoreTimeline(ById, live.groups.GetOr([]), beforeTimeline.groups, afterTimeline.groups)),
               Some(RestoreTimeline(ById, live.annotations.GetOr([]),
                                    beforeTimeline.annotations, afterTimeline.annotations)))
    }

    /** The containers have been reduced again, starting from `items`, where `from` stood in. */
    ghost predicate Reduced(items: seq<Item>, from: map<int, Item>)
      requires cut.Valid()
      reads this`replacements, c`items, replacements.Values, from.Values
    {
      && replacements.Keys == from.Keys
      && (forall i <- replacements :: cut.Shrinks(i) && Shrunk(i, replacements[i], from[i]))
      && c.items == Dropping(Exchange(items, from, replacements), cut.Emptied())
    }

    /** Redo is refused, with nothing changed, unless every container the removal touches is
        where and as the undo left it; otherwise each loses the same rows again, and the
        timeline goes through the merge with its two sides swapped. */
    method Redo() returns (ok: bool)
      requires Valid() && Distinct(c.items)
      modifies this, c`items, c`timeline
      ensures Valid()
      ensures ok == old(!applied && undone.Some? && RedoIntact())
      ensures !ok ==> unchanged(c) && unchanged(this)
      ensures !ok || (applied && after == Some(Shape(c.items)) && afterTimeline == c.TimelineStamp())
      ensures ok ==> forall i <- replacements :: fresh(replacements[i])
      ensures !ok || Reduced(old(c.items), old(replacements))
      ensures !ok || c.timeline == if old(c.timeline).Some? then Some(old(MergedForward(c.timeline.value))) else None
      ensures !ok || c.timeline.None? || (prior == old(c.timeline.value) && beforeTimeline == old(c.TimelineStamp()))
      ensures c.timeline.None? ==> prior == old(prior) && beforeTimeline == old(beforeTimeline)
    {
      if applied || undone.None? {
        return false;
      }
      var items, updated;
      ok, items, updated := RedoMembers();
      if !ok {
        return;
      }
      InstallRedone(items, updated);
    }

    method InstallRedone(items: seq<Item>, updated: map<int, Item>)
      requires Valid() && cut.Replaces(updated) && updated.Keys == replacements.Keys
      requires forall i <- updated :: cut.Shrinks(i) && Shrunk(i, updated[i], replacements[i])
      requires items == Dropping(Exchange(c.items, replacements, updated), cut.Emptied())
      modifies this, c`items, c`timeline
      ensures Valid() && replacements == updated
      ensures applied && after == Some(Shape(c.items)) && afterTimeline == c.TimelineStamp()
      ensures Reduced(old(c.items), old(replacements))
      ensures c.timeline == if old(c.timeline).Some? then Some(old(MergedForward(c.timeline.value))) else None
      ensures c.timeline.Some? ==> prior == old(c.timeline.value) && beforeTimeline == old(c.TimelineStamp())
      ensures c.timeline.None? ==> prior == old(prior) && beforeTimeline == old(beforeTimeline)
    {
      MergeForward();
      afterTimeline := c.TimelineStamp();
      InstallReduced(items, updated);
    }

    method MergeForward()
      modifies this`prior, this`beforeTimeline, c`timeline
      ensures c.timeline == if old(c.timeline).Some? then Some(old(MergedForward(c.timeline.value))) else None
      ensures c.timeline.Some? ==> prior == old(c.timeline.value) && beforeTimeline == old(c.TimelineStamp())
      ensures c.timeline.None? ==> prior == old(prior) && beforeTimeline == old(beforeTimeline)
    {
      if c.timeline.Some? {
        var merged := MergedForward(c.timeline.value);
        prior, beforeTimeline := c.timeline.value, c.TimelineStamp();
        c.timeline := Some(merged);
      }
    }

    method InstallReduced(items: seq<Item>, updated: map<int, Item>)
      requires cut.Valid() && cut.Replaces(updated) && updated.Keys == replacements.Keys
      requires forall i <- updated :: cut.Shrinks(i) && Shrunk(i, updated[i], replacements[i])
      requires items == Dropping(Exchange(c.items, replacements, updated), cut.Emptied())
      modifies this`replacements, this`applied, this`after, c`items
      ensures replacements == updated && applied && after == Some(Shape(c.items))
      ensures Reduced(old(c.items), old(replacements))
    {
      c.items := items;
      applied, replacements := true, updated;
      after := Some(Shape(c.items));
    }

    // ---- applying it

    method Apply() returns (ok: bool)
      requires Valid()
      modifies this`applied, this`after, this`afterTimeline, c`items, c`timeline
      ensures Valid()
      ensures ok == old(!applied && Shape(c.items) == cut.before && c.TimelineStamp() == beforeTimeline)
      ensures !ok ==> unchanged(c) && unchanged(this)
      ensures ok ==>
                && applied && c.items == nextItems && after == Some(Shape(c.items))
                && afterTimeline == c.TimelineStamp()
      ensures ok ==>
                c.timeline == if old(c.timeline).Some? then Some(Timeline(Some(groups), Some(annotations))) else None
    {
      if applied || Shape(c.items) != cut.before || c.TimelineStamp() != beforeTimeline {
        return false;
      }
      c.items := nextItems;
      if c.timeline.Some? {
        c.timeline := Some(Timeline(Some(groups), Some(annotations)));
      }
      after, afterTimeline, applied := Some(Shape(c.items)), c.TimelineStamp(), true;
      return true;
    }

    // ---- runs that nobody disturbs

    /** Just prepared. */
    ghost predicate QuietStart()
      reads this, c, c.items, replacements.Values, set e <- cut.before :: e.item
    {
      && Valid() && Distinct(c.items)
      && was == ViewsOf(c.items)
      && !applied && after.None? && Shape(c.items) == cut.before
      && nextItems == cut.Next(replacements)
      && ViewsKept() && (forall i <- replacements :: cut.Shrinks(i) && ViewOf(replacements[i]) == ReducedView(i))
      && TextsReversible(startText, endText)
      && beforeTimeline == startText == c.TimelineStamp()
      && prior == c.timeline.GetOr(Timeline(None, None)) && Authored(prior)
      && (c.timeline.None? ==> startText == endText)
      && (c.timeline.Some? ==>
            && Authored(Timeline(Some(groups), Some(annotations)))
            && Timeline(Some(groups), Some(annotations)).Text() == endText)
    }

    /** What the Case shows, its timeline text, and whether the removal can be undone. */
    ghost function Now(): Moment
      requires applied ==> after.Some?
      reads this, c, c.items
    {
      Moment(ViewsOf(c.items), c.TimelineStamp(), CanUndo())
    }

    /** The Case as it was when the removal was prepared. */
    ghost function Before(): Moment {
      Moment(was, startText, false)
    }

    /** The Case without the removed rows and with the planned timeline. */
    ghost function After(): Moment
      requires |was| == |cut.before|
    {
      Moment(LeftViews(|cut.before|), endText, true)
    }

    method ApplyUndisturbed() returns (ok: bool)
      requires QuietStart()
      modifies this`applied, this`after, this`afterTimeline, c`items, c`timeline
      ensures ok && QuietAfter() && Now() == After()
    {
      ok := Apply();
      QuietlyReduced();
    }

    lemma NextDistinct()
      requires Valid()
      ensures Distinct(cut.Next(replacements))
    {
      cut.NextInLive(replacements, |cut.before|);
      cut.LiveDistinct(replacements);
      DistinctSubsequence(cut.Next(replacements), cut.Live(replacements));
    }

    lemma QuietlyReduced()
      requires Valid() && applied && after == Some(Shape(c.items)) && c.items == cut.Next(replacements)
      requires ViewsKept() && forall i <- replacements :: cut.Shrinks(i) && ViewOf(replacements[i]) == ReducedView(i)
      requires TimelineIs(endText)
      ensures QuietAfter() && Now() == After()
    {
      NextDistinct();
      AppliedMoment();
    }

    lemma AppliedMoment()
      requires QuietAfter()
      ensures Now() == After()
    {
      QuietIsIntact();
      AppliedShows();
    }

    method UndoUndisturbed() returns (ok: bool)
      requires QuietAfter()
      modifies this`replacements, this`applied, this`undone, c`items, c`timeline
      ensures ok && QuietBefore() && Now() == Before()
    {
      ghost var items, from := c.items, replacements;
      QuietIsIntact();
      ok := Undo();
      PriorAgain();
      QuietlyBack(items, from);
    }

    lemma QuietlyBack(items: seq<Item>, from: map<int, Item>)
      requires Valid() && cut.Replaces(from) && Restored(items, from) && items == cut.Next(from)
      requires ViewsKept() && forall i <- from :: cut.Shrinks(i) && ViewOf(from[i]) == ReducedView(i)
      requires !applied && after.Some? && undone == Some(Shape(c.items)) && TimelineIs(startText)
      ensures QuietBefore() && Now() == Before()
    {
      QuietRestored(items, from);
      UndoneShows();
    }

    /** The merge of a rollback reproduces the starting texts. */
    lemma MergesBack()
      requires TimelineIs(endText)
      ensures c.timeline.Some? ==>
                MergedBack(c.timeline.value) == Timeline(Some(startText.groups), Some(startText.annotations))
    {
      if c.timeline.Some? {
        TextUndone(c.timeline.value.groups.GetOr([]), startText.groups, endText.groups);
        TextUndone(c.timeline.value.annotations.GetOr([]), startText.annotations, endText.annotations);
      }
    }

    /** The merge of a redo reproduces the ending texts. */
    lemma MergesForward()
      requires TimelineIs(startText)
      ensures c.timeline.Some? ==>
                MergedForward(c.timeline.value) == Timeline(Some(endText.groups), Some(endText.annotations))
    {
      if c.timeline.Some? {
        TextRedone(c.timeline.value.groups.GetOr([]), startText.groups, endText.groups);
        TextRedone(c.timeline.value.annotations.GetOr([]), startText.annotations, endText.annotations);
      }
    }

    lemma PriorAgain()
      requires TextsReversible(startText, endText) && afterTimeline == endText && beforeTimeline == startText
      requires if c.timeline.Some? then c.timeline.value == prior else startText == endText == c.TimelineStamp()
      requires Authored(prior) && prior.Text() == startText
      ensures TimelineIs(startText)
    {
    }

    lemma StartAgain()
      requires TextsReversible(startText, endText) && afterTimeline == endText && beforeTimeline == startText
      requires c.timeline.None? ==> startText == endText == c.TimelineStamp()
      requires c.timeline.Some? ==> c.timeline.value == Timeline(Some(startText.groups), Some(startText.annotations))
      requires Authored(prior) && prior.Text() == startText
      ensures TimelineIs(startText)
    {
    }

    /** A rollback of a removal that nobody disturbed is not refused, and its merge gives the
        starting texts back. */
    lemma RollbackFits()
      requires QuietAfter()
      ensures applied && MembersIntact()
      ensures c.timeline.Some? ==>
                MergedBack(c.timeline.value) == Timeline(Some(startText.groups), Some(startText.annotations))
    {
      QuietIsIntact();
      MergesBack();
    }

    method RollbackUndisturbed() returns (ok: bool)
      requires QuietAfter()
      modifies this`replacements, this`applied, this`undone, c`items, c`timeline
      ensures ok && QuietBefore() && Now() == Before()
    {
      ghost var items, from := c.items, replacements;
      ghost var start := Timeline(Some(startText.groups), Some(startText.annotations));
      RollbackFits();
      ok := Rollback();
      assert c.timeline.Some? ==> c.timeline.value == start;
      StartAgain();
      QuietlyBack(items, from);
    }

    lemma QuietRedoIntact()
      requires QuietBefore()
      ensures RedoIntact()
    {
      forall i <- cut.grouped ensures Intact(undone.value, cut.LiveAt(replacements, i)) {
        assert cut.Live(replacements)[i] == cut.LiveAt(replacements, i);
        IntactNow(c.items, cut.LiveAt(replacements, i));
      }
    }

    lemma QuietReduced(items: seq<Item>, from: map<int, Item>)
      requires Valid() && cut.Replaces(from) && Reduced(items, from) && items == cut.Live(from)
      requires ViewsKept() && forall i <- from :: cut.Shrinks(i) && ViewOf(from[i]) == was[i]
      requires applied && after == Some(Shape(c.items)) && TimelineIs(endText)
      ensures QuietAfter() && Now() == After()
    {
      cut.ExchangedLive(from, replacements, |cut.before|);
      cut.DroppedLive(replacements, |cut.before|);
      QuietlyReduced();
    }

    method RedoUndisturbed() returns (ok: bool)
      requires QuietBefore()
      modifies this, c`items, c`timeline
      ensures ok && QuietAfter() && Now() == After()
    {
      ghost var items, from := c.items, replacements;
      QuietRedoIntact();
      MergesForward();
      ok := Redo();
      QuietReduced(items, from);
    }

    /** Any number of reversals, each followed by a redo, with what the Case showed after each
        of them. A reversal is a rollback or an undo, as `rollbacks` says. */
    method Cycle(rollbacks: seq<bool>) returns (ghost history: seq<Moment>)
      requires QuietAfter()
      modifies this, c`items, c`timeline
      ensures QuietAfter() && Now() == After()
      ensures history == Alternating(Before(), After(), |rollbacks|)
    {
      history := [];
      AppliedMoment();
      for i := 0 to |rollbacks|
        invariant QuietAfter() && Now() == After()
        invariant history == Alternating(Before(), After(), i)
      {
        ghost var back := Reverse(rollbacks[i]);
        var redone := RedoUndisturbed();
        history := history + [back, Now()];
      }
    }

    method Reverse(rollback: bool) returns (ghost back: Moment)
      requires QuietAfter()
      modifies this`replacements, this`applied, this`undone, c`items, c`timeline
      ensures QuietBefore() && back == Now() == Before()
    {
      var done;
      if rollback {
        done := RollbackUndisturbed();
      } else {
        done := UndoUndisturbed();
      }
      back := Now();
    }
  }

  /** `n` times `back` and then `again`. */
  ghost function Alternating(back: Moment, again: Moment, n: nat): seq<Moment> {
    if n == 0 then [] else Alternating(back, again, n - 1) + [back, again]
  }

  lemma DistinctSubsequence<T>(a: seq<T>, b: seq<T>)
    requires Distinct(b) && Subsequence(a, b)
    ensures Distinct(a)
  {
    DistinctItself(b);
    SubsequenceDistinct(Itself(), a, b);
    DistinctItself(a);
  }
}
