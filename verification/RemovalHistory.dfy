/** A removal over a Case that the user goes on editing: undos, rollbacks and redos of the
    transaction in any order, between edits of the timeline and of the list of containers. */
module RemovalHistory {
  import opened Wrappers
  import opened JsonValues
  import opened Sequences
  import opened TimelineMerge
  import opened TimelineText
  import opened TimelineEdits
  import opened RemovalItems
  import opened RemovalTransaction

  /** The user writes the timeline or arranges the containers; or the removal is undone, rolled
      back, or done again. */
  datatype Act = Author(timeline: Timeline) | Arrange(items: seq<Item>) | TakeBack | RollBack | TakeAgain

  /** The live groups and the two remembered texts of them. */
  ghost function GroupsOf(tx: Transaction): Live
    reads tx, tx.c
  {
    Live(tx.c.timeline.GetOr(Timeline(None, None)).groups.GetOr([]), tx.beforeTimeline.groups, tx.afterTimeline.groups)
  }

  ghost function NotesOf(tx: Transaction): Live
    reads tx, tx.c
  {
    Live(tx.c.timeline.GetOr(Timeline(None, None)).annotations.GetOr([]),
         tx.beforeTimeline.annotations, tx.afterTimeline.annotations)
  }

  /** What every act keeps, from the application of the removal on. */
  ghost predicate Steady(tx: Transaction)
    reads tx, tx.c
  {
    && tx.Valid() && Distinct(tx.c.items)
    && Settled(GroupsOf(tx)) && Settled(NotesOf(tx))
    && Authored(tx.prior) && tx.prior.Text() == tx.beforeTimeline
    && (tx.c.timeline.None? ==> tx.beforeTimeline == tx.afterTimeline == Stamp([], []))
  }

  ghost predicate Sound(act: Act) {
    && (act.Author? ==> Authored(act.timeline))
    && (act.Arrange? ==> Distinct(act.items))
  }

  /** From `was` to `now`, every field that the removal has nothing to do with came to read as
      it does in `list`, and the removal still has nothing to do with it. */
  ghost predicate Carries(was: Live, now: Live, list: seq<Json>) {
    forall id, key :: Foreign(was, id, key) ==>
      Foreign(now, id, key) && FieldAt(now.current, id, key) == FieldAt(list, id, key)
  }

  // ---- the lists, one act

  lemma Stepped(s: Live, e: Event)
    requires Settled(s) && (e.Edit? ==> Recorded(e.list))
    ensures Settled(Step(s, e)) && Carries(s, Step(s, e), if e.Edit? then e.list else s.current)
  {
    forall id, key | Foreign(s, id, key)
      ensures Foreign(Step(s, e), id, key)
              && FieldAt(Step(s, e).current, id, key) == FieldAt(if e.Edit? then e.list else s.current, id, key) {
      StepKeeps(s, e, id, key);
    }
    StepSettles(s, e);
  }

  lemma StepSettles(s: Live, e: Event)
    requires Settled(s) && (e.Edit? ==> Recorded(e.list))
    ensures Settled(Step(s, e))
  {
    match e
    case Edit(list) =>
    case Rollback => MergedRecorded(s.current, s.after, s.before);
    case Redo =>
      var merged := RestoreTimeline(ById, s.current, s.before, s.after);
      MergedRecorded(s.current, s.before, s.after);
      RecordedText(s.current);
      RecordedText(merged);
      WireItemsIdempotent(s.current);
      WireItemsIdempotent(merged);
  }

  /** An undo replaces a list that reads as after the removal by one that reads as before. */
  lemma Replaced(s: Live, prior: seq<Json>)
    requires Settled(s) && WireItems(s.current) == s.after && Recorded(prior) && WireItems(prior) == s.before
    ensures Settled(s.(current := prior)) && Carries(s, s.(current := prior), s.current)
  {
    forall id, key | Foreign(s, id, key) ensures FieldAt(prior, id, key) == FieldAt(s.current, id, key) {
      TextField(prior, id, key);
      TextField(s.current, id, key);
    }
  }

  lemma CarriesOn(a: Live, b: Live, c: Live, list: seq<Json>, last: Option<seq<Json>>)
    requires Carries(a, b, list) && Carries(b, c, last.GetOr(b.current))
    ensures Carries(a, c, last.GetOr(list))
  {
  }

  // ---- the list of containers

  lemma {:induction false} DroppingDistinct(items: seq<Item>, dropped: set<Item>)
    requires Distinct(items)
    ensures Distinct(Dropping(items, dropped))
    decreases |items|
  {
    if items != [] {
      var rest := items[1..];
      assert items[0] !in rest by {
        forall k | 0 <= k < |rest| ensures rest[k] != items[0] {
          assert rest[k] == items[k + 1];
        }
      }
      DroppingDistinct(rest, dropped);
      DroppingMember(rest, dropped, items[0]);
    }
  }

  lemma ReducedDistinct(tx: Transaction, items: seq<Item>, from: map<int, Item>)
    requires tx.Valid() && Distinct(items) && tx.Reduced(items, from)
    requires forall i <- tx.replacements :: tx.replacements[i] !in items
    ensures Distinct(tx.c.items)
  {
    ExchangedDistinct(items, from, tx.replacements);
    DroppingDistinct(Exchange(items, from, tx.replacements), tx.cut.Emptied());
  }

  // ---- one act over the live Case

  /** The groups that the user writes with an act, if it is one that writes. */
  function Groups(act: Act): Option<seq<Json>> {
    if act.Author? then Some(act.timeline.groups.GetOr([])) else None
  }

  function Notes(act: Act): Option<seq<Json>> {
    if act.Author? then Some(act.timeline.annotations.GetOr([])) else None
  }

  /** A refused act changes nothing; otherwise it changes the timeline as `Carries` says. */
  method Perform(tx: Transaction, act: Act)
    requires Steady(tx) && Sound(act)
    modifies tx, tx.c
    ensures Steady(tx)
    ensures Carries(old(GroupsOf(tx)), GroupsOf(tx), Groups(act).GetOr(old(GroupsOf(tx)).current))
    ensures Carries(old(NotesOf(tx)), NotesOf(tx), Notes(act).GetOr(old(NotesOf(tx)).current))
  {
    match act
    case Author(timeline) => tx.c.timeline := Some(timeline);
    case Arrange(items) => tx.c.items := items;
    case TakeBack => UndoIt(tx);
    case RollBack => RollItBack(tx);
    case TakeAgain => RedoIt(tx);
  }

  method UndoIt(tx: Transaction)
    requires Steady(tx)
    modifies tx, tx.c
    ensures Steady(tx)
    ensures Carries(old(GroupsOf(tx)), GroupsOf(tx), old(GroupsOf(tx)).current)
    ensures Carries(old(NotesOf(tx)), NotesOf(tx), old(NotesOf(tx)).current)
  {
    ghost var groups, notes, items, from := GroupsOf(tx), NotesOf(tx), tx.c.items, tx.replacements;
    var done := tx.Undo();
    if done {
      tx.RestoreConserves(items, from);
      if tx.c.timeline.Some? {
        Replaced(groups, tx.prior.groups.GetOr([]));
        Replaced(notes, tx.prior.annotations.GetOr([]));
      }
    }
  }

  /** A rollback takes the step of `TimelineEdits` on both lists. */
  method RollItBack(tx: Transaction)
    requires Steady(tx)
    modifies tx, tx.c
    ensures Steady(tx)
    ensures Carries(old(GroupsOf(tx)), GroupsOf(tx), old(GroupsOf(tx)).current)
    ensures Carries(old(NotesOf(tx)), NotesOf(tx), old(NotesOf(tx)).current)
  {
    ghost var groups, notes, items, from := GroupsOf(tx), NotesOf(tx), tx.c.items, tx.replacements;
    var done := tx.Rollback();
    if done {
      tx.RestoreConserves(items, from);
      if tx.c.timeline.Some? {
        assert GroupsOf(tx) == Step(groups, Rollback) && NotesOf(tx) == Step(notes, Rollback);
        Stepped(groups, Rollback);
        Stepped(notes, Rollback);
      }
    }
  }

  method RedoIt(tx: Transaction)
    requires Steady(tx)
    modifies tx, tx.c
    ensures Steady(tx)
    ensures Carries(old(GroupsOf(tx)), GroupsOf(tx), old(GroupsOf(tx)).current)
    ensures Carries(old(NotesOf(tx)), NotesOf(tx), old(NotesOf(tx)).current)
  {
    ghost var groups, notes, items, from := GroupsOf(tx), NotesOf(tx), tx.c.items, tx.replacements;
    var done := tx.Redo();
    if done {
      ReducedDistinct(tx, items, from);
      if tx.c.timeline.Some? {
        assert GroupsOf(tx) == Step(groups, Redo) && NotesOf(tx) == Step(notes, Redo);
        Stepped(groups, Redo);
        Stepped(notes, Redo);
      }
    }
  }

  // ---- whole histories

  /** The groups as the user left them last. */
  function LastGroups(start: seq<Json>, acts: seq<Act>): seq<Json>
    decreases |acts|
  {
    if acts == [] then start else Groups(acts[|acts| - 1]).GetOr(LastGroups(start, acts[..|acts| - 1]))
  }

  function LastNotes(start: seq<Json>, acts: seq<Act>): seq<Json>
    decreases |acts|
  {
    if acts == [] then start else Notes(acts[|acts| - 1]).GetOr(LastNotes(start, acts[..|acts| - 1]))
  }

  /** Over a live Case, through any history of undos, rollbacks and redos, refused or not,
      between edits of the timeline and of the containers: each field of a group or of a note
      that the removal has nothing to do with reads as the user left it last. */
  method AnyHistory(tx: Transaction, acts: seq<Act>)
    requires Steady(tx) && forall act <- acts :: Sound(act)
    modifies tx, tx.c
    ensures Steady(tx)
    ensures Carries(old(GroupsOf(tx)), GroupsOf(tx), LastGroups(old(GroupsOf(tx)).current, acts))
    ensures Carries(old(NotesOf(tx)), NotesOf(tx), LastNotes(old(NotesOf(tx)).current, acts))
  {
    ghost var groups, notes := GroupsOf(tx), NotesOf(tx);
    for i := 0 to |acts|
      invariant Steady(tx)
      invariant Carries(groups, GroupsOf(tx), LastGroups(groups.current, acts[..i]))
      invariant Carries(notes, NotesOf(tx), LastNotes(notes.current, acts[..i]))
    {
      ghost var g, n := GroupsOf(tx), NotesOf(tx);
      Perform(tx, acts[i]);
      CarriesOn(groups, g, GroupsOf(tx), LastGroups(groups.current, acts[..i]), Groups(acts[i]));
      CarriesOn(notes, n, NotesOf(tx), LastNotes(notes.current, acts[..i]), Notes(acts[i]));
      assert acts[..i + 1][..i] == acts[..i];
    }
    assert acts[..|acts|] == acts;
  }

  /** A removal that was just applied, undone or redone over a Case that nobody else touched
      is a start for such a history. */
  lemma QuietIsSteady(tx: Transaction)
    requires tx.QuietAfter()
    ensures Steady(tx)
  {
  }
}
