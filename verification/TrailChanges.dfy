/** Changing the associations of a trail: the new lists are installed, saved, and taken back
    when the save fails and nobody has touched them meanwhile. */
module TrailChanges {
  import opened Wrappers
  import opened CaseItems

  /** A list as the trail holds it: which array it is, and what it lists. */
  datatype Array<T> = Array(identity: nat, entries: seq<T>)

  /** The two lists of a trail; `None` is a field that the trail does not have. */
  datatype Lists = Lists(refs: Option<Array<Ref>>, ids: Option<Array<Legacy>>)

  datatype Receipt = Receipt(before: Lists, beforeTime: int, after: Lists, afterTime: int)

  /** What became of the save; an unconfirmed one may have been committed. */
  datatype Saving = Saved | Rejected | Unconfirmed

  /** Are the fields the same arrays, whatever these list? */
  predicate SameArrays(a: Lists, b: Lists) {
    && a.refs.Some? == b.refs.Some? && a.ids.Some? == b.ids.Some?
    && (a.refs.Some? ==> a.refs.value.identity == b.refs.value.identity)
    && (a.ids.Some? ==> a.ids.value.identity == b.ids.value.identity)
  }

  class Trail {
    var lists: Lists
    var updatedAt: int
    var locked: bool

    constructor (lists: Lists, updatedAt: int)
      ensures this.lists == lists && this.updatedAt == updatedAt && !locked
    {
      this.lists, this.updatedAt, locked := lists, updatedAt, false;
    }

    /** Everything before the save; nothing is done to a trail that is being changed already. */
    method Begin(next: Lists, now: int, allowed: bool) returns (receipt: Option<Receipt>)
      modifies this
      ensures receipt.Some? <==> allowed && !old(locked)
      ensures receipt.Some? ==>
                receipt.value == Receipt(old(lists), old(updatedAt), next, now) && lists == next && updatedAt == now
                && locked
      ensures receipt.None? ==> lists == old(lists) && updatedAt == old(updatedAt) && locked == old(locked)
    {
      if !allowed || locked {
        return None;
      }
      receipt := Some(Receipt(lists, updatedAt, next, now));
      locked := true;
      lists := next;
      updatedAt := now;
    }

    /** Everything after the save. */
    method Finish(receipt: Receipt, saving: Saving) returns (done: bool)
      requires locked
      modifies this
      ensures done <==> saving == Saved
      ensures !locked
      ensures if saving == Rejected && SameArrays(old(lists), receipt.after)
              then lists == receipt.before
                   && updatedAt == (if old(updatedAt) == receipt.afterTime then receipt.beforeTime else old(updatedAt))
              else lists == old(lists) && updatedAt == old(updatedAt)
    {
      if saving == Rejected && SameArrays(lists, receipt.after) {
        lists := receipt.before;
        if updatedAt == receipt.afterTime {
          updatedAt := receipt.beforeTime;
        }
      }
      locked := false;
      done := saving == Saved;
    }

    /** `edit` up to the save: `references` arrive in the new array `identity`; the legacy list
        stays the array it is. */
    method Edit(c: Case, references: seq<Ref>, identity: nat, now: int, allowed: bool)
      returns (receipt: Option<Receipt>)
      modifies this
      ensures receipt.Some? ==>
                && lists == Lists(Some(Array(identity, references)), old(lists).ids)
                && receipt.value == Receipt(old(lists), old(updatedAt), lists, now) && updatedAt == now
                && Prior(c, old(lists)).Some? && Admitted(c, Prior(c, old(lists)).value, references)
      ensures receipt.None? ==> lists == old(lists) && updatedAt == old(updatedAt)
      ensures receipt.Some? <==>
                allowed && !old(locked) && Prior(c, old(lists)).Some?
                && Admitted(c, Prior(c, old(lists)).value, references)
      ensures locked == (old(locked) || receipt.Some?)
    {
      var prior := Prior(c, lists);
      if prior.None? {
        return None;
      }
      var ok := MayReplace(c, prior.value, references);
      if !ok {
        return None;
      }
      receipt := Begin(lists.(refs := Some(Array(identity, references))), now, allowed);
    }

    /** `undo` up to the save: only while the trail still holds the arrays of the change. */
    method Undo(receipt: Receipt, now: int, allowed: bool) returns (reverse: Option<Receipt>)
      modifies this
      ensures reverse.Some? <==> SameArrays(old(lists), receipt.after) && allowed && !old(locked)
      ensures reverse.Some? ==>
                lists == receipt.before && reverse.value == Receipt(old(lists), old(updatedAt), lists, now)
      ensures reverse.Some? ==> updatedAt == now
      ensures reverse.None? ==> lists == old(lists) && updatedAt == old(updatedAt)
      ensures locked == (old(locked) || reverse.Some?)
    {
      if !SameArrays(lists, receipt.after) {
        return None;
      }
      reverse := Begin(receipt.before, now, allowed);
    }
  }

  /** The references that a trail's associations have now. */
  function Prior(c: Case, lists: Lists): Option<seq<Ref>> {
    var references := if lists.refs.Some? then Listed(lists.refs.value.entries) else Absent;
    var resolved := Associations(c, references, if lists.ids.Some? then lists.ids.value.entries else []);
    if resolved.None? then None else Some(ReferencesOf(resolved.value))
  }

  /** An edit and then its undo, whatever becomes of the two saves. The edit is refused, with
      nothing done, unless it is admitted; it stays unless its save is rejected, and between
      the two the trail holds the new references beside the untouched legacy list. Only a
      saved edit is undone, which is never refused; unless the undo is rejected in turn, both
      lists are then the arrays they were, present or absent as they were. */
  method EditAndUndo(trail: Trail, c: Case, references: seq<Ref>, identity: nat, times: (int, int), edited: Saving,
                     undone: Saving)
    returns (admitted: bool, between: Lists, reversed: bool)
    requires !trail.locked
    modifies trail
    ensures !trail.locked
    ensures var prior := Prior(c, old(trail.lists));
            admitted <==> prior.Some? && Admitted(c, prior.value, references)
    ensures var changed := Lists(Some(Array(identity, references)), old(trail.lists).ids);
            between == if admitted && edited != Rejected then changed else old(trail.lists)
    ensures reversed <==> admitted && edited == Saved
    ensures trail.lists == if reversed && undone != Rejected then old(trail.lists) else between
    ensures !reversed ==> trail.updatedAt == if admitted && edited == Unconfirmed then times.0 else old(trail.updatedAt)
    ensures reversed ==> trail.updatedAt == if undone == Rejected then times.0 else times.1
  {
    var receipt := trail.Edit(c, references, identity, times.0, true);
    admitted, between, reversed := receipt.Some?, trail.lists, false;
    if !admitted {
      return;
    }
    reversed := trail.Finish(receipt.value, edited);
    between := trail.lists;
    if !reversed {
      return;
    }
    var reverse := trail.Undo(receipt.value, times.1, true);
    reversed := reverse.Some?;
    var _ := trail.Finish(reverse.value, undone);
  }
}
