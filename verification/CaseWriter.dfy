/** The writer itself: the variables that the steps of `CaseWriterSteps` describe. */
module CaseWriter {
  import opened Wrappers
  import opened CaseWriterSteps

  class Writer {
    var store: nat
    var revisions: map<nat, int>
    var failed: set<nat>
    var active: Option<Flight>
    var pending: Option<Batch>
    var timer: Option<nat>
    var next: nat
    ghost var snapshotAt: nat
    ghost var ackedAt: nat
    ghost var log: seq<Entry>

    ghost function Now(): State
      reads this
    {
      State(store, revisions, failed, active, pending, timer, next, snapshotAt, ackedAt, log)
    }

    constructor ()
      ensures Now() == START
    {
      store, revisions, failed := 0, map[], {};
      active, pending, timer, next := None, None, None, 0;
      snapshotAt, ackedAt, log := 0, 0, [];
    }

    method Settle(saved: bool)
      requires active.Some?
      modifies this
      ensures Now() == Conclude(old(Now()), saved)
    {
      var batch := active.value;
      if saved {
        failed := failed - {batch.store};
      } else if store == batch.store {
        failed := failed + {batch.store};
      }
      active := None;
      log := log + [Settled(batch.id, saved)];
    }

    method DrainCaseSaves()
      modifies this
      ensures Now() == Drain(old(Now()))
      ensures !(active.None? && pending.Some? && pending.value.ready)
    {
      if active.Some? || pending.None? || !pending.value.ready {
        return;
      }
      var batch := pending.value;
      pending := None;
      if store != batch.store {
        log := log + [Settled(batch.id, false)];
        return;
      }
      var expected := if batch.store in revisions then Some(revisions[batch.store]) else None;
      active := Some(Flight(batch.id, batch.store, expected, None));
      snapshotAt := |log|;
      log := log + [Snapshot(batch.id, batch.store, expected)];
    }

    /** The batch that answers the caller. */
    method RequestSave() returns (batch: nat)
      modifies this
      ensures Now() == SaveCases(old(Now()))
      ensures pending.Some? && pending.value.id == batch && pending.value.store == store && timer == Some(batch)
    {
      if pending.Some? && pending.value.store != store {
        log := log + [Settled(pending.value.id, false)];
        pending := None;
      }
      if pending.None? {
        pending := Some(Batch(next, store, false));
        next := next + 1;
      }
      pending := Some(pending.value.(ready := false));
      batch := pending.value.id;
      timer := Some(batch);
      log := log + [Called(batch, store)];
    }

    method DebounceEnds()
      modifies this
      ensures Now() == TimerFires(old(Now()))
    {
      if timer.None? {
        return;
      }
      var batch := timer.value;
      timer := None;
      if pending.None? || pending.value.id != batch {
        return;
      }
      pending := Some(pending.value.(ready := true));
      DrainCaseSaves();
    }

    method Answered(ok: bool, revision: Option<int>, contexts: nat)
      modifies this
      ensures Now() == Reply(old(Now()), ok, revision, contexts)
    {
      if active.None? || active.value.contexts.Some? {
        return;
      }
      var batch := active.value;
      if !ok || store != batch.store {
        Settle(false);
        DrainCaseSaves();
        return;
      }
      if revision.None? || revision.value < 1 || (batch.expected.Some? && revision.value <= batch.expected.value) {
        Settle(false);
        DrainCaseSaves();
        return;
      }
      revisions := revisions[batch.store := revision.value];
      ackedAt := |log|;
      log := log + [Acked(batch.id, batch.store, revision.value)];
      active := Some(batch.(contexts := Some(contexts)));
      if contexts == 0 {
        Settle(true);
        DrainCaseSaves();
      }
    }

    method OneContextAdopted(ok: bool)
      modifies this
      ensures Now() == ContextAdopted(old(Now()), ok)
    {
      if active.None? || active.value.contexts.None? {
        return;
      }
      var left := active.value.contexts.value;
      if !ok || store != active.value.store {
        Settle(false);
        DrainCaseSaves();
      } else if left <= 1 {
        Settle(true);
        DrainCaseSaves();
      } else {
        active := Some(active.value.(contexts := Some(left - 1)));
      }
    }

    method ReplaceStore(other: nat, revision: Option<int>)
      modifies this
      ensures Now() == Replace(old(Now()), other, revision)
    {
      store := other;
      if revision.Some? {
        revisions := revisions[other := revision.value];
      }
      log := log + [Replaced(other)];
    }

    method BeginFlush()
      modifies this
      ensures Now() == FlushStart(old(Now()))
    {
      if active.None? && pending.None? && store in failed {
        var _ := RequestSave();
      }
    }

    method HurryFlush()
      modifies this
      ensures Now() == FlushPass(old(Now()))
    {
      if pending.None? {
        return;
      }
      timer := None;
      pending := Some(pending.value.(ready := true));
      DrainCaseSaves();
    }

    /** The last look of a flush: `None` means that there is more to wait for. */
    method FinishFlush() returns (flushed: Option<bool>)
      ensures flushed == Some(true) <==> Quiet(Now())
      ensures flushed == None <==> active.Some? || pending.Some?
    {
      if active.Some? || pending.Some? {
        return None;
      }
      flushed := Some(store !in failed);
    }
  }
}
