/** The save session itself: the counters and the queue that the steps of `SessionSteps`
    describe. */
module EvidenceSession {
  import opened Wrappers
  import opened SessionSteps

  class Session {
    var serial: nat
    var dirty: nat
    var committedDirty: nat
    var failed: Option<Captured>
    var blocked: bool
    var queue: seq<Job>
    var running: Option<Flight>
    var scheduled: nat
    var loads: set<Load>
    var deferred: set<Load>
    var reconciling: set<nat>
    var settled: nat
    var tickets: nat
    ghost var log: seq<Entry>

    ghost function Now(outside: Outside): State
      reads this
    {
      State(serial, dirty, committedDirty, failed, blocked, queue, running, scheduled, settled,
            loads, deferred, reconciling, tickets, outside, log)
    }

    constructor ()
      ensures Now(START.outside) == START
    {
      serial, dirty, committedDirty, failed, blocked := 0, 0, 0, None, false;
      queue, running, scheduled, settled, tickets := [], None, 0, 0, 0;
      loads, deferred, reconciling := {}, {}, {};
      log := [];
    }

    method Mark(o: Outside)
      modifies this
      ensures Now(o) == MarkDirty(old(Now(o)))
    {
      dirty := dirty + 1;
      serial := serial + 1;
      log := log + [Marked];
    }

    /** Clean means that nothing is pending and that the draft is the committed document. */
    method Clean(o: Outside) returns (clean: bool)
      ensures clean <==> IsClean(Now(o))
    {
      clean := !(scheduled > 0 || dirty != committedDirty || failed.Some? || blocked || o.busy
                 || (o.draft.Some? && o.committed.Some? && o.draft != o.committed));
    }

    method RequestSave(o: Outside)
      modifies this
      ensures Now(o) == Save(old(Now(o)))
    {
      var store := o.store;
      Mark(o);
      scheduled := scheduled + 1;
      queue := queue + [SaveJob(store)];
    }

    method RequestRetry(o: Outside) returns (accepted: bool)
      modifies this
      ensures Now(o) == Retry(old(Now(o)))
      ensures accepted <==> old(failed).Some? && !old(blocked)
    {
      var captured := failed;
      if captured.None? || blocked {
        return false;
      }
      serial := serial + 1;
      scheduled := scheduled + 1;
      queue := queue + [RetryJob(captured.value)];
      accepted := true;
    }

    method Finally()
      modifies this`running, this`scheduled, this`settled
      ensures running == None && settled == old(settled) + 1
      ensures scheduled == if old(scheduled) > 0 then old(scheduled) - 1 else 0
    {
      running := None;
      if scheduled > 0 {
        scheduled := scheduled - 1;
      }
      settled := settled + 1;
    }

    method RunNext(o: Outside, prepares: bool)
      modifies this
      ensures Now(o) == Turn(old(Now(o)), prepares)
    {
      if running.Some? || queue == [] {
        return;
      }
      var job := queue[0];
      queue := queue[1..];
      match job {
        case SaveJob(store) =>
          if store != o.store || blocked || failed.Some? || !prepares {
            Finally();
            return;
          }
          var captured := Captured(tickets, store, o.stamp, dirty);
          tickets := tickets + 1;
          running := Some(Sending(captured));
          log := log + [CapturedDocument(captured.ticket, captured.dirty), Sent(captured.ticket)];
        case RetryJob(captured) =>
          if failed != Some(captured) || captured.store != o.store {
            Finally();
            return;
          }
          running := Some(Sending(captured));
          log := log + [Sent(captured.ticket)];
      }
    }

    method Caught(o: Outside, captured: Captured)
      modifies this
      ensures Now(o) == Fail(old(Now(o)), captured)
    {
      failed := Some(captured);
      if o.reconcile {
        blocked := true;
      }
      log := log + [Failed(captured.ticket)];
      Finally();
    }

    method Answered(o: Outside, ok: bool, reconcileRequired: bool)
      modifies this
      ensures Now(o) == Answer(old(Now(o)), ok, reconcileRequired)
    {
      if running.None? || !running.value.Sending? {
        return;
      }
      var captured := running.value.captured;
      if !ok {
        Caught(o, captured);
        return;
      }
      log := log + [Acknowledged(captured.ticket)];
      if o.store != captured.store || o.stamp != captured.stamp {
        blocked := true;
        Caught(o, captured);
        return;
      }
      if reconcileRequired || o.reconcile {
        blocked := true;
        Caught(o, captured);
        return;
      }
      running := Some(Adopting(captured));
    }

    method ContextsAdopted(o: Outside, ok: bool)
      modifies this
      ensures Now(o) == Adopt(old(Now(o)), ok)
    {
      if running.None? || !running.value.Adopting? {
        return;
      }
      var captured := running.value.captured;
      if !ok {
        Caught(o, captured);
        return;
      }
      if o.store != captured.store {
        blocked := true;
        Caught(o, captured);
        return;
      }
      if captured.dirty > committedDirty {
        committedDirty := captured.dirty;
      }
      failed := None;
      log := log + [Done(captured.ticket)];
      Finally();
    }

    method RequestLoad(o: Outside) returns (load: Option<Load>)
      modifies this
      ensures Now(o) == LoadCall(old(Now(o)))
      ensures load.Some? ==> load.value in loads && load.value.request == serial
    {
      var clean := Clean(o);
      if !clean {
        return None;
      }
      serial := serial + 1;
      load := Some(Load(serial, o.store, o.draft));
      loads := loads + {load.value};
    }

    /** The rest of `load`; `next` is what an installed read makes of the outside. */
    method LoadAnswered(o: Outside, load: Load, ok: bool, install: Option<Outside>) returns (next: Outside)
      modifies this
      ensures Now(next) == Loaded(old(Now(o)), load, ok, install)
    {
      next := o;
      if load !in loads {
        return;
      }
      loads := loads - {load};
      if !ok {
        return;
      }
      if load.request != serial || o.store != load.before || o.busy || o.draft != load.fingerprint {
        blocked := true;
        return;
      }
      log := log + [LoadDone(load.request)];
      if install.Some? {
        next := install.value;
      } else {
        deferred := deferred + {load};
      }
    }

    method AssertCurrent(o: Outside, load: Load) returns (current: bool)
      modifies this
      ensures Now(o) == AssertLoadCurrent(old(Now(o)), load)
      ensures !current ==> blocked
    {
      current := load in deferred && load.request == serial
                 && o.store == load.before && !o.busy && o.draft == load.fingerprint;
      if !current {
        blocked := true;
      }
    }

    method RequestReconcile(o: Outside)
      modifies this
      ensures Now(o) == Reconcile(old(Now(o)))
    {
      reconciling := reconciling + {settled + scheduled};
    }

    method ReconcileAnswered(o: Outside, wait: nat, ok: bool)
      modifies this
      ensures Now(o) == Reconciled(old(Now(o)), wait, ok)
    {
      if wait !in reconciling || settled < wait {
        return;
      }
      reconciling := reconciling - {wait};
      if ok {
        blocked := true;
      }
    }
  }
}
