/** What every run of the Case writer keeps. */
module CaseWriterLaws {
  import opened Wrappers
  import opened CaseWriterSteps

  /** The live store after these entries. */
  function Live(log: seq<Entry>): nat {
    if log == [] then START.store
    else
      var last := log[|log| - 1];
      if last.Replaced? then last.store else Live(log[..|log| - 1])
  }

  /** The write of `batch` took its snapshot at `j`: of the live store, after every call of the batch. */
  predicate SnapshotAt(log: seq<Entry>, batch: nat, store: nat, expected: Option<int>, j: int) {
    && 0 <= j < |log| && log[j] == Snapshot(batch, store, expected) && Live(log[..j]) == store
    && forall i :: 0 <= i < |log| && log[i].Called? && log[i].batch == batch ==> i < j && log[i].store == store
  }

  /** At `a` the write was acknowledged with a revision that confirms it, its store still live. */
  predicate AckedAt(log: seq<Entry>, batch: nat, store: nat, expected: Option<int>, a: int) {
    && 0 <= a < |log| && log[a].Acked? && log[a].batch == batch && log[a].store == store
    && Confirms(Some(log[a].revision), expected) && Live(log[..a]) == store
  }

  /** The batch settled at `k` with "saved" deserves it. */
  predicate HonouredBy(log: seq<Entry>, k: int, j: int, a: int) {
    && 0 <= j < a < k < |log| && log[k].Settled? && log[j].Snapshot?
    && var Snapshot(batch, store, expected) := log[j];
       && batch == log[k].batch && SnapshotAt(log, batch, store, expected, j) && AckedAt(log, batch, store, expected, a)
       && Live(log[..k]) == store
  }

  ghost predicate Honoured(log: seq<Entry>, k: int) {
    exists j, a :: HonouredBy(log, k, j, a)
  }

  predicate Fresh(log: seq<Entry>, id: nat) {
    forall i :: 0 <= i < |log| && (log[i].Snapshot? || log[i].Settled?) ==> log[i].batch != id
  }

  predicate Unsettled(log: seq<Entry>, id: nat) {
    forall i :: 0 <= i < |log| && log[i].Settled? ==> log[i].batch != id
  }

  predicate SettledOnce(log: seq<Entry>) {
    forall i, k :: 0 <= i < k < |log| && log[i].Settled? && log[k].Settled? ==> log[i].batch != log[k].batch
  }

  ghost predicate Settles(log: seq<Entry>, id: nat) {
    exists i :: 0 <= i < |log| && log[i].Settled? && log[i].batch == id
  }

  predicate CalledFor(log: seq<Entry>, id: nat, store: nat) {
    forall i :: 0 <= i < |log| && log[i].Called? && log[i].batch == id ==> log[i].store == store
  }

  /** Every batch is waiting, being written or settled, and only one of these. */
  ghost predicate Batches(s: State) {
    && SettledOnce(s.log)
    && (forall i :: 0 <= i < |s.log| && !s.log[i].Replaced? ==> s.log[i].batch < s.next)
    && (s.pending.Some? ==> s.pending.value.id < s.next && Fresh(s.log, s.pending.value.id)
                            && CalledFor(s.log, s.pending.value.id, s.pending.value.store))
    && (s.active.Some? ==> s.active.value.id < s.next && Unsettled(s.log, s.active.value.id))
    && (s.active.Some? && s.pending.Some? ==> s.active.value.id != s.pending.value.id)
    && (forall id: nat :: id < s.next ==>
          || (s.pending.Some? && s.pending.value.id == id) || (s.active.Some? && s.active.value.id == id)
          || Settles(s.log, id))
  }

  /** Every batch that was told "saved" was, and the write under way is on its way to it. */
  ghost predicate Truthful(s: State) {
    && s.store == Live(s.log)
    && (forall k :: 0 <= k < |s.log| && s.log[k].Settled? && s.log[k].saved ==> Honoured(s.log, k))
    && (s.active.Some? ==>
          var Flight(id, store, expected, contexts) := s.active.value;
          && SnapshotAt(s.log, id, store, expected, s.snapshotAt)
          && (contexts.Some? ==> s.snapshotAt < s.ackedAt && AckedAt(s.log, id, store, expected, s.ackedAt)))
  }

  // ---- appending to the log

  lemma LiveNext(log: seq<Entry>, e: Entry)
    ensures Live(log + [e]) == if e.Replaced? then e.store else Live(log)
    ensures forall i :: 0 <= i <= |log| ==> (log + [e])[..i] == log[..i]
    ensures log[..|log|] == log
  {
    assert (log + [e])[..|log|] == log;
  }

  lemma SnapshotStill(log: seq<Entry>, e: Entry, batch: nat, store: nat, expected: Option<int>, j: int)
    requires SnapshotAt(log, batch, store, expected, j) && !(e.Called? && e.batch == batch)
    ensures SnapshotAt(log + [e], batch, store, expected, j)
  {
    LiveNext(log, e);
  }

  lemma HonouredStill(log: seq<Entry>, e: Entry, k: int)
    requires Honoured(log, k) && 0 <= k < |log| && log[k].Settled?
    requires !(e.Called? && e.batch == log[k].batch)
    ensures Honoured(log + [e], k)
  {
    var j, a :| HonouredBy(log, k, j, a);
    var Snapshot(batch, store, expected) := log[j];
    LiveNext(log, e);
    SnapshotStill(log, e, batch, store, expected, j);
    assert HonouredBy(log + [e], k, j, a);
  }

  /** One more entry keeps everything told before true, unless it is a late call. */
  lemma TruthfulNext(s: State, e: Entry)
    requires Truthful(s) && Batches(s) && !(e.Settled? && e.saved)
    requires e.Called? ==> !Settles(s.log, e.batch) && (s.active.Some? ==> s.active.value.id != e.batch)
    ensures Truthful(s.(log := s.log + [e], store := if e.Replaced? then e.store else s.store))
  {
    LiveNext(s.log, e);
    forall k | 0 <= k < |s.log| && s.log[k].Settled? && s.log[k].saved ensures Honoured(s.log + [e], k) {
      HonouredStill(s.log, e, k);
    }
    if s.active.Some? {
      SnapshotStill(s.log, e, s.active.value.id, s.active.value.store, s.active.value.expected, s.snapshotAt);
    }
  }

  lemma SettlesStill(log: seq<Entry>, e: Entry)
    ensures forall id: nat :: Settles(log, id) ==> Settles(log + [e], id)
    ensures e.Settled? ==> Settles(log + [e], e.batch)
  {
    forall id: nat | Settles(log, id) ensures Settles(log + [e], id) {
      var i :| 0 <= i < |log| && log[i].Settled? && log[i].batch == id;
      assert (log + [e])[i].Settled? && (log + [e])[i].batch == id;
    }
    assert (log + [e])[|log|] == e;
  }

  lemma ConcludeTruthful(s: State, saved: bool)
    requires Truthful(s) && Batches(s) && s.active.Some?
    requires saved ==> s.active.value.contexts.Some? && s.store == s.active.value.store
    ensures Truthful(Conclude(s, saved))
  {
    var e := Settled(s.active.value.id, saved);
    TruthfulNext(s, Settled(s.active.value.id, false));
    LiveNext(s.log, e);
    forall k | 0 <= k < |s.log| && s.log[k].Settled? && s.log[k].saved ensures Honoured(s.log + [e], k) {
      HonouredStill(s.log, e, k);
    }
    if saved {
      SnapshotStill(s.log, e, s.active.value.id, s.active.value.store, s.active.value.expected, s.snapshotAt);
      assert HonouredBy(s.log + [e], |s.log|, s.snapshotAt, s.ackedAt);
    }
  }

  lemma ConcludeBatches(s: State, saved: bool)
    requires Batches(s) && s.active.Some?
    ensures Batches(Conclude(s, saved))
  {
    var e := Settled(s.active.value.id, saved);
    var log := s.log + [e];
    assert log[|s.log|] == e;
    SettlesStill(s.log, e);
    assert Settles(log, s.active.value.id);
  }

  lemma DrainBatches(s: State)
    requires Batches(s)
    ensures Batches(Drain(s))
  {
    var s' := Drain(s);
    if s' != s {
      var e := s'.log[|s.log|];
      assert s'.log == s.log + [e];
      SettlesStill(s.log, e);
      assert e.Settled? ==> Settles(s'.log, e.batch);
    }
  }

  lemma DrainTruthful(s: State)
    requires Truthful(s) && Batches(s)
    ensures Truthful(Drain(s))
  {
    var s' := Drain(s);
    if s' != s {
      TruthfulNext(s, s'.log[|s.log|]);
      LiveNext(s.log, s'.log[|s.log|]);
    }
  }

  lemma DropKeeps(s: State)
    requires Truthful(s) && Batches(s)
    ensures Truthful(DropForeign(s)) && Batches(DropForeign(s))
  {
    var s' := DropForeign(s);
    if s' != s {
      var e := s'.log[|s.log|];
      TruthfulNext(s, e);
      assert s'.log == s.log + [e];
      SettlesStill(s.log, e);
      assert Settles(s'.log, e.batch);
    }
  }

  lemma EnlistTruthful(s: State)
    requires Truthful(s) && Batches(s)
    ensures Truthful(Enlist(s))
  {
    var e := Called(if s.pending.Some? then s.pending.value.id else s.next, s.store);
    assert Enlist(s).log == s.log + [e];
    TruthfulNext(s, e);
  }

  lemma EnlistBatches(s: State)
    requires Batches(s) && (s.pending.Some? ==> s.pending.value.store == s.store)
    ensures Batches(Enlist(s))
  {
    var e := Called(if s.pending.Some? then s.pending.value.id else s.next, s.store);
    assert Enlist(s).log == s.log + [e];
    SettlesStill(s.log, e);
  }

  lemma AcknowledgeKeeps(s: State, revision: int, contexts: nat)
    requires Truthful(s) && Batches(s) && s.active.Some? && s.active.value.contexts.None?
             && s.store == s.active.value.store
    requires Confirms(Some(revision), s.active.value.expected)
    ensures Truthful(Acknowledge(s, revision, contexts)) && Batches(Acknowledge(s, revision, contexts))
  {
    var s' := Acknowledge(s, revision, contexts);
    var e := s'.log[|s.log|];
    TruthfulNext(s, e);
    LiveNext(s.log, e);
    SettlesStill(s.log, e);
  }

  lemma ReplaceKeeps(s: State, store: nat, revision: Option<int>)
    requires Truthful(s) && Batches(s)
    ensures Truthful(Replace(s, store, revision)) && Batches(Replace(s, store, revision))
  {
    TruthfulNext(s, Replaced(store));
    SettlesStill(s.log, Replaced(store));
  }

  // ---- what a caller whose store stays live is owed

  /** A snapshot of `store` taken after `i` was settled as saved. */
  predicate LandedAt(log: seq<Entry>, store: nat, i: int, j: int, k: int) {
    && i < j < k < |log| && 0 <= j && log[j].Snapshot? && log[j].store == store
    && log[k] == Settled(log[j].batch, true)
  }

  ghost predicate Landed(log: seq<Entry>, store: nat, i: int) {
    exists j, k :: LandedAt(log, store, i, j, k)
  }

  /** Has the live store been the same since the call at `i`? */
  predicate StillLive(log: seq<Entry>, i: int) {
    0 <= i < |log| && log[i].Called? && forall k :: i < k < |log| ==> !log[k].Replaced?
  }

  /** A write of the caller's store is to come, or under way since the call, or marked as
      failed since the call, or done since the call. */
  ghost predicate Owed(s: State, i: int)
    requires 0 <= i < |s.log| && s.log[i].Called?
  {
    var store := s.log[i].store;
    && s.store == store
    && (|| (s.pending.Some? && s.pending.value.store == store)
        || (s.active.Some? && s.active.value.store == store && s.snapshotAt > i)
        || (store in s.failed && (s.active.Some? && s.active.value.store == store ==> s.snapshotAt > i))
        || Landed(s.log, store, i))
  }

  ghost predicate AllOwed(s: State) {
    forall i :: StillLive(s.log, i) ==> Owed(s, i)
  }

  lemma LandedStill(log: seq<Entry>, e: Entry, store: nat, i: int)
    requires Landed(log, store, i)
    ensures Landed(log + [e], store, i)
  {
    var j, k :| LandedAt(log, store, i, j, k);
    assert LandedAt(log + [e], store, i, j, k);
  }

  lemma StillLiveBefore(log: seq<Entry>, e: Entry)
    ensures forall i :: StillLive(log + [e], i) && i < |log| ==> StillLive(log, i) && !e.Replaced?
  {
    forall i | StillLive(log + [e], i) && i < |log| ensures StillLive(log, i) && !e.Replaced? {
      assert (log + [e])[|log|] == e;
      forall k | i < k < |log| ensures !log[k].Replaced? {
        assert (log + [e])[k] == log[k];
      }
    }
  }

  /** What was owed before an entry is owed after it, if the rest of the state allows it. */
  lemma OwedNext(s: State, s': State, e: Entry)
    requires AllOwed(s) && s'.log == s.log + [e] && !e.Called?
    requires e.Replaced? || s'.store == s.store
    requires forall i :: StillLive(s.log, i) && !e.Replaced? && !Landed(s.log, s.log[i].store, i) ==> Owed(s', i)
    ensures AllOwed(s')
  {
    StillLiveBefore(s.log, e);
    forall i | StillLive(s'.log, i) ensures Owed(s', i) {
      assert StillLive(s.log, i) && Owed(s, i);
      if Landed(s.log, s.log[i].store, i) {
        LandedStill(s.log, e, s.log[i].store, i);
      }
    }
  }

  lemma DrainOwed(s: State)
    requires AllOwed(s)
    ensures AllOwed(Drain(s))
  {
    var s' := Drain(s);
    if s' != s {
      var e := s'.log[|s.log|];
      forall i | StillLive(s.log, i) && !e.Replaced? && !Landed(s.log, s.log[i].store, i) ensures Owed(s', i) {
        assert Owed(s, i);
      }
      OwedNext(s, s', e);
    }
  }

  lemma DropOwed(s: State)
    requires AllOwed(s)
    ensures AllOwed(DropForeign(s))
  {
    var s' := DropForeign(s);
    if s' != s {
      var e := s'.log[|s.log|];
      forall i | StillLive(s.log, i) && !e.Replaced? && !Landed(s.log, s.log[i].store, i) ensures Owed(s', i) {
        assert Owed(s, i);
      }
      OwedNext(s, s', e);
    }
  }

  lemma EnlistOwed(s: State)
    requires AllOwed(s) && (s.pending.Some? ==> s.pending.value.store == s.store)
    ensures AllOwed(Enlist(s))
  {
    var s' := Enlist(s);
    StillLiveBefore(s.log, s'.log[|s.log|]);
    forall i | StillLive(s'.log, i) ensures Owed(s', i) {
      if i < |s.log| {
        assert StillLive(s.log, i) && Owed(s, i);
      }
    }
  }

  lemma AcknowledgeOwed(s: State, revision: int, contexts: nat)
    requires AllOwed(s) && s.active.Some?
    ensures AllOwed(Acknowledge(s, revision, contexts))
  {
    var s' := Acknowledge(s, revision, contexts);
    var e := s'.log[|s.log|];
    forall i | StillLive(s.log, i) && !e.Replaced? && !Landed(s.log, s.log[i].store, i) ensures Owed(s', i) {
      assert Owed(s, i);
    }
    OwedNext(s, s', e);
  }

  lemma ConcludeOwed(s: State, saved: bool)
    requires AllOwed(s) && Truthful(s) && s.active.Some?
    ensures AllOwed(Conclude(s, saved))
  {
    var s' := Conclude(s, saved);
    var e := Settled(s.active.value.id, saved);
    forall i | StillLive(s.log, i) && !e.Replaced? && !Landed(s.log, s.log[i].store, i) ensures Owed(s', i) {
      assert Owed(s, i);
      if saved && s.active.value.store == s.log[i].store && s.snapshotAt > i {
        assert LandedAt(s'.log, s.log[i].store, i, s.snapshotAt, |s.log|);
      }
    }
    OwedNext(s, s', e);
  }

  // ---- every step, every run

  ghost predicate Reachable(s: State) {
    Truthful(s) && Batches(s) && AllOwed(s)
  }

  lemma SaveCasesKeeps(s: State)
    requires Reachable(s)
    ensures Reachable(SaveCases(s))
  {
    DropKeeps(s);
    DropOwed(s);
    EnlistTruthful(DropForeign(s));
    EnlistBatches(DropForeign(s));
    EnlistOwed(DropForeign(s));
  }

  lemma DrainKeeps(s: State)
    requires Reachable(s)
    ensures Reachable(Drain(s))
  {
    DrainBatches(s);
    DrainTruthful(s);
    DrainOwed(s);
  }

  /** Arming or clearing the debounce changes nothing that is promised. */
  lemma ReadyKeeps(s: State, s': State)
    requires Reachable(s)
    requires s' == s.(timer := s'.timer, pending := s'.pending)
    requires s'.pending.Some? == s.pending.Some?
    requires s.pending.Some? ==>
               s'.pending.value.id == s.pending.value.id && s'.pending.value.store == s.pending.value.store
    ensures Reachable(s')
  {
    forall i | StillLive(s'.log, i) ensures Owed(s', i) {
      assert StillLive(s.log, i) && Owed(s, i);
    }
  }

  lemma ConcludeKeeps(s: State, saved: bool)
    requires Reachable(s) && s.active.Some?
    requires saved ==> s.active.value.contexts.Some? && s.store == s.active.value.store
    ensures Reachable(Drain(Conclude(s, saved)))
  {
    ConcludeTruthful(s, saved);
    ConcludeBatches(s, saved);
    ConcludeOwed(s, saved);
    DrainKeeps(Conclude(s, saved));
  }

  lemma ReplyKeeps(s: State, ok: bool, revision: Option<int>, contexts: nat)
    requires Reachable(s)
    ensures Reachable(Reply(s, ok, revision, contexts))
  {
    if s.active.Some? && s.active.value.contexts.None? {
      if !ok || s.store != s.active.value.store || !Confirms(revision, s.active.value.expected) {
        ConcludeKeeps(s, false);
      } else {
        AcknowledgeKeeps(s, revision.value, contexts);
        AcknowledgeOwed(s, revision.value, contexts);
        if contexts == 0 {
          ConcludeKeeps(Acknowledge(s, revision.value, contexts), true);
        }
      }
    }
  }

  lemma ContextsLeft(s: State, contexts: nat)
    requires Reachable(s) && s.active.Some? && s.active.value.contexts.Some?
    ensures Reachable(s.(active := Some(s.active.value.(contexts := Some(contexts)))))
  {
    var s' := s.(active := Some(s.active.value.(contexts := Some(contexts))));
    forall i | StillLive(s'.log, i) ensures Owed(s', i) {
      assert StillLive(s.log, i) && Owed(s, i);
    }
  }

  lemma ContextKeeps(s: State, ok: bool)
    requires Reachable(s)
    ensures Reachable(ContextAdopted(s, ok))
  {
    if s.active.Some? && s.active.value.contexts.Some? {
      if !ok || s.store != s.active.value.store {
        ConcludeKeeps(s, false);
      } else if s.active.value.contexts.value <= 1 {
        ConcludeKeeps(s, true);
      } else {
        ContextsLeft(s, s.active.value.contexts.value - 1);
      }
    }
  }

  lemma StepKeeps(s: State, e: Event)
    requires Reachable(s)
    ensures Reachable(Step(s, e))
  {
    match e
    case OnSave => SaveCasesKeeps(s);
    case OnTimer =>
      if s.timer.Some? {
        if s.pending.None? || s.pending.value.id != s.timer.value {
          ReadyKeeps(s, TimerFires(s));
        } else {
          var ready := s.(timer := None, pending := Some(s.pending.value.(ready := true)));
          ReadyKeeps(s, ready);
          DrainKeeps(ready);
        }
      }
    case OnReply(ok, revision, contexts) => ReplyKeeps(s, ok, revision, contexts);
    case OnContext(ok) => ContextKeeps(s, ok);
    case OnReplace(store, revision) =>
      ReplaceKeeps(s, store, revision);
      OwedNext(s, Replace(s, store, revision), Replaced(store));
    case OnFlushStart => SaveCasesKeeps(s);
    case OnFlushPass =>
      if s.pending.Some? {
        var ready := s.(timer := None, pending := Some(s.pending.value.(ready := true)));
        ReadyKeeps(s, ready);
        DrainKeeps(ready);
      }
  }

  lemma {:induction false} RunKeeps(s: State, events: seq<Event>)
    requires Reachable(s)
    ensures Reachable(Run(s, events))
    decreases |events|
  {
    if events != [] {
      StepKeeps(s, events[0]);
      RunKeeps(Step(s, events[0]), events[1..]);
    }
  }

  // ---- the theorems

  /** A call that is told "saved": a snapshot of the store it was made for, taken after the
      call, was acknowledged with a revision above the one it was based on, and that store was
      the live one at the snapshot, at the answer and when the call was told. */
  lemma SavedMeansSaved(events: seq<Event>, i: nat, k: nat)
    requires var log := Run(START, events).log;
             && i < |log| && k < |log| && log[i].Called?
             && log[k] == Settled(log[i].batch, true)
    ensures var log := Run(START, events).log;
            exists j, a ::
              && i < j < a < k && log[j].Snapshot? && log[j].batch == log[i].batch && log[j].store == log[i].store
              && log[a].Acked? && log[a].batch == log[i].batch && Confirms(Some(log[a].revision), log[j].expected)
              && Live(log[..j]) == log[i].store && Live(log[..a]) == log[i].store && Live(log[..k]) == log[i].store
  {
    RunKeeps(START, events);
    var log := Run(START, events).log;
    var j, a :| HonouredBy(log, k, j, a);
    assert log[j].batch == log[i].batch;
  }

  /** Every batch settles once at most, and has settled unless it is waiting or being written;
      so a quiet writer has answered every call. */
  lemma EveryCallSettlesOnce(events: seq<Event>, i: nat)
    requires i < |Run(START, events).log| && Run(START, events).log[i].Called?
    ensures var s := Run(START, events);
            && SettledOnce(s.log)
            && (Settles(s.log, s.log[i].batch)
                || (s.pending.Some? && s.pending.value.id == s.log[i].batch)
                || (s.active.Some? && s.active.value.id == s.log[i].batch))
            && (Quiet(s) ==> Settles(s.log, s.log[i].batch))
  {
    RunKeeps(START, events);
  }

  /** A save of the store called for at `i`, with its snapshot after the call, and honestly told. */
  ghost predicate SavedSince(log: seq<Entry>, i: int)
    requires 0 <= i < |log| && log[i].Called?
  {
    exists j, k :: LandedAt(log, log[i].store, i, j, k) && Honoured(log, k)
  }

  /** When a flush reports success, every call made since the live store became live has been
      followed by a snapshot of that store that was saved, whatever its own batch was told. */
  lemma FlushedIsDurable(events: seq<Event>, i: nat)
    requires Quiet(Run(START, events)) && StillLive(Run(START, events).log, i)
    ensures SavedSince(Run(START, events).log, i)
  {
    RunKeeps(START, events);
    var s := Run(START, events);
    var log := s.log;
    assert Owed(s, i);
    var store := log[i].store;
    assert Landed(log, store, i);
    var j, k :| LandedAt(log, store, i, j, k);
    assert log[k].Settled? && log[k].saved;
    assert Honoured(log, k);
    assert LandedAt(log, log[i].store, i, j, k) && Honoured(log, k);
  }
}
