/** The writer of the Case store as a state machine: at most one write runs, at most one batch
    of callers waits for the next, and a debounce decides when the batch may start. */
module CaseWriterSteps {
  import opened Wrappers

  /** A batch of callers; `store` is the identity of the store they want saved. */
  datatype Batch = Batch(id: nat, store: nat, ready: bool)

  /** The write under way: its answer is awaited (`contexts` is `None`), or so many contexts
      of the answer are still to be adopted. */
  datatype Flight = Flight(id: nat, store: nat, expected: Option<int>, contexts: Option<nat>)

  datatype Entry =
    | Replaced(store: nat)
    | Called(batch: nat, store: nat)
    | Snapshot(batch: nat, store: nat, expected: Option<int>)
    | Acked(batch: nat, store: nat, revision: int)
    | Settled(batch: nat, saved: bool)

  /** `store` is the live store; `snapshotAt` and `ackedAt` are the places in the log where
      the write under way took its snapshot and was acknowledged. */
  datatype State = State(
    store: nat, revisions: map<nat, int>, failed: set<nat>,
    active: Option<Flight>, pending: Option<Batch>, timer: Option<nat>, next: nat,
    snapshotAt: nat, ackedAt: nat, log: seq<Entry>)

  const START := State(0, map[], {}, None, None, None, 0, 0, 0, [])

  /** Nothing is being saved, waits to be saved or has failed to be. */
  predicate Quiet(s: State) {
    s.active.None? && s.pending.None? && s.store !in s.failed
  }

  // ---- the parts of the steps

  /** The write under way ends; its callers learn whether it was saved. */
  function Conclude(s: State, saved: bool): State
    requires s.active.Some?
  {
    var store := s.active.value.store;
    s.(active := None, log := s.log + [Settled(s.active.value.id, saved)],
       failed := if saved then s.failed - {store} else if s.store == store then s.failed + {store} else s.failed)
  }

  /** Starts the waiting batch if it may start. */
  function Drain(s: State): State {
    if s.active.Some? || s.pending.None? || !s.pending.value.ready then s
    else
      var batch := s.pending.value;
      if s.store != batch.store then s.(pending := None, log := s.log + [Settled(batch.id, false)])
      else
        var expected := if batch.store in s.revisions then Some(s.revisions[batch.store]) else None;
        s.(pending := None, active := Some(Flight(batch.id, batch.store, expected, None)),
           snapshotAt := |s.log|, log := s.log + [Snapshot(batch.id, batch.store, expected)])
  }

  /** A waiting batch for another store is told that its store is gone. */
  function DropForeign(s: State): State {
    if s.pending.Some? && s.pending.value.store != s.store
    then s.(pending := None, log := s.log + [Settled(s.pending.value.id, false)])
    else s
  }

  function Enlist(s: State): State {
    var batch := if s.pending.Some? then s.pending.value else Batch(s.next, s.store, false);
    s.(pending := Some(batch.(ready := false)), timer := Some(batch.id), log := s.log + [Called(batch.id, s.store)],
       next := if s.pending.Some? then s.next else s.next + 1)
  }

  predicate Confirms(revision: Option<int>, expected: Option<int>) {
    revision.Some? && revision.value >= 1 && (expected.Some? ==> revision.value > expected.value)
  }

  function Acknowledge(s: State, revision: int, contexts: nat): State
    requires s.active.Some?
  {
    var flight := s.active.value;
    s.(active := Some(flight.(contexts := Some(contexts))), revisions := s.revisions[flight.store := revision],
       ackedAt := |s.log|, log := s.log + [Acked(flight.id, flight.store, revision)])
  }

  // ---- the steps

  function SaveCases(s: State): State {
    Enlist(DropForeign(s))
  }

  function TimerFires(s: State): State {
    if s.timer.None? then s
    else if s.pending.None? || s.pending.value.id != s.timer.value then s.(timer := None)
    else Drain(s.(timer := None, pending := Some(s.pending.value.(ready := true))))
  }

  /** The native answer: `revision` is absent when it is no safe integer, the whole answer
      when the call failed. */
  function Reply(s: State, ok: bool, revision: Option<int>, contexts: nat): State {
    if s.active.None? || s.active.value.contexts.Some? then s
    else if !ok || s.store != s.active.value.store || !Confirms(revision, s.active.value.expected) then
      Drain(Conclude(s, false))
    else
      var acked := Acknowledge(s, revision.value, contexts);
      if contexts == 0 then Drain(Conclude(acked, true)) else acked
  }

  /** One context of the answer has been adopted, or its adoption threw. */
  function ContextAdopted(s: State, ok: bool): State {
    if s.active.None? || s.active.value.contexts.None? then s
    else
      var left := s.active.value.contexts.value;
      if !ok || s.store != s.active.value.store then Drain(Conclude(s, false))
      else if left <= 1 then Drain(Conclude(s, true))
      else s.(active := Some(s.active.value.(contexts := Some(left - 1))))
  }

  /** Another store becomes the live one, with the revision it was read at. */
  function Replace(s: State, store: nat, revision: Option<int>): State {
    s.(store := store, revisions := if revision.Some? then s.revisions[store := revision.value] else s.revisions,
       log := s.log + [Replaced(store)])
  }

  /** The start of a flush: a store that has failed is saved again. */
  function FlushStart(s: State): State {
    if s.active.None? && s.pending.None? && s.store in s.failed then SaveCases(s) else s
  }

  /** One pass of a flush: a waiting batch need not wait for the debounce. */
  function FlushPass(s: State): State {
    if s.pending.None? then s
    else Drain(s.(timer := None, pending := Some(s.pending.value.(ready := true))))
  }

  datatype Event =
    | OnSave
    | OnTimer
    | OnReply(ok: bool, revision: Option<int>, contexts: nat)
    | OnContext(adopted: bool)
    | OnReplace(store: nat, readAt: Option<int>)
    | OnFlushStart
    | OnFlushPass

  function Step(s: State, e: Event): State {
    match e
    case OnSave => SaveCases(s)
    case OnTimer => TimerFires(s)
    case OnReply(ok, revision, contexts) => Reply(s, ok, revision, contexts)
    case OnContext(ok) => ContextAdopted(s, ok)
    case OnReplace(store, revision) => Replace(s, store, revision)
    case OnFlushStart => FlushStart(s)
    case OnFlushPass => FlushPass(s)
  }

  function Run(s: State, events: seq<Event>): State
    decreases |events|
  {
    if events == [] then s else Run(Step(s, events[0]), events[1..])
  }
}
