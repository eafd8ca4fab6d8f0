/** The save session as a state machine. Saves and retries run one after the other through a
    queue of promises; reads run beside them. What the session only looks at (the live store,
    its draft, open editors, the client) is `Outside` and may change between any two steps. */
module SessionSteps {
  import opened Wrappers
  import opened JsonValues

  /** `store` is the identity of the live store object, `stamp` that of its store and epoch;
      `draft` and `committed` are the keys of the draft and of the client's document. */
  datatype Outside = Outside(store: nat, stamp: nat, draft: Option<Text>, busy: bool,
                             committed: Option<Text>, reconcile: bool)

  datatype Captured = Captured(ticket: nat, store: nat, stamp: nat, dirty: nat)

  datatype Job = SaveJob(store: nat) | RetryJob(captured: Captured)

  /** A save whose answer is awaited, or whose answer is being adopted. */
  datatype Flight = Sending(captured: Captured) | Adopting(captured: Captured)

  datatype Load = Load(request: nat, before: nat, fingerprint: Option<Text>)

  /** What has happened, in order. */
  datatype Entry =
    | Marked
    | CapturedDocument(ticket: nat, dirty: nat)
    | Sent(ticket: nat)
    | Failed(ticket: nat)
    | Acknowledged(ticket: nat)
    | Done(ticket: nat)
    | LoadDone(request: nat)

  datatype State = State(
    serial: nat, dirty: nat, committedDirty: nat, failed: Option<Captured>, blocked: bool,
    queue: seq<Job>, running: Option<Flight>, scheduled: nat, settled: nat,
    loads: set<Load>, deferred: set<Load>, reconciling: set<nat>, tickets: nat,
    outside: Outside, log: seq<Entry>)

  const START := State(0, 0, 0, None, false, [], None, 0, 0, {}, {}, {}, 0, Outside(0, 0, None, false, None, false), [])

  predicate Drafted(o: Outside) {
    o.draft.Some? && o.committed.Some? && o.draft != o.committed
  }

  predicate Pending(s: State) {
    s.scheduled > 0 || s.dirty != s.committedDirty || s.failed.Some? || s.blocked || s.outside.busy
    || Drafted(s.outside)
  }

  predicate IsClean(s: State) {
    !Pending(s)
  }

  predicate Stale(s: State, load: Load) {
    load.request != s.serial || s.outside.store != load.before || s.outside.busy || s.outside.draft != load.fingerprint
  }

  // ---- the steps

  function MarkDirty(s: State): State {
    s.(dirty := s.dirty + 1, serial := s.serial + 1, log := s.log + [Marked])
  }

  function Save(s: State): State {
    var s1 := MarkDirty(s);
    s1.(scheduled := s.scheduled + 1, queue := s.queue + [SaveJob(s.outside.store)])
  }

  function Retry(s: State): State {
    if s.failed.None? || s.blocked then s
    else s.(serial := s.serial + 1, scheduled := s.scheduled + 1, queue := s.queue + [RetryJob(s.failed.value)])
  }

  /** The head of the queue has settled. */
  function Settle(s: State): State {
    s.(running := None, scheduled := if s.scheduled > 0 then s.scheduled - 1 else 0, settled := s.settled + 1)
  }

  /** The next job starts; `prepares` says whether the client accepts the document. */
  function Turn(s: State, prepares: bool): State {
    if s.running.Some? || s.queue == [] then s
    else
      var s1 := s.(queue := s.queue[1..]);
      match s.queue[0]
      case SaveJob(store) =>
        if store != s.outside.store || s.blocked || s.failed.Some? || !prepares then Settle(s1)
        else
          var captured := Captured(s.tickets, store, s.outside.stamp, s.dirty);
          s1.(tickets := s.tickets + 1, running := Some(Sending(captured)),
              log := s.log + [CapturedDocument(captured.ticket, captured.dirty), Sent(captured.ticket)])
      case RetryJob(captured) =>
        if s.failed != Some(captured) || captured.store != s.outside.store then Settle(s1)
        else s1.(running := Some(Sending(captured)), log := s.log + [Sent(captured.ticket)])
  }

  function Fail(s: State, captured: Captured): State {
    Settle(s).(failed := Some(captured), blocked := s.blocked || s.outside.reconcile,
               log := s.log + [Failed(captured.ticket)])
  }

  /** The client's save returns (`ok`) or throws. */
  function Answer(s: State, ok: bool, reconcileRequired: bool): State {
    if s.running.None? || !s.running.value.Sending? then s
    else
      var captured := s.running.value.captured;
      if !ok then Fail(s, captured)
      else
        var s1 := s.(log := s.log + [Acknowledged(captured.ticket)]);
        if s.outside.store != captured.store || s.outside.stamp != captured.stamp
           || reconcileRequired || s.outside.reconcile then Fail(s1.(blocked := true), captured)
        else s1.(running := Some(Adopting(captured)))
  }

  /** The adoption of the contexts returns or throws. */
  function Adopt(s: State, ok: bool): State {
    if s.running.None? || !s.running.value.Adopting? then s
    else
      var captured := s.running.value.captured;
      if !ok then Fail(s, captured)
      else if s.outside.store != captured.store then Fail(s.(blocked := true), captured)
      else
        Settle(s).(committedDirty := if captured.dirty > s.committedDirty then captured.dirty else s.committedDirty,
                   failed := None, log := s.log + [Done(captured.ticket)])
  }

  function LoadCall(s: State): State {
    if Pending(s) then s
    else s.(serial := s.serial + 1, loads := s.loads + {Load(s.serial + 1, s.outside.store, s.outside.draft)})
  }

  /** The client's read returns (`ok`) or throws; an installed read replaces the live store. */
  function Loaded(s: State, load: Load, ok: bool, install: Option<Outside>): State {
    if load !in s.loads then s
    else
      var s1 := s.(loads := s.loads - {load});
      if !ok then s1
      else if Stale(s, load) then s1.(blocked := true)
      else
        var s2 := s1.(log := s.log + [LoadDone(load.request)]);
        if install.Some? then s2.(outside := install.value) else s2.(deferred := s.deferred + {load})
  }

  function AssertLoadCurrent(s: State, load: Load): State {
    if load !in s.deferred || Stale(s, load) then s.(blocked := true) else s
  }

  /** `reconcile` waits for the jobs queued so far, then reads. */
  function Reconcile(s: State): State {
    s.(reconciling := s.reconciling + {s.settled + s.scheduled})
  }

  function Reconciled(s: State, wait: nat, ok: bool): State {
    if wait !in s.reconciling || s.settled < wait then s
    else s.(reconciling := s.reconciling - {wait}, blocked := s.blocked || ok)
  }

  // ---- runs

  datatype Event =
    | OnMark
    | OnSave
    | OnRetry
    | OnTurn(prepares: bool)
    | OnAnswer(ok: bool, reconcileRequired: bool)
    | OnAdopt(ok: bool)
    | OnLoad
    | OnLoaded(load: Load, ok: bool, install: Option<Outside>)
    | OnAssert(load: Load)
    | OnReconcile
    | OnReconciled(wait: nat, ok: bool)
    | OnOutside(outside: Outside)

  function Step(s: State, e: Event): State {
    match e
    case OnMark => MarkDirty(s)
    case OnSave => Save(s)
    case OnRetry => Retry(s)
    case OnTurn(prepares) => Turn(s, prepares)
    case OnAnswer(ok, reconcileRequired) => Answer(s, ok, reconcileRequired)
    case OnAdopt(ok) => Adopt(s, ok)
    case OnLoad => LoadCall(s)
    case OnLoaded(load, ok, install) => Loaded(s, load, ok, install)
    case OnAssert(load) => AssertLoadCurrent(s, load)
    case OnReconcile => Reconcile(s)
    case OnReconciled(wait, ok) => Reconciled(s, wait, ok)
    case OnOutside(outside) => s.(outside := outside)
  }

  function Run(s: State, events: seq<Event>): State
    decreases |events|
  {
    if events == [] then s else Run(Step(s, events[0]), events[1..])
  }
}
