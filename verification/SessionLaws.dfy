/** What every run of the save session keeps. */
module SessionLaws {
  import opened Wrappers
  import opened SessionSteps

  // ---- readings of the log

  function Marks(log: seq<Entry>): nat {
    if log == [] then 0 else Marks(log[..|log| - 1]) + if log[|log| - 1].Marked? then 1 else 0
  }

  /** Saves sent and not yet settled. */
  function InFlight(log: seq<Entry>): int {
    if log == [] then 0
    else
      var last := log[|log| - 1];
      InFlight(log[..|log| - 1]) + if last.Sent? then 1 else if last.Failed? || last.Done? then -1 else 0
  }

  /** The ticket that must be retried before anything else is sent. */
  function Held(log: seq<Entry>): Option<nat> {
    if log == [] then None
    else
      var last := log[|log| - 1];
      if last.Failed? then Some(last.ticket) else if last.Done? then None else Held(log[..|log| - 1])
  }

  lemma Appended(log: seq<Entry>, e: Entry)
    ensures Marks(log + [e]) == Marks(log) + if e.Marked? then 1 else 0
    ensures InFlight(log + [e]) == InFlight(log) + if e.Sent? then 1 else if e.Failed? || e.Done? then -1 else 0
    ensures Held(log + [e]) == if e.Failed? then Some(e.ticket) else if e.Done? then None else Held(log)
  {
    assert (log + [e])[..|log|] == log;
  }

  lemma {:induction false} MarksGrow(log: seq<Entry>, i: nat, j: nat)
    requires i <= j <= |log|
    ensures Marks(log[..i]) <= Marks(log[..j])
    ensures forall k :: i <= k < j && log[k].Marked? ==> Marks(log[..i]) < Marks(log[..j])
    decreases j - i
  {
    if i < j {
      MarksGrow(log, i, j - 1);
      assert log[..j][..j - 1] == log[..j - 1];
    }
  }

  // ---- the invariant

  /** The document of `captured` was captured at position `j`, when its dirty count was current. */
  predicate CapturedAt(log: seq<Entry>, captured: Captured, j: int) {
    0 <= j < |log| && log[j] == CapturedDocument(captured.ticket, captured.dirty) && captured.dirty == Marks(log[..j])
  }

  ghost predicate Known(log: seq<Entry>, captured: Captured) {
    exists j :: CapturedAt(log, captured, j)
  }

  /** A save captured at `j` with `dirty` marks behind it was acknowledged at `a` and adopted at `k`. */
  predicate Landed(log: seq<Entry>, dirty: nat, j: int, a: int, k: int) {
    && 0 <= j < a < k < |log| && log[j].CapturedDocument? && log[j].dirty == dirty && dirty == Marks(log[..j])
    && log[a] == Acknowledged(log[j].ticket) && log[k] == Done(log[j].ticket)
  }

  /** The save being adopted was captured and then acknowledged. */
  predicate AcknowledgedAt(log: seq<Entry>, captured: Captured, j: int, a: int) {
    CapturedAt(log, captured, j) && j < a < |log| && log[a] == Acknowledged(captured.ticket)
  }

  ghost predicate Recorded(s: State) {
    && s.dirty == Marks(s.log)
    && (s.committedDirty > 0 ==> exists j, a, k :: Landed(s.log, s.committedDirty, j, a, k))
    && (s.failed.Some? ==> Known(s.log, s.failed.value))
    && (s.running.Some? ==> Known(s.log, s.running.value.captured))
    && (s.running.Some? && s.running.value.Adopting? ==>
          exists j, a :: AcknowledgedAt(s.log, s.running.value.captured, j, a))
    && (forall i :: 0 <= i < |s.queue| && s.queue[i].RetryJob? ==> Known(s.log, s.queue[i].captured))
  }

  /** At every moment at most one save was under way, and nothing but a held ticket was sent. */
  predicate Paced(log: seq<Entry>) {
    forall n :: 0 <= n <= |log| ==> PacedAt(log, n)
  }

  predicate PacedAt(log: seq<Entry>, n: int)
    requires 0 <= n <= |log|
  {
    && 0 <= InFlight(log[..n]) <= 1
    && (n < |log| && log[n].Sent? && Held(log[..n]).Some? ==> Held(log[..n]).value == log[n].ticket)
  }

  ghost predicate OneAtATime(s: State) {
    && Paced(s.log)
    && InFlight(s.log) == (if s.running.Some? then 1 else 0)
    && Held(s.log) == (if s.failed.Some? then Some(s.failed.value.ticket) else None)
    && (s.running.Some? && s.failed.Some? ==> s.running.value.captured == s.failed.value)
  }

  predicate Counted(s: State) {
    && s.scheduled == |s.queue| + (if s.running.Some? then 1 else 0)
    && (forall load :: load in s.loads ==> load.request <= s.serial)
  }

  // ---- kept by every step

  lemma KnownStill(log: seq<Entry>, e: Entry, captured: Captured)
    requires Known(log, captured)
    ensures Known(log + [e], captured)
  {
    var j :| CapturedAt(log, captured, j);
    assert (log + [e])[..j] == log[..j];
    assert CapturedAt(log + [e], captured, j);
  }

  lemma LandedStill(log: seq<Entry>, e: Entry, dirty: nat)
    requires exists j, a, k :: Landed(log, dirty, j, a, k)
    ensures exists j, a, k :: Landed(log + [e], dirty, j, a, k)
  {
    var j, a, k :| Landed(log, dirty, j, a, k);
    assert (log + [e])[..j] == log[..j];
    assert Landed(log + [e], dirty, j, a, k);
  }

  lemma AcknowledgedStill(log: seq<Entry>, e: Entry, captured: Captured)
    requires exists j, a :: AcknowledgedAt(log, captured, j, a)
    ensures exists j, a :: AcknowledgedAt(log + [e], captured, j, a)
  {
    var j, a :| AcknowledgedAt(log, captured, j, a);
    assert (log + [e])[..j] == log[..j];
    assert AcknowledgedAt(log + [e], captured, j, a);
  }

  /** One more entry in the log, which is no mark. */
  lemma RecordedStill(s: State, e: Entry)
    requires Recorded(s) && !e.Marked?
    ensures Recorded(s.(log := s.log + [e]))
  {
    Appended(s.log, e);
    if s.committedDirty > 0 {
      LandedStill(s.log, e, s.committedDirty);
    }
    if s.failed.Some? {
      KnownStill(s.log, e, s.failed.value);
    }
    if s.running.Some? {
      KnownStill(s.log, e, s.running.value.captured);
      if s.running.value.Adopting? {
        AcknowledgedStill(s.log, e, s.running.value.captured);
      }
    }
    forall i | 0 <= i < |s.queue| && s.queue[i].RetryJob? ensures Known(s.log + [e], s.queue[i].captured) {
      KnownStill(s.log, e, s.queue[i].captured);
    }
  }

  lemma MarkRecorded(s: State)
    requires Recorded(s)
    ensures Recorded(MarkDirty(s))
  {
    var e := Marked;
    Appended(s.log, e);
    if s.committedDirty > 0 {
      LandedStill(s.log, e, s.committedDirty);
    }
    if s.failed.Some? {
      KnownStill(s.log, e, s.failed.value);
    }
    if s.running.Some? {
      KnownStill(s.log, e, s.running.value.captured);
      if s.running.value.Adopting? {
        AcknowledgedStill(s.log, e, s.running.value.captured);
      }
    }
    forall i | 0 <= i < |s.queue| && s.queue[i].RetryJob? ensures Known(s.log + [e], s.queue[i].captured) {
      KnownStill(s.log, e, s.queue[i].captured);
    }
  }

  lemma TurnRecorded(s: State, prepares: bool)
    requires Recorded(s)
    ensures Recorded(Turn(s, prepares))
  {
    var s' := Turn(s, prepares);
    if s'.log != s.log {
      var s1 := s.(queue := s.queue[1..]);
      if s.queue[0].SaveJob? {
        var captured := s'.running.value.captured;
        var noted := CapturedDocument(captured.ticket, captured.dirty);
        RecordedStill(s1, noted);
        assert (s.log + [noted])[..|s.log|] == s.log;
        assert CapturedAt(s.log + [noted], captured, |s.log|);
        var s2 := s1.(log := s.log + [noted], running := Some(Sending(captured)));
        RecordedStill(s2, Sent(captured.ticket));
        assert s.log + [noted, Sent(captured.ticket)] == (s.log + [noted]) + [Sent(captured.ticket)];
      } else {
        RecordedStill(s1.(running := s'.running), Sent(s.queue[0].captured.ticket));
      }
    }
  }

  lemma FailRecorded(s: State, captured: Captured)
    requires Recorded(s) && Known(s.log, captured)
    ensures Recorded(Fail(s, captured))
  {
    RecordedStill(s, Failed(captured.ticket));
    KnownStill(s.log, Failed(captured.ticket), captured);
  }

  lemma AnswerRecorded(s: State, ok: bool, reconcileRequired: bool)
    requires Recorded(s)
    ensures Recorded(Answer(s, ok, reconcileRequired))
  {
    if s.running.Some? && s.running.value.Sending? {
      var captured := s.running.value.captured;
      if !ok {
        FailRecorded(s, captured);
      } else {
        var acknowledged := s.(log := s.log + [Acknowledged(captured.ticket)], blocked := true);
        RecordedStill(s, Acknowledged(captured.ticket));
        FailRecorded(acknowledged, captured);
        var j :| CapturedAt(s.log, captured, j);
        assert acknowledged.log[..j] == s.log[..j];
        assert AcknowledgedAt(acknowledged.log, captured, j, |s.log|);
      }
    }
  }

  lemma DoneRecorded(s: State, captured: Captured)
    requires Recorded(s) && s.running == Some(Adopting(captured))
    ensures Recorded(s.(committedDirty := captured.dirty, log := s.log + [Done(captured.ticket)]))
    ensures Recorded(s.(log := s.log + [Done(captured.ticket)]))
  {
    RecordedStill(s, Done(captured.ticket));
    var j, a :| AcknowledgedAt(s.log, captured, j, a);
    var landed := s.log + [Done(captured.ticket)];
    assert landed[..j] == s.log[..j];
    assert Landed(landed, captured.dirty, j, a, |s.log|);
  }

  lemma AdoptRecorded(s: State, ok: bool)
    requires Recorded(s)
    ensures Recorded(Adopt(s, ok))
  {
    if s.running.Some? && s.running.value.Adopting? {
      var captured := s.running.value.captured;
      if !ok {
        FailRecorded(s, captured);
      } else if s.outside.store != captured.store {
        FailRecorded(s.(blocked := true), captured);
      } else {
        DoneRecorded(s, captured);
      }
    }
  }

  lemma LoadedRecorded(s: State, load: Load, ok: bool, install: Option<Outside>)
    requires Recorded(s)
    ensures Recorded(Loaded(s, load, ok, install))
  {
    RecordedStill(s, LoadDone(load.request));
    var s', noted := Loaded(s, load, ok, install), s.(log := s.log + [LoadDone(load.request)]);
    RecordedBeside(if s'.log == s.log then s else noted, s');
  }

  /** What the record speaks of is the counts, the jobs and the log. */
  lemma RecordedBeside(s: State, s': State)
    requires Recorded(s) && s'.log == s.log && s'.dirty == s.dirty && s'.committedDirty == s.committedDirty
    requires s'.failed == s.failed && s'.running == s.running && s'.queue == s.queue
    ensures Recorded(s')
  {
  }

  lemma RetryRecorded(s: State)
    requires Recorded(s)
    ensures Recorded(Retry(s))
  {
  }

  lemma SaveRecorded(s: State)
    requires Recorded(s)
    ensures Recorded(Save(s))
  {
    MarkRecorded(s);
  }

  /** The steps that touch neither the counts, nor the jobs, nor the log. */
  lemma AsideRecorded(s: State, e: Event)
    requires Recorded(s) && (e.OnLoad? || e.OnAssert? || e.OnReconcile? || e.OnReconciled? || e.OnOutside?)
    ensures Recorded(Step(s, e))
  {
    var s' := Step(s, e);
    assert s' == s.(serial := s'.serial, loads := s'.loads, blocked := s'.blocked,
                    reconciling := s'.reconciling, outside := s'.outside);
  }

  lemma StepRecorded(s: State, e: Event)
    requires Recorded(s)
    ensures Recorded(Step(s, e))
  {
    match e
    case OnMark => MarkRecorded(s);
    case OnSave => SaveRecorded(s);
    case OnRetry => RetryRecorded(s);
    case OnTurn(prepares) => TurnRecorded(s, prepares);
    case OnAnswer(ok, reconcileRequired) => AnswerRecorded(s, ok, reconcileRequired);
    case OnAdopt(ok) => AdoptRecorded(s, ok);
    case OnLoaded(load, ok, install) => LoadedRecorded(s, load, ok, install);
    case _ => AsideRecorded(s, e);
  }

  lemma PacedNext(log: seq<Entry>, e: Entry)
    requires Paced(log)
    requires e.Sent? ==> InFlight(log) == 0 && (Held(log).Some? ==> Held(log).value == e.ticket)
    requires e.Failed? || e.Done? ==> InFlight(log) == 1
    ensures Paced(log + [e])
    ensures InFlight(log + [e]) == InFlight(log) + if e.Sent? then 1 else if e.Failed? || e.Done? then -1 else 0
    ensures Held(log + [e]) == if e.Failed? then Some(e.ticket) else if e.Done? then None else Held(log)
  {
    Appended(log, e);
    assert log[..|log|] == log && (log + [e])[..|log| + 1] == log + [e];
    assert PacedAt(log, |log|);
    forall n | 0 <= n <= |log| + 1 ensures PacedAt(log + [e], n) {
      if n <= |log| {
        assert (log + [e])[..n] == log[..n] && PacedAt(log, n);
      }
    }
  }

  lemma TurnOneAtATime(s: State, prepares: bool)
    requires OneAtATime(s)
    ensures OneAtATime(Turn(s, prepares))
  {
    var s' := Turn(s, prepares);
    if s'.log != s.log {
      var captured := s'.running.value.captured;
      if s.queue[0].SaveJob? {
        var noted := CapturedDocument(captured.ticket, captured.dirty);
        PacedNext(s.log, noted);
        PacedNext(s.log + [noted], Sent(captured.ticket));
        assert s'.log == (s.log + [noted]) + [Sent(captured.ticket)];
      } else {
        PacedNext(s.log, Sent(captured.ticket));
      }
    }
  }

  lemma FailOneAtATime(s: State, captured: Captured)
    requires OneAtATime(s) && s.running.Some?
    ensures OneAtATime(Fail(s, captured))
  {
    PacedNext(s.log, Failed(captured.ticket));
  }

  lemma AnswerOneAtATime(s: State, ok: bool, reconcileRequired: bool)
    requires OneAtATime(s)
    ensures OneAtATime(Answer(s, ok, reconcileRequired))
  {
    if s.running.Some? && s.running.value.Sending? {
      var captured := s.running.value.captured;
      FailOneAtATime(s, captured);
      PacedNext(s.log, Acknowledged(captured.ticket));
      FailOneAtATime(s.(log := s.log + [Acknowledged(captured.ticket)], blocked := true), captured);
    }
  }

  lemma AdoptOneAtATime(s: State, ok: bool)
    requires OneAtATime(s)
    ensures OneAtATime(Adopt(s, ok))
  {
    if s.running.Some? && s.running.value.Adopting? {
      var captured := s.running.value.captured;
      FailOneAtATime(s, captured);
      FailOneAtATime(s.(blocked := true), captured);
      PacedNext(s.log, Done(captured.ticket));
    }
  }

  lemma NotedOneAtATime(s: State, e: Entry)
    requires OneAtATime(s) && (e.Marked? || e.LoadDone?)
    ensures OneAtATime(s.(log := s.log + [e]))
  {
    PacedNext(s.log, e);
  }

  /** The steps that neither start nor settle a save. */
  lemma AsideOneAtATime(s: State, e: Event)
    requires OneAtATime(s) && !e.OnTurn? && !e.OnAnswer? && !e.OnAdopt?
    ensures OneAtATime(Step(s, e))
  {
    var s' := Step(s, e);
    if s'.log != s.log {
      NotedOneAtATime(s, s'.log[|s.log|]);
      assert s'.log == s.log + [s'.log[|s.log|]];
    }
    assert s'.running == s.running && s'.failed == s.failed;
  }

  lemma StepOneAtATime(s: State, e: Event)
    requires OneAtATime(s)
    ensures OneAtATime(Step(s, e))
  {
    match e
    case OnTurn(prepares) => TurnOneAtATime(s, prepares);
    case OnAnswer(ok, reconcileRequired) => AnswerOneAtATime(s, ok, reconcileRequired);
    case OnAdopt(ok) => AdoptOneAtATime(s, ok);
    case _ => AsideOneAtATime(s, e);
  }

  lemma StepCounted(s: State, e: Event)
    requires Counted(s)
    ensures Counted(Step(s, e))
  {
  }

  ghost predicate Reachable(s: State) {
    Recorded(s) && OneAtATime(s) && Counted(s)
  }

  lemma {:induction false} RunKeeps(s: State, events: seq<Event>)
    requires Reachable(s)
    ensures Reachable(Run(s, events))
    decreases |events|
  {
    if events != [] {
      StepRecorded(s, events[0]);
      StepOneAtATime(s, events[0]);
      StepCounted(s, events[0]);
      RunKeeps(Step(s, events[0]), events[1..]);
    }
  }

  // ---- the theorems

  /** Whenever the session is clean, every mark made so far is covered by a save whose
      document was captured after the mark, and which was then acknowledged and adopted. */
  lemma CleanIsCovered(events: seq<Event>, i: nat)
    requires IsClean(Run(START, events))
    requires i < |Run(START, events).log| && Run(START, events).log[i].Marked?
    ensures var log := Run(START, events).log;
            exists j, a, k ::
              && i < j < a < k < |log| && log[j].CapturedDocument?
              && log[a] == Acknowledged(log[j].ticket) && log[k] == Done(log[j].ticket)
  {
    RunKeeps(START, events);
    var s := Run(START, events);
    var log := s.log;
    assert log[..|log|] == log;
    MarksGrow(log, i, |log|);
    var j, a, k :| Landed(log, s.committedDirty, j, a, k);
    if j <= i {
      MarksGrow(log, j, |log|);
      assert false;
    }
    assert i < j < a < k < |log| && log[a] == Acknowledged(log[j].ticket) && log[k] == Done(log[j].ticket);
  }

  /** At every moment of every run at most one save is under way. */
  lemma AtMostOneSave(events: seq<Event>, n: nat)
    requires n <= |Run(START, events).log|
    ensures 0 <= InFlight(Run(START, events).log[..n]) <= 1
  {
    RunKeeps(START, events);
    assert PacedAt(Run(START, events).log, n);
  }

  /** Between a failure and the success of the same ticket nothing else is sent. */
  lemma OnlyTheFailedTicket(events: seq<Event>, i: nat, n: nat)
    requires var log := Run(START, events).log;
             && i < n < |log| && log[i].Failed? && log[n].Sent?
             && forall k :: i < k < n ==> !log[k].Failed? && !log[k].Done?
    ensures Run(START, events).log[n].ticket == Run(START, events).log[i].ticket
  {
    RunKeeps(START, events);
    var log := Run(START, events).log;
    HeldSince(log, i, n);
    assert PacedAt(log, n);
  }

  lemma {:induction false} HeldSince(log: seq<Entry>, i: nat, n: nat)
    requires i < n <= |log| && log[i].Failed?
    requires forall k :: i < k < n ==> !log[k].Failed? && !log[k].Done?
    ensures Held(log[..n]) == Some(log[i].ticket)
    decreases n
  {
    assert log[..n][..n - 1] == log[..n - 1];
    if i < n - 1 {
      HeldSince(log, i, n - 1);
    }
  }
}
